/** The sequence type of a score track: two named values, and a display
    form that accepts every value, unknown ones included. */
module ScoreTrackSequenceTypes {
  import opened Formatting

  /** Go's `int`, on a 64-bit platform. */
  type ScoreTrackSequenceType = x: int | -0x8000_0000_0000_0000 <= x < 0x8000_0000_0000_0000

  const StreamSequence: ScoreTrackSequenceType := 0
  const Subsequence: ScoreTrackSequenceType := 1

  /** The label the switch picks; every other value is "undefined". */
  function Label(t: ScoreTrackSequenceType): (s: string)
    ensures s == "StreamSequence" <==> t == StreamSequence
    ensures s == "Subsequence" <==> t == Subsequence
    ensures s == "undefined" <==> t != StreamSequence && t != Subsequence
  {
    if t == StreamSequence then "StreamSequence"
    else if t == Subsequence then "Subsequence"
    else "undefined"
  }

  /** `<label>(0x<hex>)`. */
  function String(t: ScoreTrackSequenceType): (s: string)
    ensures |s| >= |Label(t)| + 6
    ensures s[..|Label(t)| + 3] == Label(t) + "(0x" && s[|s| - 1] == ')'
  {
    FormatX02Meaning(t);
    Label(t) + "(0x" + FormatX02(t) + ")"
  }

  /** The part between `0x` and `)`. */
  function HexPart(t: ScoreTrackSequenceType): string
  {
    var s := String(t);
    s[|Label(t)| + 3..|s| - 1]
  }

  /** For a non-negative value the hexadecimal part has at least two
      upper-case digits, reads back as the value, and has no zero before the
      last two. */
  lemma HexPartReadsBack(t: ScoreTrackSequenceType)
    requires t >= 0
    ensures var d := HexPart(t);
            |d| >= 2 && AllUpperHex(d) && HexValue(d) == t && (|d| > 2 ==> d[0] != '0')
  {
    FormatX02Meaning(t);
    assert HexPart(t) == FormatX02(t);
  }

  /** The display forms of the two named values and of the unknown 0x7F. */
  lemma KnownStrings()
    ensures String(StreamSequence) == "StreamSequence(0x00)"
    ensures String(Subsequence) == "Subsequence(0x01)"
    ensures String(0x7F) == "undefined(0x7F)"
  {
    assert HexDigits(0) == "0" && HexDigits(1) == "1";
    assert HexDigits(0x7F) == HexDigits(7) + "F";
  }

  /** `json.Marshal(t.String())`; its error is always nil. */
  function MarshalJSON(t: ScoreTrackSequenceType): (j: string)
    ensures j == "\"" + String(t) + "\""
  {
    StringIsJsonPlain(t);
    JsonQuotePlain(String(t));
    JsonQuote(String(t))
  }

  /** Labels, `(0x`, hexadecimal digits, a minus sign and `)` are all copied
      into a JSON string literal unchanged. */
  lemma StringIsJsonPlain(t: ScoreTrackSequenceType)
    ensures AllJsonPlain(String(t))
  {
    var f := FormatX02(t);
    var name := Label(t);
    assert AllJsonPlain(f) by {
      FormatPlain(t);
    }
    assert AllJsonPlain(name) && AllJsonPlain("(0x") && AllJsonPlain(")");
    AllJsonPlainConcat(name, "(0x");
    AllJsonPlainConcat(name + "(0x", f);
    AllJsonPlainConcat(name + "(0x" + f, ")");
    assert String(t) == name + "(0x" + f + ")";
  }

  lemma FormatPlain(t: ScoreTrackSequenceType)
    ensures AllJsonPlain(FormatX02(t))
  {
    FormatX02Meaning(t);
    var f := FormatX02(t);
    if t >= 0 {
      HexPlain(f);
    } else {
      HexPlain(f[1..]);
      assert f == "-" + f[1..];
      AllJsonPlainConcat("-", f[1..]);
    }
  }
}
