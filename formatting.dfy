/** The two pieces of Go's standard formatting the enum display relies on:
    the `%02X` verb on an `int`, and `json.Marshal` of a string. */
module Formatting {

  const UpperDigits := "0123456789ABCDEF"
  const LowerDigits := "0123456789abcdef"

  predicate IsUpperHex(c: char)
  {
    '0' <= c <= '9' || 'A' <= c <= 'F'
  }

  predicate AllUpperHex(s: string)
  {
    forall i :: 0 <= i < |s| ==> IsUpperHex(s[i])
  }

  /** The value of one upper-case hexadecimal digit. */
  function DigitValue(c: char): (v: nat)
    requires IsUpperHex(c)
    ensures v < 16 && UpperDigits[v] == c
  {
    if c <= '9' then c as int - '0' as int else c as int - 'A' as int + 10
  }

  /** Reads an upper-case hexadecimal numeral; the empty one is 0. */
  function HexValue(s: string): nat
    requires AllUpperHex(s)
  {
    if s == [] then 0 else HexValue(s[..|s| - 1]) * 16 + DigitValue(s[|s| - 1])
  }

  /** The shortest upper-case hexadecimal numeral of `n`. */
  function HexDigits(n: nat): (s: string)
    ensures |s| >= 1 && AllUpperHex(s)
    decreases n
  {
    if n < 16 then [UpperDigits[n]] else HexDigits(n / 16) + [UpperDigits[n % 16]]
  }

  /** The numeral reads back as `n`, and it has no leading zero. */
  lemma {:induction false} HexDigitsRoundTrip(n: nat)
    ensures HexValue(HexDigits(n)) == n
    ensures n > 0 ==> HexDigits(n)[0] != '0'
  {
    HexDigitsValue(n);
    HexDigitsLead(n);
  }

  lemma {:induction false} HexDigitsValue(n: nat)
    ensures HexValue(HexDigits(n)) == n
    decreases n
  {
    var s := HexDigits(n);
    if n < 16 {
      assert s[..0] == [];
      DigitOf(n);
    } else {
      var q, d := n / 16, n % 16;
      var front := HexDigits(q);
      HexDigitsValue(q);
      assert s == front + [UpperDigits[d]];
      assert s[..|s| - 1] == front;
      DigitOf(d);
    }
  }

  lemma {:induction false} HexDigitsLead(n: nat)
    ensures n > 0 ==> HexDigits(n)[0] != '0'
    decreases n
  {
    if n >= 16 {
      HexDigitsLead(n / 16);
    }
  }

  /** Each digit reads back as its own position in the digit table. */
  lemma DigitOf(d: nat)
    requires d < 16
    ensures DigitValue(UpperDigits[d]) == d
  {
  }

  function Repeat(c: char, k: nat): (s: string)
    ensures |s| == k && forall i :: 0 <= i < k ==> s[i] == c
  {
    seq(k, _ => c)
  }

  /** Leading zeros do not change the value of a numeral. */
  lemma {:induction false} LeadingZeros(k: nat, s: string)
    requires AllUpperHex(s)
    ensures AllUpperHex(Repeat('0', k) + s)
    ensures HexValue(Repeat('0', k) + s) == HexValue(s)
    decreases |s|
  {
    var z := Repeat('0', k);
    if s == [] {
      assert z + s == z;
      ZeroRun(k);
    } else {
      var front := s[..|s| - 1];
      LeadingZeros(k, front);
      assert (z + s)[..|z + s| - 1] == z + front;
    }
  }

  /** A run of zeros reads as 0. */
  lemma {:induction false} ZeroRun(k: nat)
    ensures AllUpperHex(Repeat('0', k))
    ensures HexValue(Repeat('0', k)) == 0
    decreases k
  {
    if k > 0 {
      ZeroRun(k - 1);
      assert Repeat('0', k)[..k - 1] == Repeat('0', k - 1);
    }
  }

  /** `%02X` on an `int`: upper-case hexadecimal, zero-padded to two digits;
      for a negative value the sign takes one of the two columns, so the
      digits themselves are not padded. */
  function FormatX02(v: int): (s: string)
    ensures |s| >= 2
    ensures v < 0 <==> s[0] == '-'
  {
    if v >= 0 then
      var d := HexDigits(v);
      if |d| >= 2 then d else Repeat('0', 2 - |d|) + d
    else "-" + HexDigits(-v)
  }

  /** What `%02X` produces: for a non-negative value at least two upper-case
      hexadecimal digits that read back as the value, with no zero before the
      last two; for a negative one a minus sign and the digits of its
      magnitude. */
  lemma FormatX02Meaning(v: int)
    ensures var s := FormatX02(v);
            v >= 0 ==> |s| >= 2 && AllUpperHex(s) && HexValue(s) == v && (|s| > 2 ==> s[0] != '0')
    ensures var s := FormatX02(v);
            v < 0 ==> |s| >= 2 && s[0] == '-' && AllUpperHex(s[1..]) && HexValue(s[1..]) == -v
  {
    if v >= 0 {
      HexDigitsRoundTrip(v);
      var d := HexDigits(v);
      if |d| < 2 {
        LeadingZeros(2 - |d|, d);
      }
    } else {
      HexDigitsRoundTrip(-v);
      assert FormatX02(v)[1..] == HexDigits(-v);
    }
  }

  /** A character `json.Marshal` copies into a string literal unchanged. */
  predicate JsonPlain(c: char)
  {
    c >= ' ' && c != '"' && c != '\\' && c != '<' && c != '>' && c != '&' &&
    c != '\U{2028}' && c != '\U{2029}'
  }

  predicate AllJsonPlain(s: string)
  {
    forall i :: 0 <= i < |s| ==> JsonPlain(s[i])
  }

  lemma AllJsonPlainConcat(a: string, b: string)
    requires AllJsonPlain(a) && AllJsonPlain(b)
    ensures AllJsonPlain(a + b)
  {
    forall i | 0 <= i < |a + b| ensures JsonPlain((a + b)[i]) {
      if i >= |a| { assert (a + b)[i] == b[i - |a|]; }
    }
  }

  /** Hexadecimal digits need no escaping. */
  lemma HexPlain(s: string)
    requires AllUpperHex(s)
    ensures AllJsonPlain(s)
  {
  }

  /** `\u` and four lower-case hexadecimal digits. */
  function UnicodeEscape(n: nat): (s: string)
    requires n < 0x1_0000
    ensures |s| == 6
  {
    ['\\', 'u', LowerDigits[n / 0x1000], LowerDigits[n / 0x100 % 16],
     LowerDigits[n / 0x10 % 16], LowerDigits[n % 16]]
  }

  /** How `json.Marshal` writes one character inside a string literal. */
  function JsonEscape(c: char): (e: string)
    ensures JsonPlain(c) <==> e == [c]
    ensures !JsonPlain(c) ==> |e| >= 2 && e[0] == '\\'
  {
    if JsonPlain(c) then [c]
    else if c == '"' then "\\\""
    else if c == '\\' then "\\\\"
    else if c == '\n' then "\\n"
    else if c == '\r' then "\\r"
    else if c == '\t' then "\\t"
    else UnicodeEscape(c as int)
  }

  function JsonEscapeAll(s: string): (e: string)
    ensures |e| >= |s|
  {
    if s == [] then [] else JsonEscape(s[0]) + JsonEscapeAll(s[1..])
  }

  /** `json.Marshal` of a string: the escaped characters between quotes. */
  function JsonQuote(s: string): (j: string)
    ensures |j| >= |s| + 2 && j[0] == '"' && j[|j| - 1] == '"'
  {
    "\"" + JsonEscapeAll(s) + "\""
  }

  /** A string with nothing to escape is marshalled as itself in quotes. */
  lemma {:induction false} JsonQuotePlain(s: string)
    requires AllJsonPlain(s)
    ensures JsonQuote(s) == "\"" + s + "\""
  {
    JsonEscapeAllPlain(s);
  }

  lemma {:induction false} JsonEscapeAllPlain(s: string)
    requires AllJsonPlain(s)
    ensures JsonEscapeAll(s) == s
    decreases |s|
  {
    if s != [] {
      assert JsonPlain(s[0]);
      JsonEscapeAllPlain(s[1..]);
      assert [s[0]] + s[1..] == s;
    }
  }
}
