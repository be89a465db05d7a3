/** The tag-length-value records of a data chunk whose code type is 0, the
    tag-to-text map they build, and its projection onto the fifteen named
    option fields. */
module OptionRecords {
  import opened Base

  /** One record: a two-byte tag and its raw (still encoded) value. */
  datatype Record = Record(tag0: byte, tag1: byte, value: seq<byte>)

  /** The map key a record is stored under: Go's `string(b[i:i+2])`, one
      character per byte. */
  function Key(r: Record): (k: string)
    ensures |k| == 2 && k[0] as int == r.tag0 as int && k[1] as int == r.tag1 as int
  {
    [r.tag0 as char, r.tag1 as char]
  }

  /** The length field `(hi<<8)|lo` of a record. */
  function BigEndian16(hi: byte, lo: byte): (n: nat)
    ensures n < 0x1_0000
    ensures n / 256 == hi as int && n % 256 == lo as int
  {
    hi as int * 256 + lo as int
  }

  predicate WellFormedRecord(r: Record)
  {
    |r.value| < 0x1_0000
  }

  predicate WellFormed(rs: seq<Record>)
  {
    forall k :: 0 <= k < |rs| ==> WellFormedRecord(rs[k])
  }

  /** The bytes of one record: tag, big-endian length, raw value. */
  function EncodeRecord(r: Record): (s: seq<byte>)
    requires WellFormedRecord(r)
    ensures |s| == 4 + |r.value|
  {
    [r.tag0, r.tag1, (|r.value| / 256) as byte, (|r.value| % 256) as byte] + r.value
  }

  function Encode(rs: seq<Record>): (s: seq<byte>)
    requires WellFormed(rs)
  {
    if rs == [] then [] else EncodeRecord(rs[0]) + Encode(rs[1..])
  }

  /** Prefixes `done` to a successful parse of the rest; errors pass through. */
  function Then(done: seq<Record>, r: Result<seq<Record>>): Result<seq<Record>>
  {
    match r
    case Ok(rest) => Ok(done + rest)
    case Err(e) => Err(e)
  }

  /** The record stream of a payload. A record that does not fit in what is
      left (fewer than four header bytes, or a length past the end) is where
      the source's slicing panics; here it is IndexOutOfRange. */
  function Parse(s: seq<byte>): (r: Result<seq<Record>>)
    ensures r.Err? ==> r.error == IndexOutOfRange
    decreases |s|
  {
    if |s| == 0 then Ok([])
    else if |s| < 4 then Err(IndexOutOfRange)
    else
      var n := BigEndian16(s[2], s[3]);
      if |s| - 4 < n then Err(IndexOutOfRange)
      else Then([Record(s[0], s[1], s[4..4 + n])], Parse(s[4 + n..]))
  }

  /** Every parsed record fits a 16-bit length, and the records tile the
      payload exactly: re-encoding them gives back the input. */
  lemma {:induction false} ParseThenEncode(s: seq<byte>)
    requires Parse(s).Ok?
    ensures WellFormed(Parse(s).value)
    ensures Encode(Parse(s).value) == s
    decreases |s|
  {
    if |s| != 0 {
      var n := BigEndian16(s[2], s[3]);
      var r := Record(s[0], s[1], s[4..4 + n]);
      var tail := s[4 + n..];
      ParseThenEncode(tail);
      var rest := Parse(tail).value;
      assert Parse(s).value == [r] + rest;
      EncodeCons(r, rest);
      assert EncodeRecord(r) + tail == s by {
        HeaderBytes(s);
      }
    }
  }

  /** The first record of a payload re-encodes to its own bytes. */
  lemma HeaderBytes(s: seq<byte>)
    requires |s| >= 4 && BigEndian16(s[2], s[3]) <= |s| - 4
    ensures var n := BigEndian16(s[2], s[3]);
            EncodeRecord(Record(s[0], s[1], s[4..4 + n])) + s[4 + n..] == s
  {
    var n := BigEndian16(s[2], s[3]);
    assert (n / 256) as byte == s[2] && (n % 256) as byte == s[3];
    assert s == s[..4] + s[4..4 + n] + s[4 + n..];
  }

  /** Encoding distributes over a leading record. */
  lemma EncodeCons(r: Record, rest: seq<Record>)
    requires WellFormedRecord(r) && WellFormed(rest)
    ensures WellFormed([r] + rest)
    ensures Encode([r] + rest) == EncodeRecord(r) + Encode(rest)
  {
    var rs := [r] + rest;
    assert rs[0] == r && rs[1..] == rest;
  }

  /** A well-formed record list encodes to a payload that parses back to it. */
  lemma {:induction false} EncodeThenParse(rs: seq<Record>)
    requires WellFormed(rs)
    ensures Parse(Encode(rs)) == Ok(rs)
    decreases |rs|
  {
    if rs != [] {
      var r := rs[0];
      var tail := Encode(rs[1..]);
      assert WellFormed(rs[1..]) by {
        forall k | 0 <= k < |rs[1..]| ensures WellFormedRecord(rs[1..][k]) {
          assert rs[1..][k] == rs[k + 1];
        }
      }
      EncodeThenParse(rs[1..]);
      assert Encode(rs) == EncodeRecord(r) + tail;
      RecordThenRest(r, tail);
      assert [r] + rs[1..] == rs;
    }
  }

  /** A record's bytes followed by more bytes parse as that record followed by
      the records of the rest. */
  lemma RecordThenRest(r: Record, tail: seq<byte>)
    requires WellFormedRecord(r)
    ensures Parse(EncodeRecord(r) + tail) == Then([r], Parse(tail))
  {
    var s := EncodeRecord(r) + tail;
    var n := |r.value|;
    assert s[2] == (n / 256) as byte && s[3] == (n % 256) as byte;
    LengthBytes(n);
    assert s[4..4 + n] == r.value;
    assert s[4 + n..] == tail;
  }

  /** The two length bytes read back as the length. */
  lemma LengthBytes(n: nat)
    requires n < 0x1_0000
    ensures BigEndian16((n / 256) as byte, (n % 256) as byte) == n
  {
  }

  /** The map the loop builds: each record, in order, overwrites its key with
      its decoded value. */
  function OptionMap(rs: seq<Record>, decode: seq<byte> -> string): (m: map<string, string>)
    ensures forall j :: 0 <= j < |rs| ==> Key(rs[j]) in m
    ensures forall k :: k in m ==> exists j :: 0 <= j < |rs| && Key(rs[j]) == k
    ensures rs != [] ==> m[Key(rs[|rs| - 1])] == decode(rs[|rs| - 1].value)
    decreases |rs|
  {
    if rs == [] then map[]
    else
      var front, last := rs[..|rs| - 1], rs[|rs| - 1];
      assert forall j :: 0 <= j < |front| ==> front[j] == rs[j];
      OptionMap(front, decode)[Key(last) := decode(last.value)]
  }

  /** The keys of the map are exactly the tags that occur, and a tag that
      repeats keeps the decoded value of its last occurrence. */
  lemma OptionMapLastWins(rs: seq<Record>, decode: seq<byte> -> string, t: string)
    ensures t in OptionMap(rs, decode) <==> exists j :: 0 <= j < |rs| && Key(rs[j]) == t
    ensures forall j :: 0 <= j < |rs| && Key(rs[j]) == t &&
                        (forall k :: j < k < |rs| ==> Key(rs[k]) != t) ==>
                        t in OptionMap(rs, decode) && OptionMap(rs, decode)[t] == decode(rs[j].value)
  {
    forall j | 0 <= j < |rs| && Key(rs[j]) == t && (forall k :: j < k < |rs| ==> Key(rs[k]) != t)
      ensures t in OptionMap(rs, decode) && OptionMap(rs, decode)[t] == decode(rs[j].value)
    {
      OptionMapLast(rs, decode, j);
    }
  }

  /** The record at `j`, when no later record carries its tag, decides the
      value stored under that tag. */
  lemma {:induction false} OptionMapLast(rs: seq<Record>, decode: seq<byte> -> string, j: nat)
    requires j < |rs| && forall k :: j < k < |rs| ==> Key(rs[k]) != Key(rs[j])
    ensures Key(rs[j]) in OptionMap(rs, decode) && OptionMap(rs, decode)[Key(rs[j])] == decode(rs[j].value)
    decreases |rs|
  {
    var front := rs[..|rs| - 1];
    if j < |rs| - 1 {
      assert front[j] == rs[j];
      forall k | j < k < |front| ensures Key(front[k]) != Key(front[j]) {
        assert front[k] == rs[k];
      }
      OptionMapLast(front, decode, j);
    }
  }

  /** The named option fields of a data chunk. `Carrior` keeps the source's
      spelling. */
  datatype Options = Options(
    Vendor: string,
    Carrior: string,
    Category: string,
    Title: string,
    Artist: string,
    LyricWriter: string,
    Composer: string,
    Arranger: string,
    Copyright: string,
    ManagementGroup: string,
    ManagementInfo: string,
    CreatedDate: string,
    UpdatedDate: string,
    EditStatus: string,
    VCard: string)

  /** Go's zero value of the options record. */
  const NoOptions := Options("", "", "", "", "", "", "", "", "", "", "", "", "", "", "")

  /** The tag of each field, in field order. */
  const OptionTags: seq<string> :=
    ["VN", "CN", "CA", "ST", "AN", "WW", "SW", "AW", "CR", "GR", "MI", "CD", "UD", "ES", "VC"]

  /** The field in position `k` of the declaration. */
  function Field(o: Options, k: nat): string
    requires k < 15
  {
    match k
    case 0 => o.Vendor
    case 1 => o.Carrior
    case 2 => o.Category
    case 3 => o.Title
    case 4 => o.Artist
    case 5 => o.LyricWriter
    case 6 => o.Composer
    case 7 => o.Arranger
    case 8 => o.Copyright
    case 9 => o.ManagementGroup
    case 10 => o.ManagementInfo
    case 11 => o.CreatedDate
    case 12 => o.UpdatedDate
    case 13 => o.EditStatus
    case _ => o.VCard
  }

  /** Go's `m[key]` on a `map[string]string`: the zero value "" when absent. */
  function Lookup(m: map<string, string>, key: string): (v: string)
    ensures key in m ==> v == m[key]
    ensures key !in m ==> v == ""
  {
    if key in m then m[key] else ""
  }

  /** The fifteen field assignments after the loop. */
  function Project(m: map<string, string>): (o: Options)
    ensures forall k :: 0 <= k < 15 ==> Field(o, k) == Lookup(m, OptionTags[k])
  {
    Options(
      Lookup(m, "VN"), Lookup(m, "CN"), Lookup(m, "CA"), Lookup(m, "ST"), Lookup(m, "AN"),
      Lookup(m, "WW"), Lookup(m, "SW"), Lookup(m, "AW"), Lookup(m, "CR"), Lookup(m, "GR"),
      Lookup(m, "MI"), Lookup(m, "CD"), Lookup(m, "UD"), Lookup(m, "ES"), Lookup(m, "VC"))
  }

  /** A tag outside the fifteen known ones changes no field. */
  lemma UnknownTagIgnored(m: map<string, string>, t: string, v: string)
    requires t !in OptionTags
    ensures Project(m[t := v]) == Project(m)
  {
    forall k | 0 <= k < 15 ensures Lookup(m[t := v], OptionTags[k]) == Lookup(m, OptionTags[k]) {
      assert OptionTags[k] in OptionTags;
    }
  }

  /** What a data chunk's options become for a given payload. */
  function DecodeOptions(s: seq<byte>, decode: seq<byte> -> string): (r: Result<Options>)
    ensures r.Ok? <==> Parse(s).Ok?
    ensures r.Err? ==> r.error == IndexOutOfRange
    ensures r.Ok? ==> forall k :: 0 <= k < 15 ==>
                        Field(r.value, k) == Lookup(OptionMap(Parse(s).value, decode), OptionTags[k])
  {
    match Parse(s)
    case Ok(rs) => Ok(Project(OptionMap(rs, decode)))
    case Err(e) => Err(e)
  }

  /** Each field of a successfully decoded payload: the decoded value of the
      last record carrying its tag, or "" when no record does. */
  lemma DecodedField(s: seq<byte>, decode: seq<byte> -> string, k: nat)
    requires k < 15 && Parse(s).Ok?
    ensures DecodeOptions(s, decode).Ok?
    ensures var rs := Parse(s).value;
            var o := DecodeOptions(s, decode).value;
            && ((forall j :: 0 <= j < |rs| ==> Key(rs[j]) != OptionTags[k]) ==> Field(o, k) == "")
            && (forall j :: 0 <= j < |rs| && Key(rs[j]) == OptionTags[k] &&
                            (forall i :: j < i < |rs| ==> Key(rs[i]) != OptionTags[k]) ==>
                            Field(o, k) == decode(rs[j].value))
  {
    OptionMapLastWins(Parse(s).value, decode, OptionTags[k]);
  }

  /** One step of the cursor: the records from `i` on are the record at `i`
      followed by the records after it. */
  lemma ParseStep(s: seq<byte>, i: nat)
    requires i + 4 <= |s| && BigEndian16(s[i + 2], s[i + 3]) <= |s| - i - 4
    ensures var n := BigEndian16(s[i + 2], s[i + 3]);
            Parse(s[i..]) == Then([Record(s[i], s[i + 1], s[i + 4..i + 4 + n])], Parse(s[i + 4 + n..]))
  {
    var here := s[i..];
    var n := BigEndian16(s[i + 2], s[i + 3]);
    assert here[2] == s[i + 2] && here[3] == s[i + 3];
    assert here[4..4 + n] == s[i + 4..i + 4 + n];
    assert here[4 + n..] == s[i + 4 + n..];
  }

  /** A record cut off by the end of the payload makes the records from `i`
      on fail. */
  lemma ParseTruncated(s: seq<byte>, i: nat)
    requires i < |s|
    requires i + 4 > |s| || BigEndian16(s[i + 2], s[i + 3]) > |s| - i - 4
    ensures Parse(s[i..]).Err?
  {
    var here := s[i..];
    if i + 4 <= |s| {
      assert here[2] == s[i + 2] && here[3] == s[i + 3];
    }
  }

  lemma ThenAssoc(done: seq<Record>, rec: Record, r: Result<seq<Record>>)
    ensures Then(done, Then([rec], r)) == Then(done + [rec], r)
  {
    if r.Ok? {
      assert done + ([rec] + r.value) == (done + [rec]) + r.value;
    }
  }

  /** The records of the payload from offset `i` on, read in place with a
      cursor the way the loop walks them. */
  function ParseFrom(s: seq<byte>, i: nat): Result<seq<Record>>
    requires i <= |s|
    decreases |s| - i
  {
    if i == |s| then Ok([])
    else if |s| - i < 4 then Err(IndexOutOfRange)
    else
      var n := BigEndian16(s[i + 2], s[i + 3]);
      if |s| - i - 4 < n then Err(IndexOutOfRange)
      else Then([Record(s[i], s[i + 1], s[i + 4..i + 4 + n])], ParseFrom(s, i + 4 + n))
  }

  /** Reading in place from `i` is parsing the suffix from `i`. */
  lemma {:induction false} ParseFromSuffix(s: seq<byte>, i: nat)
    requires i <= |s|
    ensures ParseFrom(s, i) == Parse(s[i..])
    decreases |s| - i
  {
    if i == |s| {
      assert s[i..] == [];
    } else if |s| - i < 4 || BigEndian16(s[i + 2], s[i + 3]) > |s| - i - 4 {
      assert ParseFrom(s, i) == Err(IndexOutOfRange);
      ParseTruncated(s, i);
      assert Parse(s[i..]) == Err(IndexOutOfRange);
    } else {
      var n := BigEndian16(s[i + 2], s[i + 3]);
      var rec := Record(s[i], s[i + 1], s[i + 4..i + 4 + n]);
      assert ParseFrom(s, i) == Then([rec], ParseFrom(s, i + 4 + n));
      ParseFromSuffix(s, i + 4 + n);
      ParseStep(s, i);
    }
  }

  /** Appending a record overwrites its key with its decoded value. */
  lemma OptionMapSnoc(done: seq<Record>, rec: Record, decode: seq<byte> -> string)
    ensures OptionMap(done + [rec], decode) == OptionMap(done, decode)[Key(rec) := decode(rec.value)]
  {
    assert (done + [rec])[..|done|] == done;
  }

  /** The cursor reads one whole record at `at` and moves past it. */
  lemma ParseFromStep(s: seq<byte>, at: nat)
    requires at + 4 <= |s| && BigEndian16(s[at + 2], s[at + 3]) <= |s| - at - 4
    ensures var next := at + 4 + BigEndian16(s[at + 2], s[at + 3]);
            ParseFrom(s, at) == Then([Record(s[at], s[at + 1], s[at + 4..next])], ParseFrom(s, next))
  {
  }

  /** One pass of the loop body: the record at `at`, ending at `next`, moves
      from the unread rest onto the records done, and the map gains its key. */
  lemma ScanStep(s: seq<byte>, at: nat, next: nat, done: seq<Record>, decode: seq<byte> -> string,
                 whole: Result<seq<Record>>, options: map<string, string>, tag: string, raw: seq<byte>)
    requires at + 4 <= |s| && next == at + 4 + BigEndian16(s[at + 2], s[at + 3]) <= |s|
    requires tag == [s[at] as char, s[at + 1] as char] && raw == s[at + 4..next]
    requires whole == Then(done, ParseFrom(s, at)) && options == OptionMap(done, decode)
    ensures whole == Then(done + [Record(s[at], s[at + 1], raw)], ParseFrom(s, next))
    ensures options[tag := decode(raw)] == OptionMap(done + [Record(s[at], s[at + 1], raw)], decode)
  {
    var rec := Record(s[at], s[at + 1], raw);
    ParseFromStep(s, at);
    ScanAdvance(done, rec, decode, whole, ParseFrom(s, at), ParseFrom(s, next), options);
    assert Key(rec) == tag;
  }

  /** Moving the next record `rec` of the unread rest onto the records done. */
  lemma ScanAdvance(done: seq<Record>, rec: Record, decode: seq<byte> -> string,
                    whole: Result<seq<Record>>, here: Result<seq<Record>>, rest: Result<seq<Record>>,
                    options: map<string, string>)
    requires here == Then([rec], rest) && whole == Then(done, here) && options == OptionMap(done, decode)
    ensures whole == Then(done + [rec], rest)
    ensures options[Key(rec) := decode(rec.value)] == OptionMap(done + [rec], decode)
  {
    ThenAssoc(done, rec, rest);
    OptionMapSnoc(done, rec, decode);
  }

  /** The loop body's failure exit: a record cut off at `at` makes the whole
      payload fail. */
  lemma ScanTruncated(s: seq<byte>, at: nat, done: seq<Record>)
    requires at < |s|
    requires at + 4 > |s| || BigEndian16(s[at + 2], s[at + 3]) > |s| - at - 4
    requires ParseFrom(s, 0) == Then(done, ParseFrom(s, at))
    ensures Parse(s).Err?
  {
    ParseFromSuffix(s, 0);
    assert s[0..] == s;
  }

  /** Before the loop nothing is done and the whole payload is unread. */
  lemma ScanStart(s: seq<byte>)
    ensures ParseFrom(s, 0) == Then([], ParseFrom(s, 0))
  {
    if ParseFrom(s, 0).Ok? { assert [] + ParseFrom(s, 0).value == ParseFrom(s, 0).value; }
  }

  /** After the loop the unread rest is empty, so the records done are all. */
  lemma ScanDone(s: seq<byte>, done: seq<Record>)
    requires ParseFrom(s, 0) == Then(done, ParseFrom(s, |s|))
    ensures Parse(s) == Ok(done)
  {
    ParseFromSuffix(s, 0);
    assert s[0..] == s;
    assert done + [] == done;
  }

  /** The loop of the source's `Read`: walk the payload with a cursor, two tag
      bytes, two length bytes, then the value, storing each decoded value in
      the map. Running past the end is IndexOutOfRange. */
  method ScanOptions(stream: seq<byte>, decode: seq<byte> -> string) returns (r: Result<map<string, string>>)
    ensures r.Ok? <==> Parse(stream).Ok?
    ensures r.Ok? ==> r.value == OptionMap(Parse(stream).value, decode)
    ensures r.Err? ==> r.error == IndexOutOfRange
  {
    var options: map<string, string> := map[];
    var i := 0;
    ghost var done: seq<Record> := [];
    ScanStart(stream);
    while i < |stream|
      invariant 0 <= i <= |stream|
      invariant ParseFrom(stream, 0) == Then(done, ParseFrom(stream, i))
      invariant options == OptionMap(done, decode)
      decreases |stream| - i
    {
      ghost var at := i;
      if |stream| - i < 2 {
        ScanTruncated(stream, at, done);
        return Err(IndexOutOfRange);
      }
      var tag := [stream[i] as char, stream[i + 1] as char];
      i := i + 2;
      if |stream| - i < 2 {
        ScanTruncated(stream, at, done);
        return Err(IndexOutOfRange);
      }
      var size := BigEndian16(stream[i], stream[i + 1]);
      i := i + 2;
      if |stream| - i < size {
        ScanTruncated(stream, at, done);
        return Err(IndexOutOfRange);
      }
      var raw := stream[i..i + size];
      var value := decode(raw);
      ScanStep(stream, at, i + size, done, decode, ParseFrom(stream, 0), options, tag, raw);
      i := i + size;
      options := options[tag := value];
      done := done + [Record(stream[at], stream[at + 1], raw)];
    }
    ScanDone(stream, done);
    r := Ok(options);
  }
}
