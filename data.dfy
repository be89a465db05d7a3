/** The data chunk: a strict full-size payload read, plus, when the code type
    is 0, the option records of the payload projected onto named fields. */
module DataChunks {
  import opened Base
  import opened Reading
  import opened OptionRecords

  /** The code type is the low byte of the signature (`Signature & 255`):
      the signature taken modulo 256, so always in 0..255. */
  function CodeTypeOf(signature: bv32): (r: nat)
    ensures r < 256
    ensures r == (signature % 256) as int
  {
    var low := signature & 255;
    assert low == signature % 256 && low <= 255;
    low as int
  }

  class DataChunk {
    var Header: ChunkHeader
    var Stream: seq<byte>
    var HasOptions: bool
    var Options: Options

    /** A chunk fresh from its header, every other field at Go's zero value. */
    constructor (header: ChunkHeader)
      ensures Header == header && Stream == [] && !HasOptions && Options == NoOptions
    {
      Header := header;
      Stream := [];
      HasOptions := false;
      Options := NoOptions;
    }

    function CodeType(): (r: nat)
      reads this
      ensures r < 256 && r == (Header.Signature % 256) as int
    {
      CodeTypeOf(Header.Signature)
    }

    /** A leaf chunk: the visitor sees this chunk once and nothing else. */
    method Traverse() returns (visited: seq<object>)
      ensures visited == [this]
    {
      visited := [this];
    }

    /** Reads `Header.Size` bytes into `Stream`. A reader error or a short
        read fails and leaves the options alone; after a full read with code
        type 0 the payload's records fill `Options` and set `HasOptions`,
        and for any other code type the options stay as they were. */
    method Read(rdr: Reader, decode: seq<byte> -> string) returns (err: Outcome)
      modifies this, rdr
      ensures Header == old(Header) && rdr.Broken == old(rdr.Broken)
      ensures old(rdr.Broken) ==> Stream == Zeros(Header.Size) && rdr.Pending == old(rdr.Pending)
      ensures !old(rdr.Broken) ==> (Stream == Filled(old(rdr.Pending), Zeros(Header.Size)) &&
                                    rdr.Pending == old(rdr.Pending)[Delivered(old(rdr.Pending), Header.Size)..])
      ensures StrictRead(old(rdr.Pending), old(rdr.Broken), Header.Size).Err? ==>
                err == Fail(StrictRead(old(rdr.Pending), old(rdr.Broken), Header.Size).error) &&
                HasOptions == old(HasOptions) && Options == old(Options)
      ensures StrictRead(old(rdr.Pending), old(rdr.Broken), Header.Size).Ok? ==>
                Stream == StrictRead(old(rdr.Pending), old(rdr.Broken), Header.Size).value
      ensures StrictRead(old(rdr.Pending), old(rdr.Broken), Header.Size).Ok? && CodeType() != 0 ==>
                err == Pass && HasOptions == old(HasOptions) && Options == old(Options)
      ensures StrictRead(old(rdr.Pending), old(rdr.Broken), Header.Size).Ok? && CodeType() == 0 ==>
                match DecodeOptions(Stream, decode)
                case Ok(o) => err == Pass && HasOptions && Options == o
                case Err(e) => err == Fail(e) && HasOptions == old(HasOptions) && Options == old(Options)
    {
      var n, failed;
      Stream, n, failed := rdr.Read(Zeros(Header.Size));
      if failed {
        return Fail(ReadFailed);
      }
      if n < |Stream| {
        return Fail(ShortRead);
      }
      StrictReadBuffer(old(rdr.Pending), Header.Size);
      if CodeType() == 0 {
        var options := ScanOptions(Stream, decode);
        if options.Err? {
          return Fail(options.error);
        }
        HasOptions := true;
        Options := Project(options.value);
      }
      return Pass;
    }
  }

  /** The worked example of a one-record payload `VN`, length 3, `abc`: the
      vendor is the decoded `abc` and every other field is empty. */
  lemma VendorOnly(decode: seq<byte> -> string)
    ensures DecodeOptions([0x56, 0x4E, 0x00, 0x03, 0x61, 0x62, 0x63], decode) ==
            Ok(NoOptions.(Vendor := decode([0x61, 0x62, 0x63])))
  {
    var s: seq<byte> := [0x56, 0x4E, 0x00, 0x03, 0x61, 0x62, 0x63];
    var rec := Record(0x56, 0x4E, [0x61, 0x62, 0x63]);
    assert BigEndian16(s[2], s[3]) == 3;
    assert s[4..7] == rec.value && s[7..] == [];
    assert Parse(s[7..]) == Ok([]);
    assert Parse(s) == Then([rec], Parse(s[7..]));
    assert [rec] + [] == [rec];
    assert [rec][..0] == [];
    assert Key(rec) == "VN";
  }
}
