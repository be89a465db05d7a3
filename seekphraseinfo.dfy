/** The seek-and-phrase-info chunk: a strict full-size payload read and no
    interpretation of the bytes. */
module SeekPhraseInfoChunks {
  import opened Base
  import opened Reading

  class SeekPhraseInfoChunk {
    var Header: ChunkHeader
    var Stream: seq<byte>

    constructor (header: ChunkHeader)
      ensures Header == header && Stream == []
    {
      Header := header;
      Stream := [];
    }

    /** A leaf chunk: the visitor sees this chunk once and nothing else. */
    method Traverse() returns (visited: seq<object>)
      ensures visited == [this]
    {
      visited := [this];
    }

    /** Allocates `Header.Size` bytes and reads into them. The buffer stays
        assigned on failure; on success it is exactly the first `Size`
        available bytes. */
    method Read(rdr: Reader) returns (err: Outcome)
      modifies this, rdr
      ensures Header == old(Header) && rdr.Broken == old(rdr.Broken)
      ensures |Stream| == Header.Size
      ensures old(rdr.Broken) ==> Stream == Zeros(Header.Size) && rdr.Pending == old(rdr.Pending)
      ensures !old(rdr.Broken) ==> (Stream == Filled(old(rdr.Pending), Zeros(Header.Size)) &&
                                    rdr.Pending == old(rdr.Pending)[Delivered(old(rdr.Pending), Header.Size)..])
      ensures match StrictRead(old(rdr.Pending), old(rdr.Broken), Header.Size)
              case Ok(payload) => err == Pass && Stream == payload
              case Err(e) => err == Fail(e)
    {
      var n, failed;
      Stream, n, failed := rdr.Read(Zeros(Header.Size));
      if failed {
        return Fail(ReadFailed);
      }
      if n < |Stream| {
        return Fail(ShortRead);
      }
      StrictReadBuffer(old(rdr.Pending), Header.Size);
      return Pass;
    }
  }
}
