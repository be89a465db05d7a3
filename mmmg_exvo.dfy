/** The MMMG EXVO chunk: a payload read that does not check how many bytes
    arrived, then, when the payload starts with FF F0, an exclusive message
    decoded from the remaining bytes under a byte budget that must end at 0. */
module ExvoChunks {
  import opened Base
  import opened Reading

  /** What `subtypes.NewExclusive(shortForm)` creates; the message tree it
      decodes is not part of this model. */
  datatype ExclusiveMessage = NewExclusive(ShortForm: bool)

  /** The sub-decoder's answer: the budget after it ran, and whether it
      succeeded. */
  datatype ExclusiveReply = ExclusiveReply(rest: int, ok: bool)

  /** The exclusive sub-decoder, given the bytes after the marker and the
      initial budget. */
  type ExclusiveDecoder = (seq<byte>, int) -> ExclusiveReply

  /** How the test `Stream[0] == 0xFF && Stream[1] == 0xF0` ends. Go's `&&`
      short-circuits, so a one-byte payload other than FF is simply not a
      marker, while an empty payload or a lone FF indexes past the end. */
  datatype MarkerTest = Absent | Present | OutOfRange

  function TestMarker(s: seq<byte>): (m: MarkerTest)
    ensures m == Present <==> |s| >= 2 && s[0] == 0xFF && s[1] == 0xF0
    ensures m == OutOfRange <==> |s| == 0 || (|s| == 1 && s[0] == 0xFF)
  {
    if |s| == 0 then OutOfRange
    else if s[0] != 0xFF then Absent
    else if |s| == 1 then OutOfRange
    else if s[1] != 0xF0 then Absent
    else Present
  }

  /** The verdict after the sub-decoder ran on `s[2..]` with budget
      `len(s) - 2`: its error wins, then a budget other than 0 fails. */
  function ExclusiveOutcome(s: seq<byte>, sub: ExclusiveDecoder): (r: Outcome)
    requires |s| >= 2
    ensures r == Pass <==> sub(s[2..], |s| - 2).ok && sub(s[2..], |s| - 2).rest == 0
    ensures !sub(s[2..], |s| - 2).ok ==> r == Fail(ExclusiveFailed)
    ensures sub(s[2..], |s| - 2).ok && sub(s[2..], |s| - 2).rest != 0 ==> r == Fail(ExclusiveSizeMismatch)
  {
    var reply := sub(s[2..], |s| - 2);
    if !reply.ok then Fail(ExclusiveFailed)
    else if reply.rest != 0 then Fail(ExclusiveSizeMismatch)
    else Pass
  }

  /** The chunk state and verdict after one `Read`. */
  datatype ExvoState = ExvoState(Stream: seq<byte>, Exclusive: Option<ExclusiveMessage>, err: Outcome)

  /** `Read` on a chunk of declared size `size` whose `Exclusive` was `before`.
      The byte count is ignored, so after a short read the payload is the
      delivered bytes followed by zeros. */
  function ExvoRead(pending: seq<byte>, broken: bool, size: nat, before: Option<ExclusiveMessage>,
                    sub: ExclusiveDecoder): (st: ExvoState)
    ensures |st.Stream| == size
    ensures broken ==> st == ExvoState(Zeros(size), before, Fail(ReadFailed))
    ensures !broken ==> st.Stream == Filled(pending, Zeros(size))
    ensures !broken && TestMarker(st.Stream) == Absent ==> st.Exclusive == before && st.err == Pass
    ensures !broken && TestMarker(st.Stream) == OutOfRange ==>
              st.Exclusive == before && st.err == Fail(IndexOutOfRange)
    ensures !broken && TestMarker(st.Stream) == Present ==>
              st.Exclusive == Some(NewExclusive(false)) && st.err == ExclusiveOutcome(st.Stream, sub)
  {
    if broken then ExvoState(Zeros(size), before, Fail(ReadFailed))
    else
      var s := Filled(pending, Zeros(size));
      match TestMarker(s)
      case OutOfRange => ExvoState(s, before, Fail(IndexOutOfRange))
      case Absent => ExvoState(s, before, Pass)
      case Present => ExvoState(s, Some(NewExclusive(false)), ExclusiveOutcome(s, sub))
  }

  /** A successful read of a marked payload means the sub-decoder succeeded
      and spent its whole budget of `size - 2` bytes, and conversely. */
  lemma MarkedSuccessSpendsBudget(pending: seq<byte>, size: nat, before: Option<ExclusiveMessage>,
                                  sub: ExclusiveDecoder)
    requires TestMarker(Filled(pending, Zeros(size))) == Present
    ensures var st := ExvoRead(pending, false, size, before, sub);
            var reply := sub(st.Stream[2..], size - 2);
            st.Exclusive.Some? && (st.err == Pass <==> reply.ok && reply.rest == 0)
  {
  }

  /** Gap in the source: a reader that delivers nothing at all still yields a
      successful read, the payload being all zeros. */
  lemma ShortReadGoesUnnoticed(size: nat, before: Option<ExclusiveMessage>, sub: ExclusiveDecoder)
    requires size >= 2
    ensures ExvoRead([], false, size, before, sub) == ExvoState(Zeros(size), before, Pass)
  {
    assert Filled([], Zeros(size)) == Zeros(size);
  }

  /** Gap in the source: the marker test indexes `Stream[0]` and `Stream[1]`
      without checking the size; an empty payload, or a lone FF, is out of
      range, while a lone byte other than FF is accepted. */
  lemma SmallPayloads(sub: ExclusiveDecoder, before: Option<ExclusiveMessage>)
    ensures ExvoRead([], false, 0, before, sub).err == Fail(IndexOutOfRange)
    ensures ExvoRead([0xFF], false, 1, before, sub).err == Fail(IndexOutOfRange)
    ensures ExvoRead([0x00], false, 1, before, sub).err == Pass
  {
    assert Filled([0xFF], Zeros(1)) == [0xFF];
    assert Filled([0x00], Zeros(1)) == [0x00];
  }

  class MMMGEXVOChunk {
    var Header: ChunkHeader
    var Stream: seq<byte>
    var Exclusive: Option<ExclusiveMessage>

    constructor (header: ChunkHeader)
      ensures Header == header && Stream == [] && Exclusive == None
    {
      Header := header;
      Stream := [];
      Exclusive := None;
    }

    /** A leaf chunk: the visitor sees this chunk once and nothing else. */
    method Traverse() returns (visited: seq<object>)
      ensures visited == [this]
    {
      visited := [this];
    }

    /** Reads the payload, and decodes an exclusive message after an FF F0
        marker. `Exclusive` is set before the sub-decoder runs, so it stays
        set when the sub-decoder or the budget check fails. */
    method Read(rdr: Reader, sub: ExclusiveDecoder) returns (err: Outcome)
      modifies this, rdr
      ensures Header == old(Header) && rdr.Broken == old(rdr.Broken)
      ensures rdr.Pending == if old(rdr.Broken) then old(rdr.Pending)
                             else old(rdr.Pending)[Delivered(old(rdr.Pending), Header.Size)..]
      ensures ExvoState(Stream, Exclusive, err) ==
              ExvoRead(old(rdr.Pending), old(rdr.Broken), Header.Size, old(Exclusive), sub)
    {
      var n, failed;
      Stream, n, failed := rdr.Read(Zeros(Header.Size));
      if failed {
        return Fail(ReadFailed);
      }
      if |Stream| == 0 {
        return Fail(IndexOutOfRange);
      }
      if Stream[0] != 0xFF {
        return Pass;
      }
      if |Stream| == 1 {
        return Fail(IndexOutOfRange);
      }
      if Stream[1] != 0xF0 {
        return Pass;
      }
      Exclusive := Some(NewExclusive(false));
      var rest := |Stream| - 2;
      var reply := sub(Stream[2..], rest);
      rest := reply.rest;
      if !reply.ok {
        return Fail(ExclusiveFailed);
      }
      if rest != 0 {
        return Fail(ExclusiveSizeMismatch);
      }
      return Pass;
    }
  }
}
