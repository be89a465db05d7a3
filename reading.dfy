/** The byte source a chunk reads its payload from, reduced to what the
    chunk decoders rely on: a run of bytes still available and whether the
    next read reports an error. */
module Reading {
  import opened Base

  /** The number of bytes one read into a buffer of length `want` delivers. */
  function Delivered(pending: seq<byte>, want: nat): (n: nat)
    ensures n <= want && n <= |pending|
    ensures n == want || n == |pending|
  {
    Min(want, |pending|)
  }

  /** The buffer `p` after a read has overwritten its first bytes with the
      delivered ones; the tail keeps what `p` held before. */
  function Filled(pending: seq<byte>, p: seq<byte>): (q: seq<byte>)
    ensures |q| == |p|
    ensures forall i :: 0 <= i < Delivered(pending, |p|) ==> q[i] == pending[i]
    ensures forall i :: Delivered(pending, |p|) <= i < |p| ==> q[i] == p[i]
  {
    var n := Delivered(pending, |p|);
    pending[..n] + p[n..]
  }

  /** A reader over a fixed byte run; `Broken` makes every read fail. */
  class Reader {
    var Pending: seq<byte>
    var Broken: bool

    constructor (data: seq<byte>, broken: bool)
      ensures Pending == data && Broken == broken
    {
      Pending := data;
      Broken := broken;
    }

    /** One call of `Read(p)`: either an error and nothing delivered, or
        min(len(p), available) bytes copied into the front of `p`. */
    method Read(p: seq<byte>) returns (q: seq<byte>, n: nat, err: bool)
      modifies this
      ensures err == old(Broken) && Broken == old(Broken)
      ensures err ==> n == 0 && q == p && Pending == old(Pending)
      ensures !err ==> (n == Delivered(old(Pending), |p|) &&
                        q == Filled(old(Pending), p) &&
                        Pending == old(Pending)[n..])
    {
      if Broken {
        q, n, err := p, 0, true;
      } else {
        n := Delivered(Pending, |p|);
        q := Filled(Pending, p);
        Pending := Pending[n..];
        err := false;
      }
    }
  }

  /** The strict read shared by the data and seek-phrase-info chunks: the
      payload is the first `size` available bytes, a reader error fails with
      ReadFailed and too few bytes fail with ShortRead. */
  function StrictRead(pending: seq<byte>, broken: bool, size: nat): (r: Result<seq<byte>>)
    ensures r.Ok? <==> !broken && size <= |pending|
    ensures r.Ok? ==> |r.value| == size && r.value == pending[..size]
    ensures r == Err(ReadFailed) <==> broken
    ensures r == Err(ShortRead) <==> !broken && |pending| < size
  {
    if broken then Err(ReadFailed)
    else if Delivered(pending, size) < size then Err(ShortRead)
    else Ok(Filled(pending, Zeros(size)))
  }

  /** The buffer a strict read leaves behind, successful or not. */
  lemma StrictReadBuffer(pending: seq<byte>, size: nat)
    requires size <= |pending|
    ensures Filled(pending, Zeros(size)) == pending[..size]
  {
  }
}
