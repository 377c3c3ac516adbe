// std::istream::read over an in-memory byte sequence, as the loaders use
// it: a read that runs past the end delivers what is left, sets the stream
// bad and leaves the rest of the destination as it was; once bad, reads
// deliver nothing. Destinations start zeroed, as the loaders' buffers do.

module Stream {
  import opened ByteCodec

  datatype Reader = Reader(data: Bytes, pos: nat, good: bool)

  predicate Valid(r: Reader) { r.pos <= |r.data| }

  /** Opens a stream over `data`, positioned at `pos`. */
  function From(data: Bytes, pos: nat): (r: Reader)
    requires pos <= |data|
    ensures Valid(r) && r.good
  {
    Reader(data, pos, true)
  }

  /** read(buf, n) into a zeroed buffer: the n bytes and the stream afterwards. */
  function Read(r: Reader, n: nat): (res: (Bytes, Reader))
    requires Valid(r)
    ensures |res.0| == n && Valid(res.1) && res.1.data == r.data
    ensures res.1.good ==> r.good && r.pos + n <= |r.data|
    ensures r.good && r.pos + n <= |r.data| ==>
      res == (r.data[r.pos .. r.pos + n], Reader(r.data, r.pos + n, true))
  {
    if !r.good then (Zeros(n), r)
    else if r.pos + n <= |r.data| then (r.data[r.pos .. r.pos + n], Reader(r.data, r.pos + n, true))
    else (r.data[r.pos..] + Zeros(r.pos + n - |r.data|), Reader(r.data, |r.data|, false))
  }

  /** A good stream whose next bytes are b delivers b and moves past it. */
  lemma ReadNext(r: Reader, b: Bytes)
    requires Valid(r) && r.good && r.pos + |b| <= |r.data| && r.data[r.pos .. r.pos + |b|] == b
    ensures Read(r, |b|) == (b, Reader(r.data, r.pos + |b|, true))
  {
  }

  /** Once a stream has gone bad it stays bad. */
  lemma BadStaysBad(r: Reader, n: nat)
    requires Valid(r) && !r.good
    ensures Read(r, n) == (Zeros(n), r)
  {
  }

  /** The unread rest of the stream. */
  function Rest(r: Reader): Bytes
    requires Valid(r)
  {
    r.data[r.pos..]
  }

  /** The stream is good and its next bytes are b. */
  predicate At(r: Reader, b: Bytes)
  {
    Valid(r) && r.good && r.pos + |b| <= |r.data| && r.data[r.pos .. r.pos + |b|] == b
  }

  function Skip(r: Reader, n: nat): Reader { Reader(r.data, r.pos + n, r.good) }

  lemma AtSplit(r: Reader, a: Bytes, b: Bytes)
    requires At(r, a + b)
    ensures At(r, a) && At(Skip(r, |a|), b)
    ensures Read(r, |a|) == (a, Skip(r, |a|))
  {
    assert r.data[r.pos .. r.pos + |a|] == (a + b)[..|a|];
    assert r.data[r.pos + |a| .. r.pos + |a| + |b|] == (a + b)[|a|..];
  }

  /** A stream opened just past a prefix p of data is at the rest of data. */
  lemma AtAfter(data: Bytes, p: Bytes, rest: Bytes)
    requires data == p + rest
    ensures At(From(data, |p|), rest)
  {
    assert data[|p| .. |p| + |rest|] == rest;
  }
}
