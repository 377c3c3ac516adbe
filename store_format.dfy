// The state of a VectorStore as a value, and the operations on it as
// functions: insertion, the candidates a search ranks, the "MVS1" record
// stream, its "MVE1" encrypted wrapping, and loading either back.

module VectorStoreFormat {
  import opened ByteCodec
  import opened Float32
  import opened OrderedMap
  import opened Stream
  import opened Ranking
  import Q = Quantizer
  import Cipher

  /** Quantizer::QuantizationParams as the store keeps it: a float scale and an int32 zero point. */
  datatype QParams = QParams(scale: F32, zeroPoint: Int32)

  /** The fields of a VectorStore: use_quantization_, vector_dim_ and the three maps. */
  datatype Store = Store(
    quantized: bool,
    dim: nat,
    floats: seq<Entry<seq<F32>>>,
    codes: seq<Entry<seq<Int8>>>,
    params: seq<Entry<QParams>>)

  function Empty(quantized: bool): Store { Store(quantized, 0, [], [], []) }

  /**
   * What every operation keeps: ordered maps, the two quantized maps over
   * the same ids, and only the active mode's maps in use.
   */
  predicate Valid(s: Store)
  {
    && Sorted(s.floats) && Sorted(s.codes) && Sorted(s.params)
    && Keys(s.codes) == Keys(s.params)
    && (s.quantized ==> s.floats == [])
    && (!s.quantized ==> s.codes == [] && s.params == [])
  }

  /** Every stored vector has the store's dimension. */
  predicate Uniform(s: Store)
  {
    && (forall i | 0 <= i < |s.floats| :: |s.floats[i].value| == s.dim)
    && (forall i | 0 <= i < |s.codes| :: |s.codes[i].value| == s.dim)
  }

  /** size(): the number of vectors in the active mode's map. */
  function Size(s: Store): nat
  {
    if s.quantized then |s.codes| else |s.floats|
  }

  /** The ids in the active map, in iteration (ascending) order. */
  function Ids(s: Store): seq<Bytes>
  {
    if s.quantized then Keys(s.codes) else Keys(s.floats)
  }

  // ---------------------------------------------------------------------
  // add_vector

  /**
   * The codes and parameters add_vector stores for v in quantized mode:
   * calculate_params of v, then quantize of v with them.
   */
  function QuantizedPayload(v: seq<F32>): (res: (seq<Int8>, QParams))
    ensures |res.0| == |v|
    ensures res.1.zeroPoint == Q.ParamsAsWritten(Vals(v)).zeroPoint
  {
    var p := Q.ParamsAsWritten(Vals(v));
    Q.ParamsAsWrittenValid(Vals(v));
    var q := Q.QuantizeAll(Vals(v), p);
    (seq(|q|, i requires 0 <= i < |q| => q[i] as Int8), QParams(FromReal(p.scale), p.zeroPoint as Int32))
  }

  /** add_vector on the state: the new state and the returned flag. */
  function Add(s: Store, id: Bytes, v: seq<F32>): (Store, bool)
  {
    if |v| == 0 || HasKey(s.floats, id) || HasKey(s.codes, id) then (s, false)
    else if s.dim != 0 && |v| != s.dim then (s, false)
    else if s.quantized then
      var (codes, p) := QuantizedPayload(v);
      (s.(dim := |v|, codes := Put(s.codes, id, codes), params := Put(s.params, id, p)), true)
    else
      (s.(dim := |v|, floats := Put(s.floats, id, v)), true)
  }

  // ---------------------------------------------------------------------
  // search

  /** The real values of stored vector i in the active map. */
  function Vector(s: Store, i: nat): seq<real>
    requires |s.codes| == |s.params| && i < Size(s)
  {
    if s.quantized then
      var p := s.params[i].value;
      Q.DequantizeAll(s.codes[i].value, Q.Params(Val(p.scale), p.zeroPoint))
    else Vals(s.floats[i].value)
  }

  /** One (id, score) per stored vector, in map order: what search collects before sorting. */
  function Candidates(s: Store, query: seq<F32>, sim: (seq<real>, seq<real>) -> real): (c: seq<Scored<Bytes>>)
    requires |s.codes| == |s.params|
    ensures |c| == Size(s)
    ensures forall i | 0 <= i < |c| :: c[i] == Scored(Ids(s)[i], sim(Vals(query), Vector(s, i)))
  {
    seq(Size(s), i requires 0 <= i < Size(s) => Scored(Ids(s)[i], sim(Vals(query), Vector(s, i))))
  }

  /** search's result: empty on a dimension mismatch or an empty store, otherwise the top `limit` candidates. */
  predicate SearchResult(s: Store, query: seq<F32>, limit: nat, sim: (seq<real>, seq<real>) -> real, r: seq<Scored<Bytes>>)
    requires |s.codes| == |s.params|
  {
    if |query| != s.dim || (s.floats == [] && s.codes == []) then r == []
    else IsTopK(r, Candidates(s, query, sim), limit)
  }

  // ---------------------------------------------------------------------
  // The "MVS1" record stream

  const MVS1: Bytes := [0x4D, 0x56, 0x53, 0x31]
  const MVE1: Bytes := [0x4D, 0x56, 0x45, 0x31]
  const FLAG_QUANTIZED: byte := 1

  /** int8 values written as raw bytes. */
  function Int8Bytes(v: seq<Int8>): (b: Bytes)
    ensures |b| == |v|
  {
    seq(|v|, i requires 0 <= i < |v| => I8(v[i]))
  }

  function Int8sOf(b: Bytes): (v: seq<Int8>)
    ensures |v| == |b|
  {
    seq(|b|, i requires 0 <= i < |b| => I8Of(b[i]))
  }

  lemma Int8RoundTrip(v: seq<Int8>)
    ensures Int8sOf(Int8Bytes(v)) == v
  {
    forall i | 0 <= i < |v| ensures Int8sOf(Int8Bytes(v))[i] == v[i] {
      I8RoundTrip(v[i]);
    }
  }

  /** The id's length as uint32, then that many of its bytes. */
  function IdField(id: Bytes): (b: Bytes)
  {
    var n := |id| % U32_LIMIT;
    U32(n) + id[..n]
  }

  /** One float record: the id field, then the floats. */
  function FloatRecord(x: Entry<seq<F32>>): Bytes
  {
    IdField(x.key) + Pack(x.value)
  }

  function FloatRecords(e: seq<Entry<seq<F32>>>): Bytes
  {
    if e == [] then [] else FloatRecord(e[0]) + FloatRecords(e[1..])
  }

  function QuantRecord(c: Entry<seq<Int8>>, p: QParams): Bytes
  {
    IdField(c.key) + p.scale + I32(p.zeroPoint) + Int8Bytes(c.value)
  }

  /** The quantized records; the params of code entry i are params entry i (same ids, same order). */
  function QuantRecords(c: seq<Entry<seq<Int8>>>, p: seq<Entry<QParams>>): Bytes
    requires |c| == |p|
  {
    if c == [] then [] else QuantRecord(c[0], p[0].value) + QuantRecords(c[1..], p[1..])
  }

  /** The flag byte: bit 0 set for a quantized store. */
  function Flag(s: Store): byte { if s.quantized then FLAG_QUANTIZED else 0 }

  /** The records, in id order: float records, or quantized records with their parameters. */
  function Body(s: Store): Bytes
    requires Valid(s)
  {
    assert |Keys(s.codes)| == |Keys(s.params)|;
    if s.quantized then QuantRecords(s.codes, s.params) else FloatRecords(s.floats)
  }

  /** The stream save() builds before deciding whether to encrypt: magic, flags, dimension, count, records. */
  function Serialize(s: Store): Bytes
    requires Valid(s)
  {
    MVS1 + ([Flag(s)] + (U32(s.dim % U32_LIMIT) + (U64(Size(s) % U64_LIMIT) + Body(s))))
  }

  /** The file save() writes: the plain stream, or "MVE1" and the encrypted stream. */
  function FileImage(s: Store, key: Bytes): Bytes
    requires Valid(s)
  {
    if |key| == 0 then Serialize(s) else MVE1 + Cipher.XorStream(Serialize(s), key)
  }

  // ---------------------------------------------------------------------
  // Loading

  /** An id: its uint32 length, then that many bytes. */
  function ReadId(r: Reader): (res: (Bytes, Reader))
    requires Stream.Valid(r)
    ensures Stream.Valid(res.1) && res.1.data == r.data
  {
    var (lenBytes, r1) := Read(r, 4);
    Read(r1, DecodeLE(lenBytes))
  }

  /** A float record: the id, then dim floats. */
  function ReadFloatRecord(r: Reader, dim: nat): (res: (Entry<seq<F32>>, Reader))
    requires Stream.Valid(r)
    ensures Stream.Valid(res.1) && res.1.data == r.data && |res.0.value| == dim
  {
    var (id, r1) := ReadId(r);
    var (payload, r2) := Read(r1, 4 * dim);
    (Entry(id, Unpack(payload)), r2)
  }

  /** A quantized record: the id, the scale, the zero point, then dim int8 codes. */
  function ReadQuantRecord(r: Reader, dim: nat): (res: (Entry<seq<Int8>>, QParams, Reader))
    requires Stream.Valid(r)
    ensures Stream.Valid(res.2) && res.2.data == r.data && |res.0.value| == dim
  {
    var (id, r1) := ReadId(r);
    var (scale, r2) := Read(r1, 4);
    var (zp, r3) := Read(r2, 4);
    var (codes, r4) := Read(r3, dim);
    (Entry(id, Int8sOf(codes)), QParams(scale, I32Of(zp)), r4)
  }

  /** The `remaining` records loadFromStream reads, one after the other; a record whose id is already present replaces it. */
  function ParseRecords(r: Reader, quantized: bool, dim: nat, remaining: nat, acc: Store): (res: (Store, Reader))
    requires Stream.Valid(r)
    ensures Stream.Valid(res.1) && res.1.data == r.data
    decreases remaining, 2
  {
    if remaining == 0 then (acc, r) else ParseNext(r, quantized, dim, remaining, acc)
  }

  function ParseNext(r: Reader, quantized: bool, dim: nat, remaining: nat, acc: Store): (res: (Store, Reader))
    requires Stream.Valid(r) && remaining > 0
    ensures Stream.Valid(res.1) && res.1.data == r.data
    decreases remaining, 1
  {
    if quantized then ParseQuantNext(r, dim, remaining, acc) else ParseFloatNext(r, dim, remaining, acc)
  }

  /** One float record into the float map, then the records after it. */
  function ParseFloatNext(r: Reader, dim: nat, remaining: nat, acc: Store): (res: (Store, Reader))
    requires Stream.Valid(r) && remaining > 0
    ensures Stream.Valid(res.1) && res.1.data == r.data
    decreases remaining, 0
  {
    var (e, r') := ReadFloatRecord(r, dim);
    ParseRecords(r', false, dim, remaining - 1, acc.(floats := Put(acc.floats, e.key, e.value)))
  }

  /** One quantized record into the code and parameter maps, then the records after it. */
  function ParseQuantNext(r: Reader, dim: nat, remaining: nat, acc: Store): (res: (Store, Reader))
    requires Stream.Valid(r) && remaining > 0
    ensures Stream.Valid(res.1) && res.1.data == r.data
    decreases remaining, 0
  {
    var (c, p, r') := ReadQuantRecord(r, dim);
    ParseRecords(r', true, dim, remaining - 1, acc.(codes := Put(acc.codes, c.key, c.value), params := Put(acc.params, c.key, p)))
  }

  /** loadFromStream: the state it leaves (whatever the old one was) and whether the stream stayed good. */
  function ParseStream(r: Reader): (Store, bool)
    requires Stream.Valid(r)
  {
    var (flags, r1) := Read(r, 1);
    var quantized := flags[0] as int % 2 == 1;   // flags & 1
    var (dimBytes, r2) := Read(r1, 4);
    var (countBytes, r3) := Read(r2, 8);
    var (s, r4) := ParseRecords(r3, quantized, DecodeLE(dimBytes), DecodeLE(countBytes), Store(quantized, DecodeLE(dimBytes), [], [], []));
    (s, r4.good)
  }

  predicate StartsWith(b: Bytes, prefix: Bytes)
  {
    |prefix| <= |b| && b[..|prefix|] == prefix
  }

  /**
   * load(): the state afterwards and the result, for a file that could be
   * opened. The four header bytes decide the format; a rejected file leaves
   * the old state.
   */
  function LoadFile(file: Bytes, key: Bytes, prior: Store): (Store, bool)
  {
    if StartsWith(file, MVE1) then
      if |key| == 0 then (prior, false)
      else
        var plain := Cipher.XorStream(file[4..], key);
        if !StartsWith(plain, MVS1) then (prior, false)
        else ParseStream(From(plain, 4))
    else if StartsWith(file, MVS1) then ParseStream(From(file, 4))
    else (prior, false)
  }

  // ---------------------------------------------------------------------
  // Properties of add_vector

  /** add_vector succeeds exactly when the vector is non-empty, the id is new and the dimension fits; a refusal changes nothing. */
  lemma AddAccepts(s: Store, id: Bytes, v: seq<F32>)
    ensures var (s', ok) := Add(s, id, v);
      && (ok <==> |v| > 0 && !HasKey(s.floats, id) && !HasKey(s.codes, id) && (s.dim == 0 || |v| == s.dim))
      && (!ok ==> s' == s)
      && (ok ==> s'.dim == |v| && s'.quantized == s.quantized)
  {
  }

  /** An accepted vector is stored under its id (quantized with its own parameters in quantized mode), the size grows by one and every other id keeps its entry. */
  lemma AddStores(s: Store, id: Bytes, v: seq<F32>, other: Bytes)
    requires Valid(s) && Add(s, id, v).1 && other != id
    ensures var s' := Add(s, id, v).0;
      && Size(s') == Size(s) + 1
      && (s.quantized ==>
            && Get(s'.codes, id) == Some(QuantizedPayload(v).0)
            && Get(s'.params, id) == Some(QuantizedPayload(v).1)
            && Get(s'.codes, other) == Get(s.codes, other)
            && Get(s'.params, other) == Get(s.params, other))
      && (!s.quantized ==>
            && Get(s'.floats, id) == Some(v)
            && Get(s'.floats, other) == Get(s.floats, other))
  {
    if s.quantized {
      var (codes, p) := QuantizedPayload(v);
      PutSize(s.codes, id, codes);
      PutGet(s.codes, id, codes, id);
      PutGet(s.codes, id, codes, other);
      PutGet(s.params, id, p, id);
      PutGet(s.params, id, p, other);
    } else {
      PutSize(s.floats, id, v);
      PutGet(s.floats, id, v, id);
      PutGet(s.floats, id, v, other);
    }
  }

  /**
   * Each stored code is the value quantized with calculate_params of the
   * whole vector. When the vector's range contains 0 the zero point needs
   * no clamping, and every value then comes back within half a step; a
   * range that excludes 0 can lose its low end (see
   * Quantizer.ClampedZeroPointLosesRange).
   */
  lemma AddQuantizedPayload(v: seq<F32>, i: nat)
    requires i < |v|
    ensures var p := Q.ParamsAsWritten(Vals(v));
      && Q.ValidParams(p)
      && QuantizedPayload(v).0[i] == Q.QuantizeScalar(Val(v[i]), p)
      && (Q.Min(Vals(v)) <= 0.0 <= Q.Max(Vals(v)) ==>
            Q.Abs(Q.DequantizeScalar(QuantizedPayload(v).0[i], p) - Val(v[i])) <= p.scale / 2.0)
  {
    var p := Q.ParamsAsWritten(Vals(v));
    Q.ParamsAsWrittenValid(Vals(v));
    assert Vals(v)[i] in Vals(v);
    if Q.Min(Vals(v)) <= 0.0 <= Q.Max(Vals(v)) {
      Q.AsWrittenAgreesWhenRangeHasZero(Vals(v));
      Q.RoundTripErrorBound(Vals(v), Val(v[i]));
    }
  }

  /** add_vector keeps the store's invariant. */
  lemma AddKeepsValid(s: Store, id: Bytes, v: seq<F32>)
    requires Valid(s)
    ensures Valid(Add(s, id, v).0)
  {
    var (s', ok) := Add(s, id, v);
    if ok {
      if s.quantized {
        var (codes, p) := QuantizedPayload(v);
        PutSorted(s.codes, id, codes);
        PutSorted(s.params, id, p);
        PutSameKeys(s.codes, s.params, id, codes, p);
      } else {
        PutSorted(s.floats, id, v);
      }
    }
  }

  /** add_vector keeps every stored vector at the store's dimension. */
  lemma AddKeepsUniform(s: Store, id: Bytes, v: seq<F32>)
    requires Valid(s) && Uniform(s) && (s.dim == 0 ==> Size(s) == 0)
    ensures var s' := Add(s, id, v).0; Uniform(s') && (s'.dim == 0 ==> Size(s') == 0)
  {
    var (s', ok) := Add(s, id, v);
    if ok {
      if s.quantized {
        var (codes, p) := QuantizedPayload(v);
        PutEntries(s.codes, id, codes);
        forall i | 0 <= i < |s'.codes| ensures |s'.codes[i].value| == s'.dim {
          assert s'.codes[i] in s'.codes;
        }
      } else {
        PutEntries(s.floats, id, v);
        forall i | 0 <= i < |s'.floats| ensures |s'.floats[i].value| == s'.dim {
          assert s'.floats[i] in s'.floats;
        }
      }
    }
  }

  // ---------------------------------------------------------------------
  // save then load

  /** Every length save() narrows to a fixed-width field fits it. */
  predicate Representable(s: Store)
  {
    && s.dim < U32_LIMIT
    && Size(s) < U64_LIMIT
    && (forall i | 0 <= i < |s.floats| :: |s.floats[i].key| < U32_LIMIT)
    && (forall i | 0 <= i < |s.codes| :: |s.codes[i].key| < U32_LIMIT)
  }

  lemma IdFieldExact(id: Bytes)
    requires |id| < U32_LIMIT
    ensures IdField(id) == U32(|id|) + id
    ensures DecodeLE(U32(|id|)) == |id|
  {
    U32RoundTrip(|id|);
    NarrowFits(|id|, U32_LIMIT);
  }

  lemma ReadIdBack(r: Reader, id: Bytes, rest: Bytes)
    requires |id| < U32_LIMIT && At(r, IdField(id) + rest)
    ensures ReadId(r) == (id, Skip(r, 4 + |id|)) && At(Skip(r, 4 + |id|), rest)
  {
    var r1 := Skip(r, 4);
    assert Read(r, 4) == (U32(|id|), r1) && At(r1, id + rest) && DecodeLE(U32(|id|)) == |id| by {
      IdFieldExact(id);
      assert IdField(id) + rest == U32(|id|) + (id + rest);
      AtSplit(r, U32(|id|), id + rest);
    }
    assert Read(r1, |id|) == (id, Skip(r1, |id|)) && At(Skip(r1, |id|), rest) by {
      AtSplit(r1, id, rest);
    }
  }

  lemma ReadFloatRecordBack(r: Reader, x: Entry<seq<F32>>, rest: Bytes)
    requires |x.key| < U32_LIMIT && At(r, FloatRecord(x) + rest)
    ensures var n := |FloatRecord(x)|;
      ReadFloatRecord(r, |x.value|) == (x, Skip(r, n)) && At(Skip(r, n), rest)
  {
    var r2 := FloatRecordReads(r, x, rest);
  }

  lemma FloatRecordReads(r: Reader, x: Entry<seq<F32>>, rest: Bytes) returns (r2: Reader)
    requires |x.key| < U32_LIMIT && At(r, FloatRecord(x) + rest)
    ensures r2 == Skip(r, |FloatRecord(x)|)
    ensures ReadFloatRecord(r, |x.value|) == (x, r2) && At(r2, rest)
  {
    var r1 := Skip(r, 4 + |x.key|);
    r2 := Skip(r1, 4 * |x.value|);
    assert ReadId(r) == (x.key, r1) && At(r1, Pack(x.value) + rest) by {
      assert FloatRecord(x) + rest == IdField(x.key) + (Pack(x.value) + rest);
      ReadIdBack(r, x.key, Pack(x.value) + rest);
    }
    assert Read(r1, 4 * |x.value|) == (Pack(x.value), r2) && At(r2, rest) by {
      AtSplit(r1, Pack(x.value), rest);
    }
    assert ReadFloatRecord(r, |x.value|) == (x, r2) by {
      UnpackPack(x.value);
    }
    assert |FloatRecord(x)| == 4 + |x.key| + 4 * |x.value| by {
      IdFieldExact(x.key);
    }
  }

  lemma ReadQuantRecordBack(r: Reader, x: Entry<seq<Int8>>, q: QParams, rest: Bytes)
    requires |x.key| < U32_LIMIT
    requires At(r, QuantRecord(x, q) + rest)
    ensures var n := |QuantRecord(x, q)|;
      ReadQuantRecord(r, |x.value|) == (x, q, Skip(r, n)) && At(Skip(r, n), rest)
  {
    var n := |QuantRecord(x, q)|;
    var r4 := QuantRecordReads(r, x, q, rest);
    assert r4 == Skip(r, n);
  }

  /** The four reads of a quantized record, field by field; returns the reader after them. */
  lemma QuantRecordReads(r: Reader, x: Entry<seq<Int8>>, q: QParams, rest: Bytes) returns (r4: Reader)
    requires |x.key| < U32_LIMIT
    requires At(r, QuantRecord(x, q) + rest)
    ensures r4 == Skip(r, 4 + |x.key| + 4 + 4 + |x.value|) && |QuantRecord(x, q)| == 4 + |x.key| + 4 + 4 + |x.value|
    ensures ReadQuantRecord(r, |x.value|) == (x, q, r4) && At(r4, rest)
  {
    var zp := I32(q.zeroPoint);
    var codes := Int8Bytes(x.value);
    var r1 := Skip(r, 4 + |x.key|);
    var r2 := Skip(r1, 4);
    var r3 := Skip(r2, 4);
    r4 := Skip(r3, |x.value|);
    assert ReadId(r) == (x.key, r1) && At(r1, q.scale + (zp + (codes + rest))) by {
      IdFieldExact(x.key);
      assert QuantRecord(x, q) + rest == IdField(x.key) + (q.scale + (zp + (codes + rest)));
      ReadIdBack(r, x.key, q.scale + (zp + (codes + rest)));
    }
    assert Read(r1, 4) == (q.scale, r2) && At(r2, zp + (codes + rest)) by {
      AtSplit(r1, q.scale, zp + (codes + rest));
    }
    assert Read(r2, 4) == (zp, r3) && At(r3, codes + rest) by {
      AtSplit(r2, zp, codes + rest);
    }
    assert Read(r3, |x.value|) == (codes, r4) && At(r4, rest) by {
      AtSplit(r3, codes, rest);
    }
    assert ReadQuantRecord(r, |x.value|) == (x, q, r4) by {
      I32RoundTrip(q.zeroPoint);
      Int8RoundTrip(x.value);
    }
    assert |QuantRecord(x, q)| == 4 + |x.key| + 4 + 4 + |x.value| by {
      IdFieldExact(x.key);
    }
  }

  lemma FloatNextUnfold(r: Reader, dim: nat, remaining: nat, acc: Store)
    requires Stream.Valid(r) && remaining > 0
    ensures var (e, r') := ReadFloatRecord(r, dim);
      ParseRecords(r, false, dim, remaining, acc)
      == ParseRecords(r', false, dim, remaining - 1, acc.(floats := Put(acc.floats, e.key, e.value)))
  {
    assert ParseRecords(r, false, dim, remaining, acc) == ParseNext(r, false, dim, remaining, acc);
    assert ParseNext(r, false, dim, remaining, acc) == ParseFloatNext(r, dim, remaining, acc);
  }

  lemma QuantNextUnfold(r: Reader, dim: nat, remaining: nat, acc: Store)
    requires Stream.Valid(r) && remaining > 0
    ensures var (c, p, r') := ReadQuantRecord(r, dim);
      ParseRecords(r, true, dim, remaining, acc)
      == ParseRecords(r', true, dim, remaining - 1, acc.(codes := Put(acc.codes, c.key, c.value), params := Put(acc.params, c.key, p)))
  {
    assert ParseRecords(r, true, dim, remaining, acc) == ParseNext(r, true, dim, remaining, acc);
    assert ParseNext(r, true, dim, remaining, acc) == ParseQuantNext(r, dim, remaining, acc);
  }

  /** One float record read from r is added to acc before the remaining records are read. */
  lemma FloatStep(r: Reader, dim: nat, remaining: nat, acc: Store, e: Entry<seq<F32>>, r': Reader)
    requires Stream.Valid(r) && remaining > 0 && ReadFloatRecord(r, dim) == (e, r')
    ensures Stream.Valid(r')
    ensures ParseRecords(r, false, dim, remaining, acc)
         == ParseRecords(r', false, dim, remaining - 1, acc.(floats := Put(acc.floats, e.key, e.value)))
  {
    FloatNextUnfold(r, dim, remaining, acc);
  }

  /** One quantized record read from r is added to acc before the remaining records are read. */
  lemma QuantStep(r: Reader, dim: nat, remaining: nat, acc: Store, c: Entry<seq<Int8>>, p: QParams, r': Reader)
    requires Stream.Valid(r) && remaining > 0 && ReadQuantRecord(r, dim) == (c, p, r')
    ensures Stream.Valid(r')
    ensures ParseRecords(r, true, dim, remaining, acc)
         == ParseRecords(r', true, dim, remaining - 1, acc.(codes := Put(acc.codes, c.key, c.value), params := Put(acc.params, c.key, p)))
  {
    QuantNextUnfold(r, dim, remaining, acc);
  }

  /** Every record has dim values and an id whose length fits a uint32. */
  predicate FloatsFit(e: seq<Entry<seq<F32>>>, dim: nat)
  {
    forall i | 0 <= i < |e| :: |e[i].value| == dim && |e[i].key| < U32_LIMIT
  }

  predicate CodesFit(c: seq<Entry<seq<Int8>>>, dim: nat)
  {
    forall i | 0 <= i < |c| :: |c[i].value| == dim && |c[i].key| < U32_LIMIT
  }

  /** Reading the first of the records e appends it to the map being rebuilt. */
  lemma FloatRecordStep(r: Reader, dim: nat, e: seq<Entry<seq<F32>>>, acc: Store) returns (r': Reader, acc': Store)
    requires e != [] && At(r, FloatRecords(e)) && FloatsFit(e, dim)
    requires Sorted(acc.floats + e)
    ensures At(r', FloatRecords(e[1..])) && FloatsFit(e[1..], dim) && Sorted(acc'.floats + e[1..])
    ensures ParseRecords(r, false, dim, |e|, acc) == ParseRecords(r', false, dim, |e[1..]|, acc')
    ensures Skip(r', |FloatRecords(e[1..])|) == Skip(r, |FloatRecords(e)|)
    ensures acc'.(floats := acc'.floats + e[1..]) == acc.(floats := acc.floats + e)
  {
    var x := e[0];
    r' := Skip(r, |FloatRecord(x)|);
    acc' := acc.(floats := acc.floats + [x]);
    ReadFloatRecordBack(r, x, FloatRecords(e[1..]));
    FloatNextUnfold(r, dim, |e|, acc);
    PutNextOfSorted(acc.floats, e);
    assert FloatsFit(e[1..], dim) by {
      forall i | 0 <= i < |e| - 1 ensures |e[1..][i].value| == dim && |e[1..][i].key| < U32_LIMIT {
        assert e[1..][i] == e[i + 1];
      }
    }
  }

  lemma {:induction false} ParseFloatRecordsBack(r: Reader, dim: nat, e: seq<Entry<seq<F32>>>, acc: Store)
    requires At(r, FloatRecords(e)) && FloatsFit(e, dim)
    requires Sorted(acc.floats + e)
    ensures ParseRecords(r, false, dim, |e|, acc)
         == (acc.(floats := acc.floats + e), Skip(r, |FloatRecords(e)|))
    decreases |e|
  {
    if e == [] {
      assert acc.(floats := acc.floats + e) == acc && Skip(r, |FloatRecords(e)|) == r by {
        assert acc.floats + e == acc.floats;
      }
    } else {
      var r', acc' := FloatRecordStep(r, dim, e, acc);
      ParseFloatRecordsBack(r', dim, e[1..], acc');
    }
  }

  /** Reading the first of the quantized records appends it to both maps being rebuilt. */
  lemma QuantRecordStep(r: Reader, dim: nat, c: seq<Entry<seq<Int8>>>, p: seq<Entry<QParams>>, acc: Store)
    returns (r': Reader, acc': Store)
    requires c != [] && |c| == |p| && Keys(c) == Keys(p)
    requires At(r, QuantRecords(c, p)) && CodesFit(c, dim)
    requires Sorted(acc.codes + c) && Sorted(acc.params + p)
    ensures At(r', QuantRecords(c[1..], p[1..])) && CodesFit(c[1..], dim)
    ensures ParseRecords(r, true, dim, |c|, acc) == ParseRecords(r', true, dim, |c[1..]|, acc')
    ensures Sorted(acc'.codes + c[1..]) && Sorted(acc'.params + p[1..]) && Keys(c[1..]) == Keys(p[1..])
    ensures Skip(r', |QuantRecords(c[1..], p[1..])|) == Skip(r, |QuantRecords(c, p)|)
    ensures acc'.(codes := acc'.codes + c[1..], params := acc'.params + p[1..])
         == acc.(codes := acc.codes + c, params := acc.params + p)
  {
    var x := c[0];
    var q := p[0].value;
    r' := Skip(r, |QuantRecord(x, q)|);
    acc' := acc.(codes := acc.codes + [x], params := acc.params + [p[0]]);
    assert p[0] == Entry(x.key, q) by { assert Keys(p)[0] == Keys(c)[0]; }
    ReadQuantRecordBack(r, x, q, QuantRecords(c[1..], p[1..]));
    QuantNextUnfold(r, dim, |c|, acc);
    PutNextOfSorted(acc.codes, c);
    PutNextOfSorted(acc.params, p);
    assert Keys(c[1..]) == Keys(c)[1..] && Keys(p[1..]) == Keys(p)[1..];
    assert CodesFit(c[1..], dim) by {
      forall i | 0 <= i < |c| - 1 ensures |c[1..][i].value| == dim && |c[1..][i].key| < U32_LIMIT {
        assert c[1..][i] == c[i + 1];
      }
    }
  }

  lemma {:induction false} ParseQuantRecordsBack(r: Reader, dim: nat, c: seq<Entry<seq<Int8>>>, p: seq<Entry<QParams>>, acc: Store)
    requires |c| == |p| && Keys(c) == Keys(p)
    requires At(r, QuantRecords(c, p)) && CodesFit(c, dim)
    requires Sorted(acc.codes + c) && Sorted(acc.params + p)
    ensures ParseRecords(r, true, dim, |c|, acc)
         == (acc.(codes := acc.codes + c, params := acc.params + p), Skip(r, |QuantRecords(c, p)|))
    decreases |c|
  {
    if c == [] {
      assert acc.(codes := acc.codes + c, params := acc.params + p) == acc && Skip(r, |QuantRecords(c, p)|) == r by {
        assert acc.codes + c == acc.codes && acc.params + p == acc.params;
      }
    } else {
      var r', acc' := QuantRecordStep(r, dim, c, p, acc);
      ParseQuantRecordsBack(r', dim, c[1..], p[1..], acc');
    }
  }

  /** The header fields read back as written; the records are then parsed from byte 13 on. */
  lemma HeaderBack(r: Reader, flag: byte, dim: nat, count: nat, body: Bytes)
    requires dim < U32_LIMIT && count < U64_LIMIT
    requires At(r, [flag] + (U32(dim) + (U64(count) + body)))
    ensures At(Skip(r, 13), body)
    ensures var quantized := flag as int % 2 == 1;
      var (s, r') := ParseRecords(Skip(r, 13), quantized, dim, count, Store(quantized, dim, [], [], []));
      ParseStream(r) == (s, r'.good)
  {
    var r1 := Skip(r, 1);
    var r2 := Skip(r1, 4);
    var r3 := Skip(r2, 8);
    assert Read(r, 1) == ([flag], r1) && At(r1, U32(dim) + (U64(count) + body)) by {
      AtSplit(r, [flag], U32(dim) + (U64(count) + body));
    }
    assert Read(r1, 4) == (U32(dim), r2) && At(r2, U64(count) + body) && DecodeLE(U32(dim)) == dim by {
      AtSplit(r1, U32(dim), U64(count) + body);
      U32RoundTrip(dim);
    }
    assert Read(r2, 8) == (U64(count), r3) && At(r3, body) && DecodeLE(U64(count)) == count by {
      AtSplit(r2, U64(count), body);
      U64RoundTrip(count);
    }
    assert r3 == Skip(r, 13);
  }

  /** After its magic, save()'s stream is the flag byte, the dimension, the count and the records. */
  lemma SerializeLayout(s: Store)
    requires Valid(s) && Representable(s)
    ensures At(From(Serialize(s), 4), [Flag(s)] + (U32(s.dim) + (U64(Size(s)) + Body(s))))
  {
    NarrowFits(s.dim, U32_LIMIT);
    NarrowFits(Size(s), U64_LIMIT);
    AtAfter(Serialize(s), MVS1, [Flag(s)] + (U32(s.dim) + (U64(Size(s)) + Body(s))));
  }

  /** The records save() writes parse back, from empty maps, into the store's own maps. */
  lemma BodyBack(s: Store, r: Reader)
    requires Valid(s) && Uniform(s) && Representable(s) && At(r, Body(s))
    ensures ParseRecords(r, s.quantized, s.dim, Size(s), Store(s.quantized, s.dim, [], [], []))
         == (s, Skip(r, |Body(s)|))
  {
    var acc := Store(s.quantized, s.dim, [], [], []);
    if s.quantized {
      assert |Keys(s.codes)| == |Keys(s.params)|;
      assert [] + s.codes == s.codes && [] + s.params == s.params;
      ParseQuantRecordsBack(r, s.dim, s.codes, s.params, acc);
    } else {
      assert [] + s.floats == s.floats;
      ParseFloatRecordsBack(r, s.dim, s.floats, acc);
    }
  }

  /** A stream positioned at save()'s header and records parses back into the store. */
  lemma StreamBack(s: Store, r: Reader)
    requires Valid(s) && Uniform(s) && Representable(s)
    requires At(r, [Flag(s)] + (U32(s.dim) + (U64(Size(s)) + Body(s))))
    ensures ParseStream(r) == (s, true)
  {
    HeaderBack(r, Flag(s), s.dim, Size(s), Body(s));
    assert (Flag(s) as int % 2 == 1) == s.quantized by {
      if s.quantized { assert Flag(s) as int == 1; } else { assert Flag(s) as int == 0; }
    }
    BodyBack(s, Skip(r, 13));
  }

  /** Parsing the stream save() builds, after its magic, gives back the store, and the stream stays good. */
  lemma SerializeRoundTrip(s: Store)
    requires Valid(s) && Uniform(s) && Representable(s)
    ensures ParseStream(From(Serialize(s), 4)) == (s, true)
  {
    SerializeLayout(s);
    StreamBack(s, From(Serialize(s), 4));
  }

  /** load(save(s, key), key) restores s and reports success, with or without a key. */
  lemma SaveLoadRoundTrip(s: Store, key: Bytes, prior: Store)
    requires Valid(s) && Uniform(s) && Representable(s)
    ensures LoadFile(FileImage(s, key), key, prior) == (s, true)
  {
    var plain := Serialize(s);
    assert StartsWith(plain, MVS1);
    SerializeRoundTrip(s);
    if |key| == 0 {
      assert plain[..4] != MVE1 by { assert plain[2] == 0x53; }
    } else {
      var file := MVE1 + Cipher.XorStream(plain, key);
      assert file[4..] == Cipher.XorStream(plain, key);
      Cipher.RoundTrip(plain, key);
    }
  }

  /** An encrypted file cannot be loaded without a key, and the store is left as it was. */
  lemma EncryptedNeedsKey(s: Store, key: Bytes, prior: Store)
    requires Valid(s) && |key| > 0
    ensures LoadFile(FileImage(s, key), [], prior) == (prior, false)
  {
  }

  /**
   * A file encrypted under one key and loaded with another whose key stream
   * differs within the first four bytes fails the inner "MVS1" check, and
   * the store is left as it was.
   */
  lemma WrongKeyRefused(s: Store, key: Bytes, key2: Bytes, j: nat, prior: Store)
    requires Valid(s) && |key| > 0 && |key2| > 0
    requires j < 4 && key2[j % |key2|] != key[j % |key|]
    ensures LoadFile(FileImage(s, key), key2, prior) == (prior, false)
  {
    var plain := Serialize(s);
    var file := FileImage(s, key);
    assert file[..4] == MVE1 && file[4..] == Cipher.XorStream(plain, key);
    Cipher.WrongKeyChangesByte(plain, key, key2, j);
    assert plain[j] == MVS1[j];
  }

  /** A file too short for a header, or whose first four bytes are neither "MVS1" nor "MVE1", is refused, the store left as it was. */
  lemma UnknownMagicRefused(file: Bytes, key: Bytes, prior: Store)
    requires |file| < 4 || (file[..4] != MVS1 && file[..4] != MVE1)
    ensures LoadFile(file, key, prior) == (prior, false)
  {
  }

  // ---------------------------------------------------------------------
  // What save() writes, record by record

  lemma {:induction false} FloatRecordsSnoc(e: seq<Entry<seq<F32>>>, x: Entry<seq<F32>>)
    ensures FloatRecords(e + [x]) == FloatRecords(e) + FloatRecord(x)
    decreases |e|
  {
    if e == [] {
      assert [] + [x] == [x];
      assert FloatRecords([x]) == FloatRecord(x) + FloatRecords([]);
    } else {
      assert (e + [x])[1..] == e[1..] + [x];
      FloatRecordsSnoc(e[1..], x);
    }
  }

  lemma {:induction false} QuantRecordsSnoc(c: seq<Entry<seq<Int8>>>, p: seq<Entry<QParams>>, x: Entry<seq<Int8>>, q: Entry<QParams>)
    requires |c| == |p|
    ensures QuantRecords(c + [x], p + [q]) == QuantRecords(c, p) + QuantRecord(x, q.value)
    decreases |c|
  {
    if c == [] {
      assert [] + [x] == [x] && [] + [q] == [q];
      assert QuantRecords([x], [q]) == QuantRecord(x, q.value) + QuantRecords([], []);
    } else {
      assert (c + [x])[1..] == c[1..] + [x] && (p + [q])[1..] == p[1..] + [q];
      QuantRecordsSnoc(c[1..], p[1..], x, q);
    }
  }

  /** The records of the first i + 1 float entries. */
  lemma FloatRecordsPrefix(e: seq<Entry<seq<F32>>>, i: nat)
    requires i < |e|
    ensures FloatRecords(e[..i + 1]) == FloatRecords(e[..i]) + FloatRecord(e[i])
  {
    assert e[..i + 1] == e[..i] + [e[i]];
    FloatRecordsSnoc(e[..i], e[i]);
  }

  /** The records of the first i + 1 quantized entries. */
  lemma QuantRecordsPrefix(c: seq<Entry<seq<Int8>>>, p: seq<Entry<QParams>>, i: nat)
    requires |c| == |p| && i < |c|
    ensures QuantRecords(c[..i + 1], p[..i + 1]) == QuantRecords(c[..i], p[..i]) + QuantRecord(c[i], p[i].value)
  {
    assert c[..i + 1] == c[..i] + [c[i]] && p[..i + 1] == p[..i] + [p[i]];
    QuantRecordsSnoc(c[..i], p[..i], c[i], p[i]);
  }

  // ---------------------------------------------------------------------
  // Whatever load reads keeps the invariant

  lemma {:induction false} ParseRecordsValid(r: Reader, quantized: bool, dim: nat, remaining: nat, acc: Store)
    requires Stream.Valid(r) && Valid(acc) && acc.quantized == quantized
    ensures var s := ParseRecords(r, quantized, dim, remaining, acc).0;
      Valid(s) && s.quantized == quantized && s.dim == acc.dim
    decreases remaining
  {
    if remaining > 0 {
      if quantized {
        QuantNextUnfold(r, dim, remaining, acc);
        var (c, p, r') := ReadQuantRecord(r, dim);
        PutSorted(acc.codes, c.key, c.value);
        PutSorted(acc.params, c.key, p);
        PutSameKeys(acc.codes, acc.params, c.key, c.value, p);
        ParseRecordsValid(r', quantized, dim, remaining - 1, acc.(codes := Put(acc.codes, c.key, c.value), params := Put(acc.params, c.key, p)));
      } else {
        FloatNextUnfold(r, dim, remaining, acc);
        var (e, r') := ReadFloatRecord(r, dim);
        PutSorted(acc.floats, e.key, e.value);
        ParseRecordsValid(r', quantized, dim, remaining - 1, acc.(floats := Put(acc.floats, e.key, e.value)));
      }
    }
  }

  /** load leaves a store that keeps the invariant, whether it succeeds or not. */
  lemma LoadKeepsValid(file: Bytes, key: Bytes, prior: Store)
    requires Valid(prior)
    ensures Valid(LoadFile(file, key, prior).0)
  {
    if StartsWith(file, MVE1) {
      if |key| > 0 {
        var plain := Cipher.XorStream(file[4..], key);
        if StartsWith(plain, MVS1) { StreamValid(From(plain, 4)); }
      }
    } else if StartsWith(file, MVS1) {
      StreamValid(From(file, 4));
    }
  }

  lemma StreamValid(r: Reader)
    requires Stream.Valid(r)
    ensures Valid(ParseStream(r).0)
  {
    var (flags, r1) := Read(r, 1);
    var quantized := flags[0] as int % 2 == 1;
    var (dimBytes, r2) := Read(r1, 4);
    var (countBytes, r3) := Read(r2, 8);
    ParseRecordsValid(r3, quantized, DecodeLE(dimBytes), DecodeLE(countBytes), Store(quantized, DecodeLE(dimBytes), [], [], []));
  }

  // ---------------------------------------------------------------------
  // A truncated file

  /** On a stream that has gone bad every further float record is the empty id with dim zero floats. */
  lemma {:induction false} BadStreamRecords(r: Reader, dim: nat, remaining: nat, acc: Store)
    requires Stream.Valid(r) && !r.good
    requires acc.floats == [Entry([], Unpack(Zeros(4 * dim)))]
    ensures ParseRecords(r, false, dim, remaining, acc) == (acc, r)
    decreases remaining
  {
    if remaining > 0 {
      FloatNextUnfold(r, dim, remaining, acc);
      BadStaysBad(r, 4);
      assert DecodeLE(Zeros(4)) == 0 by { assert Zeros(4) == [0] + Zeros(3); }
      BadStaysBad(r, 0);
      BadStaysBad(r, 4 * dim);
      var x := Entry([], Unpack(Zeros(4 * dim)));
      assert ReadFloatRecord(r, dim) == (x, r);
      assert Put(acc.floats, x.key, x.value) == [x] + acc.floats[1..];
      assert acc.(floats := Put(acc.floats, x.key, x.value)) == acc;
      BadStreamRecords(r, dim, remaining - 1, acc);
    }
  }

  /**
   * A float-mode header that promises records the file does not hold:
   * load reports failure, yet the old contents are gone and the store holds
   * one record under the empty id, with dim zero floats.
   */
  lemma TruncatedLoad(dim: nat, count: nat, prior: Store)
    requires dim < U32_LIMIT && 0 < count < U64_LIMIT
    ensures LoadFile(MVS1 + ([0] + (U32(dim) + U64(count))), [], prior)
         == (Store(false, dim, [Entry([], Unpack(Zeros(4 * dim)))], [], []), false)
  {
    var file := MVS1 + ([0] + (U32(dim) + U64(count)));
    var r := From(file, 4);
    assert StartsWith(file, MVS1) && !StartsWith(file, MVE1) by {
      assert file[..4] == MVS1;
      assert file[2] == 0x53;
    }
    assert At(Skip(r, 13), []) && ParseStream(r) == (var (s, r') := ParseRecords(Skip(r, 13), false, dim, count, Empty(false).(dim := dim)); (s, r'.good)) by {
      assert [0] + (U32(dim) + (U64(count) + [])) == [0] + (U32(dim) + U64(count));
      AtAfter(file, MVS1, [0] + (U32(dim) + (U64(count) + [])));
      HeaderBack(r, 0, dim, count, []);
    }
    TruncatedRecords(Skip(r, 13), dim, count);
  }

  /** The first record read at the end of the stream: the empty id, dim zero floats, and the stream gone bad. */
  lemma TruncatedRecords(r: Reader, dim: nat, count: nat)
    requires Stream.Valid(r) && r.good && r.pos == |r.data| && count > 0
    ensures var (s, r') := ParseRecords(r, false, dim, count, Empty(false).(dim := dim));
      s == Store(false, dim, [Entry([], Unpack(Zeros(4 * dim)))], [], []) && !r'.good
  {
    var acc := Empty(false).(dim := dim);
    FloatNextUnfold(r, dim, count, acc);
    var (idLen, r4) := Read(r, 4);
    assert idLen == Zeros(4) && !r4.good;
    assert DecodeLE(Zeros(4)) == 0 by { assert Zeros(4) == [0] + Zeros(3); }
    BadStaysBad(r4, 0);
    BadStaysBad(r4, 4 * dim);
    var (x, r5) := ReadFloatRecord(r, dim);
    assert x == Entry([], Unpack(Zeros(4 * dim))) && r5 == r4;
    BadStreamRecords(r5, dim, count - 1, acc.(floats := [x]));
  }
}
