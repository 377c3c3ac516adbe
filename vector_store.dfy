// The heap-resident VectorStore: the three ordered maps and the dimension
// as fields, updated in place by add_vector, clear and loadFromStream. Each
// method is proved against the functions of VectorStoreFormat on the state
// it reads or leaves.

module HeapVectorStore {
  import opened ByteCodec
  import opened Float32
  import opened OrderedMap
  import opened Stream
  import opened Ranking
  import opened VectorStoreFormat
  import Q = Quantizer
  import Cipher
  import FlatFormat

  class VectorStore {
    var quantized: bool                     // use_quantization_
    var dim: nat                            // vector_dim_
    var floats: seq<Entry<seq<F32>>>        // store_
    var codes: seq<Entry<seq<Int8>>>        // quantized_store_
    var params: seq<Entry<QParams>>         // quant_params_

    /** The fields as a value. */
    function State(): Store
      reads this
    {
      Store(quantized, dim, floats, codes, params)
    }

    constructor(useQuantization: bool)
      ensures State() == Empty(useQuantization)
    {
      quantized := useQuantization;
      dim := 0;
      floats := [];
      codes := [];
      params := [];
    }

    /** add_vector: the checks in the source's order, then the insertion into the active mode's maps. */
    method AddVector(id: Bytes, v: seq<F32>) returns (ok: bool)
      modifies this
      ensures (State(), ok) == Add(old(State()), id, v)
    {
      if |v| == 0 {
        return false;
      }
      if HasKey(floats, id) || HasKey(codes, id) {
        return false;
      }
      if dim == 0 {
        dim := |v|;
      } else if |v| != dim {
        return false;
      }
      if quantized {
        var p := Q.CalculateParams(Vals(v));
        var q := Q.Quantize(Vals(v), p);
        var stored := seq(|q|, i requires 0 <= i < |q| => q[i] as Int8);
        var qp := QParams(FromReal(p.scale), p.zeroPoint as Int32);
        assert q == Q.QuantizeAll(Vals(v), p);
        assert stored == QuantizedPayload(v).0 && qp == QuantizedPayload(v).1;
        codes := Put(codes, id, stored);
        params := Put(params, id, qp);
      } else {
        floats := Put(floats, id, v);
      }
      return true;
    }

    /**
     * search: one (id, score) per stored vector, in map order, then a full
     * sort and truncation to `limit`.
     */
    method Search(query: seq<F32>, limit: nat, sim: (seq<real>, seq<real>) -> real) returns (r: seq<Scored<Bytes>>)
      requires VectorStoreFormat.Valid(State())
      ensures SearchResult(State(), query, limit, sim, r)
    {
      assert |Keys(codes)| == |Keys(params)|;
      if |query| != dim || (floats == [] && codes == []) {
        return [];
      }
      var results;
      if quantized {
        results := ScoreQuantized(State(), query, sim);
      } else {
        results := ScoreFloats(State(), query, sim);
      }
      r := SortThenTruncate(results, limit);
    }

    /** size(). */
    method Size() returns (n: nat)
      ensures n == VectorStoreFormat.Size(State())
    {
      n := if quantized then |codes| else |floats|;
    }

    /** clear(): all three maps emptied and the dimension reset; the mode stays. */
    method Clear()
      modifies this
      ensures State() == Empty(old(quantized))
    {
      floats := [];
      codes := [];
      params := [];
      dim := 0;
    }

    /**
     * save(): the bytes written to the file. The record stream is built
     * header first, then one record per entry in map order, and wrapped as
     * "MVE1" plus its encryption when a key is given.
     */
    method Save(key: Bytes) returns (file: Bytes)
      requires VectorStoreFormat.Valid(State())
      ensures file == FileImage(State(), key)
    {
      var flags: byte := 0;
      if quantized { flags := FLAG_QUANTIZED; }
      var count := if quantized then |codes| else |floats|;
      var body: Bytes;
      if quantized {
        body := WriteQuantRecords(codes, params);
      } else {
        body := WriteFloatRecords(floats);
      }
      var stream := MVS1 + ([flags] + (U32(dim % U32_LIMIT) + (U64(count % U64_LIMIT) + body)));
      if |key| > 0 {
        var encrypted := Cipher.Encrypt(stream, key);
        file := MVE1 + encrypted;
      } else {
        file := stream;
      }
    }

    /**
     * load(): None stands for a file that cannot be opened, which is
     * refused with the store untouched.
     */
    method Load(file: Option<Bytes>, key: Bytes) returns (ok: bool)
      modifies this
      ensures file.None? ==> !ok && State() == old(State())
      ensures file.Some? ==> (State(), ok) == LoadFile(file.value, key, old(State()))
    {
      if file.None? {
        return false;
      }
      var bytes := file.value;
      if StartsWith(bytes, MVE1) {
        if |key| == 0 {
          return false;
        }
        var plain := Cipher.Decrypt(bytes[4..], key);
        if !StartsWith(plain, MVS1) {
          return false;
        }
        ok := LoadFromStream(From(plain, 4));
      } else if StartsWith(bytes, MVS1) {
        ok := LoadFromStream(From(bytes, 4));
      } else {
        return false;
      }
    }

    /**
     * loadFromStream: adopts the stream's mode, clears the store, then
     * reads the promised number of records one by one into the maps;
     * reports whether the stream stayed good.
     */
    method LoadFromStream(r0: Reader) returns (ok: bool)
      requires Stream.Valid(r0)
      modifies this
      ensures (State(), ok) == ParseStream(r0)
    {
      var (flags, r1) := Read(r0, 1);
      var isQuantized := flags[0] as int % 2 == 1;   // flags & FLAG_QUANTIZED
      if isQuantized != quantized {
        Clear();
        quantized := isQuantized;
      } else {
        Clear();
      }
      var (dimBytes, r2) := Read(r1, 4);
      dim := DecodeLE(dimBytes);
      var (countBytes, r3) := Read(r2, 8);
      var numVecs := DecodeLE(countBytes);
      var r := r3;
      var i := 0;
      ghost var target := ParseRecords(r3, quantized, dim, numVecs, State());
      while i < numVecs
        invariant 0 <= i <= numVecs
        invariant Stream.Valid(r) && r.data == r3.data
        invariant quantized == isQuantized && dim == DecodeLE(dimBytes)
        invariant target == ParseRecords(r, quantized, dim, numVecs - i, State())
      {
        r := ReadRecord(r, numVecs - i);
        i := i + 1;
      }
      ok := r.good;
    }

    /**
     * The body of loadFromStream's loop: one record read from r into the
     * active mode's maps (store_[id], or quantized_store_[id] and
     * quant_params_[id]), mode and dimension unchanged.
     */
    method ReadRecord(r: Reader, remaining: nat) returns (r': Reader)
      requires Stream.Valid(r) && remaining > 0
      modifies this
      ensures Stream.Valid(r') && r'.data == r.data
      ensures quantized == old(quantized) && dim == old(dim)
      ensures ParseRecords(r, quantized, dim, remaining, old(State())) == ParseRecords(r', quantized, dim, remaining - 1, State())
    {
      var (idLen, ra) := Read(r, 4);
      var (id, rb) := Read(ra, DecodeLE(idLen));
      if quantized {
        var (scale, rc) := Read(rb, 4);
        var (zp, rd) := Read(rc, 4);
        var (vec, re) := Read(rd, dim);
        var c, p := Entry(id, Int8sOf(vec)), QParams(scale, I32Of(zp));
        assert ReadQuantRecord(r, dim) == (c, p, re);
        QuantStep(r, dim, remaining, State(), c, p, re);
        codes := Put(codes, id, c.value);
        params := Put(params, id, p);
        r' := re;
      } else {
        var (vec, rc) := Read(rb, 4 * dim);
        var e := Entry(id, Unpack(vec));
        assert ReadFloatRecord(r, dim) == (e, rc);
        FloatStep(r, dim, remaining, State(), e, rc);
        floats := Put(floats, id, e.value);
        r' := rc;
      }
    }

    /**
     * save_flat(): the bytes of the "MFVS" file. The header with the
     * offsets computed up front, then the vectors from offset 64, in
     * quantized mode the params table at its four-byte-aligned offset (the
     * seek past the vectors leaves zero bytes), then the offset table and
     * the NUL-terminated ids, all in map order.
     */
    method SaveFlat() returns (file: Bytes)
      requires VectorStoreFormat.Valid(State()) && Uniform(State()) && dim < U32_LIMIT
      ensures file == FlatFormat.FlatImage(State())
    {
      file := WriteFlat(State());
    }
  }

  /** save()'s loop over the quantized entries: each record with its params looked up by id. */
  method WriteQuantRecords(codes: seq<Entry<seq<Int8>>>, params: seq<Entry<QParams>>) returns (body: Bytes)
    requires Sorted(params) && Keys(codes) == Keys(params)
    ensures |codes| == |params| && body == QuantRecords(codes, params)
  {
    assert |Keys(codes)| == |Keys(params)|;
    body := [];
    var i := 0;
    while i < |codes|
      invariant 0 <= i <= |codes|
      invariant body == QuantRecords(codes[..i], params[..i])
    {
      var id := codes[i].key;
      assert id == params[i].key by { assert Keys(codes)[i] == Keys(params)[i]; }
      GetIndex(params, i);
      var p := Get(params, id).value;   // quant_params_.at(id)
      body := body + (IdField(id) + p.scale + I32(p.zeroPoint) + Int8Bytes(codes[i].value));
      QuantRecordsPrefix(codes, params, i);
      i := i + 1;
    }
    assert codes[..i] == codes && params[..i] == params;
  }

  /** save()'s loop over the float entries. */
  method WriteFloatRecords(floats: seq<Entry<seq<F32>>>) returns (body: Bytes)
    ensures body == FloatRecords(floats)
  {
    body := [];
    var i := 0;
    while i < |floats|
      invariant 0 <= i <= |floats|
      invariant body == FloatRecords(floats[..i])
    {
      var id := floats[i].key;
      body := body + (IdField(id) + Pack(floats[i].value));
      FloatRecordsPrefix(floats, i);
      i := i + 1;
    }
    assert floats[..i] == floats;
  }

  /** save_flat() on the store's state; see VectorStore.SaveFlat. */
  method WriteFlat(s: Store) returns (file: Bytes)
    requires Sorted(s.params) && Keys(s.codes) == Keys(s.params) && Uniform(s) && s.dim < U32_LIMIT
    ensures FlatFormat.Paired(s) && file == FlatFormat.FlatImage(s)
  {
    assert |Keys(s.codes)| == |Keys(s.params)|;
    var l := FlatLayout(s);
    var header := FlatHeaderBytes(s, l);

    // 1. The vectors, from offset 64 on.
    var vectors := WriteVectors(s);
    FlatFormat.VectorWidths(s);

    // 2. In quantized mode the params table, after the seek to paramsOffset.
    var gap: Bytes := [];
    var table: Bytes := [];
    if s.quantized {
      assert |vectors| <= l.vecSize;
      gap := Zeros(l.paramsOffset - (|header| + |vectors|));
      table := WriteParams(s);
    } else {
      assert |vectors| == l.vecSize;
      assert gap == Zeros(0);
      assert FlatFormat.ParamBlocks(s) == [];
    }

    // 3. The id section: the offset table, then the ids.
    var ids := if s.quantized then Keys(s.codes) else Keys(s.floats);
    var offsets, strings := WriteIds(ids);
    file := header + vectors + gap + table + offsets + strings;
    FlatFormat.ImageOf(s, header, vectors, gap, table, offsets, strings);
  }

  /**
   * save_flat's layout: the vector section, in quantized mode padded with
   * a loop until the params table starts on a four-byte boundary, then the
   * params table, then the id section.
   */
  method FlatLayout(s: Store) returns (l: FlatFormat.Layout)
    ensures l == FlatFormat.LayoutOf(s)
  {
    var count := if s.quantized then |s.codes| else |s.floats|;
    var raw := count * FlatFormat.Width(s.dim, s.quantized);
    var vecSize := raw;
    var paramsOffset := 0;
    if s.quantized {
      while (FlatFormat.HEADER_SIZE + vecSize) % 4 != 0
        invariant raw <= vecSize <= FlatFormat.AlignUp4(raw)
        decreases FlatFormat.AlignUp4(raw) - vecSize
      {
        FlatFormat.PadStops(raw, vecSize);
        vecSize := vecSize + 1;
      }
      FlatFormat.PadStops(raw, vecSize);
      paramsOffset := FlatFormat.HEADER_SIZE + vecSize;
    }
    var idOffset := if s.quantized then paramsOffset + count * FlatFormat.PARAMS_ENTRY_SIZE
                    else FlatFormat.HEADER_SIZE + vecSize;
    l := FlatFormat.Layout(count, vecSize, paramsOffset, idOffset);
  }

  /** save_flat's 64-byte header, with the counts and offsets truncated to u64. */
  method FlatHeaderBytes(s: Store, l: FlatFormat.Layout) returns (header: Bytes)
    requires s.dim < U32_LIMIT && l == FlatFormat.LayoutOf(s)
    ensures header == FlatFormat.Flatten(FlatFormat.HeaderFields(s)) && |header| == FlatFormat.HEADER_SIZE
  {
    var flags := if s.quantized then 1 else 0;
    header := FlatFormat.MFVS + U32(FlatFormat.FLAT_VERSION) + U32(s.dim) + U32(flags)
              + U64(l.count % U64_LIMIT) + U64(FlatFormat.HEADER_SIZE) + U64(l.paramsOffset % U64_LIMIT)
              + U64(l.idOffset % U64_LIMIT) + Zeros(16);
    FlatFormat.HeaderBytes(s);
  }

  /** save_flat's first loop: each vector's bytes, in map order. */
  method WriteVectors(s: Store) returns (vectors: Bytes)
    ensures vectors == FlatFormat.Flatten(FlatFormat.VectorBlocks(s))
  {
    vectors := [];
    var count := if s.quantized then |s.codes| else |s.floats|;
    var i := 0;
    while i < count
      invariant 0 <= i <= count
      invariant vectors == FlatFormat.Flatten(FlatFormat.VectorBlocks(s)[..i])
    {
      vectors := vectors + (if s.quantized then Int8Bytes(s.codes[i].value) else Pack(s.floats[i].value));
      FlatFormat.FlattenSnoc(FlatFormat.VectorBlocks(s), i);
      i := i + 1;
    }
    assert FlatFormat.VectorBlocks(s)[..count] == FlatFormat.VectorBlocks(s);
  }

  /** save_flat's params loop: for each quantized id, its params looked up by id, scale then zero point. */
  method WriteParams(s: Store) returns (table: Bytes)
    requires Sorted(s.params) && Keys(s.codes) == Keys(s.params) && s.quantized
    ensures |s.codes| == |s.params| && table == FlatFormat.Flatten(FlatFormat.ParamBlocks(s))
  {
    assert |Keys(s.codes)| == |Keys(s.params)|;
    table := [];
    var i := 0;
    while i < |s.codes|
      invariant 0 <= i <= |s.codes|
      invariant table == FlatFormat.Flatten(FlatFormat.ParamBlocks(s)[..i])
    {
      var id := s.codes[i].key;
      assert id == s.params[i].key by { assert Keys(s.codes)[i] == Keys(s.params)[i]; }
      GetIndex(s.params, i);
      var p := Get(s.params, id).value;   // quant_params_.at(id)
      table := table + (p.scale + I32(p.zeroPoint));
      FlatFormat.FlattenSnoc(FlatFormat.ParamBlocks(s), i);
      i := i + 1;
    }
    assert FlatFormat.ParamBlocks(s)[..|s.codes|] == FlatFormat.ParamBlocks(s);
  }

  /**
   * save_flat's id section: the running offset starts past the table and
   * grows by each id's length plus its NUL; the table of offsets, then
   * the ids with their terminators.
   */
  method WriteIds(ids: seq<Bytes>) returns (offsets: Bytes, strings: Bytes)
    ensures offsets == FlatFormat.Flatten(FlatFormat.OffsetBlocks(ids))
    ensures strings == FlatFormat.Flatten(FlatFormat.StringBlocks(ids))
  {
    offsets := [];
    var current := |ids| * 8;
    var i := 0;
    while i < |ids|
      invariant 0 <= i <= |ids|
      invariant current == FlatFormat.StringOffset(ids, i)
      invariant offsets == FlatFormat.Flatten(FlatFormat.OffsetBlocks(ids)[..i])
    {
      offsets := offsets + U64(current % U64_LIMIT);
      FlatFormat.FlattenSnoc(FlatFormat.OffsetBlocks(ids), i);
      current := current + |ids[i]| + 1;
      i := i + 1;
    }
    assert FlatFormat.OffsetBlocks(ids)[..|ids|] == FlatFormat.OffsetBlocks(ids);
    strings := [];
    i := 0;
    while i < |ids|
      invariant 0 <= i <= |ids|
      invariant strings == FlatFormat.Flatten(FlatFormat.StringBlocks(ids)[..i])
    {
      strings := strings + (ids[i] + [0]);
      FlatFormat.FlattenSnoc(FlatFormat.StringBlocks(ids), i);
      i := i + 1;
    }
    assert FlatFormat.StringBlocks(ids)[..|ids|] == FlatFormat.StringBlocks(ids);
  }

  /** search's scoring loop in quantized mode: each code vector dequantized with the params looked up by its id. */
  method ScoreQuantized(s: Store, query: seq<F32>, sim: (seq<real>, seq<real>) -> real) returns (results: seq<Scored<Bytes>>)
    requires s.quantized && Sorted(s.params) && Keys(s.codes) == Keys(s.params)
    ensures |s.codes| == |s.params| && results == Candidates(s, query, sim)
  {
    assert |Keys(s.codes)| == |Keys(s.params)|;
    results := [];
    var i := 0;
    while i < |s.codes|
      invariant 0 <= i <= |s.codes| && results == Candidates(s, query, sim)[..i]
    {
      var id := s.codes[i].key;
      ParamsOf(s, i);
      var p := Get(s.params, id).value;   // quant_params_.at(id)
      var vec := Q.Dequantize(s.codes[i].value, Q.Params(Val(p.scale), p.zeroPoint));
      CandidatesSnoc(s, query, sim, i);
      results := results + [Scored(id, sim(Vals(query), vec))];
      i := i + 1;
    }
    assert Candidates(s, query, sim)[..i] == Candidates(s, query, sim);
  }

  /** search's scoring loop in float mode. */
  method ScoreFloats(s: Store, query: seq<F32>, sim: (seq<real>, seq<real>) -> real) returns (results: seq<Scored<Bytes>>)
    requires !s.quantized && |s.codes| == |s.params|
    ensures results == Candidates(s, query, sim)
  {
    results := [];
    var i := 0;
    while i < |s.floats|
      invariant 0 <= i <= |s.floats| && results == Candidates(s, query, sim)[..i]
    {
      var id := s.floats[i].key;
      CandidatesSnoc(s, query, sim, i);
      results := results + [Scored(id, sim(Vals(query), Vals(s.floats[i].value)))];
      i := i + 1;
    }
    assert Candidates(s, query, sim)[..i] == Candidates(s, query, sim);
  }

  /** The params of the i-th code vector are found under its id. */
  lemma ParamsOf(s: Store, i: nat)
    requires Sorted(s.params) && Keys(s.codes) == Keys(s.params) && i < |s.codes|
    ensures i < |s.params| && s.codes[i].key == s.params[i].key
    ensures Get(s.params, s.codes[i].key) == Some(s.params[i].value)
  {
    assert |Keys(s.codes)| == |Keys(s.params)|;
    assert Keys(s.codes)[i] == Keys(s.params)[i];
    GetIndex(s.params, i);
  }

  /** One more candidate: the i-th id with the score of the i-th vector. */
  lemma CandidatesSnoc(s: Store, query: seq<F32>, sim: (seq<real>, seq<real>) -> real, i: nat)
    requires |s.codes| == |s.params| && i < Size(s)
    ensures Candidates(s, query, sim)[..i + 1] == Candidates(s, query, sim)[..i] + [Scored(Ids(s)[i], sim(Vals(query), Vector(s, i)))]
  {
    var c := Candidates(s, query, sim);
    assert c[..i + 1] == c[..i] + [c[i]];
  }
}
