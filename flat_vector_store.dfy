// The read-only FlatVectorStore over a mapped "MFVS" file. The mapping is
// the MemoryMapper's byte sequence; the three pointers into it are byte
// offsets into that sequence (None for nullptr).

module FlatStore {
  import opened ByteCodec
  import opened Float32
  import opened OrderedMap
  import opened Ranking
  import opened VectorStoreFormat
  import opened FlatFormat
  import opened MemoryMapping
  import Q = Quantizer

  /**
   * The header fields load() keeps: those of the file, except that the
   * params offset is only taken over in quantized mode (0 stands for a
   * params pointer that search never reads).
   */
  function LoadedHeader(data: Bytes): FlatHeader
    requires |data| >= HEADER_SIZE
  {
    var h := ReadHeader(data);
    if h.quantized then h else h.(paramsOffset := 0)
  }

  class FlatVectorStore {
    const mapper: MemoryMapper
    var numVectors: nat           // num_vectors_
    var dim: nat                  // dim_
    var quantized: bool           // is_quantized_
    var vectorsAt: Option<nat>    // vectors_ptr_
    var paramsAt: Option<nat>     // quant_params_ptr_
    var idsAt: Option<nat>        // id_offsets_ptr_

    /** The header search works from. */
    function Header(): FlatHeader
      requires vectorsAt.Some? && idsAt.Some? && (quantized ==> paramsAt.Some?)
      reads this
    {
      FlatHeader(dim, quantized, numVectors, vectorsAt.value, if quantized then paramsAt.value else 0, idsAt.value)
    }

    /** While a file is mapped it passed load()'s checks and the fields are its header's. */
    predicate Valid()
      reads this, mapper
    {
      && mapper.Valid()
      && (mapper.mapped.Some? ==>
            && HeaderAccepted(mapper.mapped.value)
            && vectorsAt.Some? && idsAt.Some? && (quantized ==> paramsAt.Some?)
            && Header() == LoadedHeader(mapper.mapped.value))
    }

    constructor()
      ensures Valid() && fresh(mapper) && !mapper.IsMapped() && numVectors == 0 && dim == 0
    {
      mapper := new MemoryMapper();
      numVectors := 0;
      dim := 0;
      quantized := false;
      vectorsAt := None;
      paramsAt := None;
      idsAt := None;
    }

    /** close(): unmap, reset the three pointers, the count and the dimension. */
    method Close()
      modifies this, mapper
      ensures Valid() && !mapper.IsMapped()
      ensures numVectors == 0 && dim == 0 && vectorsAt.None? && paramsAt.None? && idsAt.None?
      ensures quantized == old(quantized)
      ensures mapper.released == old(mapper.released) + UnmapReleases(old(mapper.mapped), old(mapper.size), old(mapper.fd))
    {
      mapper.Unmap();
      vectorsAt := None;
      paramsAt := None;
      idsAt := None;
      numVectors := 0;
      dim := 0;
    }

    /**
     * load(path): map the file, then check its size, magic and version,
     * read the header and check the three offsets against the file size.
     * A map() failure returns before anything is reset, so the count and
     * dimension of an earlier load stay; any later failure closes the store.
     */
    method Load(os: FileOracle) returns (ok: bool)
      requires Valid() && os.openFd >= -1
      modifies this, mapper
      ensures Valid()
      ensures ok == (MapSucceeds(os) && HeaderAccepted(os.contents))
      ensures ok ==> mapper.Data() == Some(os.contents) && Header() == LoadedHeader(os.contents)
      ensures !MapSucceeds(os) ==> !mapper.IsMapped() && numVectors == old(numVectors) && dim == old(dim)
      ensures MapSucceeds(os) && !ok ==> !mapper.IsMapped() && numVectors == 0 && dim == 0
      ensures MapSucceeds(os) && HeaderReadable(os.contents) ==> quantized == ReadHeader(os.contents).quantized
    {
      var mapped := mapper.Map(os);
      if !mapped {
        return false;
      }
      var data := mapper.Data().value;
      var readable, accepted, h := ReadFlatHeader(data);
      if readable {
        quantized := h.quantized;
      }
      if !accepted {
        Close();
        return false;
      }
      dim := h.dim;
      numVectors := h.count;
      vectorsAt := Some(h.vecOffset);
      idsAt := Some(h.idOffset);
      if quantized {
        paramsAt := Some(h.paramsOffset);
      }
      assert Header() == h;
      return true;
    }

    /** size(): the count of the last header read, even when nothing is mapped any more. */
    function Size(): nat
      reads this
    {
      numVectors
    }

    /**
     * search(query, limit): nothing when no file is mapped, the file holds
     * no vectors, or the query length differs from dim; otherwise one
     * (index, score) per vector, the best `limit` selected best first
     * (partial_sort when limit is below the count, a full sort otherwise),
     * each index then replaced by its id from the offset table. Reading the
     * vectors, params and ids needs the file to be InBounds, which load()
     * does not check.
     */
    method Search(query: seq<F32>, limit: nat, sim: (seq<real>, seq<real>) -> real)
      returns (r: seq<Scored<Bytes>>, ghost top: seq<Scored<nat>>)
      requires Valid()
      requires mapper.IsMapped() && numVectors > 0 && |query| == dim ==> InBounds(mapper.Data().value, Header())
      ensures !mapper.IsMapped() || numVectors == 0 || |query| != dim ==> r == []
      ensures mapper.IsMapped() && numVectors > 0 && |query| == dim ==>
        && IsTopK(top, FlatCandidates(mapper.Data().value, Header(), query, sim), limit)
        && (forall j | 0 <= j < |top| :: top[j].item < numVectors)
        && r == Resolve(mapper.Data().value, Header(), top)
    {
      if !mapper.IsMapped() || numVectors == 0 || |query| != dim {
        return [], [];
      }
      var data := mapper.Data().value;
      var h := Header();
      var candidates := ScoreFile(data, h, query, sim);
      var ranked;
      if limit < |candidates| {
        ranked := SelectTop(candidates, limit);
      } else {
        ranked := SortThenTruncate(candidates, limit);
      }
      TopItems(ranked, candidates, limit, h.count);
      r := ResolveIds(data, h, ranked);
      top := ranked;
    }
  }

  /** The file is long enough for a header, starts with "MFVS" and has version 1. */
  predicate HeaderReadable(data: Bytes)
  {
    |data| >= HEADER_SIZE && data[..4] == MFVS && U32At(data, 4) == FLAT_VERSION
  }

  /**
   * load()'s checks in their order: size, magic, version, then the header
   * fields, then the vector and id offsets and, in quantized mode, the
   * params offset against the file size.
   */
  method ReadFlatHeader(data: Bytes) returns (readable: bool, ok: bool, h: FlatHeader)
    ensures readable == HeaderReadable(data) && ok == HeaderAccepted(data)
    ensures readable ==> h.quantized == ReadHeader(data).quantized
    ensures ok ==> h == LoadedHeader(data)
  {
    h := FlatHeader(0, false, 0, 0, 0, 0);
    if |data| < HEADER_SIZE || data[..4] != MFVS {
      return false, false, h;
    }
    var version := U32At(data, 4);
    if version != FLAT_VERSION {
      return false, false, h;
    }
    var dim := U32At(data, 8);
    var flags := U32At(data, 12);
    var quantized := flags % 2 == 1;
    var count := U64At(data, 16);
    var vecOffset := U64At(data, 24);
    var paramsOffset := U64At(data, 32);
    var idOffset := U64At(data, 40);
    h := FlatHeader(dim, quantized, count, vecOffset, if quantized then paramsOffset else 0, idOffset);
    readable := true;
    ok := vecOffset < |data| && idOffset < |data| && (quantized ==> paramsOffset < |data|);
  }

  /** The selected candidates are candidates, so their indices are below the count. */
  lemma TopItems(top: seq<Scored<nat>>, c: seq<Scored<nat>>, k: nat, count: nat)
    requires IsTopK(top, c, k) && forall j | 0 <= j < |c| :: c[j].item < count
    ensures forall j | 0 <= j < |top| :: top[j].item < count
  {
    forall j | 0 <= j < |top| ensures top[j].item < count {
      assert top[j] in multiset(top);
      assert top[j] in multiset(c);
    }
  }

  lemma FlatCandidatesSnoc(data: Bytes, h: FlatHeader, query: seq<F32>, sim: (seq<real>, seq<real>) -> real, i: nat)
    requires InBounds(data, h) && i < h.count
    ensures FlatCandidates(data, h, query, sim)[..i + 1]
         == FlatCandidates(data, h, query, sim)[..i] + [Scored(i, sim(Vals(query), FlatVector(data, h, i)))]
  {
    var c := FlatCandidates(data, h, query, sim);
    assert c[..i + 1] == c[..i] + [c[i]];
  }

  /** search's scoring loop: vector i read at its offset (dequantized with params entry i) and scored. */
  method ScoreFile(data: Bytes, h: FlatHeader, query: seq<F32>, sim: (seq<real>, seq<real>) -> real)
    returns (c: seq<Scored<nat>>)
    requires InBounds(data, h)
    ensures c == FlatCandidates(data, h, query, sim)
  {
    c := [];
    var i := 0;
    while i < h.count
      invariant 0 <= i <= h.count
      invariant c == FlatCandidates(data, h, query, sim)[..i]
    {
      var vec := ReadVector(data, h, i);
      FlatCandidatesSnoc(data, h, query, sim, i);
      c := c + [Scored(i, sim(Vals(query), vec))];
      i := i + 1;
    }
  }

  /** Vector i located at vectors_ptr + i * dim, dequantized with params entry i in quantized mode. */
  method ReadVector(data: Bytes, h: FlatHeader, i: nat) returns (vec: seq<real>)
    requires InBounds(data, h) && i < h.count
    ensures vec == FlatVector(data, h, i)
  {
    FlatVectorAt(data, h, i);
    var w := Width(h.dim, h.quantized);
    var at := h.vecOffset + i * w;
    if h.quantized {
      var pa := h.paramsOffset + i * PARAMS_ENTRY_SIZE;
      var entry := data[pa .. pa + PARAMS_ENTRY_SIZE];
      vec := Q.Dequantize(Int8sOf(data[at .. at + w]), Q.Params(Val(entry[..4]), I32Of(entry[4..8])));
    } else {
      vec := Vals(Unpack(data[at .. at + w]));
    }
  }

  lemma ResolveSnoc(data: Bytes, h: FlatHeader, top: seq<Scored<nat>>, j: nat)
    requires InBounds(data, h) && (forall k | 0 <= k < |top| :: top[k].item < h.count) && j < |top|
    ensures Resolve(data, h, top)[..j + 1] == Resolve(data, h, top)[..j] + [Scored(IdAt(data, h, top[j].item), top[j].score)]
  {
    var r := Resolve(data, h, top);
    assert r[..j + 1] == r[..j] + [r[j]];
  }

  /** search's id loop: offset-table entry idx, then the NUL-terminated string it points to. */
  method ResolveIds(data: Bytes, h: FlatHeader, top: seq<Scored<nat>>) returns (r: seq<Scored<Bytes>>)
    requires InBounds(data, h) && forall k | 0 <= k < |top| :: top[k].item < h.count
    ensures r == Resolve(data, h, top)
  {
    r := [];
    var j := 0;
    while j < |top|
      invariant 0 <= j <= |top|
      invariant r == Resolve(data, h, top)[..j]
    {
      var idx := top[j].item;
      var offset := U64At(data, h.idOffset + 8 * idx);
      var id := ReadCString(data, h.idOffset + offset);
      ResolveSnoc(data, h, top, j);
      r := r + [Scored(id, top[j].score)];
      j := j + 1;
    }
  }

  /** std::string(str_ptr): the bytes up to the first NUL, which must lie inside the mapping. */
  method ReadCString(data: Bytes, pos: nat) returns (id: Bytes)
    requires pos <= |data| && Terminated(data, pos)
    ensures id == CString(data, pos)
  {
    ghost var k :| pos <= k < |data| && data[k] == 0;
    var j := pos;
    while data[j] != 0
      invariant pos <= j <= k
      invariant CString(data, pos) == data[pos..j] + CString(data, j)
      decreases k - j
    {
      CStringStep(data, pos, j);
      j := j + 1;
    }
    id := data[pos..j];
  }

  lemma CStringStep(data: Bytes, pos: nat, j: nat)
    requires pos <= j < |data| && data[j] != 0
    requires CString(data, pos) == data[pos..j] + CString(data, j)
    ensures CString(data, pos) == data[pos..j + 1] + CString(data, j + 1)
  {
    assert data[pos..j + 1] == data[pos..j] + [data[j]];
  }

  /** A store's ids are pairwise different: its maps are sorted strictly by key. */
  lemma IdsDistinct(s: Store)
    requires VectorStoreFormat.Valid(s)
    ensures forall i, j | 0 <= i < j < |Ids(s)| :: Ids(s)[i] != Ids(s)[j]
  {
    forall i, j | 0 <= i < j < |Ids(s)| ensures Ids(s)[i] != Ids(s)[j] {
      LessIrreflexive(Ids(s)[i]);
    }
  }

  /** A top-k over a file's indices, each index resolved to its id, is a top-k over the resolved candidates when the ids differ. */
  lemma ResolvedTopK(data: Bytes, h: FlatHeader, query: seq<F32>, sim: (seq<real>, seq<real>) -> real, limit: nat,
                     top: seq<Scored<nat>>, hc: seq<Scored<Bytes>>)
    requires InBounds(data, h) && IsTopK(top, FlatCandidates(data, h, query, sim), limit)
    requires forall j | 0 <= j < |top| :: top[j].item < h.count
    requires hc == Resolve(data, h, FlatCandidates(data, h, query, sim))
    requires forall i, j | 0 <= i < j < |hc| :: hc[i].item != hc[j].item
    ensures IsTopK(Resolve(data, h, top), hc, limit)
  {
    var c := FlatCandidates(data, h, query, sim);
    var r := Resolve(data, h, top);
    ResolvedPositions(data, h, c, hc);
    ResolvedItems(data, h, top, c, hc, r);
    RelabelTopK(top, c, limit, hc, r);
  }

  lemma ResolvedPositions(data: Bytes, h: FlatHeader, c: seq<Scored<nat>>, hc: seq<Scored<Bytes>>)
    requires InBounds(data, h) && |c| == h.count && (forall j | 0 <= j < |c| :: c[j].item == j)
    requires hc == Resolve(data, h, c)
    ensures |c| == |hc| && forall j | 0 <= j < |c| :: c[j] == Scored(j, hc[j].score) && hc[j].item == IdAt(data, h, j)
  {
  }

  lemma ResolvedItems(data: Bytes, h: FlatHeader, top: seq<Scored<nat>>, c: seq<Scored<nat>>, hc: seq<Scored<Bytes>>, r: seq<Scored<Bytes>>)
    requires InBounds(data, h) && (forall j | 0 <= j < |top| :: top[j].item < h.count)
    requires |c| == |hc| == h.count && forall j | 0 <= j < |c| :: hc[j].item == IdAt(data, h, j)
    requires r == Resolve(data, h, top)
    ensures |r| == |top| && forall i | 0 <= i < |top| :: top[i].item < |hc| && r[i] == Scored(hc[top[i].item].item, top[i].score)
  {
  }

  /** A top-k over the indices of a saved flat file, each index resolved to its id, is a top-k over the heap store's candidates. */
  lemma FlatTopK(s: Store, query: seq<F32>, sim: (seq<real>, seq<real>) -> real, limit: nat, top: seq<Scored<nat>>)
    requires Flattenable(s)
    requires InBounds(FlatImage(s), HeaderOf(s))
    requires IsTopK(top, FlatCandidates(FlatImage(s), HeaderOf(s), query, sim), limit)
    requires forall j | 0 <= j < |top| :: top[j].item < HeaderOf(s).count
    ensures IsTopK(Resolve(FlatImage(s), HeaderOf(s), top), Candidates(s, query, sim), limit)
  {
    FlatAgreesWithHeap(s, query, sim);
    IdsDistinct(s);
    var hc := Candidates(s, query, sim);
    assert forall i, j | 0 <= i < j < |hc| :: hc[i].item != hc[j].item by {
      forall i, j | 0 <= i < j < |hc| ensures hc[i].item != hc[j].item {
        assert hc[i].item == Ids(s)[i] && hc[j].item == Ids(s)[j];
      }
    }
    ResolvedTopK(FlatImage(s), HeaderOf(s), query, sim, limit, top, hc);
  }

  /**
   * A file written by save_flat and then loaded answers a query with a
   * top-k of the heap store's own candidates: the two stores agree up to
   * the order of equal scores.
   */
  method SearchSavedFlat(s: Store, fd: nat, query: seq<F32>, limit: nat, sim: (seq<real>, seq<real>) -> real)
    returns (ok: bool, r: seq<Scored<Bytes>>)
    requires Flattenable(s) && |query| == s.dim
    ensures ok <==> Size(s) > 0
    ensures ok ==> IsTopK(r, Candidates(s, query, sim), limit)
  {
    var store := new FlatVectorStore();
    var file := FlatImage(s);
    FlatAccepted(s);
    ok := store.Load(FileOracle(fd, true, file, true));
    if !ok {
      return false, [];
    }
    ReadHeaderBack(s);
    FlatInBounds(s);
    assert store.Header() == HeaderOf(s);
    ghost var top;
    r, top := store.Search(query, limit, sim);
    FlatTopK(s, query, sim, limit, top);
  }

  /**
   * After a good load, a load whose map() fails leaves nothing mapped but
   * size() still reports the earlier file's count, and search answers nothing.
   */
  method StaleSizeAfterFailedLoad(good: FileOracle, bad: FileOracle, query: seq<F32>, sim: (seq<real>, seq<real>) -> real)
    returns (size: nat, mapped: bool, r: seq<Scored<Bytes>>)
    requires good.openFd >= -1 && bad.openFd >= -1
    requires MapSucceeds(good) && HeaderAccepted(good.contents) && !MapSucceeds(bad)
    ensures size == ReadHeader(good.contents).count && !mapped && r == []
  {
    var store := new FlatVectorStore();
    var ok := store.Load(good);
    ok := store.Load(bad);
    size := store.Size();
    mapped := store.mapper.IsMapped();
    ghost var top;
    r, top := store.Search(query, 1, sim);
  }

  /**
   * A 65-byte file whose header announces two one-float vectors at
   * offset 64 and the id table at offset 64: every offset load() checks
   * lies inside the file, but the vectors do not.
   */
  function ShortFile(): Bytes
  {
    ShortHead() + ShortOffsets() + Zeros(17)
  }

  /** Magic, version, dim 1, flags 0. */
  function ShortHead(): Bytes
  {
    MFVS + U32(FLAT_VERSION) + U32(1) + U32(0)
  }

  /** count 2, vectors at 64, no params, ids at 64. */
  function ShortOffsets(): Bytes
  {
    U64(2) + U64(HEADER_SIZE) + U64(0) + U64(HEADER_SIZE)
  }

  lemma SliceLeft(x: Bytes, y: Bytes, i: nat, j: nat)
    requires i <= j <= |x|
    ensures (x + y)[i..j] == x[i..j]
  {
  }

  lemma SliceRight(x: Bytes, y: Bytes, i: nat, j: nat)
    requires |x| <= i <= j <= |x| + |y|
    ensures (x + y)[i..j] == y[i - |x| .. j - |x|]
  {
  }

  lemma HeadFields(head: Bytes)
    requires head == MFVS + U32(FLAT_VERSION) + U32(1) + U32(0)
    ensures |head| == 16
    ensures head[..4] == MFVS && head[4..8] == U32(FLAT_VERSION) && head[8..12] == U32(1) && head[12..16] == U32(0)
  {
    var p1 := MFVS + U32(FLAT_VERSION);
    var p2 := p1 + U32(1);
    SliceLeft(p2, U32(0), 0, 4);
    SliceLeft(p2, U32(0), 4, 8);
    SliceLeft(p2, U32(0), 8, 12);
    SliceRight(p2, U32(0), 12, 16);
    SliceLeft(p1, U32(1), 0, 4);
    SliceLeft(p1, U32(1), 4, 8);
    SliceRight(p1, U32(1), 8, 12);
    SliceLeft(MFVS, U32(FLAT_VERSION), 0, 4);
    SliceRight(MFVS, U32(FLAT_VERSION), 4, 8);
  }

  lemma OffsetFields(offsets: Bytes)
    requires offsets == U64(2) + U64(HEADER_SIZE) + U64(0) + U64(HEADER_SIZE)
    ensures |offsets| == 32
    ensures offsets[..8] == U64(2) && offsets[8..16] == U64(HEADER_SIZE) && offsets[16..24] == U64(0) && offsets[24..32] == U64(HEADER_SIZE)
  {
    var p1 := U64(2) + U64(HEADER_SIZE);
    var p2 := p1 + U64(0);
    SliceLeft(p2, U64(HEADER_SIZE), 0, 8);
    SliceLeft(p2, U64(HEADER_SIZE), 8, 16);
    SliceLeft(p2, U64(HEADER_SIZE), 16, 24);
    SliceRight(p2, U64(HEADER_SIZE), 24, 32);
    SliceLeft(p1, U64(0), 0, 8);
    SliceLeft(p1, U64(0), 8, 16);
    SliceRight(p1, U64(0), 16, 24);
    SliceLeft(U64(2), U64(HEADER_SIZE), 0, 8);
    SliceRight(U64(2), U64(HEADER_SIZE), 8, 16);
  }

  /** The fields of a 16-byte head and 32 offset bytes at the front of a file. */
  lemma FrontFields(d: Bytes, head: Bytes, offsets: Bytes, pad: Bytes)
    requires |head| == 16 && |offsets| == 32 && d == head + offsets + pad
    ensures d[..4] == head[..4] && d[4..8] == head[4..8] && d[8..12] == head[8..12] && d[12..16] == head[12..16]
    ensures d[16..24] == offsets[..8] && d[24..32] == offsets[8..16] && d[32..40] == offsets[16..24] && d[40..48] == offsets[24..32]
  {
    var p := head + offsets;
    SliceLeft(p, pad, 0, 4);
    SliceLeft(p, pad, 4, 8);
    SliceLeft(p, pad, 8, 12);
    SliceLeft(p, pad, 12, 16);
    SliceLeft(p, pad, 16, 24);
    SliceLeft(p, pad, 24, 32);
    SliceLeft(p, pad, 32, 40);
    SliceLeft(p, pad, 40, 48);
    SliceLeft(head, offsets, 0, 4);
    SliceLeft(head, offsets, 4, 8);
    SliceLeft(head, offsets, 8, 12);
    SliceLeft(head, offsets, 12, 16);
    SliceRight(head, offsets, 16, 24);
    SliceRight(head, offsets, 24, 32);
    SliceRight(head, offsets, 32, 40);
    SliceRight(head, offsets, 40, 48);
  }

  /** The header fields of ShortFile. */
  lemma ShortFileFields()
    ensures |ShortFile()| == 65 && ShortFile()[..4] == MFVS
    ensures ShortFile()[4..8] == U32(FLAT_VERSION) && ShortFile()[8..12] == U32(1) && ShortFile()[12..16] == U32(0)
    ensures ShortFile()[16..24] == U64(2) && ShortFile()[24..32] == U64(HEADER_SIZE)
    ensures ShortFile()[32..40] == U64(0) && ShortFile()[40..48] == U64(HEADER_SIZE)
  {
    HeadFields(ShortHead());
    OffsetFields(ShortOffsets());
    FrontFields(ShortFile(), ShortHead(), ShortOffsets(), Zeros(17));
  }

  /** load() accepts ShortFile, yet search would read past its end. */
  lemma AcceptedButOutOfBounds()
    ensures HeaderAccepted(ShortFile()) && !InBounds(ShortFile(), LoadedHeader(ShortFile()))
    ensures LoadedHeader(ShortFile()).count * Width(1, false) + HEADER_SIZE > |ShortFile()|
  {
    var data := ShortFile();
    ShortFileFields();
    DecodeHeader(data, 1, 0, 2, 0, HEADER_SIZE);
  }

  /**
   * load() with the missing checks added: the header checks, then that
   * every vector, params entry, offset-table entry and id lies inside the
   * file.
   */
  method ValidateFlat(data: Bytes) returns (ok: bool, h: FlatHeader)
    ensures ok ==> HeaderAccepted(data) && h == LoadedHeader(data) && InBounds(data, h)
    ensures ok <== HeaderAccepted(data) && InBounds(data, LoadedHeader(data))
  {
    var readable;
    readable, ok, h := ReadFlatHeader(data);
    if ok {
      ok := InBounds(data, h);
    }
  }

  /** Every non-empty file save_flat writes passes the full check, so the check rejects none of them. */
  lemma SavedFlatValidates(s: Store)
    requires Flattenable(s) && Size(s) > 0
    ensures HeaderAccepted(FlatImage(s)) && InBounds(FlatImage(s), LoadedHeader(FlatImage(s)))
  {
    FlatAccepted(s);
    ReadHeaderBack(s);
    FlatInBounds(s);
  }
}
