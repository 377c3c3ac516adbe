// The knowledge-graph file: "MKG1", a flag byte, the entity and relation
// name tables, the adjacency lists and the embedding slots, all integers
// little-endian; or "MKGE" followed by that stream encrypted. Loading
// rebuilds the interning maps from the name tables.

module GraphFormat {
  import opened ByteCodec
  import opened Float32
  import opened Stream
  import opened GraphModel
  import VF = VectorStoreFormat
  import Cipher

  const MKG1: Bytes := [0x4D, 0x4B, 0x47, 0x31]
  const MKGE: Bytes := [0x4D, 0x4B, 0x47, 0x45]
  const KG_FLAG_QUANTIZED: byte := 1

  // ---------------------------------------------------------------------
  // What save() writes

  /** The names, each as its uint32 length and then its bytes. */
  function Names(ns: seq<Bytes>): Bytes
  {
    if ns == [] then [] else VF.IdField(ns[0]) + Names(ns[1..])
  }

  /** A name table: the count as uint32, then every name. */
  function NameTable(ns: seq<Bytes>): Bytes
  {
    U32(|ns| % U32_LIMIT) + Names(ns)
  }

  /** An edge: the predicate as uint16, the object as uint32. */
  function EdgeBytes(e: Edge): (b: Bytes)
    ensures |b| == 6
  {
    U16(e.pred) + U32(e.obj)
  }

  function Edges(es: seq<Edge>): Bytes
  {
    if es == [] then [] else EdgeBytes(es[0]) + Edges(es[1..])
  }

  /** One subject's list: its length as uint32, then its edges. */
  function EdgeList(es: seq<Edge>): Bytes
  {
    U32(|es| % U32_LIMIT) + Edges(es)
  }

  function Lists(adj: seq<seq<Edge>>): Bytes
  {
    if adj == [] then [] else EdgeList(adj[0]) + Lists(adj[1..])
  }

  /** The adjacency lists: their number as uint32, then each list. */
  function Adjacency(adj: seq<seq<Edge>>): Bytes
  {
    U32(|adj| % U32_LIMIT) + Lists(adj)
  }

  /** The first n elements, which is the whole vector when it has n. */
  function Prefix<T>(v: seq<T>, n: nat): seq<T>
  {
    if n <= |v| then v[..n] else v
  }

  /** A float slot: 0 for an empty one, else 1 and the first d floats. */
  function FloatSlot(v: seq<F32>, d: nat): Bytes
  {
    if v == [] then [0] else [1] + Pack(Prefix(v, d))
  }

  function FloatSlots(fs: seq<seq<F32>>, d: nat): Bytes
  {
    if fs == [] then [] else FloatSlot(fs[0], d) + FloatSlots(fs[1..], d)
  }

  /** A quantized slot: 0 for an empty one, else 1, the scale, the zero point and the first d codes. */
  function QuantSlot(c: seq<Int8>, p: VF.QParams, d: nat): Bytes
  {
    if c == [] then [0] else [1] + (p.scale + (I32(p.zeroPoint) + VF.Int8Bytes(Prefix(c, d))))
  }

  function QuantSlots(cs: seq<seq<Int8>>, ps: seq<VF.QParams>, d: nat): Bytes
    requires |cs| == |ps|
  {
    if cs == [] then [] else QuantSlot(cs[0], ps[0], d) + QuantSlots(cs[1..], ps[1..], d)
  }

  /**
   * The embeddings: the dimension and the slot count as uint32, then the
   * slots. In quantized mode only as many slots as the narrowed count are
   * written; in float mode every slot is.
   */
  function Embeddings(g: Graph): Bytes
    requires |g.codes| == |g.params|
  {
    var d := g.dim % U32_LIMIT;
    if g.quantized then
      var n := |g.codes| % U32_LIMIT;
      U32(d) + (U32(n) + QuantSlots(g.codes[..n], g.params[..n], d))
    else
      U32(d) + (U32(|g.floats| % U32_LIMIT) + FloatSlots(g.floats, d))
  }

  function Flag(g: Graph): byte { if g.quantized then KG_FLAG_QUANTIZED else 0 }

  /** Everything after the magic. */
  function Body(g: Graph): Bytes
    requires |g.codes| == |g.params|
  {
    [Flag(g)] + (NameTable(g.entityNames) + (NameTable(g.relationNames) + (Adjacency(g.adj) + Embeddings(g))))
  }

  /** The stream save() builds before deciding whether to encrypt. */
  function Serialize(g: Graph): Bytes
    requires |g.codes| == |g.params|
  {
    MKG1 + Body(g)
  }

  /** The file save() writes: the plain stream, or "MKGE" and the encrypted stream. */
  function FileImage(g: Graph, key: Bytes): Bytes
    requires |g.codes| == |g.params|
  {
    if |key| == 0 then Serialize(g) else MKGE + Cipher.XorStream(Serialize(g), key)
  }

  // save() writes each table with a loop; one more element appends its bytes.

  lemma {:induction false} NamesSnoc(ns: seq<Bytes>, x: Bytes)
    ensures Names(ns + [x]) == Names(ns) + VF.IdField(x)
    decreases |ns|
  {
    if ns == [] {
      assert ns + [x] == [x];
    } else {
      assert (ns + [x])[1..] == ns[1..] + [x];
      NamesSnoc(ns[1..], x);
    }
  }

  lemma {:induction false} EdgesSnoc(es: seq<Edge>, x: Edge)
    ensures Edges(es + [x]) == Edges(es) + EdgeBytes(x)
    decreases |es|
  {
    if es == [] {
      assert es + [x] == [x];
    } else {
      assert (es + [x])[1..] == es[1..] + [x];
      EdgesSnoc(es[1..], x);
    }
  }

  lemma {:induction false} ListsSnoc(adj: seq<seq<Edge>>, x: seq<Edge>)
    ensures Lists(adj + [x]) == Lists(adj) + EdgeList(x)
    decreases |adj|
  {
    if adj == [] {
      assert adj + [x] == [x];
    } else {
      assert (adj + [x])[1..] == adj[1..] + [x];
      ListsSnoc(adj[1..], x);
    }
  }

  lemma {:induction false} FloatSlotsSnoc(fs: seq<seq<F32>>, d: nat, x: seq<F32>)
    ensures FloatSlots(fs + [x], d) == FloatSlots(fs, d) + FloatSlot(x, d)
    decreases |fs|
  {
    if fs == [] {
      assert fs + [x] == [x];
    } else {
      assert (fs + [x])[1..] == fs[1..] + [x];
      FloatSlotsSnoc(fs[1..], d, x);
    }
  }

  lemma {:induction false} QuantSlotsSnoc(cs: seq<seq<Int8>>, ps: seq<VF.QParams>, d: nat, c: seq<Int8>, p: VF.QParams)
    requires |cs| == |ps|
    ensures QuantSlots(cs + [c], ps + [p], d) == QuantSlots(cs, ps, d) + QuantSlot(c, p, d)
    decreases |cs|
  {
    if cs == [] {
      assert cs + [c] == [c] && ps + [p] == [p];
    } else {
      assert (cs + [c])[1..] == cs[1..] + [c] && (ps + [p])[1..] == ps[1..] + [p];
      QuantSlotsSnoc(cs[1..], ps[1..], d, c, p);
    }
  }

  // ---------------------------------------------------------------------
  // What loadFromStream reads

  function Word32(b: Bytes): (n: nat)
    requires |b| == 4
    ensures n < U32_LIMIT
  {
    Pow256Values();
    DecodeLE(b)
  }

  function Word16(b: Bytes): (n: nat)
    requires |b| == 2
    ensures n < U16_LIMIT
  {
    Pow256Values();
    DecodeLE(b)
  }

  /** The next `remaining` names, appended to acc. */
  function ParseNames(r: Reader, remaining: nat, acc: seq<Bytes>): (res: (seq<Bytes>, Reader))
    requires Stream.Valid(r)
    ensures Stream.Valid(res.1) && res.1.data == r.data && |res.0| == |acc| + remaining
    decreases remaining
  {
    if remaining == 0 then (acc, r)
    else
      var (name, r1) := VF.ReadId(r);
      ParseNames(r1, remaining - 1, acc + [name])
  }

  function ReadNameTable(r: Reader): (res: (seq<Bytes>, Reader))
    requires Stream.Valid(r)
    ensures Stream.Valid(res.1) && res.1.data == r.data && |res.0| < U32_LIMIT
  {
    var (n, r1) := Read(r, 4);
    ParseNames(r1, Word32(n), [])
  }

  /** An edge; the bytes a truncated stream cannot deliver read as zero. */
  function ReadEdge(r: Reader): (res: (Edge, Reader))
    requires Stream.Valid(r)
    ensures Stream.Valid(res.1) && res.1.data == r.data
  {
    var (p, r1) := Read(r, 2);
    var (o, r2) := Read(r1, 4);
    (Edge(Word16(p), Word32(o)), r2)
  }

  function ParseEdges(r: Reader, remaining: nat, acc: seq<Edge>): (res: (seq<Edge>, Reader))
    requires Stream.Valid(r)
    ensures Stream.Valid(res.1) && res.1.data == r.data
    decreases remaining
  {
    if remaining == 0 then (acc, r)
    else
      var (e, r1) := ReadEdge(r);
      ParseEdges(r1, remaining - 1, acc + [e])
  }

  function ReadEdgeList(r: Reader): (res: (seq<Edge>, Reader))
    requires Stream.Valid(r)
    ensures Stream.Valid(res.1) && res.1.data == r.data
  {
    var (n, r1) := Read(r, 4);
    ParseEdges(r1, Word32(n), [])
  }

  function ParseLists(r: Reader, remaining: nat, acc: seq<seq<Edge>>): (res: (seq<seq<Edge>>, Reader))
    requires Stream.Valid(r)
    ensures Stream.Valid(res.1) && res.1.data == r.data
    decreases remaining
  {
    if remaining == 0 then (acc, r)
    else
      var (es, r1) := ReadEdgeList(r);
      ParseLists(r1, remaining - 1, acc + [es])
  }

  function ReadAdjacency(r: Reader): (res: (seq<seq<Edge>>, Reader))
    requires Stream.Valid(r)
    ensures Stream.Valid(res.1) && res.1.data == r.data
  {
    var (n, r1) := Read(r, 4);
    ParseLists(r1, Word32(n), [])
  }

  /** A float slot: the flag byte, and for any non-zero flag d floats. */
  function ReadFloatSlot(r: Reader, d: nat): (res: (seq<F32>, Reader))
    requires Stream.Valid(r)
    ensures Stream.Valid(res.1) && res.1.data == r.data
  {
    var (h, r1) := Read(r, 1);
    if h[0] != 0 then
      var (b, r2) := Read(r1, 4 * d);
      (Unpack(b), r2)
    else ([], r1)
  }

  function ParseFloatSlots(r: Reader, d: nat, remaining: nat, acc: seq<seq<F32>>): (res: (seq<seq<F32>>, Reader))
    requires Stream.Valid(r)
    ensures Stream.Valid(res.1) && res.1.data == r.data
    decreases remaining
  {
    if remaining == 0 then (acc, r)
    else
      var (v, r1) := ReadFloatSlot(r, d);
      ParseFloatSlots(r1, d, remaining - 1, acc + [v])
  }

  /** A quantized slot: the flag byte, and for any non-zero flag the params and d codes; otherwise value-initialised params. */
  function ReadQuantSlot(r: Reader, d: nat): (res: (seq<Int8>, VF.QParams, Reader))
    requires Stream.Valid(r)
    ensures Stream.Valid(res.2) && res.2.data == r.data
  {
    var (h, r1) := Read(r, 1);
    if h[0] != 0 then
      var (scale, r2) := Read(r1, 4);
      var (zp, r3) := Read(r2, 4);
      var (codes, r4) := Read(r3, d);
      (VF.Int8sOf(codes), VF.QParams(scale, I32Of(zp)), r4)
    else ([], NO_PARAMS, r1)
  }

  function ParseQuantSlots(r: Reader, d: nat, remaining: nat, cs: seq<seq<Int8>>, ps: seq<VF.QParams>): (res: (seq<seq<Int8>>, seq<VF.QParams>, Reader))
    requires Stream.Valid(r)
    ensures Stream.Valid(res.2) && res.2.data == r.data
    decreases remaining
  {
    if remaining == 0 then (cs, ps, r)
    else
      var (c, p, r1) := ReadQuantSlot(r, d);
      ParseQuantSlots(r1, d, remaining - 1, cs + [c], ps + [p])
  }

  /** The embedding part of a graph as loadFromStream leaves it. */
  datatype Embedded = Embedded(dim: nat, floats: seq<seq<F32>>, codes: seq<seq<Int8>>, params: seq<VF.QParams>)

  function ReadEmbeddings(r: Reader, quantized: bool): (res: (Embedded, Reader))
    requires Stream.Valid(r)
    ensures Stream.Valid(res.1) && res.1.data == r.data
  {
    var (db, r1) := Read(r, 4);
    var (cb, r2) := Read(r1, 4);
    var dim := Word32(db);
    if quantized then
      var (cs, ps, r3) := ParseQuantSlots(r2, dim, Word32(cb), [], []);
      (Embedded(dim, [], cs, ps), r3)
    else
      var (fs, r3) := ParseFloatSlots(r2, dim, Word32(cb), []);
      (Embedded(dim, fs, [], []), r3)
  }

  /**
   * loadFromStream: whatever the old state, the graph is rebuilt from the
   * stream (the mode taken from bit 0 of the flags, each name mapped to
   * its position with a later repeat winning), and the result is whether
   * the stream stayed good.
   */
  function ParseGraph(r: Reader): (Graph, bool)
    requires Stream.Valid(r)
  {
    var flags := Read(r, 1);
    var quantized := flags.0[0] as int % 2 == 1;
    var names := ReadNameTable(flags.1);
    var rels := ReadNameTable(names.1);
    var adj := ReadAdjacency(rels.1);
    var e := ReadEmbeddings(adj.1, quantized);
    (Graph(quantized, e.0.dim, EntityIndex(names.0), names.0, RelationIndex(rels.0), rels.0, adj.0, e.0.floats, e.0.codes, e.0.params),
     e.1.good)
  }

  /**
   * load(): the state afterwards and the result, for a file that could be
   * opened. "MKGE" needs a key and a decrypted stream that starts with
   * "MKG1"; any other header is refused. A refusal keeps the old state.
   */
  function LoadFile(file: Bytes, key: Bytes, prior: Graph): (Graph, bool)
  {
    if VF.StartsWith(file, MKGE) then
      if |key| == 0 then (prior, false)
      else
        var plain := Cipher.XorStream(file[4..], key);
        if !VF.StartsWith(plain, MKG1) then (prior, false)
        else ParseGraph(From(plain, 4))
    else if VF.StartsWith(file, MKG1) then ParseGraph(From(file, 4))
    else (prior, false)
  }

  // ---------------------------------------------------------------------
  // Round trip

  predicate ShortNames(ns: seq<Bytes>)
  {
    forall i | 0 <= i < |ns| :: |ns[i]| < U32_LIMIT
  }

  predicate ShortLists(adj: seq<seq<Edge>>)
  {
    forall i | 0 <= i < |adj| :: |adj[i]| < U32_LIMIT
  }

  /** Every count and length save() narrows to uint32 fits it. */
  predicate Representable(g: Graph)
  {
    && |g.entityNames| < U32_LIMIT && ShortNames(g.entityNames)
    && |g.relationNames| < U32_LIMIT && ShortNames(g.relationNames)
    && |g.adj| < U32_LIMIT && ShortLists(g.adj)
    && g.dim < U32_LIMIT && |g.floats| < U32_LIMIT && |g.codes| < U32_LIMIT
  }

  lemma Assoc<T>(a: seq<T>, b: seq<T>, c: seq<T>)
    ensures (a + b) + c == a + (b + c)
  {
  }

  lemma ConsBack<T>(acc: seq<T>, s: seq<T>)
    requires s != []
    ensures acc + [s[0]] + s[1..] == acc + s
  {
  }

  lemma SkipSkip(r: Reader, a: nat, b: nat)
    ensures Skip(Skip(r, a), b) == Skip(r, a + b)
  {
  }

  /** A uint32 count followed by a body: the count reads back and the stream moves on to the body. */
  lemma CountedBack(r: Reader, k: nat, body: Bytes)
    requires k < U32_LIMIT && At(r, U32(k % U32_LIMIT) + body)
    ensures Read(r, 4) == (U32(k % U32_LIMIT), Skip(r, 4)) && Word32(U32(k % U32_LIMIT)) == k
    ensures At(Skip(r, 4), body) && Skip(Skip(r, 4), |body|) == Skip(r, |U32(k % U32_LIMIT) + body|)
  {
    NarrowFits(k, U32_LIMIT);
    U32RoundTrip(k);
    AtSplit(r, U32(k), body);
  }

  /** The stream is at the encoding of `count` names, each short enough to have been written. */
  predicate NamesAt(r: Reader, ns: seq<Bytes>, count: nat)
  {
    count == |ns| && ShortNames(ns) && At(r, Names(ns))
  }

  /** One name off the front: parsing continues past its n bytes with that name appended. */
  lemma NamesStep(r: Reader, ns: seq<Bytes>, count: nat, acc: seq<Bytes>) returns (n: nat, m: nat)
    requires NamesAt(r, ns, count) && count > 0
    ensures NamesAt(Skip(r, n), ns[1..], count - 1) && m == |Names(ns[1..])|
    ensures ParseNames(r, count, acc) == ParseNames(Skip(r, n), count - 1, acc + [ns[0]])
    ensures acc + [ns[0]] + ns[1..] == acc + ns && Skip(Skip(r, n), m) == Skip(r, |Names(ns)|)
  {
    n, m := 4 + |ns[0]|, |Names(ns[1..])|;
    assert |ns[0]| < U32_LIMIT;
    VF.IdFieldExact(ns[0]);
    VF.ReadIdBack(r, ns[0], Names(ns[1..]));
    ConsBack(acc, ns);
  }

  lemma {:induction false} NamesBack(r: Reader, ns: seq<Bytes>, count: nat, acc: seq<Bytes>)
    requires NamesAt(r, ns, count)
    ensures ParseNames(r, count, acc).0 == acc + ns
    ensures ParseNames(r, count, acc).1 == Skip(r, |Names(ns)|)
    decreases count
  {
    if count == 0 {
      assert acc + ns == acc && Skip(r, 0) == r;
    } else {
      var n, m := NamesStep(r, ns, count, acc);
      NamesBack(Skip(r, n), ns[1..], count - 1, acc + [ns[0]]);
    }
  }

  lemma NameTableBack(r: Reader, ns: seq<Bytes>)
    requires |ns| < U32_LIMIT && ShortNames(ns) && At(r, NameTable(ns))
    ensures ReadNameTable(r) == (ns, Skip(r, |NameTable(ns)|))
  {
    CountedBack(r, |ns|, Names(ns));
    NamesBack(Skip(r, 4), ns, |ns|, []);
    assert [] + ns == ns;
  }

  lemma EdgeBack(r: Reader, e: Edge)
    requires At(r, EdgeBytes(e))
    ensures ReadEdge(r) == (e, Skip(r, 6))
  {
    AtSplit(r, U16(e.pred), U32(e.obj));
    AtSplit(Skip(r, 2), U32(e.obj), []);
    U16RoundTrip(e.pred);
    U32RoundTrip(e.obj);
  }

  /** One edge off the front: parsing continues past its 6 bytes with that edge appended. */
  lemma EdgesStep(r: Reader, es: seq<Edge>, count: nat, acc: seq<Edge>) returns (m: nat)
    requires count == |es| > 0 && At(r, Edges(es))
    ensures At(Skip(r, 6), Edges(es[1..])) && m == |Edges(es[1..])|
    ensures ParseEdges(r, count, acc) == ParseEdges(Skip(r, 6), count - 1, acc + [es[0]])
    ensures acc + [es[0]] + es[1..] == acc + es && Skip(Skip(r, 6), m) == Skip(r, |Edges(es)|)
  {
    m := |Edges(es[1..])|;
    AtSplit(r, EdgeBytes(es[0]), Edges(es[1..]));
    EdgeBack(r, es[0]);
    ConsBack(acc, es);
  }

  lemma {:induction false} EdgesBack(r: Reader, es: seq<Edge>, count: nat, acc: seq<Edge>)
    requires count == |es| && At(r, Edges(es))
    ensures ParseEdges(r, count, acc).0 == acc + es
    ensures ParseEdges(r, count, acc).1 == Skip(r, |Edges(es)|)
    decreases count
  {
    if count == 0 {
      assert acc + es == acc && Skip(r, 0) == r;
    } else {
      var m := EdgesStep(r, es, count, acc);
      EdgesBack(Skip(r, 6), es[1..], count - 1, acc + [es[0]]);
    }
  }

  lemma EdgeListBack(r: Reader, es: seq<Edge>)
    requires |es| < U32_LIMIT && At(r, EdgeList(es))
    ensures ReadEdgeList(r) == (es, Skip(r, |EdgeList(es)|))
  {
    CountedBack(r, |es|, Edges(es));
    EdgesBack(Skip(r, 4), es, |es|, []);
    assert [] + es == es;
  }

  /** The stream is at the encoding of `count` adjacency lists, each short enough to have been written. */
  predicate ListsAt(r: Reader, adj: seq<seq<Edge>>, count: nat)
  {
    count == |adj| && ShortLists(adj) && At(r, Lists(adj))
  }

  /** One list off the front: parsing continues past its n bytes with that list appended. */
  lemma ListsStep(r: Reader, adj: seq<seq<Edge>>, count: nat, acc: seq<seq<Edge>>) returns (n: nat, m: nat)
    requires ListsAt(r, adj, count) && count > 0
    ensures ListsAt(Skip(r, n), adj[1..], count - 1) && m == |Lists(adj[1..])|
    ensures ParseLists(r, count, acc) == ParseLists(Skip(r, n), count - 1, acc + [adj[0]])
    ensures acc + [adj[0]] + adj[1..] == acc + adj && Skip(Skip(r, n), m) == Skip(r, |Lists(adj)|)
  {
    n, m := |EdgeList(adj[0])|, |Lists(adj[1..])|;
    assert |adj[0]| < U32_LIMIT;
    AtSplit(r, EdgeList(adj[0]), Lists(adj[1..]));
    EdgeListBack(r, adj[0]);
    ConsBack(acc, adj);
  }

  lemma {:induction false} ListsBack(r: Reader, adj: seq<seq<Edge>>, count: nat, acc: seq<seq<Edge>>)
    requires ListsAt(r, adj, count)
    ensures ParseLists(r, count, acc).0 == acc + adj
    ensures ParseLists(r, count, acc).1 == Skip(r, |Lists(adj)|)
    decreases count
  {
    if count == 0 {
      assert acc + adj == acc && Skip(r, 0) == r;
    } else {
      var n, m := ListsStep(r, adj, count, acc);
      ListsBack(Skip(r, n), adj[1..], count - 1, acc + [adj[0]]);
    }
  }

  lemma AdjacencyBack(r: Reader, adj: seq<seq<Edge>>)
    requires |adj| < U32_LIMIT && ShortLists(adj) && At(r, Adjacency(adj))
    ensures ReadAdjacency(r) == (adj, Skip(r, |Adjacency(adj)|))
  {
    CountedBack(r, |adj|, Lists(adj));
    ListsBack(Skip(r, 4), adj, |adj|, []);
    assert [] + adj == adj;
  }

  lemma FloatSlotBack(r: Reader, v: seq<F32>, d: nat)
    requires (v == [] || |v| == d) && At(r, FloatSlot(v, d))
    ensures ReadFloatSlot(r, d) == (v, Skip(r, |FloatSlot(v, d)|))
  {
    if v == [] {
      AtSplit(r, [0], []);
    } else {
      assert Prefix(v, d) == v;
      AtSplit(r, [1], Pack(v));
      AtSplit(Skip(r, 1), Pack(v), []);
      UnpackPack(v);
      SkipSkip(r, 1, 4 * d);
    }
  }

  predicate FloatSlotsFit(fs: seq<seq<F32>>, d: nat)
  {
    forall i | 0 <= i < |fs| :: fs[i] == [] || |fs[i]| == d
  }

  /** The stream is at the encoding of `count` float slots of dimension d. */
  predicate FloatSlotsAt(r: Reader, fs: seq<seq<F32>>, d: nat, count: nat)
  {
    count == |fs| && FloatSlotsFit(fs, d) && At(r, FloatSlots(fs, d))
  }

  /** One slot off the front: parsing continues past its n bytes with that slot appended. */
  lemma FloatSlotsStep(r: Reader, fs: seq<seq<F32>>, d: nat, count: nat, acc: seq<seq<F32>>) returns (n: nat, m: nat)
    requires FloatSlotsAt(r, fs, d, count) && count > 0
    ensures FloatSlotsAt(Skip(r, n), fs[1..], d, count - 1) && m == |FloatSlots(fs[1..], d)|
    ensures ParseFloatSlots(r, d, count, acc) == ParseFloatSlots(Skip(r, n), d, count - 1, acc + [fs[0]])
    ensures acc + [fs[0]] + fs[1..] == acc + fs && Skip(Skip(r, n), m) == Skip(r, |FloatSlots(fs, d)|)
  {
    n, m := |FloatSlot(fs[0], d)|, |FloatSlots(fs[1..], d)|;
    assert fs[0] == [] || |fs[0]| == d;
    AtSplit(r, FloatSlot(fs[0], d), FloatSlots(fs[1..], d));
    FloatSlotBack(r, fs[0], d);
    ConsBack(acc, fs);
  }

  lemma {:induction false} FloatSlotsBack(r: Reader, fs: seq<seq<F32>>, d: nat, count: nat, acc: seq<seq<F32>>)
    requires FloatSlotsAt(r, fs, d, count)
    ensures ParseFloatSlots(r, d, count, acc).0 == acc + fs
    ensures ParseFloatSlots(r, d, count, acc).1 == Skip(r, |FloatSlots(fs, d)|)
    decreases count
  {
    if count == 0 {
      assert acc + fs == acc && Skip(r, 0) == r;
    } else {
      var n, m := FloatSlotsStep(r, fs, d, count, acc);
      FloatSlotsBack(Skip(r, n), fs[1..], d, count - 1, acc + [fs[0]]);
    }
  }

  lemma QuantSlotBack(r: Reader, c: seq<Int8>, p: VF.QParams, d: nat)
    requires (if c == [] then p == NO_PARAMS else |c| == d) && At(r, QuantSlot(c, p, d))
    ensures ReadQuantSlot(r, d) == (c, p, Skip(r, |QuantSlot(c, p, d)|))
  {
    if c == [] {
      AtSplit(r, [0], []);
    } else {
      var z := I32(p.zeroPoint);
      var b := VF.Int8Bytes(c);
      assert Prefix(c, d) == c;
      AtSplit(r, [1], p.scale + (z + b));
      AtSplit(Skip(r, 1), p.scale, z + b);
      AtSplit(Skip(r, 5), z, b);
      AtSplit(Skip(r, 9), b, []);
      I32RoundTrip(p.zeroPoint);
      VF.Int8RoundTrip(c);
      assert Skip(Skip(r, 9), d) == Skip(r, |QuantSlot(c, p, d)|);
    }
  }

  /** The slot invariant save() relies on: an empty slot has value-initialised params, a full one d codes. */
  predicate QuantSlotsFit(cs: seq<seq<Int8>>, ps: seq<VF.QParams>, d: nat)
    requires |cs| == |ps|
  {
    forall i | 0 <= i < |cs| :: if cs[i] == [] then ps[i] == NO_PARAMS else |cs[i]| == d
  }

  /** The stream is at the encoding of `count` quantized slots of dimension d. */
  predicate QuantSlotsAt(r: Reader, cs: seq<seq<Int8>>, ps: seq<VF.QParams>, d: nat, count: nat)
  {
    count == |cs| == |ps| && QuantSlotsFit(cs, ps, d) && At(r, QuantSlots(cs, ps, d))
  }

  /** One slot off the front: parsing continues past its n bytes with that slot appended. */
  lemma QuantSlotsStep(r: Reader, cs: seq<seq<Int8>>, ps: seq<VF.QParams>, d: nat, count: nat, accC: seq<seq<Int8>>, accP: seq<VF.QParams>)
    returns (n: nat, m: nat)
    requires QuantSlotsAt(r, cs, ps, d, count) && count > 0
    ensures QuantSlotsAt(Skip(r, n), cs[1..], ps[1..], d, count - 1) && m == |QuantSlots(cs[1..], ps[1..], d)|
    ensures ParseQuantSlots(r, d, count, accC, accP)
      == ParseQuantSlots(Skip(r, n), d, count - 1, accC + [cs[0]], accP + [ps[0]])
    ensures accC + [cs[0]] + cs[1..] == accC + cs && accP + [ps[0]] + ps[1..] == accP + ps
    ensures Skip(Skip(r, n), m) == Skip(r, |QuantSlots(cs, ps, d)|)
  {
    n, m := |QuantSlot(cs[0], ps[0], d)|, |QuantSlots(cs[1..], ps[1..], d)|;
    assert if cs[0] == [] then ps[0] == NO_PARAMS else |cs[0]| == d;
    AtSplit(r, QuantSlot(cs[0], ps[0], d), QuantSlots(cs[1..], ps[1..], d));
    QuantSlotBack(r, cs[0], ps[0], d);
    ConsBack(accC, cs);
    ConsBack(accP, ps);
  }

  lemma {:induction false} QuantSlotsBack(r: Reader, cs: seq<seq<Int8>>, ps: seq<VF.QParams>, d: nat, count: nat, accC: seq<seq<Int8>>, accP: seq<VF.QParams>)
    requires QuantSlotsAt(r, cs, ps, d, count)
    ensures ParseQuantSlots(r, d, count, accC, accP).0 == accC + cs
    ensures ParseQuantSlots(r, d, count, accC, accP).1 == accP + ps
    ensures ParseQuantSlots(r, d, count, accC, accP).2 == Skip(r, |QuantSlots(cs, ps, d)|)
    decreases count
  {
    if count == 0 {
      assert accC + cs == accC && accP + ps == accP && Skip(r, 0) == r;
    } else {
      var n, m := QuantSlotsStep(r, cs, ps, d, count, accC, accP);
      QuantSlotsBack(Skip(r, n), cs[1..], ps[1..], d, count - 1, accC + [cs[0]], accP + [ps[0]]);
    }
  }

  /** A stream at a + (b + c) is at each part in turn. */
  lemma AtThree(r: Reader, a: Bytes, b: Bytes, c: Bytes)
    requires At(r, a + (b + c))
    ensures At(r, a) && At(Skip(r, |a|), b) && At(Skip(r, |a| + |b|), c)
  {
    AtSplit(r, a, b + c);
    AtSplit(Skip(r, |a|), b, c);
  }

  /** A stream at a + (b + (c + (d + e))) is at each part in turn. */
  lemma AtFive(r: Reader, a: Bytes, b: Bytes, c: Bytes, d: Bytes, e: Bytes)
    requires At(r, a + (b + (c + (d + e))))
    ensures var r1 := Skip(r, |a|); var r2 := Skip(r1, |b|); var r3 := Skip(r2, |c|);
      At(r, a) && At(r1, b) && At(r2, c) && At(r3, d) && At(Skip(r3, |d|), e)
  {
    AtThree(r, a, b, c + (d + e));
    AtThree(Skip(r, |a| + |b|), c, d, e);
  }

  /** With every count in range, the quantized embeddings are the two counts and every slot. */
  lemma QuantEmbeddingsShape(g: Graph)
    requires g.quantized && |g.codes| == |g.params| < U32_LIMIT && g.dim < U32_LIMIT
    ensures Embeddings(g) == U32(g.dim % U32_LIMIT) + (U32(|g.codes| % U32_LIMIT) + QuantSlots(g.codes, g.params, g.dim))
  {
    var n := |g.codes|;
    assert n % U32_LIMIT == n && g.dim % U32_LIMIT == g.dim;
    assert g.codes[..n] == g.codes && g.params[..n] == g.params;
  }

  lemma QuantEmbeddingsBack(r: Reader, g: Graph)
    requires g.quantized && |g.codes| == |g.params| < U32_LIMIT && g.dim < U32_LIMIT
    requires QuantSlotsFit(g.codes, g.params, g.dim) && At(r, Embeddings(g))
    ensures ReadEmbeddings(r, true) == (Embedded(g.dim, [], g.codes, g.params), Skip(r, |Embeddings(g)|))
  {
    var n := |g.codes|;
    var body := QuantSlots(g.codes, g.params, g.dim);
    QuantEmbeddingsShape(g);
    CountedBack(r, g.dim, U32(n % U32_LIMIT) + body);
    CountedBack(Skip(r, 4), n, body);
    QuantSlotsBack(Skip(Skip(r, 4), 4), g.codes, g.params, g.dim, n, [], []);
    assert [] + g.codes == g.codes && [] + g.params == g.params;
  }

  lemma FloatEmbeddingsBack(r: Reader, g: Graph)
    requires !g.quantized && g.codes == [] && g.params == [] && |g.floats| < U32_LIMIT && g.dim < U32_LIMIT
    requires FloatSlotsFit(g.floats, g.dim) && At(r, Embeddings(g))
    ensures ReadEmbeddings(r, false) == (Embedded(g.dim, g.floats, [], []), Skip(r, |Embeddings(g)|))
  {
    var n := |g.floats|;
    var body := FloatSlots(g.floats, g.dim);
    CountedBack(r, g.dim, U32(n % U32_LIMIT) + body);
    CountedBack(Skip(r, 4), n, body);
    FloatSlotsBack(Skip(Skip(r, 4), 4), g.floats, g.dim, n, []);
    assert [] + g.floats == g.floats;
  }

  lemma EmbeddingsBack(r: Reader, g: Graph)
    requires StorageValid(g.quantized, g.dim, g.floats, g.codes, g.params) && Representable(g) && At(r, Embeddings(g))
    ensures ReadEmbeddings(r, g.quantized) == (Embedded(g.dim, g.floats, g.codes, g.params), Skip(r, |Embeddings(g)|))
  {
    if g.quantized {
      assert g.floats == [];
      assert QuantSlotsFit(g.codes, g.params, g.dim);
      QuantEmbeddingsBack(r, g);
    } else {
      assert g.codes == [] && g.params == [];
      assert FloatSlotsFit(g.floats, g.dim);
      FloatEmbeddingsBack(r, g);
    }
  }

  /** Bit 0 of the flag byte save() writes is the quantization mode. */
  lemma FlagBit(g: Graph)
    ensures (Flag(g) as int % 2 == 1) == g.quantized
  {
  }

  /** loadFromStream assembles the graph from what its five reads deliver. */
  lemma ParseGraphParts(r: Reader, flag: byte, names: seq<Bytes>, rels: seq<Bytes>, adj: seq<seq<Edge>>, e: Embedded,
                        r1: Reader, r2: Reader, r3: Reader, r4: Reader, r5: Reader)
    requires Stream.Valid(r) && Read(r, 1) == ([flag], r1) && ReadNameTable(r1) == (names, r2)
    requires ReadNameTable(r2) == (rels, r3) && ReadAdjacency(r3) == (adj, r4)
    requires ReadEmbeddings(r4, flag as int % 2 == 1) == (e, r5)
    ensures ParseGraph(r) == (Graph(flag as int % 2 == 1, e.dim, EntityIndex(names), names, RelationIndex(rels), rels,
                                    adj, e.floats, e.codes, e.params), r5.good)
  {
    assert Read(r, 1).0[0] == flag;
  }

  /** The flag and the three tables come back from a stream at their encodings, one after the other. */
  lemma TablesBack(g: Graph, r: Reader)
    requires Representable(g)
    requires var r1 := Skip(r, 1); var r2 := Skip(r1, |NameTable(g.entityNames)|);
      && At(r, [Flag(g)]) && At(r1, NameTable(g.entityNames)) && At(r2, NameTable(g.relationNames))
      && At(Skip(r2, |NameTable(g.relationNames)|), Adjacency(g.adj))
    ensures var r1 := Skip(r, 1); var r2 := Skip(r1, |NameTable(g.entityNames)|);
      var r3 := Skip(r2, |NameTable(g.relationNames)|);
      && Read(r, 1) == ([Flag(g)], r1) && ReadNameTable(r1) == (g.entityNames, r2)
      && ReadNameTable(r2) == (g.relationNames, r3) && ReadAdjacency(r3) == (g.adj, Skip(r3, |Adjacency(g.adj)|))
  {
    var r1 := Skip(r, 1);
    var r2 := Skip(r1, |NameTable(g.entityNames)|);
    ReadNext(r, [Flag(g)]);
    NameTableBack(r1, g.entityNames);
    NameTableBack(r2, g.relationNames);
    AdjacencyBack(Skip(r2, |NameTable(g.relationNames)|), g.adj);
  }

  /** A stream positioned at save()'s body, part by part, parses back into the graph, and stays good. */
  lemma StreamBack(g: Graph, r: Reader)
    requires NamesValid(g) && StorageValid(g.quantized, g.dim, g.floats, g.codes, g.params) && Representable(g)
    requires var r1 := Skip(r, 1); var r2 := Skip(r1, |NameTable(g.entityNames)|);
      var r3 := Skip(r2, |NameTable(g.relationNames)|);
      && At(r, [Flag(g)]) && At(r1, NameTable(g.entityNames)) && At(r2, NameTable(g.relationNames))
      && At(r3, Adjacency(g.adj)) && At(Skip(r3, |Adjacency(g.adj)|), Embeddings(g))
    ensures ParseGraph(r) == (g, true)
  {
    var r1 := Skip(r, 1);
    var r2 := Skip(r1, |NameTable(g.entityNames)|);
    var r3 := Skip(r2, |NameTable(g.relationNames)|);
    var r4 := Skip(r3, |Adjacency(g.adj)|);
    TablesBack(g, r);
    EmbeddingsBack(r4, g);
    FlagBit(g);
    ParseGraphParts(r, Flag(g), g.entityNames, g.relationNames, g.adj,
                    Embedded(g.dim, g.floats, g.codes, g.params), r1, r2, r3, r4, Skip(r4, |Embeddings(g)|));
  }

  /** Parsing the stream save() builds, after its magic, gives back the graph. */
  lemma SerializeRoundTrip(g: Graph)
    requires GraphModel.Valid(g) && Representable(g)
    ensures ParseGraph(From(Serialize(g), 4)) == (g, true)
  {
    var r := From(Serialize(g), 4);
    AtAfter(Serialize(g), MKG1, Body(g));
    AtFive(r, [Flag(g)], NameTable(g.entityNames), NameTable(g.relationNames), Adjacency(g.adj), Embeddings(g));
    StreamBack(g, r);
  }

  /** The plain stream starts with "MKG1" and so not with "MKGE". */
  lemma SerializeMagic(g: Graph)
    requires |g.codes| == |g.params|
    ensures VF.StartsWith(Serialize(g), MKG1) && !VF.StartsWith(Serialize(g), MKGE)
  {
    var plain := Serialize(g);
    assert plain[..4] == MKG1;
    assert plain[3] != MKGE[3];
  }

  /** load(save(g, key), key) restores g and reports success, with or without a key. */
  lemma SaveLoadRoundTrip(g: Graph, key: Bytes, prior: Graph)
    requires GraphModel.Valid(g) && Representable(g)
    ensures LoadFile(FileImage(g, key), key, prior) == (g, true)
  {
    var plain := Serialize(g);
    SerializeMagic(g);
    SerializeRoundTrip(g);
    if |key| > 0 {
      var file := MKGE + Cipher.XorStream(plain, key);
      assert file[..4] == MKGE && file[4..] == Cipher.XorStream(plain, key);
      Cipher.RoundTrip(plain, key);
    }
  }

  /** An encrypted file is refused without a key, and the graph is left as it was. */
  lemma EncryptedNeedsKey(g: Graph, key: Bytes, prior: Graph)
    requires |g.codes| == |g.params| && |key| > 0
    ensures LoadFile(FileImage(g, key), [], prior) == (prior, false)
  {
  }

  /**
   * A file encrypted under one key and loaded with another whose key stream
   * differs within the first four bytes fails the inner "MKG1" check, and
   * the graph is left as it was.
   */
  lemma WrongKeyRefused(g: Graph, key: Bytes, key2: Bytes, j: nat, prior: Graph)
    requires |g.codes| == |g.params| && |key| > 0 && |key2| > 0
    requires j < 4 && key2[j % |key2|] != key[j % |key|]
    ensures LoadFile(FileImage(g, key), key2, prior) == (prior, false)
  {
    var plain := Serialize(g);
    var file := FileImage(g, key);
    assert file[..4] == MKGE && file[4..] == Cipher.XorStream(plain, key);
    Cipher.WrongKeyChangesByte(plain, key, key2, j);
    assert plain[j] == MKG1[j];
  }

  /** A file too short for a header, or whose first four bytes are neither "MKG1" nor "MKGE", is refused, the graph left as it was. */
  lemma UnknownMagicRefused(file: Bytes, key: Bytes, prior: Graph)
    requires |file| < 4 || (file[..4] != MKG1 && file[..4] != MKGE)
    ensures LoadFile(file, key, prior) == (prior, false)
  {
  }

  /** Once the stream is bad, every table reads as empty and the dimension as zero. */
  lemma BadStreamReadsEmpty(r: Reader)
    requires Stream.Valid(r) && !r.good
    ensures ReadNameTable(r) == ([], r) && ReadAdjacency(r) == ([], r)
    ensures ReadEmbeddings(r, false) == (Embedded(0, [], [], []), r)
  {
    assert Word32(Zeros(4)) == 0 by { assert Zeros(4) == [0] + Zeros(3); }
  }

  /**
   * A file holding only the magic is accepted as a header and fails as a
   * stream, and loadFromStream has already reset the graph: it is left
   * empty, in float mode, whatever it held before.
   */
  lemma HeaderOnlyFile(prior: Graph)
    ensures LoadFile(MKG1, [], prior) == (Empty(false), false)
  {
    assert !VF.StartsWith(MKG1, MKGE) by { assert MKG1[3] != MKGE[3]; }
    assert VF.StartsWith(MKG1, MKG1);
    var r := From(MKG1, 4);
    var (flags, r1) := Read(r, 1);
    assert flags == [0] && !r1.good;
    BadStreamReadsEmpty(r1);
  }
}
