// The KnowledgeGraph class: the interning tables, the adjacency lists and
// the embedding tables as fields, updated in place. Each method is proved
// against the function of GraphModel or GraphFormat that describes the
// state it reads or leaves.

module GraphStore {
  import opened ByteCodec
  import opened Float32
  import opened Stream
  import opened Ranking
  import opened GraphModel
  import opened GraphFormat
  import VF = VectorStoreFormat
  import Q = Quantizer
  import Cipher
  import OrderedMap

  class KnowledgeGraph {
    var quantized: bool                     // use_quantization_
    var dim: nat                            // embedding_dim_
    var entityIds: map<Bytes, EntityId>     // entity_map_
    var entityNames: seq<Bytes>             // entity_names_
    var relationIds: map<Bytes, RelationId> // relation_map_
    var relationNames: seq<Bytes>           // relation_names_
    var adj: seq<seq<Edge>>                 // adj_list_
    var floats: seq<seq<F32>>               // entity_embeddings_
    var codes: seq<seq<Int8>>               // entity_quantized_embeddings_
    var params: seq<VF.QParams>             // entity_quant_params_

    /** The fields as a value. */
    function State(): Graph
      reads this
    {
      Graph(quantized, dim, entityIds, entityNames, relationIds, relationNames, adj, floats, codes, params)
    }

    constructor(useQuantization: bool)
      ensures State() == Empty(useQuantization)
    {
      quantized := useQuantization;
      dim := 0;
      entityIds := map[];
      entityNames := [];
      relationIds := map[];
      relationNames := [];
      adj := [];
      floats := [];
      codes := [];
      params := [];
    }

    /** add_entity: a known name's id, or the next id with the name interned and its list made to exist. */
    method AddEntity(name: Bytes) returns (id: EntityId)
      modifies this
      ensures (State(), id) == GraphModel.AddEntity(old(State()), name)
    {
      ghost var g0 := State();
      if name in entityIds {
        return entityIds[name];
      }
      id := |entityNames| % U32_LIMIT;   // static_cast<EntityId>(size)
      entityNames := entityNames + [name];
      entityIds := entityIds[name := id];
      if |adj| <= id {
        adj := Resize(adj, id + 1, []);
      }
      NewEntity(g0, name);
    }

    /** get_entity_name. */
    method GetEntityName(id: EntityId) returns (name: Bytes)
      ensures name == EntityName(State(), id)
      ensures id < |entityNames| ==> name == entityNames[id]
      ensures id >= |entityNames| ==> name == []
    {
      if id < |entityNames| {
        return entityNames[id];
      }
      return [];
    }

    /** has_entity. */
    method HasEntity(name: Bytes) returns (b: bool)
      ensures b == GraphModel.HasEntity(State(), name)
      ensures NamesValid(State()) ==> (b <==> name in entityNames)
    {
      b := name in entityIds;
      if NamesValid(State()) {
        EntityIndexLookup(entityNames, name);
      }
    }

    /** add_relation. */
    method AddRelation(name: Bytes) returns (id: RelationId)
      modifies this
      ensures (State(), id) == GraphModel.AddRelation(old(State()), name)
    {
      if name in relationIds {
        return relationIds[name];
      }
      id := |relationNames| % U16_LIMIT;   // static_cast<RelationId>(size)
      relationNames := relationNames + [name];
      relationIds := relationIds[name := id];
    }

    /** get_relation_name. */
    method GetRelationName(id: RelationId) returns (name: Bytes)
      ensures name == RelationName(State(), id)
      ensures id < |relationNames| ==> name == relationNames[id]
      ensures id >= |relationNames| ==> name == []
    {
      if id < |relationNames| {
        return relationNames[id];
      }
      return [];
    }

    /** add_fact(ids): the subject's list grown to reach it, then the edge appended unless the scan finds it. */
    method AddFactIds(sub: EntityId, pred: RelationId, obj: EntityId)
      modifies this
      ensures State() == GraphModel.AddFactIds(old(State()), sub, pred, obj)
    {
      if |adj| <= sub {
        ResizeWithEmpty(adj, sub + 1);
        adj := Resize(adj, sub + 1, []);
      }
      var found := ContainsEdge(adj[sub], Edge(pred, obj));
      if !found {
        adj := adj[sub := adj[sub] + [Edge(pred, obj)]];
      }
    }

    /** add_fact(names): subject, predicate and object interned in that order, then the edge added. */
    method AddFact(sub: Bytes, pred: Bytes, obj: Bytes)
      modifies this
      ensures State() == GraphModel.AddFact(old(State()), sub, pred, obj)
    {
      ghost var g0 := State();
      var s := AddEntity(sub);
      ghost var g1 := State();
      var p := AddRelation(pred);
      ghost var g2 := State();
      var o := AddEntity(obj);
      AddFactIds(s, p, o);
      assert GraphModel.AddEntity(g0, sub) == (g1, s);
      assert GraphModel.AddRelation(g1, pred) == (g2, p);
    }

    /** query_objects: the objects of the subject's edges labelled pred, in list order. */
    method QueryObjects(sub: EntityId, pred: RelationId) returns (r: seq<EntityId>)
      ensures r == GraphModel.QueryObjects(State(), sub, pred)
      ensures forall x :: x in r <==> sub < |adj| && Edge(pred, x) in adj[sub]
    {
      QueryObjectsMembers(State(), sub, pred);
      if sub >= |adj| {
        return [];
      }
      var edges := adj[sub];
      r := [];
      var i := 0;
      while i < |edges|
        invariant 0 <= i <= |edges|
        invariant r == ObjectsOf(edges[..i], pred)
      {
        assert edges[..i + 1][..i] == edges[..i];
        if edges[i].pred == pred {
          r := r + [edges[i].obj];
        }
        i := i + 1;
      }
      assert edges[..i] == edges;
    }

    /**
     * query_subjects: every subject whose list holds (pred, obj), in
     * ascending order. The uint32 loop counter only terminates while the
     * lists number fewer than 2^32.
     */
    method QuerySubjects(pred: RelationId, obj: EntityId) returns (r: seq<EntityId>)
      requires |adj| < U32_LIMIT
      ensures r == GraphModel.QuerySubjects(State(), pred, obj)
      ensures forall i, j | 0 <= i < j < |r| :: r[i] <= r[j]
    {
      r := [];
      var sub := 0;
      while sub < |adj|
        invariant 0 <= sub <= |adj|
        invariant r == SubjectsOf(adj[..sub], pred, obj)
      {
        var edges := adj[sub];
        ghost var before := r;
        var j := 0;
        while j < |edges|
          invariant 0 <= j <= |edges|
          invariant r == before + SubjectRun(edges[..j], pred, obj, sub)
        {
          assert edges[..j + 1][..j] == edges[..j];
          if edges[j] == Edge(pred, obj) {
            r := r + [sub];
          }
          j := j + 1;
        }
        assert edges[..j] == edges;
        assert adj[..sub + 1][..sub] == adj[..sub];
        sub := sub + 1;
      }
      assert adj[..sub] == adj;
      SubjectsOfAscending(adj, pred, obj);
    }

    /** num_entities. */
    method NumEntities() returns (n: nat)
      ensures n == GraphModel.NumEntities(State())
      ensures NamesValid(State()) ==> n <= U32_LIMIT
    {
      n := |entityNames|;
    }

    /** num_facts: the lengths of the lists summed. */
    method NumFacts() returns (n: nat)
      ensures n == GraphModel.NumFacts(State())
    {
      n := 0;
      var i := 0;
      while i < |adj|
        invariant 0 <= i <= |adj|
        invariant n == EdgeCount(adj[..i])
      {
        assert adj[..i + 1][..i] == adj[..i];
        n := n + |adj[i]|;
        i := i + 1;
      }
      assert adj[..i] == adj;
    }

    /**
     * set_embedding: the checks in the source's order, then the vector (or
     * its codes and params) stored in the entity's slot. The two quantized
     * tables are resized together, so they keep one length.
     */
    method SetEmbedding(name: Bytes, v: seq<F32>) returns (ok: bool)
      requires |codes| == |params|
      modifies this
      ensures (State(), ok) == GraphModel.SetEmbedding(old(State()), name, v)
      ensures |codes| == |params|
    {
      ghost var g0 := State();
      if name !in entityIds {
        return false;
      }
      if |v| == 0 {
        return false;
      }
      var id: nat := entityIds[name];
      if dim == 0 {
        dim := |v|;
      } else if |v| != dim {
        return false;
      }
      if quantized {
        StoreCodes(id, v);
      } else {
        StoreVector(id, v);
      }
      StoredAt(g0, name, v);
      return true;
    }

    /** set_embedding's quantized branch: both tables resized to reach id, then the codes and params stored there. */
    method StoreCodes(id: nat, v: seq<F32>)
      requires |codes| == |params|
      modifies this`codes, this`params
      ensures codes == GrowTo(old(codes), id, [])[id := VF.QuantizedPayload(v).0]
      ensures params == GrowTo(old(params), id, NO_PARAMS)[id := VF.QuantizedPayload(v).1]
    {
      if |codes| <= id {
        codes := Resize(codes, id + 1, []);
        params := Resize(params, id + 1, NO_PARAMS);
      }
      var stored, qp := QuantizeVector(v);
      codes := codes[id := stored];
      params := params[id := qp];
    }

    /** set_embedding's float branch: the table resized to reach id, then the vector stored there. */
    method StoreVector(id: nat, v: seq<F32>)
      modifies this`floats
      ensures floats == GrowTo(old(floats), id, [])[id := v]
    {
      if |floats| <= id {
        floats := Resize(floats, id + 1, []);
      }
      floats := floats[id := v];
    }

    /** get_embedding: the stored vector (dequantized in quantized mode), or nothing. */
    method GetEmbedding(name: Bytes) returns (v: seq<real>)
      requires |codes| == |params|
      ensures v == GraphModel.GetEmbedding(State(), name)
      ensures name !in entityIds ==> v == []
    {
      if name !in entityIds {
        return [];
      }
      var id := entityIds[name];
      if quantized {
        if id >= |codes| {
          return [];
        }
        if codes[id] == [] {
          return [];
        }
        v := Q.Dequantize(codes[id], Q.Params(Val(params[id].scale), params[id].zeroPoint));
      } else {
        if id >= |floats| {
          return [];
        }
        v := Vals(floats[id]);
      }
    }

    /**
     * find_similar_entities: one (name, score) per slot holding a vector,
     * in id order, then sorted by descending score and cut to limit. The
     * uint32 slot counter only terminates below 2^32 slots.
     */
    method FindSimilar(query: seq<F32>, limit: nat, sim: (seq<real>, seq<real>) -> real) returns (r: seq<Scored<Bytes>>)
      requires |codes| == |params| && Slots(State()) < U32_LIMIT
      ensures SimilarResult(State(), query, limit, sim, r)
    {
      if |query| != dim || dim == 0 {
        return [];
      }
      var storage := if quantized then |codes| else |floats|;
      var results := [];
      var id := 0;
      while id < storage
        invariant 0 <= id <= storage
        invariant results == EmbeddingCandidates(State(), id, query, sim)
      {
        if quantized {
          if codes[id] != [] {
            var vec := Q.Dequantize(codes[id], Q.Params(Val(params[id].scale), params[id].zeroPoint));
            var name := GetEntityName(id);
            results := results + [Scored(name, sim(Vals(query), vec))];
          }
        } else {
          if floats[id] != [] {
            var name := GetEntityName(id);
            results := results + [Scored(name, sim(Vals(query), Vals(floats[id])))];
          }
        }
        id := id + 1;
      }
      r := SortThenTruncate(results, limit);
    }

    /**
     * save(): the bytes written to the file: the stream built table by
     * table, and when a key is given "MKGE" and its encryption instead.
     */
    method Save(key: Bytes) returns (file: Bytes)
      requires |codes| == |params|
      ensures file == FileImage(State(), key)
    {
      var flags: byte := 0;
      if quantized { flags := KG_FLAG_QUANTIZED; }
      var entities := WriteNameTable(entityNames);
      var relations := WriteNameTable(relationNames);
      var lists := WriteAdjacency(adj);
      var embeddings := WriteEmbeddings(State());
      var stream := MKG1 + ([flags] + (entities + (relations + (lists + embeddings))));
      if |key| > 0 {
        var encrypted := Cipher.Encrypt(stream, key);
        file := MKGE + encrypted;
      } else {
        file := stream;
      }
    }

    /**
     * load(): None stands for a file that cannot be opened, which is
     * refused with the graph untouched.
     */
    method Load(file: OrderedMap.Option<Bytes>, key: Bytes) returns (ok: bool)
      modifies this
      ensures file.None? ==> !ok && State() == old(State())
      ensures file.Some? ==> (State(), ok) == LoadFile(file.value, key, old(State()))
    {
      if file.None? {
        return false;
      }
      var bytes := file.value;
      if VF.StartsWith(bytes, MKGE) {
        if |key| == 0 {
          return false;
        }
        var plain := Cipher.Decrypt(bytes[4..], key);
        if !VF.StartsWith(plain, MKG1) {
          return false;
        }
        ok := LoadFromStream(From(plain, 4));
      } else if VF.StartsWith(bytes, MKG1) {
        ok := LoadFromStream(From(bytes, 4));
      } else {
        return false;
      }
    }

    /**
     * loadFromStream: every field replaced by what the stream holds (the
     * mode taken from its flags, whatever the old one was); reports whether
     * the stream stayed good.
     */
    method LoadFromStream(r0: Reader) returns (ok: bool)
      requires Stream.Valid(r0)
      modifies this
      ensures (State(), ok) == ParseGraph(r0)
    {
      var g;
      g, ok := ReadGraph(r0);
      quantized, dim := g.quantized, g.dim;
      entityIds, entityNames, relationIds, relationNames := g.entityIds, g.entityNames, g.relationIds, g.relationNames;
      adj, floats, codes, params := g.adj, g.floats, g.codes, g.params;
    }
  }

  // ---------------------------------------------------------------------
  // Loops of the methods above

  /** loadFromStream's reads: the flags, the two name tables, the adjacency lists and the embeddings, in that order. */
  method ReadGraph(r0: Reader) returns (g: Graph, ok: bool)
    requires Stream.Valid(r0)
    ensures (g, ok) == ParseGraph(r0)
  {
    var (flags, r1) := Read(r0, 1);
    assert flags == [flags[0]];
    var isQuantized := flags[0] as int % 2 == 1;   // flags & KG_FLAG_QUANTIZED
    var names, ids, r2 := LoadEntityTable(r1);
    var rels, rids, r3 := LoadRelationTable(r2);
    var lists, r4 := LoadAdjacency(r3);
    var e, r5 := LoadEmbeddings(r4, isQuantized);
    ParseGraphParts(r0, flags[0], names, rels, lists, e, r1, r2, r3, r4, r5);
    g := Graph(isQuantized, e.dim, ids, names, rids, rels, lists, e.floats, e.codes, e.params);
    ok := r5.good;
  }

  /** add_fact's duplicate scan over the subject's list. */
  method ContainsEdge(edges: seq<Edge>, e: Edge) returns (found: bool)
    ensures found <==> e in edges
  {
    var i := 0;
    while i < |edges|
      invariant 0 <= i <= |edges|
      invariant e !in edges[..i]
    {
      if edges[i] == e {
        return true;
      }
      assert edges[..i + 1] == edges[..i] + [edges[i]];
      i := i + 1;
    }
    assert edges[..i] == edges;
    return false;
  }

  /** add_entity on a name not yet interned: appended, mapped to the next id, and the lists grown to reach it. */
  lemma NewEntity(g: Graph, name: Bytes)
    requires name !in g.entityIds
    ensures var id := |g.entityNames| % U32_LIMIT;
      GraphModel.AddEntity(g, name)
      == (g.(entityNames := g.entityNames + [name], entityIds := g.entityIds[name := id],
             adj := if |g.adj| <= id then Resize(g.adj, id + 1, []) else g.adj), id)
  {
  }

  /** calculate_params then quantize: the codes, narrowed to int8, and the params as stored. */
  method QuantizeVector(v: seq<F32>) returns (stored: seq<Int8>, qp: VF.QParams)
    ensures (stored, qp) == VF.QuantizedPayload(v) && |stored| == |v|
  {
    var p := Q.CalculateParams(Vals(v));
    var q := Q.Quantize(Vals(v), p);
    stored := seq(|q|, i requires 0 <= i < |q| => q[i] as Int8);
    qp := VF.QParams(FromReal(p.scale), p.zeroPoint as Int32);
    assert q == Q.QuantizeAll(Vals(v), p);
  }

  /** set_embedding once its checks pass: the entity's slot, in the grown table of the active mode, holds the vector or its quantization. */
  lemma StoredAt(g: Graph, name: Bytes, v: seq<F32>)
    requires name in g.entityIds && |v| > 0 && (g.dim == 0 || |v| == g.dim) && |g.codes| == |g.params|
    ensures var id := g.entityIds[name];
      GraphModel.SetEmbedding(g, name, v)
      == (if g.quantized
          then g.(dim := |v|, codes := GrowTo(g.codes, id, [])[id := VF.QuantizedPayload(v).0],
                              params := GrowTo(g.params, id, NO_PARAMS)[id := VF.QuantizedPayload(v).1])
          else g.(dim := |v|, floats := GrowTo(g.floats, id, [])[id := v]),
          true)
  {
  }

  /** The objects query_objects reports are exactly those of the subject's matching edges. */
  lemma QueryObjectsMembers(g: Graph, sub: EntityId, pred: RelationId)
    ensures forall x :: x in QueryObjects(g, sub, pred) <==> sub < |g.adj| && Edge(pred, x) in g.adj[sub]
  {
    forall x: EntityId
      ensures x in QueryObjects(g, sub, pred) <==> sub < |g.adj| && Edge(pred, x) in g.adj[sub]
    {
      QueryObjectsExact(g, sub, pred, x);
    }
  }

  /** save()'s loop over a name table: the count, then each name's length and bytes. */
  method WriteNameTable(ns: seq<Bytes>) returns (b: Bytes)
    ensures b == NameTable(ns)
  {
    var body := [];
    var i := 0;
    while i < |ns|
      invariant 0 <= i <= |ns|
      invariant body == Names(ns[..i])
    {
      var len := |ns[i]| % U32_LIMIT;   // static_cast<uint32_t>(name.size())
      body := body + (U32(len) + ns[i][..len]);
      NamesPrefix(ns, i);
      i := i + 1;
    }
    assert ns[..i] == ns;
    b := U32(|ns| % U32_LIMIT) + body;
  }

  // One more element of a loop over a table: its bytes follow those of the elements before it.

  lemma NamesPrefix(ns: seq<Bytes>, i: nat)
    requires i < |ns|
    ensures Names(ns[..i + 1]) == Names(ns[..i]) + VF.IdField(ns[i])
  {
    assert ns[..i + 1] == ns[..i] + [ns[i]];
    NamesSnoc(ns[..i], ns[i]);
  }

  lemma EdgesPrefix(es: seq<Edge>, j: nat)
    requires j < |es|
    ensures Edges(es[..j + 1]) == Edges(es[..j]) + EdgeBytes(es[j])
  {
    assert es[..j + 1] == es[..j] + [es[j]];
    EdgesSnoc(es[..j], es[j]);
  }

  lemma ListsPrefix(adj: seq<seq<Edge>>, i: nat)
    requires i < |adj|
    ensures Lists(adj[..i + 1]) == Lists(adj[..i]) + EdgeList(adj[i])
  {
    assert adj[..i + 1] == adj[..i] + [adj[i]];
    ListsSnoc(adj[..i], adj[i]);
  }

  lemma FloatSlotsPrefix(fs: seq<seq<F32>>, d: nat, i: nat)
    requires i < |fs|
    ensures FloatSlots(fs[..i + 1], d) == FloatSlots(fs[..i], d) + FloatSlot(fs[i], d)
  {
    assert fs[..i + 1] == fs[..i] + [fs[i]];
    FloatSlotsSnoc(fs[..i], d, fs[i]);
  }

  /** save()'s loop over the adjacency lists. */
  method WriteAdjacency(adj: seq<seq<Edge>>) returns (b: Bytes)
    ensures b == Adjacency(adj)
  {
    var body := [];
    var i := 0;
    while i < |adj|
      invariant 0 <= i <= |adj|
      invariant body == Lists(adj[..i])
    {
      var list := WriteEdgeList(adj[i]);
      body := body + list;
      ListsPrefix(adj, i);
      i := i + 1;
    }
    assert adj[..i] == adj;
    b := U32(|adj| % U32_LIMIT) + body;
  }

  /** The inner loop: one list's length, then each edge's predicate as uint16 and object as uint32. */
  method WriteEdgeList(edges: seq<Edge>) returns (list: Bytes)
    ensures list == EdgeList(edges)
  {
    var body := [];
    var j := 0;
    while j < |edges|
      invariant 0 <= j <= |edges|
      invariant body == Edges(edges[..j])
    {
      body := body + (U16(edges[j].pred) + U32(edges[j].obj));
      EdgesPrefix(edges, j);
      j := j + 1;
    }
    assert edges[..j] == edges;
    list := U32(|edges| % U32_LIMIT) + body;
  }

  /**
   * save()'s embedding section: the dimension and the slot count as
   * uint32, then the slots of the active mode.
   */
  method WriteEmbeddings(g: Graph) returns (b: Bytes)
    requires |g.codes| == |g.params|
    ensures b == Embeddings(g)
  {
    var d := g.dim % U32_LIMIT;
    if g.quantized {
      var n := |g.codes| % U32_LIMIT;
      var body := WriteQuantSlots(g.codes[..n], g.params[..n], d);
      b := U32(d) + (U32(n) + body);
    } else {
      var body := WriteFloatSlots(g.floats, d);
      b := U32(d) + (U32(|g.floats| % U32_LIMIT) + body);
    }
  }

  /** The quantized slots: a flag byte, then for a slot holding codes its scale, zero point and first d codes. */
  method WriteQuantSlots(codes: seq<seq<Int8>>, params: seq<VF.QParams>, d: nat) returns (body: Bytes)
    requires |codes| == |params|
    ensures body == QuantSlots(codes, params, d)
  {
    body := [];
    var i := 0;
    while i < |codes|
      invariant 0 <= i <= |codes|
      invariant body == QuantSlots(codes[..i], params[..i], d)
    {
      var c, p := codes[i], params[i];
      if c != [] {
        body := body + ([1] + (p.scale + (I32(p.zeroPoint) + VF.Int8Bytes(Prefix(c, d)))));
      } else {
        body := body + [0];
      }
      QuantSlotsPrefix(codes, params, d, i);
      i := i + 1;
    }
    assert codes[..i] == codes && params[..i] == params;
  }

  /** One more slot of the quantized loop. */
  lemma QuantSlotsPrefix(codes: seq<seq<Int8>>, params: seq<VF.QParams>, d: nat, i: nat)
    requires i < |codes| == |params|
    ensures QuantSlots(codes[..i + 1], params[..i + 1], d) == QuantSlots(codes[..i], params[..i], d) + QuantSlot(codes[i], params[i], d)
  {
    assert codes[..i + 1] == codes[..i] + [codes[i]];
    assert params[..i + 1] == params[..i] + [params[i]];
    QuantSlotsSnoc(codes[..i], params[..i], d, codes[i], params[i]);
  }

  /** The float slots: a flag byte, then for a slot holding a vector its first d floats. */
  method WriteFloatSlots(floats: seq<seq<F32>>, d: nat) returns (body: Bytes)
    ensures body == FloatSlots(floats, d)
  {
    body := [];
    var i := 0;
    while i < |floats|
      invariant 0 <= i <= |floats|
      invariant body == FloatSlots(floats[..i], d)
    {
      var v := floats[i];
      if v != [] {
        body := body + ([1] + Pack(Prefix(v, d)));
      } else {
        body := body + [0];
      }
      FloatSlotsPrefix(floats, d, i);
      i := i + 1;
    }
    assert floats[..i] == floats;
  }

  /** loadFromStream's entity loop: each name appended and mapped to its position. */
  method LoadEntityTable(r: Reader) returns (names: seq<Bytes>, ids: map<Bytes, EntityId>, r': Reader)
    requires Stream.Valid(r)
    ensures (names, r') == ReadNameTable(r) && ids == EntityIndex(names)
  {
    var (countBytes, r1) := Read(r, 4);
    var count := Word32(countBytes);
    names, ids, r' := [], map[], r1;
    var i := 0;
    while i < count
      invariant 0 <= i <= count && |names| == i
      invariant Stream.Valid(r') && r'.data == r.data
      invariant ParseNames(r', count - i, names) == ParseNames(r1, count, [])
      invariant ids == EntityIndex(names)
    {
      var (lenBytes, ra) := Read(r', 4);
      var (name, rb) := Read(ra, DecodeLE(lenBytes));
      assert VF.ReadId(r') == (name, rb);
      EntityIndexSnoc(names, name);
      names := names + [name];
      ids := ids[name := i];
      r' := rb;
      i := i + 1;
    }
  }

  /** loadFromStream's relation loop: as for entities, with ids narrowed to uint16. */
  method LoadRelationTable(r: Reader) returns (names: seq<Bytes>, ids: map<Bytes, RelationId>, r': Reader)
    requires Stream.Valid(r)
    ensures (names, r') == ReadNameTable(r) && ids == RelationIndex(names)
  {
    var (countBytes, r1) := Read(r, 4);
    var count := Word32(countBytes);
    names, ids, r' := [], map[], r1;
    var i := 0;
    while i < count
      invariant 0 <= i <= count && |names| == i
      invariant Stream.Valid(r') && r'.data == r.data
      invariant ParseNames(r', count - i, names) == ParseNames(r1, count, [])
      invariant ids == RelationIndex(names)
    {
      var (lenBytes, ra) := Read(r', 4);
      var (name, rb) := Read(ra, DecodeLE(lenBytes));
      assert VF.ReadId(r') == (name, rb);
      RelationIndexSnoc(names, name);
      names := names + [name];
      ids := ids[name := i % U16_LIMIT];   // static_cast<RelationId>(i)
      r' := rb;
      i := i + 1;
    }
  }

  /** loadFromStream's adjacency loop: the lists resized to the count, then each filled in turn. */
  method LoadAdjacency(r: Reader) returns (adj: seq<seq<Edge>>, r': Reader)
    requires Stream.Valid(r)
    ensures (adj, r') == ReadAdjacency(r)
  {
    var (sizeBytes, r1) := Read(r, 4);
    var size := Word32(sizeBytes);
    adj := seq(size, _ => []);
    r' := r1;
    var i := 0;
    while i < size
      invariant 0 <= i <= size && |adj| == size
      invariant Stream.Valid(r') && r'.data == r.data
      invariant ParseLists(r', size - i, adj[..i]) == ParseLists(r1, size, [])
    {
      var edges, rn := LoadEdgeList(r');
      assert (adj[i := edges])[..i + 1] == adj[..i] + [edges];
      adj := adj[i := edges];
      r' := rn;
      i := i + 1;
    }
    assert adj[..i] == adj;
  }

  /** The inner loop: the edge count, then each edge's predicate and object. */
  method LoadEdgeList(r: Reader) returns (edges: seq<Edge>, r': Reader)
    requires Stream.Valid(r)
    ensures (edges, r') == ReadEdgeList(r)
  {
    var (countBytes, r1) := Read(r, 4);
    var count := Word32(countBytes);
    edges, r' := [], r1;
    var j := 0;
    while j < count
      invariant 0 <= j <= count
      invariant Stream.Valid(r') && r'.data == r.data
      invariant ParseEdges(r', count - j, edges) == ParseEdges(r1, count, [])
    {
      var (p, ra) := Read(r', 2);
      var (o, rb) := Read(ra, 4);
      assert ReadEdge(r') == (Edge(Word16(p), Word32(o)), rb);
      edges := edges + [Edge(Word16(p), Word32(o))];
      r' := rb;
      j := j + 1;
    }
  }

  /**
   * loadFromStream's embedding section: the dimension and the count, then
   * the active mode's slots.
   */
  method LoadEmbeddings(r: Reader, quantized: bool) returns (e: Embedded, r': Reader)
    requires Stream.Valid(r)
    ensures (e, r') == ReadEmbeddings(r, quantized)
  {
    var (dimBytes, r1) := Read(r, 4);
    var (countBytes, r2) := Read(r1, 4);
    var d := Word32(dimBytes);
    var count := Word32(countBytes);
    if quantized {
      var codes, params;
      codes, params, r' := LoadQuantSlots(r2, d, count);
      e := Embedded(d, [], codes, params);
    } else {
      var floats;
      floats, r' := LoadFloatSlots(r2, d, count);
      e := Embedded(d, floats, [], []);
    }
  }

  /** The quantized loop: both tables resized to the count, then each slot read in turn. */
  method LoadQuantSlots(r: Reader, d: nat, count: nat) returns (codes: seq<seq<Int8>>, params: seq<VF.QParams>, r': Reader)
    requires Stream.Valid(r)
    ensures (codes, params, r') == ParseQuantSlots(r, d, count, [], [])
  {
    codes := seq(count, _ => []);
    params := seq(count, _ => NO_PARAMS);
    r' := r;
    var i := 0;
    while i < count
      invariant 0 <= i <= count && |codes| == count && |params| == count
      invariant Stream.Valid(r') && r'.data == r.data
      invariant ParseQuantSlots(r', d, count - i, codes[..i], params[..i]) == ParseQuantSlots(r, d, count, [], [])
    {
      var c, p, rn := LoadQuantSlot(r', d);
      assert (codes[i := c])[..i + 1] == codes[..i] + [c];
      assert (params[i := p])[..i + 1] == params[..i] + [p];
      codes, params := codes[i := c], params[i := p];
      r' := rn;
      i := i + 1;
    }
    assert codes[..i] == codes && params[..i] == params;
  }

  /** The float loop: the table resized to the count, then each slot's flag and, when set, its d floats. */
  method LoadFloatSlots(r: Reader, d: nat, count: nat) returns (floats: seq<seq<F32>>, r': Reader)
    requires Stream.Valid(r)
    ensures (floats, r') == ParseFloatSlots(r, d, count, [])
  {
    floats := seq(count, _ => []);
    r' := r;
    var i := 0;
    while i < count
      invariant 0 <= i <= count && |floats| == count
      invariant Stream.Valid(r') && r'.data == r.data
      invariant ParseFloatSlots(r', d, count - i, floats[..i]) == ParseFloatSlots(r, d, count, [])
    {
      var (h, ra) := Read(r', 1);
      var v: seq<F32> := [];
      var rn := ra;
      if h[0] != 0 {
        var (b, rb) := Read(ra, 4 * d);
        v, rn := Unpack(b), rb;
      }
      assert ReadFloatSlot(r', d) == (v, rn);
      assert (floats[i := v])[..i + 1] == floats[..i] + [v];
      floats := floats[i := v];
      r' := rn;
      i := i + 1;
    }
    assert floats[..i] == floats;
  }

  /** One quantized slot of that loop: the flag, then for a set flag the params and the codes. */
  method LoadQuantSlot(r: Reader, d: nat) returns (c: seq<Int8>, p: VF.QParams, r': Reader)
    requires Stream.Valid(r)
    ensures (c, p, r') == ReadQuantSlot(r, d)
  {
    var (h, r1) := Read(r, 1);
    if h[0] != 0 {
      var (scale, r2) := Read(r1, 4);
      var (zp, r3) := Read(r2, 4);
      var (bytes, r4) := Read(r3, d);
      c, p, r' := VF.Int8sOf(bytes), VF.QParams(scale, I32Of(zp)), r4;
    } else {
      c, p, r' := [], NO_PARAMS, r1;
    }
  }
}
