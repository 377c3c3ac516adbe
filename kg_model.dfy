// The state of a KnowledgeGraph as a value and its operations as
// functions: the two string-interning tables, the subject-indexed
// adjacency lists with set semantics, and the per-entity embeddings with
// the similarity search over them.

module GraphModel {
  import opened ByteCodec
  import opened Float32
  import opened Ranking
  import VF = VectorStoreFormat
  import Q = Quantizer

  /** EntityId is uint32_t, RelationId uint16_t. */
  type EntityId = n: nat | n < U32_LIMIT
  type RelationId = n: nat | n < U16_LIMIT

  /** One adjacency-list entry of a subject: (predicate, object). */
  datatype Edge = Edge(pred: RelationId, obj: EntityId)

  /** The fields of a KnowledgeGraph; an entity without an embedding has an empty vector. */
  datatype Graph = Graph(
    quantized: bool,                      // use_quantization_
    dim: nat,                             // embedding_dim_
    entityIds: map<Bytes, EntityId>,      // entity_map_
    entityNames: seq<Bytes>,              // entity_names_
    relationIds: map<Bytes, RelationId>,  // relation_map_
    relationNames: seq<Bytes>,            // relation_names_
    adj: seq<seq<Edge>>,                  // adj_list_
    floats: seq<seq<F32>>,                // entity_embeddings_
    codes: seq<seq<Int8>>,                // entity_quantized_embeddings_
    params: seq<VF.QParams>)              // entity_quant_params_

  /** A value-initialised QuantizationParams: scale 0.0, zero point 0. */
  const NO_PARAMS: VF.QParams := VF.QParams([0, 0, 0, 0], 0)

  function Empty(quantized: bool): Graph
  {
    Graph(quantized, 0, map[], [], map[], [], [], [], [], [])
  }

  /** The interning map load() rebuilds from a name table: name i gets id i (a later repeat wins). */
  function EntityIndex(names: seq<Bytes>): map<Bytes, EntityId>
    requires |names| <= U32_LIMIT
  {
    if names == [] then map[]
    else EntityIndex(names[..|names| - 1])[names[|names| - 1] := |names| - 1]
  }

  /** The same for relations, whose ids are narrowed to uint16. */
  function RelationIndex(names: seq<Bytes>): map<Bytes, RelationId>
  {
    if names == [] then map[]
    else RelationIndex(names[..|names| - 1])[names[|names| - 1] := (|names| - 1) % U16_LIMIT]
  }

  /** Each interning map is its name table's index, and every table fits its id type. */
  predicate NamesValid(g: Graph)
  {
    && |g.entityNames| <= U32_LIMIT && g.entityIds == EntityIndex(g.entityNames)
    && |g.relationNames| <= U16_LIMIT && g.relationIds == RelationIndex(g.relationNames)
  }

  /**
   * Only the active mode's embedding table is used, stored vectors have
   * the graph's dimension, and an entity without quantized codes has
   * value-initialised params.
   */
  predicate StorageValid(quantized: bool, dim: nat, floats: seq<seq<F32>>, codes: seq<seq<Int8>>, params: seq<VF.QParams>)
  {
    && |floats| <= U32_LIMIT && |codes| <= U32_LIMIT && |codes| == |params|
    && (quantized ==> floats == [])
    && (!quantized ==> codes == [] && params == [])
    && (forall i | 0 <= i < |floats| :: floats[i] == [] || |floats[i]| == dim)
    && (forall i | 0 <= i < |codes| :: codes[i] == [] || |codes[i]| == dim)
    && (forall i | 0 <= i < |codes| :: codes[i] == [] ==> params[i] == NO_PARAMS)
  }

  /** What every operation keeps. */
  predicate Valid(g: Graph)
  {
    NamesValid(g) && |g.adj| <= U32_LIMIT && StorageValid(g.quantized, g.dim, g.floats, g.codes, g.params)
  }

  /** vector::resize(n, fill): truncate to n, or pad with fill up to n. */
  function Resize<T>(s: seq<T>, n: nat, fill: T): (r: seq<T>)
    ensures |r| == n
    ensures forall i | 0 <= i < n :: r[i] == if i < |s| then s[i] else fill
  {
    if n <= |s| then s[..n] else s + seq(n - |s|, _ => fill)
  }

  /** The guarded resize in front of a store at id: grown with fill to reach id, else left as it is. */
  function GrowTo<T>(s: seq<T>, id: nat, fill: T): (r: seq<T>)
    ensures |r| == if |s| <= id then id + 1 else |s|
    ensures forall i | 0 <= i < |r| :: r[i] == if i < |s| then s[i] else fill
  {
    if |s| <= id then Resize(s, id + 1, fill) else s
  }

  /** The lists grown with empty ones until sub has one: no list and no fact changes. */
  function GrowAdj(adj: seq<seq<Edge>>, sub: nat): (r: seq<seq<Edge>>)
    ensures sub < |r| && |adj| <= |r| && r[..|adj|] == adj && EdgeCount(r) == EdgeCount(adj)
    ensures r[sub] == if sub < |adj| then adj[sub] else []
    ensures forall t | |adj| <= t < |r| :: r[t] == []
  {
    if sub < |adj| then adj
    else
      ResizeWithEmpty(adj, sub + 1);
      Resize(adj, sub + 1, [])
  }

  // ---------------------------------------------------------------------
  // Interning

  /** add_entity: the id already held by the name, or the next index with the name appended. */
  function AddEntity(g: Graph, name: Bytes): (Graph, EntityId)
  {
    if name in g.entityIds then (g, g.entityIds[name])
    else
      var id: EntityId := |g.entityNames| % U32_LIMIT;
      var adj := GrowAdj(g.adj, id);
      (g.(entityNames := g.entityNames + [name], entityIds := g.entityIds[name := id], adj := adj), id)
  }

  /** get_entity_name: the name with that id, or "" for an unknown id. */
  function EntityName(g: Graph, id: EntityId): Bytes
  {
    if id < |g.entityNames| then g.entityNames[id] else []
  }

  function HasEntity(g: Graph, name: Bytes): bool
  {
    name in g.entityIds
  }

  /** add_relation: as add_entity, over the relation table, with ids narrowed to uint16. */
  function AddRelation(g: Graph, name: Bytes): (Graph, RelationId)
  {
    if name in g.relationIds then (g, g.relationIds[name])
    else
      var id: RelationId := |g.relationNames| % U16_LIMIT;
      (g.(relationNames := g.relationNames + [name], relationIds := g.relationIds[name := id]), id)
  }

  function RelationName(g: Graph, id: RelationId): Bytes
  {
    if id < |g.relationNames| then g.relationNames[id] else []
  }

  // ---------------------------------------------------------------------
  // Facts

  /** add_fact(ids): the list of sub grown to reach it, then the edge appended unless already there. */
  function AddFactIds(g: Graph, sub: EntityId, pred: RelationId, obj: EntityId): Graph
  {
    var adj := GrowAdj(g.adj, sub);
    if Edge(pred, obj) in adj[sub] then g.(adj := adj)
    else g.(adj := adj[sub := adj[sub] + [Edge(pred, obj)]])
  }

  /** add_fact(names): subject, predicate and object interned in that order, then the edge added. */
  function AddFact(g: Graph, sub: Bytes, pred: Bytes, obj: Bytes): Graph
  {
    var (g1, s) := AddEntity(g, sub);
    var (g2, p) := AddRelation(g1, pred);
    var (g3, o) := AddEntity(g2, obj);
    AddFactIds(g3, s, p, o)
  }

  /** The objects of the edges labelled pred, in list order. */
  function ObjectsOf(edges: seq<Edge>, pred: RelationId): seq<EntityId>
  {
    if edges == [] then []
    else
      var e := edges[|edges| - 1];
      ObjectsOf(edges[..|edges| - 1], pred) + (if e.pred == pred then [e.obj] else [])
  }

  /** query_objects: nothing for a subject beyond the lists. */
  function QueryObjects(g: Graph, sub: EntityId, pred: RelationId): seq<EntityId>
  {
    if sub >= |g.adj| then [] else ObjectsOf(g.adj[sub], pred)
  }

  /** sub once per edge of its list equal to (pred, obj). */
  function SubjectRun(edges: seq<Edge>, pred: RelationId, obj: EntityId, sub: EntityId): seq<EntityId>
  {
    if edges == [] then []
    else SubjectRun(edges[..|edges| - 1], pred, obj, sub) + (if edges[|edges| - 1] == Edge(pred, obj) then [sub] else [])
  }

  /** query_subjects over the first |adj| lists: the subjects in ascending order. */
  function SubjectsOf(adj: seq<seq<Edge>>, pred: RelationId, obj: EntityId): seq<EntityId>
    requires |adj| <= U32_LIMIT
  {
    if adj == [] then []
    else SubjectsOf(adj[..|adj| - 1], pred, obj) + SubjectRun(adj[|adj| - 1], pred, obj, |adj| - 1)
  }

  function QuerySubjects(g: Graph, pred: RelationId, obj: EntityId): seq<EntityId>
    requires |g.adj| <= U32_LIMIT
  {
    SubjectsOf(g.adj, pred, obj)
  }

  /** The total length of the lists. */
  function EdgeCount(adj: seq<seq<Edge>>): nat
  {
    if adj == [] then 0 else EdgeCount(adj[..|adj| - 1]) + |adj[|adj| - 1]|
  }

  function NumFacts(g: Graph): nat { EdgeCount(g.adj) }

  function NumEntities(g: Graph): nat { |g.entityNames| }

  /** No list holds the same edge twice. */
  predicate EdgeSets(adj: seq<seq<Edge>>)
  {
    forall s, i, j | 0 <= s < |adj| && 0 <= i < j < |adj[s]| :: adj[s][i] != adj[s][j]
  }

  // ---------------------------------------------------------------------
  // Embeddings

  /**
   * set_embedding: refused for an unknown entity, an empty vector, or a
   * length other than the dimension once one is fixed; otherwise the
   * first vector fixes the dimension and the entity's slot (the table
   * grown to reach it) holds the vector, or its codes and params.
   */
  function SetEmbedding(g: Graph, name: Bytes, v: seq<F32>): (Graph, bool)
  {
    if name !in g.entityIds || |v| == 0 then (g, false)
    else if g.dim != 0 && |v| != g.dim then (g, false)
    else
      var id := g.entityIds[name];
      if g.quantized then
        var (c, p) := VF.QuantizedPayload(v);
        var grow := |g.codes| <= id;
        var codes := GrowTo(g.codes, id, []);
        var params := if grow then Resize(g.params, id + 1, NO_PARAMS) else g.params;
        if id < |params| then (g.(dim := |v|, codes := codes[id := c], params := params[id := p]), true)
        else (g.(dim := |v|, codes := codes[id := c]), true)
      else
        var floats := GrowTo(g.floats, id, []);
        (g.(dim := |v|, floats := floats[id := v]), true)
  }

  /** Embedding slot id holds a vector. */
  predicate HasVector(g: Graph, id: nat)
  {
    if g.quantized then id < |g.codes| && g.codes[id] != [] else id < |g.floats| && g.floats[id] != []
  }

  /** The values of slot id: the floats, or the codes dequantized with the slot's params. */
  function StoredVector(g: Graph, id: nat): seq<real>
    requires |g.codes| == |g.params| && HasVector(g, id)
  {
    if g.quantized then
      Q.DequantizeAll(g.codes[id], Q.Params(Val(g.params[id].scale), g.params[id].zeroPoint))
    else Vals(g.floats[id])
  }

  /** get_embedding: the stored values, or empty for an unknown entity or an empty slot. */
  function GetEmbedding(g: Graph, name: Bytes): seq<real>
    requires |g.codes| == |g.params|
  {
    if name !in g.entityIds || !HasVector(g, g.entityIds[name]) then []
    else StoredVector(g, g.entityIds[name])
  }

  /** The number of embedding slots find_similar_entities scans. */
  function Slots(g: Graph): nat
  {
    if g.quantized then |g.codes| else |g.floats|
  }

  /** (name, score) for each of the first n slots holding a vector, in id order. */
  function EmbeddingCandidates(g: Graph, n: nat, query: seq<F32>, sim: (seq<real>, seq<real>) -> real): seq<Scored<Bytes>>
    requires |g.codes| == |g.params| && n <= Slots(g) <= U32_LIMIT
  {
    if n == 0 then []
    else
      EmbeddingCandidates(g, n - 1, query, sim)
      + (if HasVector(g, n - 1) then [Scored(EntityName(g, n - 1), sim(Vals(query), StoredVector(g, n - 1)))] else [])
  }

  /**
   * find_similar_entities: nothing on a query length other than the
   * dimension or while no dimension is fixed; otherwise the candidates
   * sorted by descending score and cut to limit.
   */
  predicate SimilarResult(g: Graph, query: seq<F32>, limit: nat, sim: (seq<real>, seq<real>) -> real, r: seq<Scored<Bytes>>)
    requires |g.codes| == |g.params| && Slots(g) <= U32_LIMIT
  {
    if |query| != g.dim || g.dim == 0 then r == []
    else IsTopK(r, EmbeddingCandidates(g, Slots(g), query, sim), limit)
  }

  // ---------------------------------------------------------------------
  // Interning properties

  lemma {:induction false} EntityIndexLookup(names: seq<Bytes>, name: Bytes)
    requires |names| <= U32_LIMIT
    ensures name in EntityIndex(names) <==> name in names
    ensures name in EntityIndex(names) ==>
      EntityIndex(names)[name] < |names| && names[EntityIndex(names)[name]] == name
  {
    if names != [] {
      var init := names[..|names| - 1];
      EntityIndexLookup(init, name);
      assert names == init + [names[|names| - 1]];
    }
  }

  lemma {:induction false} RelationIndexLookup(names: seq<Bytes>, name: Bytes)
    requires |names| <= U16_LIMIT
    ensures name in RelationIndex(names) <==> name in names
    ensures name in RelationIndex(names) ==>
      RelationIndex(names)[name] < |names| && names[RelationIndex(names)[name]] == name
  {
    if names != [] {
      var k := |names| - 1;
      var init := names[..k];
      RelationIndexLookup(init, name);
      assert k % U16_LIMIT == k;
      assert RelationIndex(names) == RelationIndex(init)[names[k] := k];
      assert names == init + [names[k]];
    }
  }

  lemma EntityIndexSnoc(names: seq<Bytes>, name: Bytes)
    requires |names| < U32_LIMIT
    ensures EntityIndex(names + [name]) == EntityIndex(names)[name := |names|]
  {
    assert (names + [name])[..|names|] == names;
  }

  lemma RelationIndexSnoc(names: seq<Bytes>, name: Bytes)
    ensures RelationIndex(names + [name]) == RelationIndex(names)[name := |names| % U16_LIMIT]
  {
    assert (names + [name])[..|names|] == names;
  }

  /**
   * add_entity: a known name keeps its id and changes nothing; a new one
   * gets the next index and one more entity. Either way the id names the
   * entity, and the graph stays valid while the table has room.
   */
  lemma AddEntityInterns(g: Graph, name: Bytes)
    requires Valid(g) && |g.entityNames| < U32_LIMIT
    ensures var (g', id) := AddEntity(g, name);
      && Valid(g')
      && EntityName(g', id) == name && HasEntity(g', name)
      && (HasEntity(g, name) ==> g' == g)
      && (!HasEntity(g, name) ==> id == |g.entityNames| && NumEntities(g') == NumEntities(g) + 1)
  {
    var (g', id) := AddEntity(g, name);
    EntityIndexLookup(g.entityNames, name);
    if name in g.entityIds {
      assert g' == g;
    } else {
      EntityIndexSnoc(g.entityNames, name);
      assert NamesValid(g');
      assert |g'.adj| <= U32_LIMIT;
      assert StorageValid(g'.quantized, g'.dim, g'.floats, g'.codes, g'.params);
    }
  }

  /** add_entity grows the lists to reach the new id with empty ones and touches no fact. */
  lemma AddEntityKeepsFacts(g: Graph, name: Bytes)
    ensures var (g', id) := AddEntity(g, name);
      && (!HasEntity(g, name) ==> id < |g'.adj|)
      && |g.adj| <= |g'.adj| && g'.adj[..|g.adj|] == g.adj && NumFacts(g') == NumFacts(g)
  {
  }

  /** Growing the lists with empty ones keeps them and adds no edge. */
  lemma ResizeWithEmpty(adj: seq<seq<Edge>>, n: nat)
    requires |adj| <= n
    ensures Resize(adj, n, [])[..|adj|] == adj && EdgeCount(Resize(adj, n, [])) == EdgeCount(adj)
  {
    var r := Resize(adj, n, []);
    assert r[..|adj|] == adj;
    EdgeCountEmptyTail(r, |adj|);
  }

  lemma {:induction false} EdgeCountEmptyTail(r: seq<seq<Edge>>, m: nat)
    requires m <= |r| && forall t | m <= t < |r| :: r[t] == []
    ensures EdgeCount(r) == EdgeCount(r[..m])
    decreases |r|
  {
    if |r| > m {
      var q := r[..|r| - 1];
      EdgeCountEmptyTail(q, m);
      assert q[..m] == r[..m];
      assert r[|r| - 1] == [];
      assert EdgeCount(r) == EdgeCount(q) + |r[|r| - 1]|;
    } else {
      assert r[..m] == r;
    }
  }

  /** Interning the same name twice gives the same id and changes nothing the second time. */
  lemma AddEntityIdempotent(g: Graph, name: Bytes)
    ensures AddEntity(AddEntity(g, name).0, name) == AddEntity(g, name)
  {
  }

  /** add_relation: the same, over the relation table. */
  lemma AddRelationInterns(g: Graph, name: Bytes)
    requires Valid(g) && |g.relationNames| < U16_LIMIT
    ensures var (g', id) := AddRelation(g, name);
      && Valid(g')
      && RelationName(g', id) == name
      && (name in g.relationIds ==> g' == g)
      && (name !in g.relationIds ==> id == |g.relationNames|)
      && g'.adj == g.adj && g'.entityNames == g.entityNames
  {
    RelationIndexLookup(g.relationNames, name);
    if name !in g.relationIds {
      RelationIndexSnoc(g.relationNames, name);
    }
  }

  /** An id beyond the table names nothing. */
  lemma UnknownIdIsEmpty(g: Graph, e: EntityId, r: RelationId)
    requires e >= |g.entityNames| && r >= |g.relationNames|
    ensures EntityName(g, e) == [] && RelationName(g, r) == []
  {
  }

  // ---------------------------------------------------------------------
  // Fact properties

  lemma {:induction false} EdgeCountSnoc(adj: seq<seq<Edge>>, s: nat, e: Edge)
    requires s < |adj|
    ensures EdgeCount(adj[s := adj[s] + [e]]) == EdgeCount(adj) + 1
  {
    var n := |adj|;
    var adj' := adj[s := adj[s] + [e]];
    if s < n - 1 {
      assert adj'[..n - 1] == adj[..n - 1][s := adj[s] + [e]];
      EdgeCountSnoc(adj[..n - 1], s, e);
    } else {
      assert adj'[..n - 1] == adj[..n - 1];
    }
  }

  /**
   * add_fact keeps set semantics: afterwards the subject's list holds the
   * edge, and it was appended (one more fact) exactly when it was missing.
   */
  lemma AddFactSetSemantics(g: Graph, sub: EntityId, pred: RelationId, obj: EntityId)
    ensures var g' := AddFactIds(g, sub, pred, obj);
      var present := sub < |g.adj| && Edge(pred, obj) in g.adj[sub];
      && sub < |g'.adj| && Edge(pred, obj) in g'.adj[sub]
      && NumFacts(g') == NumFacts(g) + (if present then 0 else 1)
      && (present ==> g' == g)
  {
    var adj := GrowAdj(g.adj, sub);
    if Edge(pred, obj) !in adj[sub] {
      EdgeCountSnoc(adj, sub, Edge(pred, obj));
    }
  }

  /** add_fact leaves every other subject's list as it was (empty if it was beyond the lists). */
  lemma AddFactOthersUnchanged(g: Graph, sub: EntityId, pred: RelationId, obj: EntityId, t: nat)
    requires t != sub
    ensures var g' := AddFactIds(g, sub, pred, obj);
      t < |g'.adj| ==> g'.adj[t] == (if t < |g.adj| then g.adj[t] else [])
  {
  }

  /** add_fact changes only the lists, and they stay within the id range. */
  lemma AddFactKeepsValid(g: Graph, sub: EntityId, pred: RelationId, obj: EntityId)
    requires Valid(g)
    ensures Valid(AddFactIds(g, sub, pred, obj))
  {
    var g' := AddFactIds(g, sub, pred, obj);
    assert g'.(adj := g.adj) == g;
    assert NamesValid(g');
    assert StorageValid(g'.quantized, g'.dim, g'.floats, g'.codes, g'.params);
  }

  /** add_fact keeps every list free of repeats. */
  lemma AddFactKeepsSets(g: Graph, sub: EntityId, pred: RelationId, obj: EntityId)
    requires EdgeSets(g.adj)
    ensures EdgeSets(AddFactIds(g, sub, pred, obj).adj)
  {
    var adj := GrowAdj(g.adj, sub);
    forall t, i, j | 0 <= t < |adj| && 0 <= i < j < |adj[t]| ensures adj[t][i] != adj[t][j] {
      if t < |g.adj| {
        assert adj[t] == adj[..|g.adj|][t] == g.adj[t];
      }
    }
    var e := Edge(pred, obj);
    if e !in adj[sub] {
      var l := adj[sub] + [e];
      forall i, j | 0 <= i < j < |l| ensures l[i] != l[j] {
        if j == |l| - 1 {
          assert l[i] in adj[sub];
        }
      }
    }
  }

  lemma {:induction false} ObjectsOfMember(edges: seq<Edge>, pred: RelationId, x: EntityId)
    ensures x in ObjectsOf(edges, pred) <==> Edge(pred, x) in edges
  {
    if edges != [] {
      var init := edges[..|edges| - 1];
      ObjectsOfMember(init, pred, x);
      assert edges == init + [edges[|edges| - 1]];
    }
  }

  /** query_objects finds exactly the objects of the subject's edges labelled pred. */
  lemma QueryObjectsExact(g: Graph, sub: EntityId, pred: RelationId, x: EntityId)
    ensures x in QueryObjects(g, sub, pred) <==> sub < |g.adj| && Edge(pred, x) in g.adj[sub]
  {
    if sub < |g.adj| {
      ObjectsOfMember(g.adj[sub], pred, x);
    }
  }

  /** A newly added fact's object comes last among the subject's objects for that predicate: insertion order. */
  lemma QueryObjectsAfterAdd(g: Graph, sub: EntityId, pred: RelationId, obj: EntityId)
    requires sub < |g.adj| && Edge(pred, obj) !in g.adj[sub]
    ensures QueryObjects(AddFactIds(g, sub, pred, obj), sub, pred) == QueryObjects(g, sub, pred) + [obj]
  {
    var edges := g.adj[sub] + [Edge(pred, obj)];
    assert edges[..|edges| - 1] == g.adj[sub];
  }

  lemma {:induction false} SubjectRunMember(edges: seq<Edge>, pred: RelationId, obj: EntityId, sub: EntityId, x: EntityId)
    ensures x in SubjectRun(edges, pred, obj, sub) <==> x == sub && Edge(pred, obj) in edges
  {
    if edges != [] {
      var init := edges[..|edges| - 1];
      SubjectRunMember(init, pred, obj, sub, x);
      assert edges == init + [edges[|edges| - 1]];
    }
  }

  lemma {:induction false} SubjectsOfMember(adj: seq<seq<Edge>>, pred: RelationId, obj: EntityId, x: EntityId)
    requires |adj| <= U32_LIMIT
    ensures x in SubjectsOf(adj, pred, obj) <==> x < |adj| && Edge(pred, obj) in adj[x]
  {
    if adj != [] {
      var n := |adj|;
      var init := adj[..n - 1];
      assert SubjectsOf(adj, pred, obj) == SubjectsOf(init, pred, obj) + SubjectRun(adj[n - 1], pred, obj, n - 1);
      SubjectsOfMember(init, pred, obj, x);
      SubjectRunMember(adj[n - 1], pred, obj, n - 1, x);
      assert x < n - 1 ==> adj[x] == init[x];
    }
  }

  lemma {:induction false} SubjectRunBounded(edges: seq<Edge>, pred: RelationId, obj: EntityId, sub: EntityId)
    ensures forall i | 0 <= i < |SubjectRun(edges, pred, obj, sub)| :: SubjectRun(edges, pred, obj, sub)[i] == sub
  {
    if edges != [] {
      SubjectRunBounded(edges[..|edges| - 1], pred, obj, sub);
    }
  }

  lemma {:induction false} SubjectsOfAscending(adj: seq<seq<Edge>>, pred: RelationId, obj: EntityId)
    requires |adj| <= U32_LIMIT
    ensures forall i | 0 <= i < |SubjectsOf(adj, pred, obj)| :: SubjectsOf(adj, pred, obj)[i] < |adj|
    ensures forall i, j | 0 <= i < j < |SubjectsOf(adj, pred, obj)| :: SubjectsOf(adj, pred, obj)[i] <= SubjectsOf(adj, pred, obj)[j]
  {
    if adj != [] {
      var n := |adj|;
      var init := SubjectsOf(adj[..n - 1], pred, obj);
      var run := SubjectRun(adj[n - 1], pred, obj, n - 1);
      SubjectsOfAscending(adj[..n - 1], pred, obj);
      SubjectRunBounded(adj[n - 1], pred, obj, n - 1);
      var r := init + run;
      assert SubjectsOf(adj, pred, obj) == r;
      forall i | 0 <= i < |r| ensures r[i] <= n - 1 {
        if i < |init| {
          assert r[i] == init[i] && init[i] < n - 1;
        } else {
          assert r[i] == run[i - |init|];
        }
      }
      forall i, j | 0 <= i < j < |r| ensures r[i] <= r[j] {
        if j < |init| {
          assert init[i] == r[i] && init[j] == r[j];
        } else if i < |init| {
          assert r[i] == init[i] && init[i] < n - 1 && r[j] == run[j - |init|];
        } else {
          assert r[i] == run[i - |init|] && r[j] == run[j - |init|];
        }
      }
    }
  }

  /**
   * query_subjects finds exactly the subjects whose list holds (pred, obj),
   * in ascending id order.
   */
  lemma QuerySubjectsExact(g: Graph, pred: RelationId, obj: EntityId, x: EntityId)
    requires Valid(g)
    ensures x in QuerySubjects(g, pred, obj) <==> x < |g.adj| && Edge(pred, obj) in g.adj[x]
    ensures var r := QuerySubjects(g, pred, obj); forall i, j | 0 <= i < j < |r| :: r[i] <= r[j]
  {
    SubjectsOfMember(g.adj, pred, obj, x);
    SubjectsOfAscending(g.adj, pred, obj);
  }

  /**
   * The string add_fact interns all three names and leaves the fact
   * queryable: the subject's objects for the predicate include the object.
   */
  lemma AddFactByName(g: Graph, sub: Bytes, pred: Bytes, obj: Bytes)
    ensures var g' := AddFact(g, sub, pred, obj);
      && HasEntity(g', sub) && HasEntity(g', obj) && pred in g'.relationIds
      && g'.entityIds[obj] in QueryObjects(g', g'.entityIds[sub], g'.relationIds[pred])
      && NumFacts(g) <= NumFacts(g') <= NumFacts(g) + 1
  {
    var (g1, s) := AddEntity(g, sub);
    AddEntityKeepsFacts(g, sub);
    var (g2, p) := AddRelation(g1, pred);
    var (g3, o) := AddEntity(g2, obj);
    AddEntityKeepsFacts(g2, obj);
    assert g3.entityIds[sub] == s && g3.entityIds[obj] == o && g3.relationIds[pred] == p;
    AddFactSetSemantics(g3, s, p, o);
    var g' := AddFactIds(g3, s, p, o);
    QueryObjectsExact(g', s, p, o);
  }

  /** The string add_fact keeps the graph valid while both tables have room. */
  lemma AddFactByNameValid(g: Graph, sub: Bytes, pred: Bytes, obj: Bytes)
    requires Valid(g) && |g.entityNames| + 2 <= U32_LIMIT && |g.relationNames| < U16_LIMIT
    ensures Valid(AddFact(g, sub, pred, obj))
  {
    var (g1, s) := AddEntity(g, sub);
    AddEntityInterns(g, sub);
    var (g2, p) := AddRelation(g1, pred);
    AddRelationInterns(g1, pred);
    var (g3, o) := AddEntity(g2, obj);
    AddEntityInterns(g2, obj);
    AddFactKeepsValid(g3, s, p, o);
  }

  // ---------------------------------------------------------------------
  // Embedding properties

  /**
   * set_embedding succeeds exactly when the entity is known, the vector
   * is non-empty and the dimension is unset or equal; a refusal changes
   * nothing, and success fixes the dimension and keeps the graph valid.
   */
  lemma SetEmbeddingAccepts(g: Graph, name: Bytes, v: seq<F32>)
    ensures var (g', ok) := SetEmbedding(g, name, v);
      && (ok <==> HasEntity(g, name) && |v| > 0 && (g.dim == 0 || |v| == g.dim))
      && (!ok ==> g' == g)
      && (ok ==> g'.dim == |v| && HasVector(g', g.entityIds[name]))
      && g'.entityNames == g.entityNames && g'.entityIds == g.entityIds && g'.adj == g.adj && g'.quantized == g.quantized
  {
    var (g', ok) := SetEmbedding(g, name, v);
    if ok && g.quantized {
      assert |VF.QuantizedPayload(v).0| == |v|;
    }
  }

  lemma FloatSlotValid(dim: nat, floats: seq<seq<F32>>, id: EntityId, v: seq<F32>)
    requires StorageValid(false, dim, floats, [], []) && |v| > 0 && (dim == 0 || |v| == dim)
    ensures StorageValid(false, |v|, GrowTo(floats, id, [])[id := v], [], [])
  {
    var f := GrowTo(floats, id, [])[id := v];
    forall i | 0 <= i < |f| ensures f[i] == [] || |f[i]| == |v| {
      if i != id && i < |floats| {
        assert f[i] == floats[i];
      }
    }
  }

  lemma QuantSlotValid(dim: nat, codes: seq<seq<Int8>>, params: seq<VF.QParams>, id: EntityId, c: seq<Int8>, p: VF.QParams)
    requires StorageValid(true, dim, [], codes, params) && |c| > 0 && (dim == 0 || |c| == dim)
    ensures StorageValid(true, |c|, [], GrowTo(codes, id, [])[id := c], GrowTo(params, id, NO_PARAMS)[id := p])
  {
    var cs := GrowTo(codes, id, [])[id := c];
    var ps := GrowTo(params, id, NO_PARAMS)[id := p];
    forall i | 0 <= i < |cs| ensures (cs[i] == [] || |cs[i]| == |c|) && (cs[i] == [] ==> ps[i] == NO_PARAMS) {
      if i != id && i < |codes| {
        assert cs[i] == codes[i] && ps[i] == params[i];
      }
    }
  }

  /** A successful set_embedding keeps the graph valid (a refused one changes nothing). */
  lemma SetEmbeddingKeepsValid(g: Graph, name: Bytes, v: seq<F32>)
    requires Valid(g)
    ensures Valid(SetEmbedding(g, name, v).0)
  {
    var (g', ok) := SetEmbedding(g, name, v);
    if ok {
      if g.quantized {
        SetQuantKeepsValid(g, name, v);
      } else {
        SetFloatKeepsValid(g, name, v);
      }
    }
  }

  lemma SetQuantKeepsValid(g: Graph, name: Bytes, v: seq<F32>)
    requires Valid(g) && g.quantized && name in g.entityIds && |v| > 0 && (g.dim == 0 || |v| == g.dim)
    ensures Valid(SetEmbedding(g, name, v).0)
  {
    var id := g.entityIds[name];
    var (c, p) := VF.QuantizedPayload(v);
    var codes := GrowTo(g.codes, id, [])[id := c];
    var params := GrowTo(g.params, id, NO_PARAMS)[id := p];
    QuantSlotValid(g.dim, g.codes, g.params, id, c, p);
    var g' := g.(dim := |v|, codes := codes, params := params);
    assert SetEmbedding(g, name, v).0 == g';
    assert NamesValid(g');
  }

  lemma SetFloatKeepsValid(g: Graph, name: Bytes, v: seq<F32>)
    requires Valid(g) && !g.quantized && name in g.entityIds && |v| > 0 && (g.dim == 0 || |v| == g.dim)
    ensures Valid(SetEmbedding(g, name, v).0)
  {
    var id := g.entityIds[name];
    FloatSlotValid(g.dim, g.floats, id, v);
    var g' := g.(dim := |v|, floats := GrowTo(g.floats, id, [])[id := v]);
    assert SetEmbedding(g, name, v).0 == g';
    assert NamesValid(g');
  }

  /**
   * What get_embedding returns after a successful set_embedding: the
   * vector itself, or in quantized mode its codes dequantized with the
   * params computed for it.
   */
  lemma GetAfterSet(g: Graph, name: Bytes, v: seq<F32>)
    requires Valid(g) && HasEntity(g, name) && |v| > 0 && (g.dim == 0 || |v| == g.dim)
    ensures var g' := SetEmbedding(g, name, v).0;
      var (c, p) := VF.QuantizedPayload(v);
      && |g'.codes| == |g'.params|
      && GetEmbedding(g', name) == if g.quantized then Q.DequantizeAll(c, Q.Params(Val(p.scale), p.zeroPoint)) else Vals(v)
  {
    SetEmbeddingAccepts(g, name, v);
    SetEmbeddingKeepsValid(g, name, v);
  }

  /** get_embedding is empty for an unknown entity and for an entity whose slot is empty. */
  lemma GetWithoutEmbedding(g: Graph, name: Bytes)
    requires |g.codes| == |g.params|
    requires !HasEntity(g, name) || !HasVector(g, g.entityIds[name])
    ensures GetEmbedding(g, name) == []
  {
  }

  lemma {:induction false} CandidatesHaveVectors(g: Graph, n: nat, query: seq<F32>, sim: (seq<real>, seq<real>) -> real, x: Scored<Bytes>)
    requires |g.codes| == |g.params| && n <= Slots(g) <= U32_LIMIT
    ensures x in EmbeddingCandidates(g, n, query, sim) <==>
      exists id | 0 <= id < n :: HasVector(g, id) && x == Scored(EntityName(g, id), sim(Vals(query), StoredVector(g, id)))
  {
    if n > 0 {
      CandidatesHaveVectors(g, n - 1, query, sim, x);
    }
  }

  /**
   * find_similar_entities ranks exactly the entities that have a vector:
   * every candidate is one of them with its score, and each of them is a
   * candidate.
   */
  lemma SimilarCoversEmbedded(g: Graph, query: seq<F32>, sim: (seq<real>, seq<real>) -> real, id: nat)
    requires Valid(g) && id < Slots(g)
    ensures HasVector(g, id) ==>
      Scored(EntityName(g, id), sim(Vals(query), StoredVector(g, id))) in EmbeddingCandidates(g, Slots(g), query, sim)
  {
    if HasVector(g, id) {
      CandidatesHaveVectors(g, Slots(g), query, sim, Scored(EntityName(g, id), sim(Vals(query), StoredVector(g, id))));
    }
  }
}
