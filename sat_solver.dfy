// The SAT solver: a parser for CNF written as "A | B & !A | C" ('&'
// between clauses, '|' between literals, '!' for negation) and the DPLL
// procedure with unit propagation that decides it.

module Sat {
  import opened OrderedMap
  import opened Text

  datatype Literal = Literal(name: string, positive: bool)

  /** A disjunction of literals. */
  type Clause = seq<Literal>

  /** A conjunction of clauses. */
  type Formula = seq<Clause>

  datatype Status = Satisfiable | Unsatisfiable

  function Negate(l: Literal): Literal
  {
    Literal(l.name, !l.positive)
  }

  // ---------------------------------------------------------------------
  // Meaning of a formula
  // ---------------------------------------------------------------------

  /** The literal is true under the assignment: its variable is assigned its polarity. */
  predicate Holds(a: map<string, bool>, l: Literal)
  {
    l.name in a && a[l.name] == l.positive
  }

  predicate Satisfies(a: map<string, bool>, f: Formula)
  {
    forall c | c in f :: exists l | l in c :: Holds(a, l)
  }

  ghost predicate IsSatisfiable(f: Formula)
  {
    exists a: map<string, bool> :: Satisfies(a, f)
  }

  /** A literal and its negation name the same variable and are never both true. */
  lemma NegateSpec(a: map<string, bool>, l: Literal)
    ensures Negate(Negate(l)) == l && Negate(l) != l
    ensures !(Holds(a, l) && Holds(a, Negate(l)))
    ensures l.name in a ==> Holds(a, l) != Holds(a, Negate(l))
  {
  }

  /** The variables the formula mentions. */
  function Vars(f: Formula): set<string>
  {
    set c, l | c in f && l in c :: l.name
  }

  /** The first literal of a formula whose first clause is not empty names one of its variables. */
  lemma FirstVar(f: Formula)
    requires |f| > 0 && |f[0]| > 0
    ensures f[0][0].name in Vars(f)
  {
    assert f[0] in f && f[0][0] in f[0];
  }

  // ---------------------------------------------------------------------
  // Unit propagation
  // ---------------------------------------------------------------------

  /** The clause with every occurrence of the negation of u deleted, the rest in order. */
  function Reduce(c: Clause, u: Literal): (r: Clause)
    ensures forall l :: l in r <==> l in c && l != Negate(u)
  {
    if c == [] then []
    else
      var last := c[|c| - 1];
      Reduce(c[..|c| - 1], u) + (if last == Negate(u) then [] else [last])
  }

  /**
   * propagate: clauses containing u are dropped (they are satisfied), the
   * negation of u is deleted from the others, and the order is kept.
   */
  function Propagate(f: Formula, u: Literal): Formula
  {
    if f == [] then []
    else
      var last := f[|f| - 1];
      Propagate(f[..|f| - 1], u) + (if u in last then [] else [Reduce(last, u)])
  }

  /** The clauses of the propagated formula are exactly the reduced clauses of f that did not contain u. */
  lemma {:induction false} PropagateMembers(f: Formula, u: Literal)
    ensures forall c' :: c' in Propagate(f, u) <==> exists c | c in f :: u !in c && c' == Reduce(c, u)
  {
    if f != [] {
      var init, last := f[..|f| - 1], f[|f| - 1];
      PropagateMembers(init, u);
      assert f == init + [last];
    }
  }

  /** Propagating u removes its variable from the formula and adds none. */
  lemma PropagateVars(f: Formula, u: Literal)
    ensures Vars(Propagate(f, u)) <= Vars(f) - {u.name}
  {
    PropagateMembers(f, u);
    forall x | x in Vars(Propagate(f, u))
      ensures x in Vars(f) && x != u.name
    {
      var c', l :| c' in Propagate(f, u) && l in c' && l.name == x;
      var c :| c in f && u !in c && c' == Reduce(c, u);
      assert l in c && l != Negate(u);
      assert l != u;
    }
  }

  /** An assignment that makes u true and satisfies the propagated formula satisfies f. */
  lemma PropagateBack(a: map<string, bool>, f: Formula, u: Literal)
    requires Holds(a, u) && Satisfies(a, Propagate(f, u))
    ensures Satisfies(a, f)
  {
    PropagateMembers(f, u);
    forall c | c in f
      ensures exists l | l in c :: Holds(a, l)
    {
      if u !in c {
        assert Reduce(c, u) in Propagate(f, u);
        var l :| l in Reduce(c, u) && Holds(a, l);
        assert l in c;
      }
    }
  }

  /** An assignment that satisfies f and does not make u false satisfies the propagated formula. */
  lemma PropagateSat(a: map<string, bool>, f: Formula, u: Literal)
    requires Satisfies(a, f) && !Holds(a, Negate(u))
    ensures Satisfies(a, Propagate(f, u))
  {
    PropagateMembers(f, u);
    forall c' | c' in Propagate(f, u)
      ensures exists l | l in c' :: Holds(a, l)
    {
      var c :| c in f && u !in c && c' == Reduce(c, u);
      var l :| l in c && Holds(a, l);
      assert l in c';
    }
  }

  // ---------------------------------------------------------------------
  // DPLL
  // ---------------------------------------------------------------------

  /** The only literal of the first clause that has exactly one. */
  function FirstUnit(f: Formula): (r: Option<Literal>)
    ensures r.Some? ==> [r.value] in f
    ensures r.None? ==> forall c | c in f :: |c| != 1
  {
    if f == [] then None
    else if |f[0]| == 1 then assert f[0] == [f[0][0]]; Some(f[0][0])
    else
      var r := FirstUnit(f[1..]);
      assert forall c | c in f :: c == f[0] || c in f[1..];
      r
  }

  /**
   * What dpll returns and the assignment it leaves, from the assignment it
   * is given: entries it sets on a branch that fails stay set.
   */
  function Solve(f: Formula, a: map<string, bool>): (bool, map<string, bool>)
    decreases Vars(f)
  {
    if f == [] then (true, a)
    else if [] in f then (false, a)
    else match FirstUnit(f)
      case Some(u) =>
        assert u.name in Vars(f);
        PropagateVars(f, u);
        Solve(Propagate(f, u), a[u.name := u.positive])
      case None =>
        var pick := f[0][0];
        FirstVar(f);
        PropagateVars(f, pick);
        PropagateVars(f, Negate(pick));
        var (ok, a1) := Solve(Propagate(f, pick), a[pick.name := pick.positive]);
        if ok then (true, a1)
        else Solve(Propagate(f, Negate(pick)), a1[pick.name := !pick.positive])
  }

  /** b agrees with a on every variable outside vs. */
  ghost predicate AgreeOutside(a: map<string, bool>, b: map<string, bool>, vs: set<string>)
  {
    forall x | x !in vs :: (x in a <==> x in b) && (x in a ==> a[x] == b[x])
  }

  /** dpll writes only the variables of its formula. */
  lemma {:induction false} SolveFrame(f: Formula, a: map<string, bool>)
    ensures AgreeOutside(a, Solve(f, a).1, Vars(f))
    decreases Vars(f)
  {
    if f != [] && [] !in f {
      match FirstUnit(f)
      case Some(u) =>
        assert u.name in Vars(f);
        PropagateVars(f, u);
        SolveFrame(Propagate(f, u), a[u.name := u.positive]);
      case None =>
        var pick := f[0][0];
        FirstVar(f);
        PropagateVars(f, pick);
        PropagateVars(f, Negate(pick));
        var a0 := a[pick.name := pick.positive];
        SolveFrame(Propagate(f, pick), a0);
        var (ok, a1) := Solve(Propagate(f, pick), a0);
        if !ok {
          SolveFrame(Propagate(f, Negate(pick)), a1[pick.name := !pick.positive]);
        }
    }
  }

  /** Solving u's propagated formula from an assignment making u true ends in one that satisfies f. */
  lemma SolveStep(f: Formula, a: map<string, bool>, u: Literal)
    requires u.name in Vars(f)
    requires Solve(Propagate(f, u), a[u.name := u.positive]).0
    requires Satisfies(Solve(Propagate(f, u), a[u.name := u.positive]).1, Propagate(f, u))
    ensures Satisfies(Solve(Propagate(f, u), a[u.name := u.positive]).1, f)
  {
    var a0 := a[u.name := u.positive];
    PropagateVars(f, u);
    SolveFrame(Propagate(f, u), a0);
    PropagateBack(Solve(Propagate(f, u), a0).1, f, u);
  }

  /** Soundness: when dpll answers true, the assignment it leaves satisfies the formula. */
  lemma {:induction false} SolveSound(f: Formula, a: map<string, bool>)
    ensures Solve(f, a).0 ==> Satisfies(Solve(f, a).1, f)
    decreases Vars(f)
  {
    if f != [] && [] !in f {
      match FirstUnit(f)
      case Some(u) =>
        assert u.name in Vars(f);
        PropagateVars(f, u);
        SolveSound(Propagate(f, u), a[u.name := u.positive]);
        if Solve(f, a).0 {
          SolveStep(f, a, u);
        }
      case None =>
        var pick := f[0][0];
        FirstVar(f);
        PropagateVars(f, pick);
        PropagateVars(f, Negate(pick));
        var a0 := a[pick.name := pick.positive];
        SolveSound(Propagate(f, pick), a0);
        var (ok, a1) := Solve(Propagate(f, pick), a0);
        if ok {
          SolveStep(f, a, pick);
        } else {
          SolveSound(Propagate(f, Negate(pick)), a1[pick.name := !pick.positive]);
          if Solve(f, a).0 {
            assert Negate(pick).name == pick.name;
            SolveStep(f, a1, Negate(pick));
          }
        }
    }
  }

  /** No assignment satisfies the empty clause. */
  lemma SatisfiedHasNoEmptyClause(b: map<string, bool>, f: Formula)
    requires Satisfies(b, f)
    ensures [] !in f
  {
  }

  /** Completeness: dpll answers true on every formula some assignment satisfies. */
  lemma {:induction false} SolveComplete(f: Formula, a: map<string, bool>, b: map<string, bool>)
    requires Satisfies(b, f)
    ensures Solve(f, a).0
    decreases Vars(f)
  {
    SatisfiedHasNoEmptyClause(b, f);
    if f != [] {
      match FirstUnit(f)
      case Some(u) =>
        assert u.name in Vars(f);
        PropagateVars(f, u);
        assert exists l | l in [u] :: Holds(b, l);
        NegateSpec(b, u);
        PropagateSat(b, f, u);
        SolveComplete(Propagate(f, u), a[u.name := u.positive], b);
      case None =>
        var pick := f[0][0];
        FirstVar(f);
        PropagateVars(f, pick);
        PropagateVars(f, Negate(pick));
        var a0 := a[pick.name := pick.positive];
        var (ok, a1) := Solve(Propagate(f, pick), a0);
        NegateSpec(b, pick);
        if Holds(b, Negate(pick)) {
          PropagateSat(b, f, Negate(pick));
          SolveComplete(Propagate(f, Negate(pick)), a1[pick.name := !pick.positive], b);
        } else {
          PropagateSat(b, f, pick);
          SolveComplete(Propagate(f, pick), a0, b);
        }
    }
  }

  /** dpll decides satisfiability, from any starting assignment. */
  lemma SolveCorrect(f: Formula, a: map<string, bool>)
    ensures Solve(f, a).0 <==> IsSatisfiable(f)
    ensures Solve(f, a).0 ==> Satisfies(Solve(f, a).1, f)
  {
    SolveSound(f, a);
    if IsSatisfiable(f) {
      var b :| Satisfies(b, f);
      SolveComplete(f, a, b);
    }
  }

  /** propagate's loops: one pass over the clauses, one over each clause's literals. */
  method PropagateFormula(f: Formula, u: Literal) returns (g: Formula)
    ensures g == Propagate(f, u)
  {
    g := [];
    var i := 0;
    while i < |f|
      invariant 0 <= i <= |f|
      invariant g == Propagate(f[..i], u)
    {
      assert f[..i + 1][..i] == f[..i];
      var satisfied, reduced := ReduceClause(f[i], u);
      if !satisfied {
        g := g + [reduced];
      }
      i := i + 1;
    }
    assert f[..|f|] == f;
  }

  /** The inner loop of propagate: stops at u, skips its negation, keeps the rest. */
  method ReduceClause(c: Clause, u: Literal) returns (satisfied: bool, reduced: Clause)
    ensures satisfied <==> u in c
    ensures !satisfied ==> reduced == Reduce(c, u)
  {
    satisfied := false;
    reduced := [];
    var j := 0;
    while j < |c|
      invariant 0 <= j <= |c|
      invariant u !in c[..j]
      invariant reduced == Reduce(c[..j], u)
    {
      assert c[..j + 1][..j] == c[..j];
      if c[j] == u {
        return true, reduced;
      } else if c[j] == Negate(u) {
      } else {
        reduced := reduced + [c[j]];
      }
      j := j + 1;
    }
    assert c[..|c|] == c;
  }

  /** dpll: the formula is taken by value and the assignment returned as it is left. */
  method Dpll(f: Formula, a: map<string, bool>) returns (ok: bool, a': map<string, bool>)
    ensures (ok, a') == Solve(f, a)
    decreases Vars(f)
  {
    if f == [] {
      return true, a;
    }
    var i := 0;
    while i < |f|
      invariant 0 <= i <= |f|
      invariant [] !in f[..i]
    {
      if f[i] == [] {
        assert f[i] in f;
        return false, a;
      }
      i := i + 1;
    }
    assert f[..|f|] == f;
    i := 0;
    while i < |f|
      invariant 0 <= i <= |f|
      invariant FirstUnit(f[i..]) == FirstUnit(f)
    {
      if |f[i]| == 1 {
        var unit := f[i][0];
        assert unit.name in Vars(f) by { assert f[i] in f; }
        PropagateVars(f, unit);
        var g := PropagateFormula(f, unit);
        ok, a' := Dpll(g, a[unit.name := unit.positive]);
        return;
      }
      assert f[i..][1..] == f[i + 1..];
      i := i + 1;
    }
    var pick := f[0][0];
    FirstVar(f);
    PropagateVars(f, pick);
    PropagateVars(f, Negate(pick));
    var g := PropagateFormula(f, pick);
    ok, a' := Dpll(g, a[pick.name := pick.positive]);
    if ok {
      return;
    }
    var h := PropagateFormula(f, Negate(pick));
    ok, a' := Dpll(h, a'[pick.name := !pick.positive]);
  }

  // ---------------------------------------------------------------------
  // Parsing
  // ---------------------------------------------------------------------

  /** One '|'-separated piece: trimmed, skipped when empty, negative after a leading '!'. */
  function ParseLiteral(piece: string): Option<Literal>
  {
    var s := Strip(piece);
    if s == [] then None
    else if s[0] == '!' then Some(Literal(s[1..], false))
    else Some(Literal(s, true))
  }

  /** The literals of a clause's pieces, in order. */
  function ClauseOf(pieces: seq<string>): (c: Clause)
    ensures |c| <= |pieces|
  {
    if pieces == [] then []
    else
      var c := ClauseOf(pieces[..|pieces| - 1]);
      match ParseLiteral(pieces[|pieces| - 1])
      case None => c
      case Some(l) => c + [l]
  }

  /** The non-empty clauses of the '&'-separated segments, in order. */
  function ClausesOf(segments: seq<string>): (f: Formula)
    ensures [] !in f
  {
    if segments == [] then []
    else
      var f := ClausesOf(segments[..|segments| - 1]);
      var c := ClauseOf(Split(segments[|segments| - 1], '|'));
      if c == [] then f else f + [c]
  }

  /** parse_formula's result. */
  function ParseCnf(s: string): Formula
  {
    ClausesOf(Split(s, '&'))
  }

  /** A parsed literal is the trimmed piece, without its leading '!' when negative. */
  lemma ParseLiteralSpec(piece: string)
    ensures ParseLiteral(piece).None? <==> AllSpace(piece)
    ensures ParseLiteral(piece).Some? ==>
      var l := ParseLiteral(piece).value;
      (if l.positive then [] else "!") + l.name == Trim(piece)
  {
    if !AllSpace(piece) {
      InnerSpec(piece);
    }
  }

  /** The parsed formula has no empty clause, and its variable names contain neither separator. */
  lemma {:induction false} ParseCnfShape(s: string)
    ensures [] !in ParseCnf(s)
    ensures forall c, l | c in ParseCnf(s) && l in c :: '&' !in l.name && '|' !in l.name
  {
    var segments := Split(s, '&');
    SegmentsShape(segments);
  }

  lemma {:induction false} SegmentsShape(segments: seq<string>)
    requires forall k | 0 <= k < |segments| :: '&' !in segments[k]
    ensures forall c, l | c in ClausesOf(segments) && l in c :: '&' !in l.name && '|' !in l.name
  {
    if segments != [] {
      var last := segments[|segments| - 1];
      SegmentsShape(segments[..|segments| - 1]);
      SplitChars(last, '|');
      PiecesShape(Split(last, '|'), last);
    }
  }

  lemma {:induction false} PiecesShape(pieces: seq<string>, segment: string)
    requires forall k | 0 <= k < |pieces| :: '|' !in pieces[k] && forall ch | ch in pieces[k] :: ch in segment
    requires '&' !in segment
    ensures forall l | l in ClauseOf(pieces) :: '&' !in l.name && '|' !in l.name
  {
    if pieces != [] {
      var last := pieces[|pieces| - 1];
      PiecesShape(pieces[..|pieces| - 1], segment);
      if !AllSpace(last) {
        InnerSpec(last);
      }
    }
  }

  /** Every piece std::getline delivers is made of the characters of the string it splits. */
  lemma {:induction false} SplitChars(s: string, d: char)
    ensures forall k | 0 <= k < |Split(s, d)| :: forall ch | ch in Split(s, d)[k] :: ch in s
    decreases |s|
  {
    if s != [] {
      var k := IndexOf(s, d);
      if k < |s| {
        SplitChars(s[k + 1..], d);
      }
    }
  }

  /** "A | B & !A" parses to the clauses (A or B) and (not A). */
  lemma SimpleFormulaParse()
    ensures ParseCnf("A | B & !A") == [[Literal("A", true), Literal("B", true)], [Literal("A", false)]]
  {
    SimplePieces();
    SinglePieces();
    LiteralFacts();
    ClauseOfPair("A ", " B ", Literal("A", true), Literal("B", true));
    ClauseOfPair([], " !A", Literal("A", false), Literal("A", false));
    ClausesOfPair("A | B ", " !A");
  }

  /** The pieces std::getline cuts "A | B & !A" into. */
  lemma SimplePieces()
    ensures Split("A | B & !A", '&') == ["A | B ", " !A"]
    ensures Split("A | B ", '|') == ["A ", " B "]
  {
    FirstSegment();
    SinglePieces();
    ClauseABPieces();
  }

  lemma FirstSegment()
    ensures Split("A | B & !A", '&') == ["A | B "] + Split(" !A", '&')
  {
    var s := "A | B & !A";
    assert s[..6] == "A | B " && s[7..] == " !A";
    SplitAt(s, '&', 6);
  }

  lemma ClauseABPieces()
    ensures Split("A | B ", '|') == ["A ", " B "]
  {
    var c := "A | B ";
    var a, b := c[..2], c[3..];
    assert a == "A " && b == " B ";
    SplitTwo(c, '|', 2);
  }

  /** Pieces of the test formulas that hold no delimiter. */
  lemma SinglePieces()
    ensures Split(" !A", '&') == [" !A"]
    ensures Split(" !A", '|') == [" !A"]
    ensures Split("A ", '|') == ["A "]
  {
    SplitLast(" !A", '&');
    SplitLast(" !A", '|');
    SplitLast("A ", '|');
  }

  /** The clause of two pieces that each hold a literal. */
  lemma ClauseOfPair(p: string, q: string, l1: Literal, l2: Literal)
    requires p != [] ==> ParseLiteral(p) == Some(l1)
    requires ParseLiteral(q) == Some(l2)
    ensures p != [] ==> ClauseOf([p, q]) == [l1, l2]
    ensures ClauseOf([q]) == [l2]
  {
    assert [p, q][..1] == [p];
    assert [q][..0] == [];
  }

  /** The formula of two segments whose clauses are not empty. */
  lemma ClausesOfPair(s1: string, s2: string)
    requires ClauseOf(Split(s1, '|')) != [] && ClauseOf(Split(s2, '|')) != []
    ensures ClausesOf([s1, s2]) == [ClauseOf(Split(s1, '|')), ClauseOf(Split(s2, '|'))]
  {
    var c1, c2 := ClauseOf(Split(s1, '|')), ClauseOf(Split(s2, '|'));
    assert [s1][..0] == [];
    assert ClausesOf([s1]) == [] + [c1];
    assert [s1, s2][..1] == [s1];
    assert ClausesOf([s1, s2]) == ClausesOf([s1]) + [c2];
  }

  /** The literals the test formulas' pieces trim to. */
  lemma LiteralFacts()
    ensures ParseLiteral("A ") == Some(Literal("A", true))
    ensures ParseLiteral(" B ") == Some(Literal("B", true))
    ensures ParseLiteral(" !A") == Some(Literal("A", false))
  {
    TrimIs("A ", 0, 1);
    TrimIs(" B ", 1, 2);
    TrimIs(" !A", 1, 3);
    assert "A "[0..1] == "A" && " B "[1..2] == "B" && " !A"[1..3] == "!A" && "!A"[1..] == "A";
  }

  /** Solving (A or B) and (not A) sets A false by unit propagation, then B true. */
  lemma SimpleFormulaSolve()
    ensures Solve([[Literal("A", true), Literal("B", true)], [Literal("A", false)]], map[])
      == (true, map["A" := false, "B" := true])
  {
    var f := [[Literal("A", true), Literal("B", true)], [Literal("A", false)]];
    var nA := Literal("A", false);
    assert FirstUnit(f) == Some(nA);
    var g := [[Literal("B", true)]];
    assert Reduce(f[0], nA) == [Literal("B", true)] by {
      assert f[0][..1] == [Literal("A", true)];
    }
    assert Propagate(f, nA) == g by {
      assert f[..1] == [f[0]];
    }
    assert Propagate(g, Literal("B", true)) == [] by {
      assert g[..0] == [];
    }
  }

  /** "A & !A" parses to the clauses A and (not A). */
  lemma ContradictionParse()
    ensures ParseCnf("A & !A") == [[Literal("A", true)], [Literal("A", false)]]
  {
    ContradictionSegment();
    SinglePieces();
    LiteralFacts();
    ClauseOfPair([], "A ", Literal("A", true), Literal("A", true));
    ClauseOfPair([], " !A", Literal("A", false), Literal("A", false));
    ClausesOfPair("A ", " !A");
  }

  lemma ContradictionSegment()
    ensures Split("A & !A", '&') == ["A "] + Split(" !A", '&')
  {
    var s := "A & !A";
    assert s[..2] == "A " && s[3..] == " !A";
    SplitAt(s, '&', 2);
  }

  /** A and (not A) has no model: propagating A leaves an empty clause. */
  lemma ContradictionSolve()
    ensures !Solve([[Literal("A", true)], [Literal("A", false)]], map[]).0
  {
    var f := [[Literal("A", true)], [Literal("A", false)]];
    assert FirstUnit(f) == Some(Literal("A", true));
    assert Reduce(f[1], Literal("A", true)) == [] by {
      assert f[1][..0] == [];
    }
    assert Propagate(f, Literal("A", true)) == [[]] by {
      assert f[..1] == [f[0]];
    }
  }

  /** The clause loop of parse_formula. */
  method ParseClause(segment: string) returns (c: Clause)
    ensures c == ClauseOf(Split(segment, '|'))
  {
    var pieces := Split(segment, '|');
    c := [];
    var j := 0;
    while j < |pieces|
      invariant 0 <= j <= |pieces|
      invariant c == ClauseOf(pieces[..j])
    {
      assert pieces[..j + 1][..j] == pieces[..j];
      var l := ParseLiteral(pieces[j]);
      if l.Some? {
        c := c + [l.value];
      }
      j := j + 1;
    }
    assert pieces[..|pieces|] == pieces;
  }

  /** The model get_model reports: each assigned variable as "true" or "false". */
  function ModelText(b: bool): string
  {
    if b then "true" else "false"
  }

  class SatSolver {
    var assignments: map<string, bool>
    var formula: Formula

    constructor()
      ensures assignments == map[] && formula == []
    {
      assignments := map[];
      formula := [];
    }

    /** reset: clears the assignments and the formula. */
    method Reset()
      modifies this
      ensures assignments == map[] && formula == []
    {
      assignments := map[];
      formula := [];
    }

    /** parse_formula: replaces the formula by the parsed one. */
    method ParseFormula(s: string)
      modifies this`formula
      ensures formula == ParseCnf(s)
    {
      formula := [];
      var segments := Split(s, '&');
      var i := 0;
      while i < |segments|
        invariant 0 <= i <= |segments|
        invariant formula == ClausesOf(segments[..i])
      {
        assert segments[..i + 1][..i] == segments[..i];
        var c := ParseClause(segments[i]);
        if c != [] {
          formula := formula + [c];
        }
        i := i + 1;
      }
      assert segments[..|segments|] == segments;
    }

    /**
     * check: solves the parsed formula from an empty assignment. The answer
     * is Satisfiable exactly when some assignment satisfies the formula,
     * and then the assignments left behind satisfy it.
     */
    method Check(s: string) returns (status: Status)
      modifies this
      ensures formula == ParseCnf(s)
      ensures (status == Satisfiable, assignments) == Solve(formula, map[])
      ensures status == Satisfiable <==> IsSatisfiable(formula)
      ensures status == Satisfiable ==> Satisfies(assignments, formula)
    {
      Reset();
      ParseFormula(s);
      var ok;
      ok, assignments := Dpll(formula, assignments);
      SolveCorrect(formula, map[]);
      status := if ok then Satisfiable else Unsatisfiable;
    }

    /** get_model: every assigned variable, as "true" or "false". */
    method GetModel() returns (model: map<string, string>)
      ensures model.Keys == assignments.Keys
      ensures forall x | x in assignments :: model[x] == ModelText(assignments[x])
    {
      model := map[];
      var left := assignments.Keys;
      while left != {}
        invariant left <= assignments.Keys
        invariant model.Keys == assignments.Keys - left
        invariant forall x | x in model :: model[x] == ModelText(assignments[x])
        decreases |left|
      {
        var x :| x in left;
        model := model[x := ModelText(assignments[x])];
        left := left - {x};
      }
    }
  }
}
