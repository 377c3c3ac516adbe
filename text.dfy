// The std::string helpers the rule engine and the SAT solver share: the
// whitespace set " \t\r\n" they trim, find / find_first_not_of /
// find_last_not_of, and the pieces std::getline delivers when it reads a
// string with a delimiter.

module Text {
  import opened OrderedMap

  /** The characters both parsers trim: space, tab, CR and LF. */
  predicate IsSpace(c: char)
  {
    c == ' ' || c == '\t' || c == '\r' || c == '\n'
  }

  predicate AllSpace(s: string)
  {
    forall i | 0 <= i < |s| :: IsSpace(s[i])
  }

  /** The number of whitespace characters s starts with (find_first_not_of, or |s| for npos). */
  function Lead(s: string): (n: nat)
    ensures n <= |s|
    ensures forall i | 0 <= i < n :: IsSpace(s[i])
    ensures n < |s| ==> !IsSpace(s[n])
  {
    if s == [] || !IsSpace(s[0]) then 0 else 1 + Lead(s[1..])
  }

  /** The number of whitespace characters s ends with. */
  function Trail(s: string): (n: nat)
    ensures n <= |s|
    ensures forall i | |s| - n <= i < |s| :: IsSpace(s[i])
    ensures n < |s| ==> !IsSpace(s[|s| - 1 - n])
  {
    if s == [] || !IsSpace(s[|s| - 1]) then 0 else 1 + Trail(s[..|s| - 1])
  }

  /** The text between the leading and the trailing whitespace of a string that is not all whitespace. */
  function Inner(s: string): string
    requires !AllSpace(s)
  {
    assert Lead(s) < |s|;
    assert Lead(s) + Trail(s) < |s|;
    s[Lead(s) .. |s| - Trail(s)]
  }

  /** The rule engine's trim: an all-whitespace string (the empty one included) comes back unchanged. */
  function Trim(s: string): string
  {
    if AllSpace(s) then s else Inner(s)
  }

  /** The solver's pair of erase calls: an all-whitespace string becomes empty. */
  function Strip(s: string): string
  {
    if AllSpace(s) then [] else Inner(s)
  }

  /**
   * What trimming leaves of a string with some non-whitespace: a slice
   * whose ends are not whitespace, cut from s where everything before and
   * after it is whitespace.
   */
  lemma InnerSpec(s: string)
    requires !AllSpace(s)
    ensures var r := Inner(s);
      && |r| > 0 && !IsSpace(r[0]) && !IsSpace(r[|r| - 1])
      && exists a, b | 0 <= a <= b <= |s| :: r == s[a..b] && AllSpace(s[..a]) && AllSpace(s[b..])
  {
    var a, b := Lead(s), |s| - Trail(s);
    assert Inner(s) == s[a..b];
    assert AllSpace(s[..a]) && AllSpace(s[b..]);
  }

  /** Trimming twice trims no more than trimming once. */
  lemma TrimIdempotent(s: string)
    ensures Trim(Trim(s)) == Trim(s)
    ensures Strip(Strip(s)) == Strip(s)
  {
    if !AllSpace(s) {
      var r := Inner(s);
      InnerSpec(s);
      assert !IsSpace(r[0]);
      assert Lead(r) == 0 && Trail(r) == 0;
      assert !AllSpace(r);
      assert Inner(r) == r[0..|r|] == r;
    }
  }

  /** The two trims differ only on all-whitespace input. */
  lemma StripIsTrim(s: string)
    ensures Strip(s) == if AllSpace(s) then [] else Trim(s)
  {
  }

  /** p occurs in s starting at index j. */
  predicate OccursAt(s: string, p: string, j: nat)
  {
    j + |p| <= |s| && s[j .. j + |p|] == p
  }

  /** std::string::find from position i: the first index at or after i where p occurs. */
  function FindFrom(s: string, p: string, i: nat): (r: Option<nat>)
    requires i <= |s|
    ensures r.Some? ==> i <= r.value && OccursAt(s, p, r.value)
    ensures forall j: nat | i <= j && (r.None? || j < r.value) :: !OccursAt(s, p, j)
    decreases |s| - i
  {
    if i + |p| > |s| then None
    else if s[i .. i + |p|] == p then Some(i)
    else FindFrom(s, p, i + 1)
  }

  /** std::string::find: None stands for npos. */
  function Find(s: string, p: string): (r: Option<nat>)
  {
    FindFrom(s, p, 0)
  }

  /** The first index holding c, or |s| when there is none. */
  function IndexOf(s: string, c: char): (n: nat)
    ensures n <= |s| && c !in s[..n]
    ensures n < |s| ==> s[n] == c
  {
    if s == [] then 0
    else if s[0] == c then 0
    else
      var m := IndexOf(s[1..], c);
      assert s[..m + 1] == [s[0]] + s[1..][..m];
      m + 1
  }

  /** The first index holding c is k when c is at k and not before it. */
  lemma IndexOfIs(s: string, c: char, k: nat)
    requires k <= |s| && c !in s[..k] && (k < |s| ==> s[k] == c)
    ensures IndexOf(s, c) == k
  {
  }

  /** Both trims of s are s[a..b] when only whitespace lies outside it and its ends are not whitespace. */
  lemma TrimIs(s: string, a: nat, b: nat)
    requires a < b <= |s| && !IsSpace(s[a]) && !IsSpace(s[b - 1])
    requires forall i | 0 <= i < a :: IsSpace(s[i])
    requires forall i | b <= i < |s| :: IsSpace(s[i])
    ensures Trim(s) == s[a..b] && Strip(s) == s[a..b]
  {
    assert Lead(s) == a;
    assert Trail(s) == |s| - b;
  }

  /**
   * The strings std::getline(in, piece, d) delivers in turn: the text up
   * to each delimiter, and after the last one the rest if it is not empty
   * (a read that reaches the end with nothing extracted fails).
   */
  function Split(s: string, d: char): (r: seq<string>)
    ensures r == [] <==> s == []
    ensures forall k | 0 <= k < |r| :: d !in r[k]
    decreases |s|
  {
    if s == [] then []
    else
      var k := IndexOf(s, d);
      if k == |s| then [s] else [s[..k]] + Split(s[k + 1..], d)
  }

  /** The first piece runs up to the first delimiter, at k. */
  lemma SplitAt(s: string, d: char, k: nat)
    requires k < |s| && s[k] == d && d !in s[..k]
    ensures Split(s, d) == [s[..k]] + Split(s[k + 1..], d)
  {
    IndexOfIs(s, d, k);
  }

  /** A non-empty string without the delimiter is a single piece. */
  lemma SplitLast(s: string, d: char)
    requires s != [] && d !in s
    ensures Split(s, d) == [s]
  {
    assert s[..|s|] == s;
    IndexOfIs(s, d, |s|);
  }

  /** A string with exactly one delimiter, not at its end, splits into two pieces. */
  lemma SplitTwo(s: string, d: char, k: nat)
    requires k + 1 < |s| && s[k] == d && d !in s[..k] && d !in s[k + 1..]
    ensures Split(s, d) == [s[..k], s[k + 1..]]
  {
    SplitAt(s, d, k);
    SplitLast(s[k + 1..], d);
  }

  /** The pieces put back together with the delimiter between them. */
  function Join(parts: seq<string>, d: char): string
  {
    if parts == [] then []
    else if |parts| == 1 then parts[0]
    else parts[0] + [d] + Join(parts[1..], d)
  }

  predicate EndsWith(s: string, d: char)
  {
    |s| > 0 && s[|s| - 1] == d
  }

  /** Joining a first piece in front of the others. */
  lemma JoinCons(head: string, tail: seq<string>, d: char)
    ensures Join([head] + tail, d) == if tail == [] then head else head + [d] + Join(tail, d)
  {
    assert ([head] + tail)[1..] == tail;
  }

  /** Splitting loses nothing but a final delimiter: the pieces joined give s back. */
  lemma {:induction false} SplitJoin(s: string, d: char)
    ensures Join(Split(s, d), d) + (if EndsWith(s, d) then [d] else []) == s
    decreases |s|
  {
    if s != [] {
      var k := IndexOf(s, d);
      if k == |s| {
        assert s[..|s|] == s;
        assert Split(s, d) == [s];
        assert !EndsWith(s, d);
      } else {
        SplitJoin(s[k + 1..], d);
        SplitJoinStep(s, d, k);
      }
    }
  }

  /** The step of SplitJoin: from the rest after the first delimiter to the whole string. */
  lemma SplitJoinStep(s: string, d: char, k: nat)
    requires k < |s| && s[k] == d && d !in s[..k]
    requires var rest := s[k + 1..];
      Join(Split(rest, d), d) + (if EndsWith(rest, d) then [d] else []) == rest
    ensures Join(Split(s, d), d) + (if EndsWith(s, d) then [d] else []) == s
  {
    var a, rest := s[..k], s[k + 1..];
    assert Split(s, d) == [a] + Split(rest, d) by { SplitAt(s, d, k); }
    assert s == a + [d] + rest;
    JoinStep(a, d, rest, Split(rest, d), Split(s, d), s);
  }

  /** Joining a piece, the delimiter and what the rest joins back to gives the whole string back. */
  lemma JoinStep(a: string, d: char, rest: string, tail: seq<string>, pieces: seq<string>, s: string)
    requires s == a + [d] + rest && pieces == [a] + tail
    requires tail == [] <==> rest == []
    requires Join(tail, d) + (if EndsWith(rest, d) then [d] else []) == rest
    ensures Join(pieces, d) + (if EndsWith(s, d) then [d] else []) == s
  {
    JoinCons(a, tail, d);
    if rest == [] {
      assert EndsWith(s, d);
    } else {
      assert EndsWith(s, d) == EndsWith(rest, d);
      var e := if EndsWith(rest, d) then [d] else [];
      Regroup(a, d, Join(tail, d), e, rest, s);
    }
  }

  lemma Regroup(a: string, d: char, j: string, e: string, rest: string, s: string)
    requires j + e == rest && s == a + [d] + rest
    ensures (a + [d] + j) + e == s
  {
  }
}
