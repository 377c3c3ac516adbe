// std::map<std::string, V> as the store uses it: a sequence of entries kept
// in ascending key order, where keys compare as std::string does
// (lexicographically on unsigned bytes, a proper prefix first). Iterating
// the map is walking the sequence from the front.

module OrderedMap {
  import opened ByteCodec

  datatype Option<T> = None | Some(value: T)

  datatype Entry<V> = Entry(key: Bytes, value: V)

  /** std::string's operator<. */
  predicate Less(a: Bytes, b: Bytes)
    decreases |a|
  {
    if |a| == 0 then |b| > 0
    else if |b| == 0 then false
    else a[0] < b[0] || (a[0] == b[0] && Less(a[1..], b[1..]))
  }

  lemma {:induction false} LessIrreflexive(a: Bytes)
    ensures !Less(a, a)
    decreases |a|
  {
    if |a| > 0 { LessIrreflexive(a[1..]); }
  }

  lemma {:induction false} LessTransitive(a: Bytes, b: Bytes, c: Bytes)
    requires Less(a, b) && Less(b, c)
    ensures Less(a, c)
    decreases |a|
  {
    if |a| > 0 && a[0] == b[0] && b[0] == c[0] {
      LessTransitive(a[1..], b[1..], c[1..]);
    }
  }

  lemma {:induction false} LessTotal(a: Bytes, b: Bytes)
    ensures a == b || Less(a, b) || Less(b, a)
    decreases |a|
  {
    if |a| > 0 && |b| > 0 && a[0] == b[0] {
      LessTotal(a[1..], b[1..]);
      if a[1..] == b[1..] {
        assert a == [a[0]] + a[1..] && b == [b[0]] + b[1..];
      }
    }
  }

  lemma {:induction false} LessAsymmetric(a: Bytes, b: Bytes)
    requires Less(a, b)
    ensures !Less(b, a) && a != b
    decreases |a|
  {
    if a == b { LessIrreflexive(a); }
    if |a| > 0 && |b| > 0 && a[0] == b[0] { LessAsymmetric(a[1..], b[1..]); }
  }

  predicate Sorted<V>(e: seq<Entry<V>>)
  {
    forall i, j | 0 <= i < j < |e| :: Less(e[i].key, e[j].key)
  }

  function Keys<V>(e: seq<Entry<V>>): (ks: seq<Bytes>)
    ensures |ks| == |e| && forall i | 0 <= i < |e| :: ks[i] == e[i].key
  {
    seq(|e|, i requires 0 <= i < |e| => e[i].key)
  }

  predicate HasKey<V>(e: seq<Entry<V>>, k: Bytes)
  {
    exists i | 0 <= i < |e| :: e[i].key == k
  }

  /** map::find: the value stored under k, if any (the first, should keys repeat). */
  function Get<V>(e: seq<Entry<V>>, k: Bytes): (r: Option<V>)
    ensures r.None? <==> !HasKey(e, k)
    ensures r.Some? ==> exists i | 0 <= i < |e| :: e[i] == Entry(k, r.value)
  {
    if |e| == 0 then None
    else if e[0].key == k then Some(e[0].value)
    else
      var r := Get(e[1..], k);
      assert forall i | 1 <= i < |e| :: e[i] == e[1..][i - 1];
      r
  }

  /** map::operator[] assignment: replaces the value of k, or inserts k in order. */
  function Put<V>(e: seq<Entry<V>>, k: Bytes, v: V): (r: seq<Entry<V>>)
  {
    if |e| == 0 then [Entry(k, v)]
    else if e[0].key == k then [Entry(k, v)] + e[1..]
    else if Less(k, e[0].key) then [Entry(k, v)] + e
    else [e[0]] + Put(e[1..], k, v)
  }

  /** Every key of Put(e, k, v) is k or a key of e. */
  lemma {:induction false} PutKeys<V>(e: seq<Entry<V>>, k: Bytes, v: V)
    ensures var r := Put(e, k, v);
      (forall i | 0 <= i < |r| :: r[i].key == k || HasKey(e, r[i].key)) && HasKey(r, k)
  {
    var r := Put(e, k, v);
    if |e| > 0 && e[0].key != k && !Less(k, e[0].key) {
      PutKeys(e[1..], k, v);
      forall i | 0 <= i < |r| ensures r[i].key == k || HasKey(e, r[i].key) {
        if i > 0 {
          assert r[i] == Put(e[1..], k, v)[i - 1];
          if r[i].key != k {
            var j :| 0 <= j < |e| - 1 && e[1..][j].key == r[i].key;
            assert e[j + 1].key == r[i].key;
          }
        }
      }
      var j :| 0 <= j < |Put(e[1..], k, v)| && Put(e[1..], k, v)[j].key == k;
      assert r[j + 1].key == k;
    } else {
      assert r[0].key == k;
      forall i | 0 <= i < |r| ensures r[i].key == k || HasKey(e, r[i].key) {
        if i > 0 && e[0].key == k { assert r[i] == e[i]; }
        if i > 0 && e[0].key != k { assert r[i] == e[i - 1]; }
      }
    }
  }

  /** Put keeps the entries in ascending key order. */
  lemma {:induction false} PutSorted<V>(e: seq<Entry<V>>, k: Bytes, v: V)
    requires Sorted(e)
    ensures Sorted(Put(e, k, v))
  {
    if |e| == 0 {
    } else if e[0].key == k {
      PutSortedReplace(e, k, v);
    } else if Less(k, e[0].key) {
      PutSortedFront(e, k, v);
    } else {
      LessTotal(k, e[0].key);
      PutSorted(e[1..], k, v);
      PutSortedInner(e, k, v);
    }
  }

  /** An entry whose key is below every key of a sorted map can go in front of it. */
  lemma SortedCons<V>(x: Entry<V>, t: seq<Entry<V>>)
    requires Sorted(t) && forall j | 0 <= j < |t| :: Less(x.key, t[j].key)
    ensures Sorted([x] + t)
  {
    var r := [x] + t;
    forall i, j | 0 <= i < j < |r| ensures Less(r[i].key, r[j].key) {
      assert r[j] == t[j - 1];
      if i > 0 { assert r[i] == t[i - 1]; }
    }
  }

  /** The keys of a sorted map after its first entry are all above that entry's key. */
  lemma SortedTail<V>(e: seq<Entry<V>>)
    requires Sorted(e) && |e| > 0
    ensures Sorted(e[1..]) && forall j | 0 <= j < |e[1..]| :: Less(e[0].key, e[1..][j].key)
  {
    forall i, j | 0 <= i < j < |e| - 1 ensures Less(e[1..][i].key, e[1..][j].key) {
      assert e[1..][i] == e[i + 1] && e[1..][j] == e[j + 1];
    }
    forall j | 0 <= j < |e| - 1 ensures Less(e[0].key, e[1..][j].key) {
      assert e[1..][j] == e[j + 1];
    }
  }

  lemma PutSortedReplace<V>(e: seq<Entry<V>>, k: Bytes, v: V)
    requires Sorted(e) && |e| > 0 && e[0].key == k
    ensures Sorted(Put(e, k, v))
  {
    SortedTail(e);
    SortedCons(Entry(k, v), e[1..]);
  }

  lemma PutSortedFront<V>(e: seq<Entry<V>>, k: Bytes, v: V)
    requires Sorted(e) && |e| > 0 && Less(k, e[0].key)
    ensures Sorted(Put(e, k, v))
  {
    LessAsymmetric(k, e[0].key);
    forall j | 0 <= j < |e| ensures Less(k, e[j].key) {
      if j > 0 { LessTransitive(k, e[0].key, e[j].key); }
    }
    SortedCons(Entry(k, v), e);
  }

  /** The inductive step: e[0] stays in front of the sorted Put(e[1..], k, v). */
  lemma PutSortedInner<V>(e: seq<Entry<V>>, k: Bytes, v: V)
    requires Sorted(e) && |e| > 0 && Less(e[0].key, k)
    requires Sorted(Put(e[1..], k, v))
    ensures Sorted(Put(e, k, v))
  {
    LessAsymmetric(e[0].key, k);
    var t := Put(e[1..], k, v);
    assert forall j | 0 <= j < |t| :: Less(e[0].key, t[j].key) by {
      SortedTail(e);
      PutKeys(e[1..], k, v);
      forall j | 0 <= j < |t| ensures Less(e[0].key, t[j].key) {
        if t[j].key != k {
          var m :| 0 <= m < |e| - 1 && e[1..][m].key == t[j].key;
        }
      }
    }
    SortedCons(e[0], t);
  }

  /** After Put(e, k, v), k maps to v and every other key to what it mapped to before. */
  lemma {:induction false} PutGet<V>(e: seq<Entry<V>>, k: Bytes, v: V, k': Bytes)
    requires Sorted(e)
    ensures Get(Put(e, k, v), k') == if k' == k then Some(v) else Get(e, k')
  {
    if |e| > 0 {
      if e[0].key == k {
        if k' != k {
          assert Put(e, k, v)[1..] == e[1..];
        }
      } else if Less(k, e[0].key) {
        assert Put(e, k, v)[1..] == e;
      } else {
        assert Put(e, k, v)[1..] == Put(e[1..], k, v);
        PutGet(e[1..], k, v, k');
      }
    }
  }

  /** Put grows the map by one entry exactly when the key is new. */
  lemma {:induction false} PutSize<V>(e: seq<Entry<V>>, k: Bytes, v: V)
    requires Sorted(e)
    ensures |Put(e, k, v)| == if HasKey(e, k) then |e| else |e| + 1
  {
    if |e| > 0 && e[0].key != k && !Less(k, e[0].key) {
      PutSize(e[1..], k, v);
      assert HasKey(e, k) <==> HasKey(e[1..], k) by {
        if HasKey(e, k) {
          var i :| 0 <= i < |e| && e[i].key == k;
          assert e[1..][i - 1].key == k;
        }
        if HasKey(e[1..], k) {
          var i :| 0 <= i < |e| - 1 && e[1..][i].key == k;
          assert e[i + 1].key == k;
        }
      }
    } else if |e| > 0 && e[0].key != k {
      // k sorts before every key of e, so it is new
      if HasKey(e, k) {
        var i :| 0 <= i < |e| && e[i].key == k;
        if i > 0 { LessTransitive(k, e[0].key, e[i].key); }
        LessIrreflexive(k);
      }
    }
  }

  /** A key above every existing key is appended at the end. */
  lemma {:induction false} PutAfterLast<V>(e: seq<Entry<V>>, k: Bytes, v: V)
    requires forall i | 0 <= i < |e| :: Less(e[i].key, k)
    ensures Put(e, k, v) == e + [Entry(k, v)]
  {
    if |e| > 0 {
      LessAsymmetric(e[0].key, k);
      PutAfterLast(e[1..], k, v);
      assert e == [e[0]] + e[1..];
    }
  }

  /** Rebuilding a sorted map entry by entry: putting the next entry of a sorted tail appends it. */
  lemma PutNextOfSorted<V>(a: seq<Entry<V>>, e: seq<Entry<V>>)
    requires e != [] && Sorted(a + e)
    ensures Put(a, e[0].key, e[0].value) == a + [e[0]]
    ensures Sorted((a + [e[0]]) + e[1..]) && (a + [e[0]]) + e[1..] == a + e
  {
    forall i | 0 <= i < |a| ensures Less(a[i].key, e[0].key) {
      assert (a + e)[i] == a[i] && (a + e)[|a|] == e[0];
    }
    PutAfterLast(a, e[0].key, e[0].value);
    assert (a + [e[0]]) + e[1..] == a + e;
  }

  /** Every entry of Put(e, k, v) is the new entry or an entry of e. */
  lemma {:induction false} PutEntries<V>(e: seq<Entry<V>>, k: Bytes, v: V)
    ensures forall x | x in Put(e, k, v) :: x == Entry(k, v) || x in e
  {
    if |e| > 0 && e[0].key != k && !Less(k, e[0].key) {
      PutEntries(e[1..], k, v);
      assert forall x | x in e[1..] :: x in e;
    }
  }

  lemma KeysCons<V>(x: Entry<V>, t: seq<Entry<V>>)
    ensures Keys([x] + t) == [x.key] + Keys(t)
  {
    assert forall i | 0 < i < |t| + 1 :: ([x] + t)[i] == t[i - 1];
  }

  /** Two maps over the same keys still have the same keys after putting the same key in both. */
  lemma {:induction false} PutSameKeys<A, B>(a: seq<Entry<A>>, b: seq<Entry<B>>, k: Bytes, x: A, y: B)
    requires Keys(a) == Keys(b)
    ensures Keys(Put(a, k, x)) == Keys(Put(b, k, y))
  {
    if |a| == 0 {
      assert |b| == 0;
    } else {
      assert a[0].key == Keys(a)[0] == Keys(b)[0] == b[0].key;
      assert Keys(a[1..]) == Keys(a)[1..] == Keys(b)[1..] == Keys(b[1..]);
      if a[0].key == k {
        KeysCons(Entry(k, x), a[1..]);
        KeysCons(Entry(k, y), b[1..]);
      } else if Less(k, a[0].key) {
        KeysCons(Entry(k, x), a);
        KeysCons(Entry(k, y), b);
      } else {
        PutSameKeys(a[1..], b[1..], k, x, y);
        KeysCons(a[0], Put(a[1..], k, x));
        KeysCons(b[0], Put(b[1..], k, y));
      }
    }
  }


  /** A second Put of the same key overrides the first. */
  lemma {:induction false} PutTwice<V>(e: seq<Entry<V>>, k: Bytes, v: V, w: V)
    ensures Put(Put(e, k, v), k, w) == Put(e, k, w)
  {
    if |e| > 0 && e[0].key != k && !Less(k, e[0].key) {
      PutTwice(e[1..], k, v, w);
    } else if |e| > 0 && e[0].key != k {
      assert Put(Put(e, k, v), k, w) == [Entry(k, w)] + e;
    }
  }

  /** In an ordered map, looking up the key of entry i finds entry i's value. */
  lemma GetIndex<V>(e: seq<Entry<V>>, i: nat)
    requires Sorted(e) && i < |e|
    ensures Get(e, e[i].key) == Some(e[i].value)
  {
    var r := Get(e, e[i].key);
    var j :| 0 <= j < |e| && e[j] == Entry(e[i].key, r.value);
    if j < i { LessIrreflexive(e[i].key); }
    if i < j { LessIrreflexive(e[i].key); }
  }
}
