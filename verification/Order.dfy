/** Row indices, the direction a log grows in, and sorted listings of index sets. */
module Order {

  datatype Option<+T> = None | Some(value: T)

  datatype Result<+T, +E> = Ok(value: T) | Err(error: E)

  datatype Direction = Increasing | Decreasing

  /** A depth, or a UTC instant in milliseconds (microseconds are its thousandths). */
  datatype Index = Index(at: real)

  /** Strictly earlier in growth order. */
  predicate Before(d: Direction, a: Index, b: Index) {
    if d.Increasing? then a.at < b.at else a.at > b.at
  }

  predicate Ordered(d: Direction, s: seq<Index>) {
    forall i, j :: 0 <= i < j < |s| ==> Before(d, s[i], s[j])
  }

  lemma OrderedAt(d: Direction, s: seq<Index>, i: nat, j: nat)
    requires Ordered(d, s) && i < |s| && j < |s|
    ensures i < j <==> Before(d, s[i], s[j])
    ensures i == j <==> s[i] == s[j]
  {
  }

  lemma {:induction false} FirstExists(d: Direction, s: set<Index>)
    requires s != {}
    ensures exists m :: m in s && forall x :: x in s ==> !Before(d, x, m)
    decreases |s|
  {
    var a :| a in s;
    var rest := s - {a};
    if rest != {} {
      FirstExists(d, rest);
      var m :| m in rest && forall x :: x in rest ==> !Before(d, x, m);
      var least := if Before(d, a, m) then a else m;
      assert least in s;
      forall x | x in s
        ensures !Before(d, x, least)
      {
        assert x == a || x in rest;
      }
    } else {
      assert forall x :: x in s ==> x == a || x in rest;
    }
  }

  /** The earliest member of a non-empty set. */
  function First(d: Direction, s: set<Index>): (m: Index)
    requires s != {}
    ensures m in s && forall x :: x in s && x != m ==> Before(d, m, x)
  {
    FirstExists(d, s);
    var m :| m in s && forall x :: x in s ==> !Before(d, x, m);
    m
  }

  /** Python's `sorted` on the keys of a dictionary, in growth order. */
  function Sorted(d: Direction, s: set<Index>): (r: seq<Index>)
    ensures Ordered(d, r)
    ensures forall x :: x in r <==> x in s
    ensures |r| == |s|
    decreases |s|
  {
    if s == {} then [] else
      var m := First(d, s);
      [m] + Sorted(d, s - {m})
  }

  lemma HeadIsFirst(d: Direction, s: set<Index>, r: seq<Index>)
    requires s != {} && Ordered(d, r)
    requires forall x :: x in r <==> x in s
    ensures |r| > 0 && r[0] == First(d, s)
    ensures forall x :: x in r[1..] <==> x in s - {r[0]}
  {
    var m := First(d, s);
    assert m in r;
    var i :| 0 <= i < |r| && r[i] == m;
    OrderedAt(d, r, 0, i);
    assert r[0] in r;
    assert r == [r[0]] + r[1..];
    assert forall j :: 0 < j < |r| ==> Before(d, r[0], r[j]);
  }

  /** An ordered listing of a set is the sorted listing. */
  lemma {:induction false} SortedUnique(d: Direction, s: set<Index>, r: seq<Index>)
    requires Ordered(d, r)
    requires forall x :: x in r <==> x in s
    ensures r == Sorted(d, s)
    decreases |s|
  {
    hide First, Ordered;
    if r == [] {
      assert s == {};
    } else {
      assert r[0] in s;
      HeadIsFirst(d, s, r);
      TailOrdered(d, r);
      SortedUnique(d, s - {r[0]}, r[1..]);
      calc {
        Sorted(d, s);
        [r[0]] + Sorted(d, s - {r[0]});
        [r[0]] + r[1..];
        r;
      }
    }
  }

  lemma TailOrdered(d: Direction, r: seq<Index>)
    requires Ordered(d, r) && r != []
    ensures Ordered(d, r[1..])
  {
  }

  /** A selection from the first part of an ordered list can be extended by the next member. */
  lemma OrderedAppend(d: Direction, order: seq<Index>, i: nat, s: seq<Index>)
    requires Ordered(d, order) && i < |order|
    requires Ordered(d, s) && forall x :: x in s ==> x in order[..i]
    ensures Ordered(d, s + [order[i]])
    ensures order[i] !in order[..i] && order[i] !in s
    ensures order[..i + 1] == order[..i] + [order[i]]
  {
    forall j | 0 <= j < |s|
      ensures Before(d, s[j], order[i])
    {
      assert s[j] in order[..i];
    }
  }

  function Elements(s: seq<Index>): set<Index> {
    set x | x in s
  }

  lemma PrefixClosed(d: Direction, s: seq<Index>, n: nat, x: Index, y: Index)
    requires Ordered(d, s) && n <= |s|
    requires x in s && y in s[..n] && !Before(d, y, x)
    ensures x in s[..n]
  {
    var i :| 0 <= i < |s| && s[i] == x;
    var j :| 0 <= j < n && s[j] == y;
    OrderedAt(d, s, j, i);
    assert s[..n][i] == x;
  }

  /** The first `n` members of a sorted listing: a set of `n` members, closed towards the start. */
  lemma PrefixOfSorted(d: Direction, s: set<Index>, n: nat)
    requires n <= |s|
    ensures Elements(Sorted(d, s)[..n]) <= s
    ensures |Elements(Sorted(d, s)[..n])| == n
    ensures forall x, y :: x in s && y in Elements(Sorted(d, s)[..n]) && !Before(d, y, x) ==>
                             x in Elements(Sorted(d, s)[..n])
    ensures Sorted(d, Elements(Sorted(d, s)[..n])) == Sorted(d, s)[..n]
  {
    hide Sorted, Before;
    var r := Sorted(d, s);
    var p := r[..n];
    assert Ordered(d, p);
    SortedUnique(d, Elements(p), p);
    forall x, y | x in s && y in Elements(p) && !Before(d, y, x)
      ensures x in Elements(p)
    {
      PrefixClosed(d, r, n, x, y);
    }
  }

  /** Listing two sets one after the other lists their union when the first lies before the second. */
  lemma SortedConcat(d: Direction, a: set<Index>, b: set<Index>)
    requires forall x, y :: x in a && y in b ==> Before(d, x, y)
    ensures Sorted(d, a + b) == Sorted(d, a) + Sorted(d, b)
  {
    hide Sorted, Before;
    var r := Sorted(d, a) + Sorted(d, b);
    forall i, j | 0 <= i < j < |r|
      ensures Before(d, r[i], r[j])
    {
      if i < |a| <= j {
        assert r[i] in Sorted(d, a) && r[j] in Sorted(d, b);
      }
    }
    SortedUnique(d, a + b, r);
  }

  /** The most advanced index of a set, if any. */
  function Newest(d: Direction, s: set<Index>): (r: Option<Index>)
    ensures r.None? <==> s == {}
    ensures r.Some? ==> r.value in s && forall x :: x in s ==> !Before(d, r.value, x)
  {
    if s == {} then None else Some(First(Opposite(d), s))
  }

  function Opposite(d: Direction): Direction {
    if d.Increasing? then Decreasing else Increasing
  }

  /** The values of a map at a list of its keys. */
  function ValuesAt<K, V>(m: map<K, V>, order: seq<K>): (r: seq<V>)
    requires forall x :: x in order ==> x in m
    ensures |r| == |order| && forall i :: 0 <= i < |order| ==> r[i] == m[order[i]]
  {
    seq(|order|, i requires 0 <= i < |order| => m[order[i]])
  }

  lemma SubsetSize<T>(a: set<T>, b: set<T>)
    requires a <= b
    ensures |a| <= |b|
    ensures |a| == |b| ==> a == b
  {
    var c := b - a;
    assert b == a + c;
    assert |b| == |a| + |c|;
    if |c| == 0 {
      assert c == {};
    }
  }

  lemma {:induction false} DistinctMultiset<T>(s: seq<T>)
    requires forall i, j :: 0 <= i < j < |s| ==> s[i] != s[j]
    ensures multiset(s) == multiset(set x | x in s)
  {
    if s != [] {
      var k := |s| - 1;
      var front := s[..k];
      DistinctMultiset(front);
      assert s == front + [s[k]];
      assert s[k] !in front;
      assert (set x | x in s) == (set x | x in front) + {s[k]};
    }
  }

  // ---- subsequences --------------------------------------------------------------------------

  /** `r` is what is left of `s` when some members are taken out. */
  predicate Subsequence<T(==)>(r: seq<T>, s: seq<T>) {
    r == [] ||
    (s != [] && (Subsequence(r, s[..|s| - 1]) ||
                 (r[|r| - 1] == s[|s| - 1] && Subsequence(r[..|r| - 1], s[..|s| - 1]))))
  }

  lemma NothingIsSubsequence<T>(s: seq<T>)
    ensures Subsequence([], s)
  {
  }

  lemma SubsequenceSkips<T>(r: seq<T>, s: seq<T>, x: T)
    requires Subsequence(r, s)
    ensures Subsequence(r, s + [x])
  {
    assert (s + [x])[..|s|] == s;
  }

  lemma SubsequenceTakes<T>(r: seq<T>, s: seq<T>, x: T)
    requires Subsequence(r, s)
    ensures Subsequence(r + [x], s + [x])
  {
    assert (s + [x])[..|s|] == s && (r + [x])[..|r|] == r;
  }

  lemma {:induction false} SubsequenceHas<T>(r: seq<T>, s: seq<T>, i: nat)
    requires Subsequence(r, s) && i < |r|
    ensures exists p :: 0 <= p < |s| && s[p] == r[i]
  {
    var n := |s| - 1;
    if Subsequence(r, s[..n]) {
      SubsequenceHas(r, s[..n], i);
      var p :| 0 <= p < n && s[..n][p] == r[i];
      assert s[p] == r[i];
    } else if i == |r| - 1 {
      assert s[n] == r[i];
    } else {
      SubsequenceHas(r[..|r| - 1], s[..n], i);
      var p :| 0 <= p < n && s[..n][p] == r[i];
      assert s[p] == r[i];
    }
  }

  /** Its members keep their order. */
  lemma {:induction false} SubsequenceInOrder<T>(r: seq<T>, s: seq<T>, i: nat, j: nat)
    requires Subsequence(r, s) && i < j < |r|
    ensures exists p, q :: 0 <= p < q < |s| && s[p] == r[i] && s[q] == r[j]
  {
    var n := |s| - 1;
    if Subsequence(r, s[..n]) || j < |r| - 1 {
      SubsequenceInOrder(if Subsequence(r, s[..n]) then r else r[..|r| - 1], s[..n], i, j);
      var p, q :| 0 <= p < q < n && s[..n][p] == r[i] && s[..n][q] == r[j];
      assert s[p] == r[i] && s[q] == r[j];
    } else {
      SubsequenceHas(r[..|r| - 1], s[..n], i);
      var p :| 0 <= p < n && s[..n][p] == r[i];
      assert s[p] == r[i] && s[n] == r[j];
    }
  }
}
