/** Spreadsheet export: merging warm and stored samples per curve, and pivoting curves into rows. */
module Export {
  import opened Numbers
  import opened Order
  import opened Blocks
  import opened RingBuffer

  // ---- gathering one curve -------------------------------------------------------------------

  function IndicesOf(s: seq<Sample>): (r: seq<Index>)
    ensures |r| == |s| && forall i :: 0 <= i < |s| ==> r[i] == s[i].index
  {
    seq(|s|, i requires 0 <= i < |s| => s[i].index)
  }

  predicate Ascending(s: seq<Sample>) {
    Ordered(Increasing, IndicesOf(s))
  }

  /** The first sample at each index. */
  function FirstAt(s: seq<Sample>): map<Index, Sample> {
    if s == [] then map[] else
      var front := FirstAt(s[..|s| - 1]);
      var x := s[|s| - 1];
      if x.index in front then front else front[x.index := x]
  }

  function InOrder(m: map<Index, Sample>): seq<Sample> {
    ValuesAt(m, Sorted(Increasing, m.Keys))
  }

  /** Python's sort by index, of samples whose indices are distinct. */
  function SortByIndex(s: seq<Sample>): seq<Sample> {
    InOrder(FirstAt(s))
  }

  predicate Distinct(s: seq<Sample>) {
    forall i, j :: 0 <= i < j < |s| ==> s[i].index != s[j].index
  }

  lemma {:induction false} FirstAtKey(s: seq<Sample>, x: Index)
    ensures x in FirstAt(s) <==> exists i :: 0 <= i < |s| && s[i].index == x
    ensures x in FirstAt(s) ==> FirstAt(s)[x].index == x && FirstAt(s)[x] in s
  {
    if s != [] {
      var n := |s| - 1;
      var front := s[..n];
      FirstAtKey(front, x);
      assert forall i :: 0 <= i < n ==> front[i] == s[i];
      if x in FirstAt(front) {
        assert FirstAt(s)[x] == FirstAt(front)[x] && FirstAt(front)[x] in front;
      }
    }
  }

  lemma {:induction false} FirstAtEach(s: seq<Sample>, i: nat)
    requires Distinct(s) && i < |s|
    ensures s[i].index in FirstAt(s) && FirstAt(s)[s[i].index] == s[i]
  {
    var n := |s| - 1;
    if i < n {
      FirstAtEach(s[..n], i);
    } else {
      FirstAtKey(s[..n], s[n].index);
    }
  }

  lemma FirstAtKeys(s: seq<Sample>)
    ensures forall x :: x in FirstAt(s) <==> exists i :: 0 <= i < |s| && s[i].index == x
    ensures forall x :: x in FirstAt(s) ==> FirstAt(s)[x].index == x && FirstAt(s)[x] in s
    ensures Distinct(s) ==> forall i :: 0 <= i < |s| ==> s[i].index in FirstAt(s) && FirstAt(s)[s[i].index] == s[i]
  {
    hide FirstAt, Distinct;
    forall x
      ensures x in FirstAt(s) <==> exists i :: 0 <= i < |s| && s[i].index == x
      ensures x in FirstAt(s) ==> FirstAt(s)[x].index == x && FirstAt(s)[x] in s
    {
      FirstAtKey(s, x);
    }
    if Distinct(s) {
      forall i | 0 <= i < |s|
        ensures s[i].index in FirstAt(s) && FirstAt(s)[s[i].index] == s[i]
      {
        FirstAtEach(s, i);
      }
    }
  }

  lemma InOrderAscending(m: map<Index, Sample>)
    requires forall x :: x in m ==> m[x].index == x
    ensures IndicesOf(InOrder(m)) == Sorted(Increasing, m.Keys) && Ascending(InOrder(m))
  {
    hide Sorted;
    var order := Sorted(Increasing, m.Keys);
    forall i | 0 <= i < |order|
      ensures IndicesOf(InOrder(m))[i] == order[i]
    {
      assert order[i] in m;
    }
  }

  lemma SortIsSort(s: seq<Sample>)
    requires Distinct(s)
    ensures Ascending(SortByIndex(s)) && multiset(SortByIndex(s)) == multiset(s)
  {
    hide Sorted, FirstAt, InOrder, Ascending;
    FirstAtKeys(s);
    var r := SortByIndex(s);
    InOrderAscending(FirstAt(s));
    AscendingDiffer(r);
    DistinctMultiset(r);
    DistinctMultiset(s);
    forall x
      ensures x in r <==> x in s
    {
      SortHolds(s, x);
    }
    assert (set x | x in r) == (set x | x in s);
  }

  lemma AscendingDiffer(r: seq<Sample>)
    requires Ascending(r)
    ensures forall i, j :: 0 <= i < j < |r| ==> r[i] != r[j]
  {
    forall i, j | 0 <= i < j < |r|
      ensures r[i] != r[j]
    {
      OrderedAt(Increasing, IndicesOf(r), i, j);
      assert IndicesOf(r)[i] == r[i].index && IndicesOf(r)[j] == r[j].index;
    }
  }

  lemma SortHolds(s: seq<Sample>, x: Sample)
    requires Distinct(s)
    ensures x in SortByIndex(s) <==> x in s
  {
    hide Sorted, FirstAt, Distinct;
    FirstAtKeys(s);
    var m := FirstAt(s);
    var r := InOrder(m);
    var order := Sorted(Increasing, m.Keys);
    if x in r {
      var i :| 0 <= i < |r| && r[i] == x;
      assert order[i] in m;
    }
    if x in s {
      var j :| 0 <= j < |s| && s[j] == x;
      assert x.index in order;
      var i :| 0 <= i < |order| && order[i] == x.index;
      assert r[i] == x;
    }
  }

  /** One curve of `_gather_curves`: warm samples win, the rest fills in, the newest `limit` are kept. */
  function Gathered(warm: seq<Sample>, history: seq<Sample>, limit: nat): seq<Sample> {
    LastN(InOrder(FirstAt(warm + history)), limit)
  }

  method GatherCurve(warm: seq<Sample>, history: seq<Sample>, limit: nat) returns (combined: seq<Sample>)
    requires limit >= 1
    ensures combined == Gathered(warm, history, limit)
  {
    hide InOrder;
    var all := warm + history;
    var seen: set<Index> := {};
    combined := [];
    for i := 0 to |all|
      invariant FirstAt(combined) == FirstAt(all[..i]) && seen == FirstAt(all[..i]).Keys
    {
      assert all[..i + 1][..i] == all[..i];
      var s := all[i];
      if s.index in seen {
        continue;
      }
      seen := seen + {s.index};
      assert (combined + [s])[..|combined|] == combined;
      combined := combined + [s];
    }
    assert all[..|all|] == all;
    combined := SortByIndex(combined);
    if |combined| > limit {
      combined := combined[|combined| - limit..];
    }
  }

  lemma {:induction false} FirstAtConcat(a: seq<Sample>, b: seq<Sample>, x: Index)
    ensures x in FirstAt(a + b) <==> x in FirstAt(a) || x in FirstAt(b)
    ensures x in FirstAt(a + b) ==> FirstAt(a + b)[x] == if x in FirstAt(a) then FirstAt(a)[x] else FirstAt(b)[x]
  {
    if b == [] {
      assert a + b == a;
    } else {
      var n := |b| - 1;
      assert (a + b)[..|a + b| - 1] == a + b[..n];
      FirstAtConcat(a, b[..n], x);
    }
  }

  lemma UnionKeys(warm: seq<Sample>, history: seq<Sample>)
    ensures FirstAt(warm + history).Keys == FirstAt(warm).Keys + FirstAt(history).Keys
  {
    hide FirstAt;
    forall x
      ensures x in FirstAt(warm + history) <==> x in FirstAt(warm) || x in FirstAt(history)
    {
      FirstAtConcat(warm, history, x);
    }
  }

  /** The newest part of a curve in index order. */
  lemma TailInOrder(m: map<Index, Sample>, limit: nat)
    requires forall x :: x in m ==> m[x].index == x
    ensures var r := LastN(InOrder(m), limit);
            && Ascending(r)
            && |r| == (if |m| < limit then |m| else limit)
            && (forall i :: 0 <= i < |r| ==> r[i].index in m && r[i] == m[r[i].index])
  {
    hide InOrder, LastN, Ascending;
    InOrderAscending(m);
    InOrderHolds(m);
    var all := InOrder(m);
    LastNIsTail(all, limit);
    TailAscending(all, |all| - |LastN(all, limit)|);
  }

  lemma TailIsHighest(m: map<Index, Sample>, limit: nat, x: Index, i: nat)
    requires forall y :: y in m ==> m[y].index == y
    requires x in m && i < |LastN(InOrder(m), limit)| && LastN(InOrder(m), limit)[i].index.at < x.at
    ensures x in IndicesOf(LastN(InOrder(m), limit))
  {
    hide Sorted, InOrder, Ordered, LastN, FirstAt;
    InOrderAscending(m);
    var all, order := InOrder(m), Sorted(Increasing, m.Keys);
    var k := |all| - |LastN(all, limit)|;
    LastNIsTail(all, limit);
    IndicesTail(all, k);
    assert IndicesOf(all[k..])[i] == order[k..][i];
    InTail(order, k, i, x);
  }

  lemma InOrderHolds(m: map<Index, Sample>)
    requires forall x :: x in m ==> m[x].index == x
    ensures |InOrder(m)| == |m|
    ensures forall i :: 0 <= i < |InOrder(m)| ==> InOrder(m)[i].index in m && InOrder(m)[i] == m[InOrder(m)[i].index]
  {
    hide Sorted;
    var order := Sorted(Increasing, m.Keys);
    assert |order| == |m.Keys|;
    forall i | 0 <= i < |order|
      ensures order[i] in m
    {
      assert order[i] in order;
    }
  }

  lemma IndicesTail(s: seq<Sample>, k: nat)
    requires k <= |s|
    ensures IndicesOf(s[k..]) == IndicesOf(s)[k..]
  {
  }

  lemma TailAscending(s: seq<Sample>, k: nat)
    requires k <= |s| && Ascending(s)
    ensures Ascending(s[k..])
  {
    IndicesTail(s, k);
  }

  lemma InTail(order: seq<Index>, k: nat, i: nat, x: Index)
    requires Ordered(Increasing, order) && k + i < |order| && x in order && order[k + i].at < x.at
    ensures x in order[k..]
  {
    var j :| 0 <= j < |order| && order[j] == x;
    OrderedAt(Increasing, order, k + i, j);
    assert order[k..][j - k] == x;
  }

  /**
   * What gathering keeps: strictly ascending indices, the `limit` highest of those in the warm store or in
   * history, each with the warm sample if there is one and the stored sample otherwise.
   */
  lemma GatheredMeaning(warm: seq<Sample>, history: seq<Sample>, limit: nat)
    ensures var r := Gathered(warm, history, limit);
            var union := FirstAt(warm).Keys + FirstAt(history).Keys;
            && Ascending(r)
            && |r| == (if |union| < limit then |union| else limit)
            && (forall i :: 0 <= i < |r| ==>
                  r[i].index in union &&
                  r[i] == if r[i].index in FirstAt(warm) then FirstAt(warm)[r[i].index]
                          else FirstAt(history)[r[i].index])
            && (forall x, i :: x in union && 0 <= i < |r| && r[i].index.at < x.at ==> x in IndicesOf(r))
  {
    hide FirstAt, InOrder, Ascending, LastN, IndicesOf, Gathered;
    UnionKeys(warm, history);
    GatheredIsTail(warm, history, limit);
    var m := FirstAt(warm + history);
    var r := Gathered(warm, history, limit);
    forall i | 0 <= i < |r|
      ensures r[i] == if r[i].index in FirstAt(warm) then FirstAt(warm)[r[i].index] else FirstAt(history)[r[i].index]
    {
      assert r[i].index in m;
      FirstAtConcat(warm, history, r[i].index);
    }
    forall x, i | x in m && 0 <= i < |r| && r[i].index.at < x.at
      ensures x in IndicesOf(r)
    {
      TailIsHighest(m, limit, x, i);
    }
  }

  lemma GatheredIsTail(warm: seq<Sample>, history: seq<Sample>, limit: nat)
    ensures var m, r := FirstAt(warm + history), Gathered(warm, history, limit);
            && r == LastN(InOrder(m), limit) && Ascending(r)
            && (forall x :: x in m ==> m[x].index == x)
            && |r| == (if |m.Keys| < limit then |m.Keys| else limit)
            && (forall i :: 0 <= i < |r| ==> r[i].index in m && r[i] == m[r[i].index])
  {
    hide FirstAt, InOrder, Ascending, LastN, IndicesOf;
    FirstAtKeys(warm + history);
    TailInOrder(FirstAt(warm + history), limit);
  }

  // ---- the history read ----------------------------------------------------------------------

  /** A stored sample; a depth is in one column of the table, an instant in another. */
  datatype StoredSample = StoredSample(well: string, sample: Sample, instant: bool)

  /** The query's filter: no wanted names means all curves. */
  predicate IsWanted(s: StoredSample, well: string, names: seq<string>) {
    s.well == well && (names == [] || s.sample.mnemonic in names)
  }

  function Filtered(table: seq<StoredSample>, well: string, names: seq<string>): (r: seq<StoredSample>)
    ensures forall s :: s in r <==> s in table && IsWanted(s, well, names)
  {
    if table == [] then [] else
      var n := |table| - 1;
      var front := Filtered(table[..n], well, names);
      assert table == table[..n] + [table[n]];
      if IsWanted(table[n], well, names) then front + [table[n]] else front
  }

  /** The query's order: by depth, then by instant, where missing depths sort as the database has it. */
  predicate AtMost(a: StoredSample, b: StoredSample, nullsFirst: bool) {
    if a.instant != b.instant then a.instant == nullsFirst else a.sample.index.at <= b.sample.index.at
  }

  predicate OldestFirst(s: seq<StoredSample>, nullsFirst: bool) {
    forall i, j :: 0 <= i < j < |s| ==> AtMost(s[i], s[j], nullsFirst)
  }

  /** An answer of the database: a listing of the wanted samples in that order, ties in any order. */
  ghost predicate Answers(rows: seq<StoredSample>, table: seq<StoredSample>, well: string, names: seq<string>,
                          nullsFirst: bool) {
    multiset(rows) == multiset(Filtered(table, well, names)) && OldestFirst(rows, nullsFirst)
  }

  function SamplesStored(rows: seq<StoredSample>): (r: seq<Sample>)
    ensures |r| == |rows| && forall i :: 0 <= i < |r| ==> r[i] == rows[i].sample
  {
    seq(|rows|, i requires 0 <= i < |rows| => rows[i].sample)
  }

  /** What the limit leaves of an answer. */
  function HistoryRead(stored: seq<Sample>, limit: nat): seq<Sample> {
    if |stored| <= limit then stored else stored[..limit]
  }

  /** `_history_samples`: what is read of the database's answer, by curve. */
  method HistorySamples(answer: seq<StoredSample>, limit: nat) returns (out: map<string, seq<Sample>>)
    ensures forall m :: m in out <==> OfCurve(HistoryRead(SamplesStored(answer), limit), m) != []
    ensures forall m :: m in out ==> out[m] == OfCurve(HistoryRead(SamplesStored(answer), limit), m)
  {
    var rows := HistoryRead(SamplesStored(answer), limit);
    out := map[];
    for i := 0 to |rows|
      invariant forall m :: m in out <==> OfCurve(rows[..i], m) != []
      invariant forall m :: m in out ==> out[m] == OfCurve(rows[..i], m)
    {
      assert rows[..i + 1][..i] == rows[..i];
      var s := rows[i];
      out := out[s.mnemonic := (if s.mnemonic in out then out[s.mnemonic] else []) + [s]];
    }
    assert rows[..|rows|] == rows;
  }

  /**
   * What is read are the oldest wanted samples: stored for the well, of a wanted curve, as many as the limit and
   * storage allow, and none of those left out comes before any of them.
   */
  lemma OldestAreRead(answer: seq<StoredSample>, table: seq<StoredSample>, well: string, names: seq<string>,
                      nullsFirst: bool, limit: nat)
    requires Answers(answer, table, well, names, nullsFirst)
    ensures var read := if |answer| <= limit then answer else answer[..limit];
            && HistoryRead(SamplesStored(answer), limit) == SamplesStored(read)
            && |read| == Min(limit, |Filtered(table, well, names)|)
            && read <= answer
            && (forall s :: s in answer <==>
                  s in table && s.well == well && (names == [] || s.sample.mnemonic in names))
            && (forall i, j :: 0 <= i < |read| <= j < |answer| && answer[i].instant == answer[j].instant ==>
                  answer[i].sample.index.at <= answer[j].sample.index.at)
  {
    assert |answer| == |multiset(answer)| == |Filtered(table, well, names)|;
    forall s
      ensures s in answer <==> s in Filtered(table, well, names)
    {
      assert s in answer <==> s in multiset(answer);
      assert s in Filtered(table, well, names) <==> s in multiset(Filtered(table, well, names));
    }
  }

  /** One curve of an export: the warm samples and what was read of the stored ones. */
  function Exported(warm: seq<Sample>, stored: seq<Sample>, limit: nat, m: string): seq<Sample> {
    Gathered(warm, OfCurve(HistoryRead(stored, limit), m), limit)
  }

  // ---- which export holds the highest indices ------------------------------------------------

  function Above(keys: set<Index>, x: Index): set<Index> {
    set y | y in keys && x.at < y.at
  }

  /** The `limit` highest of a set. */
  function Top(keys: set<Index>, limit: nat): set<Index> {
    set x | x in keys && |Above(keys, x)| < limit
  }

  lemma AbovePosition(order: seq<Index>, i: nat)
    requires Ordered(Increasing, order) && i < |order|
    ensures |Above(Elements(order), order[i])| == |order| - 1 - i
  {
    var rest := order[i + 1..];
    forall y
      ensures y in Above(Elements(order), order[i]) <==> y in Elements(rest)
    {
      if y in Elements(order) {
        var j :| 0 <= j < |order| && order[j] == y;
        OrderedAt(Increasing, order, i, j);
        if i < j {
          assert rest[j - i - 1] == y;
        }
      }
    }
    assert Above(Elements(order), order[i]) == Elements(rest);
    SortedUnique(Increasing, Elements(rest), rest);
  }

  /** The end of a sorted listing holds the highest. */
  lemma TailIsTop(order: seq<Index>, limit: nat)
    requires Ordered(Increasing, order)
    ensures Elements(LastN(order, limit)) == Top(Elements(order), limit)
  {
    hide Ordered, LastN, Above;
    LastNIsTail(order, limit);
    var tail := LastN(order, limit);
    var k := |order| - |tail|;
    forall x
      ensures x in Elements(tail) <==> x in Top(Elements(order), limit)
    {
      if x in order {
        var i :| 0 <= i < |order| && order[i] == x;
        AbovePosition(order, i);
        if i >= k {
          assert tail[i - k] == x;
        } else {
          NotInTail(order, k, i);
        }
      }
    }
  }

  lemma NotInTail(order: seq<Index>, k: nat, i: nat)
    requires Ordered(Increasing, order) && i < k <= |order|
    ensures order[i] !in order[k..]
  {
    forall j | 0 <= j < |order| - k
      ensures order[k..][j] != order[i]
    {
      OrderedAt(Increasing, order, i, k + j);
    }
  }

  lemma IndicesOfLastN(s: seq<Sample>, limit: nat)
    ensures IndicesOf(LastN(s, limit)) == LastN(IndicesOf(s), limit)
  {
  }

  /** What gathering keeps, by index. */
  lemma GatheredKeys(m: map<Index, Sample>, limit: nat)
    requires forall x :: x in m ==> m[x].index == x
    ensures Elements(IndicesOf(LastN(InOrder(m), limit))) == Top(m.Keys, limit)
  {
    hide Sorted, InOrder, LastN, IndicesOf, Top, Ascending;
    InOrderAscending(m);
    IndicesOfLastN(InOrder(m), limit);
    var order := Sorted(Increasing, m.Keys);
    TailIsTop(order, limit);
    assert Elements(order) == m.Keys;
  }

  /** A set between the highest and the whole has the same highest. */
  lemma TopOfSome(some: set<Index>, all: set<Index>, limit: nat)
    requires some <= all && Top(all, limit) <= some
    ensures Top(some, limit) == Top(all, limit)
  {
    forall x | x in some
      ensures x in Top(some, limit) <==> x in Top(all, limit)
    {
      SubsetSize(Above(some, x), Above(all, x));
      if |Above(all, x)| >= limit {
        TopAbove(all, x, limit);
        SubsetSize(Top(all, limit) * Above(all, x), Above(some, x));
      }
    }
  }

  /** Above an index that is not among the highest there are `limit` that are. */
  lemma TopAbove(all: set<Index>, x: Index, limit: nat)
    requires x in all && |Above(all, x)| >= limit
    ensures |Top(all, limit) * Above(all, x)| >= limit
  {
    hide Sorted;
    var order := Sorted(Increasing, all);
    assert Elements(order) == all;
    TailIsTop(order, limit);
    LastNIsTail(order, limit);
    var i :| 0 <= i < |order| && order[i] == x;
    AbovePosition(order, i);
    var tail := LastN(order, limit);
    forall y | y in Elements(tail)
      ensures y in Above(all, x)
    {
      var j :| 0 <= j < |tail| && tail[j] == y;
      OrderedAt(Increasing, order, i, |order| - |tail| + j);
    }
    assert Top(all, limit) * Above(all, x) == Elements(tail);
    TailOfOrdered(order, |order| - |tail|);
    SortedUnique(Increasing, Elements(tail), tail);
  }

  lemma TailOfOrdered(order: seq<Index>, k: nat)
    requires Ordered(Increasing, order) && k <= |order|
    ensures Ordered(Increasing, order[k..])
  {
  }

  /** Two gatherings agree exactly when the smaller dictionary has the highest indices of the larger one. */
  lemma GatheringsAgree(some: map<Index, Sample>, all: map<Index, Sample>, limit: nat)
    requires forall x :: x in all ==> all[x].index == x
    requires forall x :: x in some ==> x in all && some[x] == all[x]
    ensures LastN(InOrder(some), limit) == LastN(InOrder(all), limit) <==> Top(all.Keys, limit) <= some.Keys
  {
    hide LastN, InOrder, Top, IndicesOf, Ascending;
    GatheredKeys(some, limit);
    GatheredKeys(all, limit);
    TailInOrder(some, limit);
    TailInOrder(all, limit);
    var a, b := LastN(InOrder(some), limit), LastN(InOrder(all), limit);
    if Top(all.Keys, limit) <= some.Keys {
      TopOfSome(some.Keys, all.Keys, limit);
      SameListing(a, b, all);
    } else if a == b {
      OfDictionary(a, some);
      assert false;
    }
  }

  lemma OfDictionary(s: seq<Sample>, m: map<Index, Sample>)
    requires forall i :: 0 <= i < |s| ==> s[i].index in m
    ensures Elements(IndicesOf(s)) <= m.Keys
  {
    forall x | x in IndicesOf(s)
      ensures x in m
    {
      var i :| 0 <= i < |IndicesOf(s)| && IndicesOf(s)[i] == x;
    }
  }

  lemma SameListing(a: seq<Sample>, b: seq<Sample>, m: map<Index, Sample>)
    requires Ascending(a) && Ascending(b) && Elements(IndicesOf(a)) == Elements(IndicesOf(b))
    requires forall i :: 0 <= i < |a| ==> a[i].index in m && a[i] == m[a[i].index]
    requires forall i :: 0 <= i < |b| ==> b[i].index in m && b[i] == m[b[i].index]
    ensures a == b
  {
    hide Sorted;
    SortedUnique(Increasing, Elements(IndicesOf(a)), IndicesOf(a));
    SortedUnique(Increasing, Elements(IndicesOf(b)), IndicesOf(b));
    assert |a| == |IndicesOf(a)| == |IndicesOf(b)| == |b|;
    forall i | 0 <= i < |a|
      ensures a[i] == b[i]
    {
      assert a[i].index == IndicesOf(a)[i] == IndicesOf(b)[i] == b[i].index;
    }
  }

  lemma {:induction false} OfCurvePrefix(s: seq<Sample>, n: nat, m: string)
    requires n <= |s|
    ensures OfCurve(s[..n], m) <= OfCurve(s, m)
  {
    if n == |s| {
      assert s[..n] == s;
    } else {
      OfCurvePrefix(s[..|s| - 1], n, m);
      assert s[..|s| - 1][..n] == s[..n];
    }
  }

  /** The first sample at an index is the first in any beginning that has one. */
  lemma FirstInPrefix(a: seq<Sample>, b: seq<Sample>, x: Index)
    requires a <= b && x in FirstAt(a)
    ensures x in FirstAt(b) && FirstAt(b)[x] == FirstAt(a)[x]
  {
    assert b == a + b[|a|..];
    FirstAtConcat(a, b[|a|..], x);
  }

  /** The indices an export could hold. */
  function Union(warm: seq<Sample>, stored: seq<Sample>, m: string): set<Index> {
    FirstAt(warm).Keys + FirstAt(OfCurve(stored, m)).Keys
  }

  /**
   * Exactly when an export is right, for any warm store, any number of curves and any limit: it holds what it would
   * hold if all stored samples were read if and only if each of the curve's `limit` highest indices is in the warm
   * store or among what was read.
   */
  lemma ExportIff(warm: seq<Sample>, stored: seq<Sample>, limit: nat, m: string)
    ensures Exported(warm, stored, limit, m) == Gathered(warm, OfCurve(stored, m), limit) <==>
            forall x :: x in Top(Union(warm, stored, m), limit) ==>
                          x in FirstAt(warm) || x in FirstAt(OfCurve(HistoryRead(stored, limit), m))
  {
    hide FirstAt, OfCurve, LastN, InOrder, Top;
    var read, whole := OfCurve(HistoryRead(stored, limit), m), OfCurve(stored, m);
    var some, all := FirstAt(warm + read), FirstAt(warm + whole);
    ReadIsPrefix(stored, limit, m);
    assert warm + read <= warm + whole;
    UnionKeys(warm, read);
    UnionKeys(warm, whole);
    forall x | x in some
      ensures x in all && some[x] == all[x]
    {
      FirstInPrefix(warm + read, warm + whole, x);
    }
    forall x | x in all
      ensures all[x].index == x
    {
      FirstAtKey(warm + whole, x);
    }
    GatheringsAgree(some, all, limit);
  }

  lemma ReadIsPrefix(stored: seq<Sample>, limit: nat, m: string)
    ensures OfCurve(HistoryRead(stored, limit), m) <= OfCurve(stored, m)
  {
    hide OfCurve;
    if |stored| > limit {
      OfCurvePrefix(stored, limit, m);
    }
  }

  /** With no more than `limit` stored samples of all wanted curves together every export is right. */
  lemma ExportHoldsHighest(warm: seq<Sample>, stored: seq<Sample>, limit: nat, m: string)
    requires |stored| <= limit
    ensures var r := Exported(warm, stored, limit, m);
            && r == Gathered(warm, OfCurve(stored, m), limit) && Ascending(r)
            && Elements(IndicesOf(r)) == Top(Union(warm, stored, m), limit)
  {
    hide FirstAt, LastN, InOrder, Top, Ascending, OfCurve, IndicesOf;
    var whole := OfCurve(stored, m);
    UnionKeys(warm, whole);
    forall x | x in FirstAt(warm + whole)
      ensures FirstAt(warm + whole)[x].index == x
    {
      FirstAtKey(warm + whole, x);
    }
    GatheredKeys(FirstAt(warm + whole), limit);
    TailInOrder(FirstAt(warm + whole), limit);
  }

  /** For one curve with nothing in the warm store, if and only if there are no more than `limit` stored samples. */
  lemma ColdExportIff(stored: seq<Sample>, limit: nat, m: string)
    requires limit >= 1 && Ascending(stored) && forall i :: 0 <= i < |stored| ==> stored[i].mnemonic == m
    ensures Exported([], stored, limit, m) == Gathered([], OfCurve(stored, m), limit) <==> |stored| <= limit
  {
    hide FirstAt, Gathered, Top, Ascending, OfCurve;
    ExportIff([], stored, limit, m);
    if |stored| > limit {
      AllOfCurve(stored, m);
      AllOfCurve(HistoryRead(stored, limit), m);
      NewestNotRead(stored, limit);
    }
  }

  lemma NewestNotRead(stored: seq<Sample>, limit: nat)
    requires 1 <= limit < |stored| && Ascending(stored)
    ensures var x := stored[|stored| - 1].index;
            x in Top(FirstAt([]).Keys + FirstAt(stored).Keys, limit) && x !in FirstAt([]) &&
            x !in FirstAt(HistoryRead(stored, limit))
  {
    hide FirstAt, Ascending, Ordered, IndicesOf;
    var n := |stored| - 1;
    var x := stored[n].index;
    KeysAreIndices([], x);
    KeysAreIndices(stored, x);
    KeysAreIndices(stored[..limit], x);
    assert IndicesOf(stored)[n] == x;
    LaterThan(stored, limit, n);
    var keys := FirstAt([]).Keys + FirstAt(stored).Keys;
    forall y | y in keys
      ensures !(x.at < y.at)
    {
      KeysAreIndices([], y);
      KeysAreIndices(stored, y);
      LastIsHighest(stored, y);
    }
    assert Above(keys, x) == {};
  }

  lemma LaterThan(s: seq<Sample>, limit: nat, n: nat)
    requires Ascending(s) && limit <= n < |s|
    ensures s[n].index !in IndicesOf(s[..limit])
  {
    forall i | 0 <= i < limit
      ensures IndicesOf(s[..limit])[i] != s[n].index
    {
      OrderedAt(Increasing, IndicesOf(s), i, n);
      assert IndicesOf(s[..limit])[i] == IndicesOf(s)[i];
    }
  }

  lemma LastIsHighest(s: seq<Sample>, y: Index)
    requires Ascending(s) && y in IndicesOf(s)
    ensures !(s[|s| - 1].index.at < y.at)
  {
    var j :| 0 <= j < |s| && IndicesOf(s)[j] == y;
    OrderedAt(Increasing, IndicesOf(s), j, |s| - 1);
  }

  /** A warm store that holds the newest sample makes up for a history that does not reach it. */
  lemma WarmMakesUp(m: string)
    ensures var at := (x: real) => Sample(m, Index(x), Some(x), None, None);
            var stored := [at(1.0), at(2.0), at(3.0)];
            && Exported([at(3.0)], stored, 1, m) == Gathered([at(3.0)], OfCurve(stored, m), 1)
            && Exported([], stored, 1, m) != Gathered([], OfCurve(stored, m), 1)
  {
    hide Gathered, FirstAt, Top, OfCurve, Exported;
    var at := (x: real) => Sample(m, Index(x), Some(x), None, None);
    var stored := [at(1.0), at(2.0), at(3.0)];
    assert IndicesOf(stored) == [Index(1.0), Index(2.0), Index(3.0)];
    ColdExportIff(stored, 1, m);
    ExportIff([at(3.0)], stored, 1, m);
    AllOfCurve(stored, m);
    forall x | x in Top(Union([at(3.0)], stored, m), 1)
      ensures x in FirstAt([at(3.0)])
    {
      OnlyThree([at(3.0)], stored, x);
    }
  }

  lemma OnlyThree(warm: seq<Sample>, stored: seq<Sample>, x: Index)
    requires IndicesOf(warm) == [Index(3.0)] && IndicesOf(stored) == [Index(1.0), Index(2.0), Index(3.0)]
    requires x in Top(FirstAt(warm).Keys + FirstAt(stored).Keys, 1)
    ensures x in FirstAt(warm)
  {
    hide FirstAt;
    var keys := FirstAt(warm).Keys + FirstAt(stored).Keys;
    KeysAreIndices(warm, x);
    KeysAreIndices(stored, x);
    KeysAreIndices(warm, Index(3.0));
    assert IndicesOf(warm)[0] == Index(3.0);
    if x != Index(3.0) {
      SubsetSize({Index(3.0)}, Above(keys, x));
      assert false;
    }
  }

  lemma {:induction false} AllOfCurve(s: seq<Sample>, m: string)
    requires forall i :: 0 <= i < |s| ==> s[i].mnemonic == m
    ensures OfCurve(s, m) == s
  {
    if s != [] {
      AllOfCurve(s[..|s| - 1], m);
      assert s == s[..|s| - 1] + [s[|s| - 1]];
    }
  }

  lemma KeysAreIndices(s: seq<Sample>, x: Index)
    ensures x in FirstAt(s) <==> x in IndicesOf(s)
  {
    hide FirstAt;
    FirstAtKey(s, x);
    if x in FirstAt(s) {
      var i :| 0 <= i < |s| && s[i].index == x;
      assert IndicesOf(s)[i] == x;
    }
  }
}
