/**
 * Degree counting and hotspot selection (utils.py:173-178, 183).
 *
 * The `degree` dict keeps insertion order, so it is modelled as a sequence of
 * `(id, count)` pairs in which a new id is appended and a known id is
 * incremented in place. `sorted(..., key=lambda x: -x[1])` is a stable sort by
 * descending count, modelled as a stable insertion sort.
 */
module Hotspots {
  import opened Records

  /** The number of hotspots kept (`[:10]`). */
  const HotspotLimit: nat := 10

  type DegreeTable = seq<(string, nat)>

  /** Every endpoint occurrence, in scan order: source then target, edge by edge. */
  function Endpoints(edges: seq<Edge>): (ids: seq<string>)
    ensures |ids| == 2 * |edges|
    ensures forall i :: 0 <= i < |edges| ==> ids[2 * i] == edges[i].source && ids[2 * i + 1] == edges[i].target
  {
    if edges == [] then []
    else Endpoints(edges[..|edges| - 1]) + [edges[|edges| - 1].source, edges[|edges| - 1].target]
  }

  /** How many times `id` occurs in `ids`. */
  function Count(ids: seq<string>, id: string): nat
  {
    if ids == [] then 0 else Count(ids[..|ids| - 1], id) + (if ids[|ids| - 1] == id then 1 else 0)
  }

  /** The distinct elements of `ids` in order of first occurrence. */
  function Dedup(ids: seq<string>): seq<string>
  {
    if ids == [] then []
    else
      var d := Dedup(ids[..|ids| - 1]);
      if ids[|ids| - 1] in d then d else d + [ids[|ids| - 1]]
  }

  function Keys(t: DegreeTable): (ks: seq<string>)
    ensures |ks| == |t|
    ensures forall i :: 0 <= i < |t| ==> ks[i] == t[i].0
  {
    seq(|t|, i requires 0 <= i < |t| => t[i].0)
  }

  /** The sum of all counts. */
  function Sum(t: DegreeTable): nat
  {
    if t == [] then 0 else Sum(t[..|t| - 1]) + t[|t| - 1].1
  }

  /** The position of `id` in the table, or `|t|` when it is absent. */
  function Find(t: DegreeTable, id: string): (k: nat)
    ensures k <= |t|
    ensures k < |t| ==> t[k].0 == id
    ensures forall i :: 0 <= i < k ==> t[i].0 != id
  {
    if t == [] then 0 else if t[0].0 == id then 0 else 1 + Find(t[1..], id)
  }

  /** `degree[id] = degree.get(id, 0) + 1` on an insertion-ordered dict. */
  function Bump(t: DegreeTable, id: string): DegreeTable
  {
    var k := Find(t, id);
    if k < |t| then t[k := (id, t[k].1 + 1)] else t + [(id, 1)]
  }

  /** The table after bumping every id of `ids` in turn, starting from `{}`. */
  function Tally(ids: seq<string>): DegreeTable
  {
    if ids == [] then [] else Bump(Tally(ids[..|ids| - 1]), ids[|ids| - 1])
  }

  /** The degree loop of utils.py:174-177. */
  method CountDegree(edges: seq<Edge>) returns (degree: DegreeTable)
    ensures degree == Tally(Endpoints(edges))
  {
    degree := [];
    for i := 0 to |edges|
      invariant degree == Tally(Endpoints(edges[..i]))
    {
      var a, b := edges[i].source, edges[i].target;
      degree := Bump(degree, a);
      degree := Bump(degree, b);
      TallyStep(edges, i);
    }
    assert edges[..|edges|] == edges;
  }

  lemma EndpointsStep(edges: seq<Edge>, i: nat)
    requires i < |edges|
    ensures Endpoints(edges[..i + 1]) == Endpoints(edges[..i]) + [edges[i].source, edges[i].target]
  {
    assert edges[..i + 1][..i] == edges[..i];
  }

  lemma TallyPair(ids: seq<string>, a: string, b: string)
    ensures Tally(ids + [a, b]) == Bump(Bump(Tally(ids), a), b)
  {
    assert (ids + [a, b])[..|ids| + 1] == ids + [a];
    assert (ids + [a])[..|ids|] == ids;
  }

  /** One more edge bumps its source, then its target. */
  lemma TallyStep(edges: seq<Edge>, i: nat)
    requires i < |edges|
    ensures Tally(Endpoints(edges[..i + 1]))
         == Bump(Bump(Tally(Endpoints(edges[..i])), edges[i].source), edges[i].target)
  {
    EndpointsStep(edges, i);
    TallyPair(Endpoints(edges[..i]), edges[i].source, edges[i].target);
  }

  // ----- The degree table -----

  ghost predicate Distinct(ks: seq<string>)
  {
    forall i, j :: 0 <= i < j < |ks| ==> ks[i] != ks[j]
  }

  lemma {:induction false} DedupSpec(ids: seq<string>)
    ensures Distinct(Dedup(ids))
    ensures forall id :: id in Dedup(ids) <==> id in ids
  {
    if ids != [] {
      DedupSpec(ids[..|ids| - 1]);
      assert ids == ids[..|ids| - 1] + [ids[|ids| - 1]];
    }
  }

  lemma {:induction false} CountAbsent(ids: seq<string>, id: string)
    requires id !in ids
    ensures Count(ids, id) == 0
  {
    if ids != [] {
      assert ids[..|ids| - 1] <= ids;
      CountAbsent(ids[..|ids| - 1], id);
    }
  }

  lemma {:induction false} SumUpdate(t: DegreeTable, k: nat, e: (string, nat))
    requires k < |t|
    ensures Sum(t[k := e]) + t[k].1 == Sum(t) + e.1
  {
    var t' := t[k := e];
    if k < |t| - 1 {
      assert t'[..|t'| - 1] == t[..|t| - 1][k := e];
      SumUpdate(t[..|t| - 1], k, e);
    } else {
      assert t'[..|t'| - 1] == t[..|t| - 1];
    }
  }

  /**
   * The degree table lists every id of `ids` once, in order of first
   * occurrence, with its number of occurrences; the counts add up to `|ids|`.
   */
  lemma {:induction false} TallySpec(ids: seq<string>)
    ensures Keys(Tally(ids)) == Dedup(ids)
    ensures forall i :: 0 <= i < |Tally(ids)| ==> Tally(ids)[i].1 == Count(ids, Tally(ids)[i].0)
    ensures Sum(Tally(ids)) == |ids|
  {
    if ids != [] {
      var init, x := ids[..|ids| - 1], ids[|ids| - 1];
      var t := Tally(init);
      TallySpec(init);
      DedupSpec(init);
      var k := Find(t, x);
      var t' := Bump(t, x);
      if k < |t| {
        assert x in Dedup(init) by {
          assert Keys(t)[k] == x;
        }
        assert Keys(t') == Keys(t);
        SumUpdate(t, k, (x, t[k].1 + 1));
        forall i | 0 <= i < |t'|
          ensures t'[i].1 == Count(ids, t'[i].0)
        {
          if i != k {
            assert Keys(t)[i] != Keys(t)[k];
          }
        }
      } else {
        assert x !in Keys(t);
        assert Keys(t') == Keys(t) + [x];
        CountAbsent(init, x);
        assert t'[..|t'| - 1] == t;
      }
    }
  }

  /** The degrees sum to twice the number of edges: each edge adds one to each of its endpoints. */
  lemma DegreeSum(edges: seq<Edge>)
    ensures Sum(Tally(Endpoints(edges))) == 2 * |edges|
  {
    TallySpec(Endpoints(edges));
  }

  /** A self-loop counts twice for its one symbol. */
  lemma SelfLoopCountsTwice()
    ensures Tally(Endpoints([Edge("a.py::f", "a.py::f")])) == [("a.py::f", 2)]
  {
    assert Endpoints([Edge("a.py::f", "a.py::f")]) == ["a.py::f", "a.py::f"] by {
      assert [Edge("a.py::f", "a.py::f")][..0] == [];
    }
    assert ["a.py::f", "a.py::f"][..1] == ["a.py::f"];
    assert ["a.py::f"][..0] == [];
    assert Tally(["a.py::f"]) == [("a.py::f", 1)];
  }

  // ----- Stable sort by descending degree -----

  /** Insert `x` before the first entry whose count is not larger than `x`'s. */
  function InsertByDegree(x: (string, nat), t: DegreeTable): DegreeTable
  {
    if t == [] || t[0].1 <= x.1 then [x] + t else [t[0]] + InsertByDegree(x, t[1..])
  }

  /** `sorted(t, key=lambda x: -x[1])`. */
  function SortByDegree(t: DegreeTable): DegreeTable
  {
    if t == [] then [] else InsertByDegree(t[0], SortByDegree(t[1..]))
  }

  ghost predicate NonIncreasing(t: DegreeTable)
  {
    forall i, j :: 0 <= i < j < |t| ==> t[i].1 >= t[j].1
  }

  ghost predicate DistinctKeys(t: DegreeTable)
  {
    forall i, j :: 0 <= i < j < |t| ==> t[i].0 != t[j].0
  }

  /** The entries of count `d`, in order. */
  function WithDegree(t: DegreeTable, d: nat): DegreeTable
  {
    if t == [] then [] else (if t[0].1 == d then [t[0]] else []) + WithDegree(t[1..], d)
  }

  lemma {:induction false} InsertPermutes(x: (string, nat), t: DegreeTable)
    ensures multiset(InsertByDegree(x, t)) == multiset([x] + t)
  {
    if !(t == [] || t[0].1 <= x.1) {
      InsertPermutes(x, t[1..]);
      assert t == [t[0]] + t[1..];
    }
  }

  lemma InsertMembers(x: (string, nat), t: DegreeTable, e: (string, nat))
    requires e in InsertByDegree(x, t)
    ensures e == x || e in t
  {
    InsertPermutes(x, t);
    assert e in multiset(InsertByDegree(x, t));
  }

  lemma {:induction false} InsertOrders(x: (string, nat), t: DegreeTable)
    requires NonIncreasing(t)
    ensures NonIncreasing(InsertByDegree(x, t))
  {
    if t == [] || t[0].1 <= x.1 {
      forall j | 0 < j < |[x] + t| ensures ([x] + t)[0].1 >= ([x] + t)[j].1 {
        assert ([x] + t)[j] == t[j - 1];
      }
    } else {
      var r := InsertByDegree(x, t[1..]);
      InsertOrders(x, t[1..]);
      forall j | 0 < j < |[t[0]] + r| ensures ([t[0]] + r)[0].1 >= ([t[0]] + r)[j].1 {
        assert r[j - 1] in r;
        InsertMembers(x, t[1..], r[j - 1]);
      }
    }
  }

  lemma {:induction false} InsertKeepsKeysDistinct(x: (string, nat), t: DegreeTable)
    requires DistinctKeys(t) && forall e :: e in t ==> e.0 != x.0
    ensures DistinctKeys(InsertByDegree(x, t))
  {
    if !(t == [] || t[0].1 <= x.1) {
      var r := InsertByDegree(x, t[1..]);
      InsertKeepsKeysDistinct(x, t[1..]);
      forall j | 0 < j < |[t[0]] + r| ensures ([t[0]] + r)[0].0 != ([t[0]] + r)[j].0 {
        assert r[j - 1] in r;
        InsertMembers(x, t[1..], r[j - 1]);
        assert t[0] in t;
      }
    }
  }

  lemma {:induction false} InsertStable(x: (string, nat), t: DegreeTable, d: nat)
    ensures WithDegree(InsertByDegree(x, t), d) == WithDegree([x] + t, d)
  {
    if !(t == [] || t[0].1 <= x.1) {
      var r := InsertByDegree(x, t[1..]);
      InsertStable(x, t[1..], d);
      assert ([t[0]] + r)[1..] == r;
      assert ([x] + t[1..])[1..] == t[1..];
      assert ([x] + t)[1..] == t;
    }
  }

  lemma {:induction false} SortPermutes(t: DegreeTable)
    ensures multiset(SortByDegree(t)) == multiset(t)
  {
    if t != [] {
      SortPermutes(t[1..]);
      InsertPermutes(t[0], SortByDegree(t[1..]));
      assert t == [t[0]] + t[1..];
    }
  }

  lemma {:induction false} SortOrders(t: DegreeTable)
    ensures NonIncreasing(SortByDegree(t))
  {
    if t != [] {
      SortOrders(t[1..]);
      InsertOrders(t[0], SortByDegree(t[1..]));
    }
  }

  lemma {:induction false} SortKeepsKeysDistinct(t: DegreeTable)
    requires DistinctKeys(t)
    ensures DistinctKeys(SortByDegree(t))
  {
    if t != [] {
      var rest := SortByDegree(t[1..]);
      assert DistinctKeys(t[1..]);
      SortKeepsKeysDistinct(t[1..]);
      SortPermutes(t[1..]);
      forall e | e in rest ensures e.0 != t[0].0 {
        assert e in multiset(t[1..]);
        var j :| 0 <= j < |t[1..]| && t[1..][j] == e;
        assert t[j + 1] == e;
      }
      InsertKeepsKeysDistinct(t[0], rest);
    }
  }

  lemma {:induction false} SortStable(t: DegreeTable, d: nat)
    ensures WithDegree(SortByDegree(t), d) == WithDegree(t, d)
  {
    if t != [] {
      var rest := SortByDegree(t[1..]);
      SortStable(t[1..], d);
      InsertStable(t[0], rest, d);
      assert ([t[0]] + rest)[1..] == rest;
    }
  }

  /**
   * The sort is a permutation, puts counts in non-increasing order, keeps keys
   * distinct, and is stable: the entries of each count stay in their input order.
   */
  lemma SortSpec(t: DegreeTable)
    ensures multiset(SortByDegree(t)) == multiset(t)
    ensures NonIncreasing(SortByDegree(t))
    ensures DistinctKeys(t) ==> DistinctKeys(SortByDegree(t))
    ensures forall d :: WithDegree(SortByDegree(t), d) == WithDegree(t, d)
  {
    SortPermutes(t);
    SortOrders(t);
    if DistinctKeys(t) {
      SortKeepsKeysDistinct(t);
    }
    forall d ensures WithDegree(SortByDegree(t), d) == WithDegree(t, d) {
      SortStable(t, d);
    }
  }

  // ----- Top entries -----

  function Min(a: nat, b: nat): nat
  {
    if a <= b then a else b
  }

  /** `sorted(degree.items(), key=lambda x: -x[1])[:10]`. */
  function TopEntries(t: DegreeTable): DegreeTable
  {
    var s := SortByDegree(t);
    s[..Min(HotspotLimit, |s|)]
  }

  /** The `hotspots` list of the call graph: the ids of the top entries. */
  function HotspotsOf(edges: seq<Edge>): seq<string>
  {
    Keys(TopEntries(Tally(Endpoints(edges))))
  }

  lemma {:induction false} WithDegreePrefix(s: DegreeTable, k: nat, d: nat)
    requires k <= |s|
    ensures WithDegree(s[..k], d) <= WithDegree(s, d)
  {
    if k > 0 {
      assert s[..k][1..] == s[1..][..k - 1];
      WithDegreePrefix(s[1..], k - 1, d);
    }
  }

  /** The top entries of a table are at most ten of its entries, in non-increasing count. */
  lemma TopEntriesAreEntries(t: DegreeTable)
    ensures |TopEntries(t)| == Min(HotspotLimit, |t|)
    ensures forall i :: 0 <= i < |TopEntries(t)| ==> TopEntries(t)[i] in t
    ensures NonIncreasing(TopEntries(t))
  {
    var s := SortByDegree(t);
    SortPermutes(t);
    SortOrders(t);
    assert |s| == |t| by {
      assert |multiset(s)| == |multiset(t)|;
    }
    forall i | 0 <= i < |TopEntries(t)| ensures TopEntries(t)[i] in t {
      assert TopEntries(t)[i] == s[i];
      assert s[i] in multiset(t);
    }
  }

  /** No entry left out of the top has a larger count than an entry kept. */
  lemma TopEntriesDominate(t: DegreeTable, e: (string, nat))
    requires e in t && e !in TopEntries(t)
    ensures forall i :: 0 <= i < |TopEntries(t)| ==> e.1 <= TopEntries(t)[i].1
  {
    var s := SortByDegree(t);
    SortPermutes(t);
    SortOrders(t);
    assert e in multiset(s);
    var j :| 0 <= j < |s| && s[j] == e;
    assert j >= Min(HotspotLimit, |s|);
  }

  /** For each count, the kept entries of that count are the first ones of that count in the table. */
  lemma TopEntriesTies(t: DegreeTable, d: nat)
    ensures WithDegree(TopEntries(t), d) <= WithDegree(t, d)
  {
    var s := SortByDegree(t);
    WithDegreePrefix(s, Min(HotspotLimit, |s|), d);
    SortStable(t, d);
  }

  lemma TopEntriesDistinct(t: DegreeTable)
    requires DistinctKeys(t)
    ensures DistinctKeys(TopEntries(t))
  {
    SortKeepsKeysDistinct(t);
  }

  /**
   * The hotspots are the ids of at most ten entries of the degree table, as many
   * as there are distinct endpoints up to ten, in non-increasing degree; every
   * id left out has a degree no larger than any hotspot; and, for each degree,
   * the hotspots of that degree are the first ids of that degree in the
   * table, whose order is that of first appearance among the endpoints.
   */
  lemma HotspotRanking(edges: seq<Edge>)
    ensures var ids := Endpoints(edges);
      var t := Tally(ids);
      var top := TopEntries(t);
      && HotspotsOf(edges) == Keys(top)
      && Keys(t) == Dedup(ids)
      && |top| == Min(HotspotLimit, |Dedup(ids)|)
      && (forall i :: 0 <= i < |top| ==> top[i] in t && top[i].1 == Count(ids, top[i].0))
      && NonIncreasing(top)
      && DistinctKeys(top)
      && (forall e :: e in t && e !in top ==> forall i :: 0 <= i < |top| ==> e.1 <= top[i].1)
      && (forall d :: WithDegree(top, d) <= WithDegree(t, d))
  {
    var ids := Endpoints(edges);
    var t := Tally(ids);
    var top := TopEntries(t);
    TallySpec(ids);
    assert DistinctKeys(t) by {
      DedupSpec(ids);
      forall i, j | 0 <= i < j < |t| ensures t[i].0 != t[j].0 {
        assert Keys(t)[i] == t[i].0 && Keys(t)[j] == t[j].0;
      }
    }
    TopEntriesAreEntries(t);
    TopEntriesDistinct(t);
    forall i | 0 <= i < |top| ensures top[i].1 == Count(ids, top[i].0) {
      var j :| 0 <= j < |t| && t[j] == top[i];
    }
    forall e | e in t && e !in top
      ensures forall i :: 0 <= i < |top| ==> e.1 <= top[i].1
    {
      TopEntriesDominate(t, e);
    }
    forall d ensures WithDegree(top, d) <= WithDegree(t, d) {
      TopEntriesTies(t, d);
    }
  }
  /** Edges `a -> b` and `c -> b`: `b` (degree 2) ranks first, then the tied `a` and `c` in first-seen order. */
  lemma TiesKeepFirstSeenOrder()
    ensures HotspotsOf([Edge("a", "b"), Edge("c", "b")]) == ["b", "a", "c"]
  {
    var edges := [Edge("a", "b"), Edge("c", "b")];
    assert edges[..1] == [Edge("a", "b")];
    assert Endpoints(edges) == ["a", "b", "c", "b"];
    var ids := ["a", "b", "c", "b"];
    assert ids[..3] == ["a", "b", "c"];
    assert ids[..3][..2] == ["a", "b"];
    assert ids[..3][..2][..1] == ["a"];
    assert Tally(["a"]) == [("a", 1)];
    assert Tally(["a", "b"]) == [("a", 1), ("b", 1)];
    assert Tally(["a", "b", "c"]) == [("a", 1), ("b", 1), ("c", 1)];
    var t := [("a", 1), ("b", 1), ("c", 1)];
    assert Find(t, "b") == 1;
    assert Tally(ids) == [("a", 1), ("b", 2), ("c", 1)];
    var u: DegreeTable := [("a", 1), ("b", 2), ("c", 1)];
    assert u[1..][1..] == [("c", 1)];
    assert SortByDegree([("c", 1)]) == [("c", 1)];
    assert SortByDegree(u[1..]) == [("b", 2), ("c", 1)];
    assert SortByDegree(u) == [("b", 2), ("a", 1), ("c", 1)];
  }
}
