/** Ranking by successive stable partitions, as prepareResult of emoji_suggestions.cpp does it, against its meaning:
    one stable sort by a lexicographic key whose most significant part is the last partition made. */
module Ranking {

  function Filter<T>(s: seq<T>, p: T -> bool): (r: seq<T>) {
    if s == [] then [] else (if p(s[0]) then [s[0]] else []) + Filter(s[1..], p)
  }

  function Not<T>(p: T -> bool): T -> bool {
    x => !p(x)
  }

  /** std::stable_partition: the elements that satisfy p, then the others, each group in its old order. */
  function StablePartition<T>(s: seq<T>, p: T -> bool): seq<T> {
    Filter(s, p) + Filter(s, Not(p))
  }

  /** The partitions of a list of predicates, made in the order of the list. */
  function Partitions<T>(s: seq<T>, ps: seq<T -> bool>): seq<T> {
    if ps == [] then s else StablePartition(Partitions(s, ps[..|ps| - 1]), ps[|ps| - 1])
  }

  // ---------------------------------------------------------------- permutation

  lemma {:induction false} FilterSplits<T>(s: seq<T>, p: T -> bool)
    ensures multiset(Filter(s, p)) + multiset(Filter(s, Not(p))) == multiset(s)
  {
    if s != [] {
      FilterSplits(s[1..], p);
      assert s == [s[0]] + s[1..];
    }
  }

  lemma {:induction false} PartitionsPermute<T>(s: seq<T>, ps: seq<T -> bool>)
    ensures multiset(Partitions(s, ps)) == multiset(s)
  {
    if ps != [] {
      PartitionsPermute(s, ps[..|ps| - 1]);
      FilterSplits(Partitions(s, ps[..|ps| - 1]), ps[|ps| - 1]);
    }
  }

  // ---------------------------------------------------------------- order

  /** a ranks before b: the last predicate that tells them apart holds of a; if none does, the tags decide. */
  predicate Before<T>(a: (T, nat), b: (T, nat), ps: seq<T -> bool>) {
    if ps == [] then a.1 < b.1
    else
      var p := ps[|ps| - 1];
      if p(a.0) != p(b.0) then p(a.0) else Before(a, b, ps[..|ps| - 1])
  }

  ghost predicate Sorted<T>(s: seq<(T, nat)>, ps: seq<T -> bool>) {
    forall i, j :: 0 <= i < j < |s| ==> Before(s[i], s[j], ps)
  }

  lemma {:induction false} FilterKeeps<T>(s: seq<T>, p: T -> bool)
    ensures forall x :: x in Filter(s, p) ==> x in s && p(x)
  {
    if s != [] {
      FilterKeeps(s[1..], p);
    }
  }

  lemma {:induction false} FilterSorted<T>(s: seq<(T, nat)>, p: ((T, nat)) -> bool, ps: seq<T -> bool>)
    requires Sorted(s, ps)
    ensures Sorted(Filter(s, p), ps)
  {
    if s != [] {
      var rest := Filter(s[1..], p);
      FilterSorted(s[1..], p, ps);
      FilterKeeps(s[1..], p);
      forall j | 0 <= j < |rest| ensures Before(s[0], rest[j], ps) {
        assert rest[j] in s[1..];
      }
    }
  }

  function OnItem<T>(p: T -> bool): ((T, nat)) -> bool {
    (x: (T, nat)) => p(x.0)
  }

  function Init<A>(s: seq<A>): seq<A>
    requires s != []
  {
    s[..|s| - 1]
  }

  /** A stable partition refines the order it finds by one more significant key. */
  lemma PartitionSorted<T>(s: seq<(T, nat)>, ps: seq<T -> bool>)
    requires ps != [] && Sorted(s, Init(ps))
    ensures Sorted(StablePartition(s, OnItem(ps[|ps| - 1])), ps)
  {
    var p := OnItem(ps[|ps| - 1]);
    var yes, no := Filter(s, p), Filter(s, Not(p));
    FilterSorted(s, p, Init(ps));
    FilterSorted(s, Not(p), Init(ps));
    FilterKeeps(s, p);
    FilterKeeps(s, Not(p));
    var all := yes + no;
    forall i, j | 0 <= i < j < |all| ensures Before(all[i], all[j], ps) {
      if j < |yes| {
        assert all[i] in yes && all[j] in yes && Before(yes[i], yes[j], Init(ps));
      } else if i >= |yes| {
        assert all[i] in no && all[j] in no && Before(no[i - |yes|], no[j - |yes|], Init(ps));
      } else {
        assert all[i] in yes && all[j] in no;
      }
    }
  }

  // ---------------------------------------------------------------- tags

  function Tagged<T>(s: seq<T>): (t: seq<(T, nat)>)
    ensures |t| == |s|
  {
    seq(|s|, i requires 0 <= i < |s| => (s[i], i))
  }

  function Items<T>(t: seq<(T, nat)>): (s: seq<T>)
    ensures |s| == |t|
  {
    seq(|t|, i requires 0 <= i < |t| => t[i].0)
  }

  lemma {:induction false} FilterItems<T>(t: seq<(T, nat)>, p: T -> bool, q: ((T, nat)) -> bool)
    requires forall x :: q(x) == p(x.0)
    ensures Items(Filter(t, q)) == Filter(Items(t), p)
  {
    if t != [] {
      FilterItems(t[1..], p, q);
      assert Items(t)[1..] == Items(t[1..]);
      assert Items(Filter(t, q)) == (if q(t[0]) then [t[0].0] else []) + Items(Filter(t[1..], q));
    }
  }

  ghost function OnItems<T>(ps: seq<T -> bool>): (qs: seq<((T, nat)) -> bool>)
    ensures |qs| == |ps|
  {
    seq(|ps|, i requires 0 <= i < |ps| => OnItem(ps[i]))
  }

  lemma {:induction false} PartitionsOfTagged<T>(s: seq<T>, ps: seq<T -> bool>)
    ensures var t := Partitions(Tagged(s), OnItems(ps)); Items(t) == Partitions(s, ps) && Sorted(t, ps)
  {
    var qs := OnItems(ps);
    if ps == [] {
      assert Items(Tagged(s)) == s;
    } else {
      PartitionsOfTagged(s, Init(ps));
      assert qs[..|qs| - 1] == OnItems(Init(ps));
      var t := Partitions(Tagged(s), OnItems(Init(ps)));
      var p, q := ps[|ps| - 1], OnItem(ps[|ps| - 1]);
      FilterItems(t, p, q);
      FilterItems(t, Not(p), Not(q));
      assert Items(Filter(t, q) + Filter(t, Not(q))) == Items(Filter(t, q)) + Items(Filter(t, Not(q)));
      PartitionSorted(t, ps);
    }
  }

  /** t witnesses that out is the stable sort of s by ps: t holds the elements of s, each tagged with its old position,
      in the order of their keys, equal keys in the order of their old positions. */
  ghost predicate StablySorted<T>(s: seq<T>, ps: seq<T -> bool>, out: seq<T>, t: seq<(T, nat)>) {
    && Items(t) == out
    && multiset(t) == multiset(Tagged(s))
    && Sorted(t, ps)
  }

  /** Successive stable partitions are one stable lexicographic sort. */
  lemma PartitionsAreStableSort<T>(s: seq<T>, ps: seq<T -> bool>) returns (t: seq<(T, nat)>)
    ensures StablySorted(s, ps, Partitions(s, ps), t)
    ensures multiset(Partitions(s, ps)) == multiset(s)
  {
    t := Partitions(Tagged(s), OnItems(ps));
    PartitionsOfTagged(s, ps);
    PartitionsPermute(Tagged(s), OnItems(ps));
    PartitionsPermute(s, ps);
  }

  lemma {:induction false} BeforeIsStrict<T>(a: (T, nat), b: (T, nat), ps: seq<T -> bool>)
    requires Before(a, b, ps)
    ensures !Before(b, a, ps)
  {
    if ps != [] && ps[|ps| - 1](a.0) == ps[|ps| - 1](b.0) {
      BeforeIsStrict(a, b, Init(ps));
    }
  }

  /** There is only one stable sort. */
  lemma {:induction false} SortedIsUnique<T>(s: seq<(T, nat)>, t: seq<(T, nat)>, ps: seq<T -> bool>)
    requires Sorted(s, ps) && Sorted(t, ps) && multiset(s) == multiset(t)
    ensures s == t
  {
    assert |s| == |multiset(s)| == |multiset(t)| == |t|;
    if s != [] {
      if s[0] != t[0] {
        assert s[0] in multiset(t) && t[0] in multiset(s);
        assert s[0] in t && t[0] in s;
        BeforeIsStrict(s[0], t[0], ps);
        assert false;
      }
      assert multiset(s[1..]) == multiset(s) - multiset{s[0]} && multiset(t[1..]) == multiset(t) - multiset{t[0]} by {
        assert s == [s[0]] + s[1..] && t == [t[0]] + t[1..];
      }
      SortedIsUnique(s[1..], t[1..], ps);
    }
  }

  /** So the ranking is determined by the list and the keys. */
  lemma StableSortIsUnique<T>(s: seq<T>, ps: seq<T -> bool>, a: seq<T>, ta: seq<(T, nat)>, b: seq<T>, tb: seq<(T, nat)>)
    requires StablySorted(s, ps, a, ta) && StablySorted(s, ps, b, tb)
    ensures a == b
  {
    SortedIsUnique(ta, tb, ps);
  }
}
