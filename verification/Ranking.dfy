/**
 Ranking grasps by quality. The server sorts the grasps of all candidates with an unstable sort
 and keeps the first k, but every candidate list has already been cut to k; the main theorem
 says that the early cut loses nothing.
 */
module Ranking {
  import opened GraspMessages

  // ---- sorted sequences of qualities ----

  ghost predicate Descending(s: seq<real>) {
    forall i, j :: 0 <= i < j < |s| ==> s[i] >= s[j]
  }

  function Qualities(gs: seq<RankedGrasp>): (q: seq<real>)
    ensures |q| == |gs| && forall i :: 0 <= i < |gs| ==> q[i] == gs[i].quality
  {
    seq(|gs|, i requires 0 <= i < |gs| => gs[i].quality)
  }

  ghost predicate Ranked(gs: seq<RankedGrasp>) {
    Descending(Qualities(gs))
  }

  function Take<T>(k: nat, s: seq<T>): seq<T> {
    if |s| <= k then s else s[..k]
  }

  function Drop<T>(k: nat, s: seq<T>): seq<T> {
    if |s| <= k then [] else s[k..]
  }

  lemma TakeDrop<T>(k: nat, s: seq<T>)
    ensures s == Take(k, s) + Drop(k, s)
  {
  }

  function Insert(x: real, s: seq<real>): seq<real> {
    if s == [] || x >= s[0] then [x] + s else [s[0]] + Insert(x, s[1..])
  }

  function Sorted(s: seq<real>): seq<real> {
    if s == [] then [] else Insert(s[0], Sorted(s[1..]))
  }

  lemma {:induction false} InsertSorted(x: real, s: seq<real>)
    requires Descending(s)
    ensures Descending(Insert(x, s)) && multiset(Insert(x, s)) == multiset(s) + multiset{x}
  {
    if s == [] || x >= s[0] {
      assert [x] + s == Insert(x, s);
    } else {
      InsertSorted(x, s[1..]);
      var t := Insert(x, s[1..]);
      assert s == [s[0]] + s[1..];
      forall i | 0 <= i < |t|
        ensures s[0] >= t[i]
      {
        assert t[i] in multiset(t);
        assert t[i] in multiset(s[1..]) || t[i] == x;
      }
    }
  }

  lemma {:induction false} SortedSorts(s: seq<real>)
    ensures Descending(Sorted(s)) && multiset(Sorted(s)) == multiset(s)
  {
    if s != [] {
      SortedSorts(s[1..]);
      InsertSorted(s[0], Sorted(s[1..]));
      assert s == [s[0]] + s[1..];
    }
  }

  lemma HeadOff<T>(a: seq<T>)
    requires a != []
    ensures multiset(a) == multiset{a[0]} + multiset(a[1..])
  {
    assert a == [a[0]] + a[1..];
  }

  lemma CancelLeft<T>(x: multiset<T>, a: multiset<T>, b: multiset<T>)
    ensures x + a <= b + x <==> a <= b
  {
    if x + a <= b + x {
      forall v
        ensures a[v] <= b[v]
      {
        assert (x + a)[v] <= (b + x)[v];
      }
    }
  }

  lemma SameHead(a: seq<real>, b: seq<real>)
    requires Descending(a) && Descending(b) && multiset(a) == multiset(b) && a != [] && b != []
    ensures a[0] == b[0]
  {
    assert a[0] in multiset(b) && b[0] in multiset(a);
  }

  /** There is only one descending arrangement. */
  lemma {:induction false} DescendingUnique(a: seq<real>, b: seq<real>)
    requires Descending(a) && Descending(b) && multiset(a) == multiset(b)
    ensures a == b
  {
    SameLength(a, b);
    if a != [] {
      SameHead(a, b);
      var x, p, q := multiset{a[0]}, multiset(a[1..]), multiset(b[1..]);
      HeadOff(a);
      HeadOff(b);
      CancelLeft(x, p, q);
      CancelLeft(x, q, p);
      DescendingUnique(a[1..], b[1..]);
      assert a == [a[0]] + a[1..] && b == [b[0]] + b[1..];
    }
  }

  lemma SameLength<T>(a: seq<T>, b: seq<T>)
    requires multiset(a) == multiset(b)
    ensures |a| == |b|
  {
    assert |multiset(a)| == |a| && |multiset(b)| == |b|;
  }

  lemma QualitiesConcat(a: seq<RankedGrasp>, b: seq<RankedGrasp>)
    ensures Qualities(a + b) == Qualities(a) + Qualities(b)
  {
  }

  lemma RemoveOne(b: seq<RankedGrasp>, g: RankedGrasp) returns (rest: seq<RankedGrasp>)
    requires g in multiset(b)
    ensures multiset(b) == multiset(rest) + multiset{g}
    ensures multiset(Qualities(b)) == multiset(Qualities(rest)) + multiset{g.quality}
  {
    var i :| 0 <= i < |b| && b[i] == g;
    rest := b[..i] + b[i + 1..];
    assert b == (b[..i] + [g]) + b[i + 1..];
    QualitiesConcat(b[..i], b[i + 1..]);
    QualitiesConcat(b[..i] + [g], b[i + 1..]);
    QualitiesConcat(b[..i], [g]);
    assert Qualities([g]) == [g.quality];
    hide Qualities;
  }

  lemma FirstOff(a: seq<RankedGrasp>)
    requires a != []
    ensures multiset(a) == multiset{a[0]} + multiset(a[1..])
    ensures multiset(Qualities(a)) == multiset{a[0].quality} + multiset(Qualities(a[1..]))
  {
    assert a == [a[0]] + a[1..];
    assert Qualities(a) == [a[0].quality] + Qualities(a[1..]);
  }

  lemma {:induction false} QualitiesSubset(a: seq<RankedGrasp>, b: seq<RankedGrasp>)
    requires multiset(a) <= multiset(b)
    ensures multiset(Qualities(a)) <= multiset(Qualities(b))
  {
    if a == [] {
      assert Qualities(a) == [];
    } else {
      FirstOff(a);
      assert a[0] in multiset(a);
      var rest := RemoveOne(b, a[0]);
      var p, q := multiset(Qualities(a[1..])), multiset(Qualities(rest));
      CancelLeft(multiset{a[0]}, multiset(a[1..]), multiset(rest));
      QualitiesSubset(a[1..], rest);
      CancelLeft(multiset{a[0].quality}, p, q);
    }
  }

  /** A permutation of grasps permutes their qualities. */
  lemma QualitiesPermute(a: seq<RankedGrasp>, b: seq<RankedGrasp>)
    requires multiset(a) == multiset(b)
    ensures multiset(Qualities(a)) == multiset(Qualities(b))
  {
    QualitiesSubset(a, b);
    QualitiesSubset(b, a);
  }

  // ---- the theorem on qualities ----

  /** k of the elements are at least d. */
  ghost predicate Covered(s: seq<real>, d: real, k: nat) {
    exists top: seq<real> :: IsCover(s, d, k, top)
  }

  ghost predicate IsCover(s: seq<real>, d: real, k: nat, top: seq<real>) {
    |top| == k && multiset(top) <= multiset(s) && forall i :: 0 <= i < k ==> top[i] >= d
  }

  lemma SubsetSize<T>(a: multiset<T>, b: multiset<T>)
    requires a <= b
    ensures |a| <= |b|
  {
    assert b == a + (b - a);
  }

  /** In a descending list that holds k elements of at least d, the first k all are. */
  lemma CoverAtFront(s: seq<real>, d: real, k: nat, i: nat)
    requires Descending(s) && Covered(s, d, k) && i < k
    ensures i < |s| && s[i] >= d
  {
    var top :| IsCover(s, d, k, top);
    SubsetSize(multiset(top), multiset(s));
    assert |multiset(top)| == k && |multiset(s)| == |s|;
    if s[i] < d {
      var front := s[..i];
      assert |multiset(front)| == i;
      assert s == front + s[i..];
      forall v | v in multiset(top)
        ensures multiset(top)[v] <= multiset(front)[v]
      {
        assert v in top;
        assert v !in s[i..];
        assert multiset(s)[v] == multiset(front)[v] + multiset(s[i..])[v];
      }
      SubsetSize(multiset(top), multiset(front));
    }
  }

  lemma AppendDescending(front: seq<real>, rest: seq<real>)
    requires Descending(front) && Descending(rest)
    requires forall i, v :: 0 <= i < |front| && v in rest ==> front[i] >= v
    ensures Descending(front + rest)
  {
    var all := front + rest;
    forall i, j | 0 <= i < j < |all|
      ensures all[i] >= all[j]
    {
      if j >= |front| {
        assert all[j] in rest;
      }
    }
  }

  /** The first k of a descending list are at least everything behind them and everything they cover. */
  lemma FrontDominates(s: seq<real>, extra: seq<real>, k: nat, i: nat, v: real)
    requires Descending(s) && (forall d :: d in extra ==> Covered(s, d, k))
    requires i < |Take(k, s)| && (v in Drop(k, s) || v in extra)
    ensures Take(k, s)[i] >= v
  {
    if v in extra {
      CoverAtFront(s, v, k, i);
    }
  }

  /**
   Adding to a descending list any elements that k others already cover does not change its
   first k: the longer list, sorted, starts with the same k elements.
   */
  lemma CoveredAddNothing(s: seq<real>, extra: seq<real>, all: seq<real>, k: nat)
    requires Descending(s) && Descending(all) && multiset(all) == multiset(s) + multiset(extra)
    requires forall d :: d in extra ==> Covered(s, d, k)
    ensures Take(k, all) == Take(k, s)
  {
    var front := Take(k, s);
    var rest := SortedRest(s, extra, k);
    hide Covered;
    TakeDrop(k, s);
    assert multiset(s) == multiset(front) + multiset(Drop(k, s));
    DescendingUnique(all, front + rest);
    hide Descending;
    if |front| < k {
      NothingExtra(s, extra, k);
      assert Drop(k, s) + extra == [];
      SameLength(rest, []);
    }
  }

  /** Everything behind the first k and everything added, sorted, fits behind the first k. */
  lemma SortedRest(s: seq<real>, extra: seq<real>, k: nat) returns (rest: seq<real>)
    requires Descending(s) && forall d :: d in extra ==> Covered(s, d, k)
    ensures multiset(rest) == multiset(Drop(k, s) + extra) && Descending(Take(k, s) + rest)
  {
    rest := Sorted(Drop(k, s) + extra);
    SortedSorts(Drop(k, s) + extra);
    hide Sorted, Covered;
    var front := Take(k, s);
    forall i, v | 0 <= i < |front| && v in rest
      ensures front[i] >= v
    {
      assert v in multiset(rest);
      assert v in Drop(k, s) + extra;
      FrontDominates(s, extra, k, i, v);
    }
    assert Descending(front);
    AppendDescending(front, rest);
  }

  /** A list shorter than k covers nothing. */
  lemma NothingExtra(s: seq<real>, extra: seq<real>, k: nat)
    requires Descending(s) && (forall d :: d in extra ==> Covered(s, d, k)) && |s| < k
    ensures extra == []
  {
    if extra != [] {
      assert extra[0] in extra;
      CoverAtFront(s, extra[0], k, |s|);
    }
  }

  lemma CoveredSame(s: seq<real>, t: seq<real>, d: real, k: nat)
    requires multiset(s) == multiset(t)
    ensures Covered(s, d, k) <==> Covered(t, d, k)
  {
    if top :| IsCover(s, d, k, top) {
      assert IsCover(t, d, k, top);
    }
    if top :| IsCover(t, d, k, top) {
      assert IsCover(s, d, k, top);
    }
  }

  lemma CountSplit(s: seq<real>, k: nat, d: real)
    requires k <= |s|
    ensures multiset(s)[d] == multiset(s[..k])[d] + multiset(s[k..])[d]
  {
    assert s == s[..k] + s[k..];
  }

  lemma AddedBehind(s: seq<real>, extra: seq<real>, all: seq<real>, k: nat, d: real)
    requires multiset(all) == multiset(s) + multiset(extra) && d in extra
    requires k <= |s| && k <= |all| && all[..k] == s[..k]
    ensures d in all[k..]
  {
    CountSplit(s, k, d);
    CountSplit(all, k, d);
    assert multiset(extra)[d] > 0;
    assert d in multiset(all[k..]);
  }

  /** If added elements leave the first k alone, then each of them is covered. */
  lemma AddedNothingCovered(s: seq<real>, extra: seq<real>, all: seq<real>, k: nat, d: real)
    requires Descending(s) && Descending(all) && multiset(all) == multiset(s) + multiset(extra)
    requires Take(k, all) == Take(k, s) && d in extra
    ensures Covered(s, d, k)
  {
    assert |multiset(all)| == |all| && |multiset(s)| == |s| && |multiset(extra)| == |extra| > 0;
    var front := s[..k];
    assert all[..k] == front;
    AddedBehind(s, extra, all, k, d);
    assert s == front + s[k..];
    var j :| 0 <= j < |all[k..]| && all[k..][j] == d;
    forall i | 0 <= i < k
      ensures front[i] >= d
    {
      assert all[i] == front[i] && all[k + j] == d;
    }
    assert IsCover(s, d, k, front);
  }

  // ---- the theorem on candidate lists ----

  function Concat(lists: seq<seq<RankedGrasp>>): seq<RankedGrasp> {
    if lists == [] then [] else Concat(lists[..|lists| - 1]) + lists[|lists| - 1]
  }

  function CutAll(k: nat, lists: seq<seq<RankedGrasp>>): seq<seq<RankedGrasp>> {
    seq(|lists|, i requires 0 <= i < |lists| => Take(k, lists[i]))
  }

  function DropAll(k: nat, lists: seq<seq<RankedGrasp>>): seq<seq<RankedGrasp>> {
    seq(|lists|, i requires 0 <= i < |lists| => Drop(k, lists[i]))
  }

  lemma {:induction false} CutPartition(k: nat, lists: seq<seq<RankedGrasp>>)
    ensures multiset(Concat(lists)) == multiset(Concat(CutAll(k, lists))) + multiset(Concat(DropAll(k, lists)))
  {
    if lists != [] {
      var n := |lists| - 1;
      CutPartition(k, lists[..n]);
      TakeDrop(k, lists[n]);
      assert CutAll(k, lists)[..n] == CutAll(k, lists[..n]);
      assert DropAll(k, lists)[..n] == DropAll(k, lists[..n]);
    }
  }

  lemma {:induction false} ConcatHolds(lists: seq<seq<RankedGrasp>>, c: nat)
    requires c < |lists|
    ensures multiset(lists[c]) <= multiset(Concat(lists))
  {
    var n := |lists| - 1;
    if c < n {
      ConcatHolds(lists[..n], c);
    }
  }

  lemma {:induction false} ConcatFrom(lists: seq<seq<RankedGrasp>>, g: RankedGrasp) returns (c: nat)
    requires g in Concat(lists)
    ensures c < |lists| && g in lists[c]
  {
    var n := |lists| - 1;
    if g in lists[n] {
      c := n;
    } else {
      c := ConcatFrom(lists[..n], g);
    }
  }

  /** A grasp the early cut drops has k grasps of its own candidate before it, all at least as good. */
  lemma DroppedCovered(k: nat, lists: seq<seq<RankedGrasp>>, g: RankedGrasp, early: seq<RankedGrasp>)
    requires forall c :: 0 <= c < |lists| ==> Ranked(lists[c])
    requires multiset(early) == multiset(Concat(CutAll(k, lists)))
    requires g in Concat(DropAll(k, lists))
    ensures Covered(Qualities(early), g.quality, k)
  {
    var c := ConcatFrom(DropAll(k, lists), g);
    var top := Take(k, lists[c]);
    ConcatHolds(CutAll(k, lists), c);
    assert CutAll(k, lists)[c] == top;
    QualitiesSubset(top, early);
    hide Concat;
    DropIsLast(k, lists[c], g);
    assert IsCover(Qualities(early), g.quality, k, Qualities(top));
  }

  lemma DropIsLast(k: nat, list: seq<RankedGrasp>, g: RankedGrasp)
    requires Ranked(list) && g in Drop(k, list)
    ensures |Take(k, list)| == k && forall j :: 0 <= j < k ==> Qualities(Take(k, list))[j] >= g.quality
  {
  }

  lemma AllDroppedCovered(k: nat, lists: seq<seq<RankedGrasp>>, early: seq<RankedGrasp>)
    requires forall c :: 0 <= c < |lists| ==> Ranked(lists[c])
    requires multiset(early) == multiset(Concat(CutAll(k, lists)))
    ensures forall d :: d in Qualities(Concat(DropAll(k, lists))) ==> Covered(Qualities(early), d, k)
  {
    hide Ranked, Covered;
    var dropped := Concat(DropAll(k, lists));
    forall d | d in Qualities(dropped)
      ensures Covered(Qualities(early), d, k)
    {
      var i :| 0 <= i < |dropped| && Qualities(dropped)[i] == d;
      DroppedCovered(k, lists, dropped[i], early);
    }
  }

  lemma TakeQualities(k: nat, gs: seq<RankedGrasp>)
    ensures Qualities(Take(k, gs)) == Take(k, Qualities(gs))
  {
  }

  /** Every grasp the early cut drops has k kept ones, of whatever candidates, at least as good as itself. */
  ghost predicate Lossless(k: nat, lists: seq<seq<RankedGrasp>>) {
    forall d :: d in Qualities(Concat(DropAll(k, lists))) ==> Covered(Qualities(Concat(CutAll(k, lists))), d, k)
  }

  /** Ranked lists meet that: the k grasps before a dropped one will do. */
  lemma RankedLossless(k: nat, lists: seq<seq<RankedGrasp>>)
    requires forall c :: 0 <= c < |lists| ==> Ranked(lists[c])
    ensures Lossless(k, lists)
  {
    AllDroppedCovered(k, lists, Concat(CutAll(k, lists)));
    hide Ranked, Covered, Concat, Qualities;
  }

  lemma LosslessCovers(k: nat, lists: seq<seq<RankedGrasp>>, early: seq<RankedGrasp>)
    requires multiset(early) == multiset(Concat(CutAll(k, lists)))
    ensures Lossless(k, lists) <==>
            forall d :: d in Qualities(Concat(DropAll(k, lists))) ==> Covered(Qualities(early), d, k)
  {
    QualitiesPermute(early, Concat(CutAll(k, lists)));
    hide Covered, Concat, Qualities;
    forall d
      ensures Covered(Qualities(Concat(CutAll(k, lists))), d, k) <==> Covered(Qualities(early), d, k)
    {
      CoveredSame(Qualities(Concat(CutAll(k, lists))), Qualities(early), d, k);
    }
  }

  /**
   When the early cut loses nothing. However the sort breaks ties, ranking the lists cut to k and
   cutting again gives the same qualities as ranking everything and cutting once, exactly when
   every dropped grasp has k kept ones at least as good.
   */
  lemma CutEarlyExact(k: nat, lists: seq<seq<RankedGrasp>>, full: seq<RankedGrasp>, early: seq<RankedGrasp>)
    requires Ranked(full) && multiset(full) == multiset(Concat(lists))
    requires Ranked(early) && multiset(early) == multiset(Concat(CutAll(k, lists)))
    ensures Qualities(Take(k, early)) == Qualities(Take(k, full)) <==> Lossless(k, lists)
  {
    var dropped := Concat(DropAll(k, lists));
    CutPartition(k, lists);
    LosslessCovers(k, lists, early);
    TakeQualities(k, early);
    TakeQualities(k, full);
    hide Concat, Qualities, Descending, Covered, Take, Lossless;
    assert multiset(full) == multiset(early + dropped);
    QualitiesPermute(full, early + dropped);
    QualitiesConcat(early, dropped);
    var s, extra, all := Qualities(early), Qualities(dropped), Qualities(full);
    if Lossless(k, lists) {
      CoveredAddNothing(s, extra, all, k);
    }
    if Take(k, all) == Take(k, s) {
      forall d | d in extra
        ensures Covered(s, d, k)
      {
        AddedNothingCovered(s, extra, all, k, d);
      }
    }
  }

  /** For ranked candidate lists the early cut loses nothing. */
  lemma CutEarlyLosesNothing(k: nat, lists: seq<seq<RankedGrasp>>, full: seq<RankedGrasp>, early: seq<RankedGrasp>)
    requires forall c :: 0 <= c < |lists| ==> Ranked(lists[c])
    requires Ranked(full) && multiset(full) == multiset(Concat(lists))
    requires Ranked(early) && multiset(early) == multiset(Concat(CutAll(k, lists)))
    ensures Qualities(Take(k, early)) == Qualities(Take(k, full))
  {
    RankedLossless(k, lists);
    CutEarlyExact(k, lists, full, early);
    hide Ranked, Concat, Lossless, Qualities, Take;
  }

  /** For a single candidate: exactly when nothing behind the cut is better than anything before it. */
  lemma OneListLossless(k: nat, list: seq<RankedGrasp>)
    ensures Lossless(k, [list]) <==>
            forall kept, dropped :: kept in Take(k, list) && dropped in Drop(k, list) ==> dropped.quality <= kept.quality
  {
    OneList(k, list);
    hide Concat;
    var kept, dropped := Take(k, list), Drop(k, list);
    if Lossless(k, [list]) {
      forall x, y | x in kept && y in dropped
        ensures y.quality <= x.quality
      {
        var i :| 0 <= i < |kept| && kept[i] == x;
        var j :| 0 <= j < |dropped| && dropped[j] == y;
        assert Qualities(dropped)[j] == y.quality;
        CoverIsAll(Qualities(kept), y.quality, k, i);
      }
    } else {
      var d :| d in Qualities(dropped) && !Covered(Qualities(kept), d, k);
      var j :| 0 <= j < |dropped| && Qualities(dropped)[j] == d;
      assert !IsCover(Qualities(kept), d, k, Qualities(kept));
      var i :| 0 <= i < k && Qualities(kept)[i] < d;
      assert kept[i] in kept && dropped[j] in dropped;
    }
  }

  lemma OneList(k: nat, list: seq<RankedGrasp>)
    ensures Concat([list]) == list
    ensures Concat(CutAll(k, [list])) == Take(k, list) && Concat(DropAll(k, [list])) == Drop(k, list)
  {
    assert CutAll(k, [list]) == [Take(k, list)] && DropAll(k, [list]) == [Drop(k, list)];
    forall l: seq<RankedGrasp>
      ensures Concat([l]) == l
    {
      assert [l][..0] == [];
    }
  }

  /** A cover by k elements of a list of k elements uses all of them. */
  lemma CoverIsAll(s: seq<real>, d: real, k: nat, i: nat)
    requires |s| == k && Covered(s, d, k) && i < k
    ensures s[i] >= d
  {
    var top :| IsCover(s, d, k, top);
    assert multiset(s) == multiset(top) + (multiset(s) - multiset(top));
    assert |multiset(s)| == k == |multiset(top)|;
    assert |multiset(s) - multiset(top)| == 0;
    assert s[i] in multiset(s);
    assert s[i] in multiset(top);
  }

  /**
   A grasp that does not make it into the result, at either cut, is no better than any grasp
   that does; and if the result is not full then none is left out.
   */
  lemma LeftOutNoBetter(k: nat, lists: seq<seq<RankedGrasp>>, early: seq<RankedGrasp>)
    requires Lossless(k, lists)
    requires Ranked(early) && multiset(early) == multiset(Concat(CutAll(k, lists)))
    ensures forall g, r :: g in multiset(Concat(lists)) - multiset(Take(k, early)) && r in Take(k, early) ==> g.quality <= r.quality
    ensures |Take(k, early)| < k ==> multiset(Take(k, early)) == multiset(Concat(lists))
  {
    var dropped := Concat(DropAll(k, lists));
    CutPartition(k, lists);
    LosslessCovers(k, lists, early);
    hide Concat, Covered, Lossless;
    TakeDrop(k, early);
    assert multiset(early) == multiset(Take(k, early)) + multiset(Drop(k, early));
    forall g, r | g in multiset(Concat(lists)) - multiset(Take(k, early)) && r in Take(k, early)
      ensures g.quality <= r.quality
    {
      assert g in Drop(k, early) || g in dropped;
      BehindTheCut(k, early, dropped, g, r);
    }
    if |Take(k, early)| < k {
      NothingExtra(Qualities(early), Qualities(dropped), k);
      assert dropped == [];
    }
  }

  lemma BehindTheCut(k: nat, early: seq<RankedGrasp>, dropped: seq<RankedGrasp>, g: RankedGrasp, r: RankedGrasp)
    requires Ranked(early) && (forall d :: d in Qualities(dropped) ==> Covered(Qualities(early), d, k))
    requires (g in Drop(k, early) || g in dropped) && r in Take(k, early)
    ensures g.quality <= r.quality
  {
    var i :| 0 <= i < |Take(k, early)| && Take(k, early)[i] == r;
    assert Qualities(early)[i] == r.quality;
    if g in dropped {
      var j :| 0 <= j < |dropped| && dropped[j] == g;
      assert Qualities(dropped)[j] == g.quality;
      CoverAtFront(Qualities(early), g.quality, k, i);
    } else {
      var j :| 0 <= j < |Drop(k, early)| && Drop(k, early)[j] == g;
      assert Qualities(early)[k + j] == g.quality;
    }
  }
}
