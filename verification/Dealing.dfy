/**
 The specification of the level-of-detail selection: points are dealt one at a
 time to the least-served octant that still has some, lowest octant first.
 The round-robin loop of copc-writer/src/lod.rs is proved to compute it.
 */
module Dealing {
  import opened Core

  /** How many points each octant gave, and the points in the order they were given. */
  datatype Dealt = Dealt(taken: seq<nat>, order: seq<nat>)

  function Lengths(parts: seq<seq<nat>>): (s: seq<nat>)
    ensures |s| == |parts|
  {
    seq(|parts|, i requires 0 <= i < |parts| => |parts[i]|)
  }

  ghost predicate Taking(parts: seq<seq<nat>>, taken: seq<nat>) {
    |taken| == |parts| && forall i :: 0 <= i < |parts| ==> taken[i] <= |parts[i]|
  }

  function Zeros(n: nat): (z: seq<nat>)
    ensures |z| == n && forall i :: 0 <= i < n ==> z[i] == 0
  {
    if n == 0 then [] else Zeros(n - 1) + [0]
  }

  /** Octant `o` is the first of the least-served octants that still have points. */
  ghost predicate IsNext(parts: seq<seq<nat>>, taken: seq<nat>, o: nat)
    requires Taking(parts, taken)
  {
    && o < |parts|
    && taken[o] < |parts[o]|
    && forall p :: 0 <= p < |parts| && taken[p] < |parts[p]| ==>
         taken[o] < taken[p] || (taken[o] == taken[p] && o <= p)
  }

  ghost function NextOf(parts: seq<seq<nat>>, taken: seq<nat>): (r: Option<nat>)
    requires Taking(parts, taken)
    ensures r.Some? ==> IsNext(parts, taken, r.value)
    ensures r.None? ==> forall o: nat :: !IsNext(parts, taken, o)
  {
    if exists o: nat :: IsNext(parts, taken, o) then
      var o: nat :| IsNext(parts, taken, o);
      Some(o)
    else None
  }

  ghost function Serve(parts: seq<seq<nat>>, d: Dealt, o: nat): (d': Dealt)
    requires Taking(parts, d.taken) && o < |parts| && d.taken[o] < |parts[o]|
    ensures Taking(parts, d'.taken)
  {
    Dealt(d.taken[o := d.taken[o] + 1], d.order + [parts[o][d.taken[o]]])
  }

  ghost function ServeNext(parts: seq<seq<nat>>, d: Dealt): (d': Dealt)
    requires Taking(parts, d.taken)
    ensures Taking(parts, d'.taken)
  {
    match NextOf(parts, d.taken)
    case Some(o) => Serve(parts, d, o)
    case None => d
  }

  ghost function Deal(parts: seq<seq<nat>>, budget: nat): (d: Dealt)
    ensures Taking(parts, d.taken)
  {
    if budget == 0 then Dealt(Zeros(|parts|), [])
    else ServeNext(parts, Deal(parts, budget - 1))
  }

  /** No octant is served twice more than another that still has points. */
  ghost predicate Fair(parts: seq<seq<nat>>, taken: seq<nat>)
    requires Taking(parts, taken)
  {
    forall a, b :: 0 <= a < |parts| && 0 <= b < |parts| && taken[a] < |parts[a]| ==>
      taken[b] <= taken[a] + (if b < a then 1 else 0)
  }

  /** The union of the runs, as a multiset. */
  ghost function Union<T>(parts: seq<seq<T>>): multiset<T> {
    if parts == [] then multiset{}
    else Union(parts[..|parts| - 1]) + multiset(parts[|parts| - 1])
  }

  function Heads(parts: seq<seq<nat>>, taken: seq<nat>): (s: seq<seq<nat>>)
    requires Taking(parts, taken)
    ensures |s| == |parts|
  {
    seq(|parts|, i requires 0 <= i < |parts| => parts[i][..taken[i]])
  }

  function Tails(parts: seq<seq<nat>>, taken: seq<nat>): (s: seq<seq<nat>>)
    requires Taking(parts, taken)
    ensures |s| == |parts|
  {
    seq(|parts|, i requires 0 <= i < |parts| => parts[i][taken[i]..])
  }

  lemma {:induction false} NextExists(parts: seq<seq<nat>>, taken: seq<nat>, p: nat)
    requires Taking(parts, taken)
    requires p < |parts| && taken[p] < |parts[p]|
    ensures exists o: nat :: IsNext(parts, taken, o)
    decreases taken[p], p
  {
    if !IsNext(parts, taken, p) {
      var q :| 0 <= q < |parts| && taken[q] < |parts[q]| && !(taken[p] < taken[q] || (taken[p] == taken[q] && p <= q));
      NextExists(parts, taken, q);
    }
  }

  lemma NextUnique(parts: seq<seq<nat>>, taken: seq<nat>, o: nat, q: nat)
    requires Taking(parts, taken) && IsNext(parts, taken, o) && IsNext(parts, taken, q)
    ensures o == q
  {
    assert taken[o] < |parts[o]| && taken[q] < |parts[q]|;
  }

  lemma DealUnfolds(parts: seq<seq<nat>>, budget: nat)
    ensures Deal(parts, 0) == Dealt(Zeros(|parts|), [])
    ensures Deal(parts, budget + 1) == ServeNext(parts, Deal(parts, budget))
  {
  }

  lemma DealStep(parts: seq<seq<nat>>, budget: nat, o: nat)
    requires IsNext(parts, Deal(parts, budget).taken, o)
    ensures Deal(parts, budget + 1) == Serve(parts, Deal(parts, budget), o)
  {
    hide Deal;
    DealUnfolds(parts, budget);
    var d := Deal(parts, budget);
    NextUnique(parts, d.taken, o, NextOf(parts, d.taken).value);
  }

  lemma FairStep(parts: seq<seq<nat>>, taken: seq<nat>, o: nat)
    requires Taking(parts, taken) && IsNext(parts, taken, o) && Fair(parts, taken)
    ensures Taking(parts, taken[o := taken[o] + 1])
    ensures Fair(parts, taken[o := taken[o] + 1])
  {
    var next := taken[o := taken[o] + 1];
    forall a, b | 0 <= a < |parts| && 0 <= b < |parts| && next[a] < |parts[a]|
      ensures next[b] <= next[a] + (if b < a then 1 else 0)
    {
      assert taken[a] < |parts[a]|;
      assert taken[b] <= taken[a] + (if b < a then 1 else 0);
    }
  }

  lemma Exhausted(parts: seq<seq<nat>>, taken: seq<nat>)
    requires Taking(parts, taken)
    requires NextOf(parts, taken).None?
    ensures taken == Lengths(parts)
  {
    forall p | 0 <= p < |parts| ensures taken[p] == |parts[p]| {
      if taken[p] < |parts[p]| {
        NextExists(parts, taken, p);
      }
    }
  }

  lemma ServeCounts(parts: seq<seq<nat>>, d: Dealt, o: nat)
    requires Taking(parts, d.taken) && o < |parts| && d.taken[o] < |parts[o]|
    ensures Sum(Serve(parts, d, o).taken) == Sum(d.taken) + 1 <= Sum(Lengths(parts))
  {
    SumUpdate(d.taken, o, d.taken[o] + 1);
    SumPointwise(Serve(parts, d, o).taken, Lengths(parts));
  }

  lemma ServeNextAdvances(parts: seq<seq<nat>>, d: Dealt)
    requires Taking(parts, d.taken) && Fair(parts, d.taken) && |d.order| == Sum(d.taken)
    ensures var d' := ServeNext(parts, d);
      && Fair(parts, d'.taken)
      && |d'.order| == Sum(d'.taken) == Min(Sum(d.taken) + 1, Sum(Lengths(parts)))
  {
    match NextOf(parts, d.taken)
    case Some(o) =>
      FairStep(parts, d.taken, o);
      ServeCounts(parts, d, o);
    case None => Exhausted(parts, d.taken);
  }

  /** Dealing fills the budget or runs out of points, and stays fair throughout. */
  lemma {:induction false} DealIsFair(parts: seq<seq<nat>>, budget: nat)
    ensures Fair(parts, Deal(parts, budget).taken)
    ensures Sum(Deal(parts, budget).taken) == Min(budget, Sum(Lengths(parts)))
    ensures |Deal(parts, budget).order| == Sum(Deal(parts, budget).taken)
  {
    hide Deal, ServeNext, Fair, Sum, Lengths;
    DealUnfolds(parts, if budget == 0 then 0 else budget - 1);
    if budget == 0 {
      NobodyServed(parts);
    } else {
      DealIsFair(parts, budget - 1);
      ServeNextAdvances(parts, Deal(parts, budget - 1));
    }
  }

  lemma {:induction false} ZeroSum(n: nat)
    ensures Sum(Zeros(n)) == 0
  {
    if n > 0 {
      ZeroSum(n - 1);
      assert Zeros(n)[..n - 1] == Zeros(n - 1);
    }
  }

  lemma NobodyServed(parts: seq<seq<nat>>)
    ensures Taking(parts, Zeros(|parts|)) && Fair(parts, Zeros(|parts|))
    ensures Sum(Zeros(|parts|)) == 0 == Min(0, Sum(Lengths(parts)))
  {
    ZeroSum(|parts|);
  }

  /** Fairness and the total pin the counts: there is only one fair selection of a given size. */
  lemma FairUnique(parts: seq<seq<nat>>, s: seq<nat>, t: seq<nat>)
    requires Taking(parts, s) && Taking(parts, t)
    requires Fair(parts, s) && Fair(parts, t) && Sum(s) == Sum(t)
    ensures s == t
  {
    SumPointwiseOrWitness(s, t);
    SumPointwiseOrWitness(t, s);
  }

  lemma SumPointwiseOrWitness(s: seq<nat>, t: seq<nat>)
    requires |s| == |t| && Sum(s) == Sum(t)
    ensures s == t || exists i :: 0 <= i < |s| && s[i] > t[i]
  {
    if forall i :: 0 <= i < |s| ==> s[i] <= t[i] {
      SumPointwise(s, t);
    }
  }

  lemma {:induction false} DealSaturates(parts: seq<seq<nat>>, b: nat, more: nat)
    requires NextOf(parts, Deal(parts, b).taken).None?
    ensures Deal(parts, b + more) == Deal(parts, b)
  {
    hide Deal;
    if more > 0 {
      DealSaturates(parts, b, more - 1);
      DealUnfolds(parts, b + more - 1);
    }
  }

  // Conservation ------------------------------------------------------------

  lemma MultisetMiddle<T>(a: multiset<T>, b: multiset<T>, m: multiset<T>, c: multiset<T>, d: multiset<T>)
    requires a + c == b + d
    ensures (a + m) + c == (b + m) + d
  {
    forall x ensures ((a + m) + c)[x] == ((b + m) + d)[x] {
      assert (a + c)[x] == (b + d)[x];
    }
  }

  lemma {:induction false} UnionUpdate<T>(parts: seq<seq<T>>, i: nat, x: seq<T>)
    requires i < |parts|
    ensures Union(parts[i := x]) + multiset(parts[i]) == Union(parts) + multiset(x)
  {
    var n := |parts| - 1;
    if i == n {
      assert parts[i := x][..n] == parts[..n];
    } else {
      UnionUpdate(parts[..n], i, x);
      var parts' := parts[i := x];
      assert parts'[..n] == parts[..n][i := x];
      assert parts[..n][i] == parts[i];
      MultisetMiddle(Union(parts'[..n]), Union(parts[..n]), multiset(parts[n]), multiset(parts[i]), multiset(x));
    }
  }

  lemma {:induction false} UnionSplits(parts: seq<seq<nat>>, taken: seq<nat>)
    requires Taking(parts, taken)
    ensures Union(Heads(parts, taken)) + Union(Tails(parts, taken)) == Union(parts)
  {
    if parts != [] {
      var n := |parts| - 1;
      UnionSplits(parts[..n], taken[..n]);
      assert Heads(parts, taken)[..n] == Heads(parts[..n], taken[..n]);
      assert Tails(parts, taken)[..n] == Tails(parts[..n], taken[..n]);
      assert parts[n] == parts[n][..taken[n]] + parts[n][taken[n]..];
    }
  }

  lemma {:induction false} UnionPrefix<T>(parts: seq<seq<T>>, o: nat)
    requires o < |parts|
    ensures Union(parts[..o + 1]) == Union(parts[..o]) + multiset(parts[o])
    ensures Union(parts[..o + 1]) <= Union(parts)
    decreases |parts|
  {
    assert parts[..o + 1][..o] == parts[..o];
    if o + 1 < |parts| {
      var n := |parts| - 1;
      UnionPrefix(parts[..n], o);
      assert parts[..n][..o + 1] == parts[..o + 1];
    } else {
      assert parts[..o + 1] == parts;
    }
  }

  lemma {:induction false} UnionEmpty<T>(parts: seq<seq<T>>)
    requires forall i :: 0 <= i < |parts| ==> parts[i] == []
    ensures Union(parts) == multiset{}
  {
    if parts != [] {
      UnionEmpty(parts[..|parts| - 1]);
    }
  }

  lemma {:induction false} UnionSize(parts: seq<seq<nat>>)
    ensures |Union(parts)| == Sum(Lengths(parts))
  {
    if parts != [] {
      var n := |parts| - 1;
      UnionSize(parts[..n]);
      assert Lengths(parts)[..n] == Lengths(parts[..n]);
    }
  }

  lemma MultisetCancel<T>(a: multiset<T>, b: multiset<T>, c: multiset<T>, d: multiset<T>)
    requires a + c == b + (c + d)
    ensures a == b + d
  {
    forall x ensures a[x] == (b + d)[x] {
      assert (a + c)[x] == (b + (c + d))[x];
    }
  }

  lemma ServeConserves(parts: seq<seq<nat>>, d: Dealt, o: nat)
    requires Taking(parts, d.taken) && o < |parts| && d.taken[o] < |parts[o]|
    requires multiset(d.order) == Union(Heads(parts, d.taken))
    ensures multiset(Serve(parts, d, o).order) == Union(Heads(parts, Serve(parts, d, o).taken))
  {
    var k := d.taken[o];
    var heads := Heads(parts, d.taken);
    var longer := parts[o][..k + 1];
    assert longer == heads[o] + [parts[o][k]];
    assert Heads(parts, Serve(parts, d, o).taken) == heads[o := longer];
    UnionUpdate(heads, o, longer);
    assert multiset(longer) == multiset(heads[o]) + multiset{parts[o][k]};
    MultisetCancel(Union(heads[o := longer]), Union(heads), multiset(heads[o]), multiset{parts[o][k]});
  }

  lemma ServeNextConserves(parts: seq<seq<nat>>, d: Dealt)
    requires Taking(parts, d.taken) && multiset(d.order) == Union(Heads(parts, d.taken))
    ensures var d' := ServeNext(parts, d); multiset(d'.order) == Union(Heads(parts, d'.taken))
  {
    match NextOf(parts, d.taken)
    case Some(o) => ServeConserves(parts, d, o);
    case None =>
  }

  /** The points dealt are exactly the prefixes the counts say. */
  lemma {:induction false} DealConserves(parts: seq<seq<nat>>, budget: nat)
    ensures multiset(Deal(parts, budget).order) == Union(Heads(parts, Deal(parts, budget).taken))
  {
    hide Deal, ServeNext, Union;
    DealUnfolds(parts, if budget == 0 then 0 else budget - 1);
    if budget == 0 {
      UnionEmpty(Heads(parts, Deal(parts, 0).taken));
    } else {
      DealConserves(parts, budget - 1);
      ServeNextConserves(parts, Deal(parts, budget - 1));
    }
  }

  /** What is left of one octant is at most what is left of all of them. */
  lemma LeftoverBound(parts: seq<seq<nat>>, taken: seq<nat>, o: nat)
    requires Taking(parts, taken) && o < |parts|
    ensures |parts[o]| - taken[o] <= Sum(Lengths(parts)) - Sum(taken)
  {
    SumUpdate(taken, o, |parts[o]|);
    SumPointwise(taken[o := |parts[o]|], Lengths(parts));
  }
}
