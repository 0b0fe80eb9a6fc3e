/** The index of a run, exactly: which point goes to which slot, and which node owns which slots (copc-writer/src/lod.rs). */
module LodExact {
  import opened Core
  import opened Voxel
  import opened Bounds
  import opened Dealing
  import opened LodShape

  // The order file and the nodes --------------------------------------------

  /** The points of a subtree in order: the node's own, then what each octant is left with. */
  ghost function LodOrder(source: seq<Vec3>, run: seq<nat>, box: Box, level: nat, budget: nat): seq<nat>
    requires InSource(source, run)
    decreases if level < MAX_OCTREE_DEPTH then MAX_OCTREE_DEPTH - level else 0, 9
  {
    if |run| <= budget || level >= MAX_OCTREE_DEPTH then run
    else Deal(Parts(source, run, box.Center()), budget).order + OctantOrders(source, run, box, level, budget, 8)
  }

  ghost function OctantOrders(source: seq<Vec3>, run: seq<nat>, box: Box, level: nat, budget: nat, upto: nat): seq<nat>
    requires InSource(source, run) && level < MAX_OCTREE_DEPTH && upto <= 8
    decreases MAX_OCTREE_DEPTH - level, upto
  {
    if upto == 0 then []
    else
      OctantOrders(source, run, box, level, budget, upto - 1)
      + LodOrder(source, Leftover(source, run, box.Center(), upto - 1, budget), box.Octant(upto - 1), level + 1, budget)
  }

  /** The nodes of a subtree whose points start at slot `base`, each before its children. */
  ghost function LodNodes(source: seq<Vec3>, run: seq<nat>, key: VoxelKey, box: Box, budget: nat, base: nat): seq<LodNodeRange>
    requires InSource(source, run) && key.Valid() && key.level <= MAX_OCTREE_DEPTH
    decreases MAX_OCTREE_DEPTH - key.level, 9
  {
    if run == [] then []
    else if |run| <= budget || key.level == MAX_OCTREE_DEPTH then [LodNodeRange(key, INDEX_RECORD_BYTES * base, |run|)]
    else [LodNodeRange(key, INDEX_RECORD_BYTES * base, budget)] + OctantNodes(source, run, key, box, budget, base + budget, 8)
  }

  ghost function OctantNodes(source: seq<Vec3>, run: seq<nat>, key: VoxelKey, box: Box, budget: nat, base: nat, upto: nat): seq<LodNodeRange>
    requires InSource(source, run) && key.Valid() && key.level < MAX_OCTREE_DEPTH && upto <= 8
    decreases MAX_OCTREE_DEPTH - key.level, upto
  {
    if upto == 0 then []
    else
      ChildExists(key, upto - 1);
      OctantNodes(source, run, key, box, budget, base, upto - 1)
      + LodNodes(source, Leftover(source, run, box.Center(), upto - 1, budget), key.Child(upto - 1).value, box.Octant(upto - 1), budget,
          base + |OctantOrders(source, run, box, key.level, budget, upto - 1)|)
  }

  lemma NothingToIndex(source: seq<Vec3>, key: VoxelKey, box: Box, level: nat, budget: nat, base: nat)
    requires key.Valid() && key.level <= MAX_OCTREE_DEPTH
    ensures LodOrder(source, [], box, level, budget) == [] && LodNodes(source, [], key, box, budget, base) == []
  {
  }

  lemma SmallIndex(source: seq<Vec3>, run: seq<nat>, key: VoxelKey, box: Box, budget: nat, base: nat)
    requires InSource(source, run) && key.Valid() && key.level <= MAX_OCTREE_DEPTH && 0 < |run| <= budget
    ensures LodOrder(source, run, box, key.level, budget) == run
    ensures LodNodes(source, run, key, box, budget, base) == [LodNodeRange(key, INDEX_RECORD_BYTES * base, |run|)]
  {
  }

  lemma SplitIndex(source: seq<Vec3>, run: seq<nat>, key: VoxelKey, box: Box, budget: nat, base: nat)
    requires InSource(source, run) && key.Valid() && key.level < MAX_OCTREE_DEPTH && |run| > budget
    ensures LodOrder(source, run, box, key.level, budget)
         == Deal(Parts(source, run, box.Center()), budget).order + OctantOrders(source, run, box, key.level, budget, 8)
    ensures LodNodes(source, run, key, box, budget, base)
         == [LodNodeRange(key, INDEX_RECORD_BYTES * base, budget)] + OctantNodes(source, run, key, box, budget, base + budget, 8)
  {
  }

  lemma NoOctants(source: seq<Vec3>, run: seq<nat>, key: VoxelKey, box: Box, budget: nat, base: nat)
    requires InSource(source, run) && key.Valid() && key.level < MAX_OCTREE_DEPTH
    ensures OctantOrders(source, run, box, key.level, budget, 0) == [] && OctantNodes(source, run, key, box, budget, base, 0) == []
  {
  }

  lemma NextOctant(source: seq<Vec3>, run: seq<nat>, key: VoxelKey, box: Box, budget: nat, base: nat, o: nat)
    requires InSource(source, run) && key.Valid() && key.level < MAX_OCTREE_DEPTH && o < 8
    ensures key.Child(o).Ok?
    ensures var left := Leftover(source, run, box.Center(), o, budget);
      && OctantOrders(source, run, box, key.level, budget, o + 1)
         == OctantOrders(source, run, box, key.level, budget, o) + LodOrder(source, left, box.Octant(o), key.level + 1, budget)
      && OctantNodes(source, run, key, box, budget, base, o + 1)
         == OctantNodes(source, run, key, box, budget, base, o)
            + LodNodes(source, left, key.Child(o).value, box.Octant(o), budget, base + |OctantOrders(source, run, box, key.level, budget, o)|)
  {
    hide LodOrder, LodNodes, Leftover, VoxelKey.Child, Box.Octant, Box.Center, VoxelKey.Valid;
    ChildExists(key, o);
  }

  // The parts ---------------------------------------------------------------

  /** The point is in the octant's half on every axis; a point on a middle plane belongs to the upper half. */
  ghost predicate InOctant(center: Vec3, p: Vec3, o: nat) {
    && (o % 2 == 1 <==> p.x >= center.x) && (o / 2 % 2 == 1 <==> p.y >= center.y) && (o / 4 % 2 == 1 <==> p.z >= center.z)
  }

  /** The places are strictly ascending, name the part's indices, and are all those of the octant. */
  ghost predicate PlacesOf(source: seq<Vec3>, run: seq<nat>, center: Vec3, o: nat, part: seq<nat>, places: seq<nat>)
    requires InSource(source, run)
  {
    && |places| == |part|
    && (forall i, j :: 0 <= i < j < |places| ==> places[i] < places[j])
    && (forall k :: 0 <= k < |places| ==> places[k] < |run| && part[k] == run[places[k]])
    && forall p: nat :: p in places <==> p < |run| && InOctant(center, source[run[p]], o)
  }

  lemma OctantExactly(center: Vec3, p: Vec3, o: nat)
    requires o < 8
    ensures ChildOctant(center, p) == o <==> InOctant(center, p, o)
  {
  }

  lemma PlacesGrow(source: seq<Vec3>, run: seq<nat>, center: Vec3, o: nat, part: seq<nat>, places: seq<nat>, i: nat)
    requires InSource(source, run) && i < |source| && PlacesOf(source, run, center, o, part, places)
    ensures InSource(source, run + [i])
    ensures InOctant(center, source[i], o) ==> PlacesOf(source, run + [i], center, o, part + [i], places + [|run|])
    ensures !InOctant(center, source[i], o) ==> PlacesOf(source, run + [i], center, o, part, places)
  {
    hide InOctant;
    var longer := run + [i];
    assert longer[|run|] == i && forall p: nat :: p < |run| ==> longer[p] == run[p];
    forall k | 0 <= k < |places| ensures places[k] < |run| {
      assert places[k] in places;
    }
  }

  /** A part is the run's points of its octant, each once, in the order of the run. */
  lemma {:induction false} PartKeepsOrder(source: seq<Vec3>, run: seq<nat>, center: Vec3, o: nat) returns (places: seq<nat>)
    requires InSource(source, run) && o < 8
    ensures PlacesOf(source, run, center, o, Part(source, run, center, o), places)
    decreases |run|
  {
    hide InOctant, ChildOctant, PlacesOf, Part;
    if run == [] {
      places := [];
      NoPlaces(source, center, o);
    } else {
      var n := |run| - 1;
      places := PartKeepsOrder(source, run[..n], center, o);
      OctantExactly(center, source[run[n]], o);
      PlacesGrow(source, run[..n], center, o, Part(source, run[..n], center, o), places, run[n]);
      PartOneMore(source, run[..n], run[n], center, o);
      assert run[..n] + [run[n]] == run;
      if ChildOctant(center, source[run[n]]) == o {
        places := places + [n];
      } else {
        assert Part(source, run[..n], center, o) + [] == Part(source, run[..n], center, o);
      }
    }
  }

  lemma NoPlaces(source: seq<Vec3>, center: Vec3, o: nat)
    ensures PlacesOf(source, [], center, o, Part(source, [], center, o), [])
  {
  }

  // A fair share ------------------------------------------------------------

  /** Filtering the points dealt by octant gives the front of the octant's part. */
  ghost predicate DealtByOctant(source: seq<Vec3>, run: seq<nat>, center: Vec3, d: Dealt)
    requires InSource(source, run)
  {
    && Taking(Parts(source, run, center), d.taken) && InSource(source, d.order)
    && forall o: nat :: o < 8 ==> Part(source, d.order, center, o) == Parts(source, run, center)[o][..d.taken[o]]
  }

  lemma PartOneMore(source: seq<Vec3>, s: seq<nat>, i: nat, center: Vec3, o: nat)
    requires InSource(source, s) && i < |source|
    ensures InSource(source, s + [i])
    ensures Part(source, s + [i], center, o) == Part(source, s, center, o) + (if ChildOctant(center, source[i]) == o then [i] else [])
  {
    hide ChildOctant;
    assert (s + [i])[..|s|] == s;
  }

  lemma ServedByOctant(source: seq<Vec3>, run: seq<nat>, center: Vec3, d: Dealt, o: nat)
    requires InSource(source, run) && DealtByOctant(source, run, center, d) && o < 8
    requires d.taken[o] < |Parts(source, run, center)[o]|
    ensures DealtByOctant(source, run, center, Serve(Parts(source, run, center), d, o))
  {
    hide ChildOctant, Part, Parts;
    PartsAre(source, run, center);
    var parts := Parts(source, run, center);
    var i := parts[o][d.taken[o]];
    assert i in parts[o];
    var next := Serve(parts, d, o);
    forall p: nat | p < 8 ensures Part(source, next.order, center, p) == parts[p][..next.taken[p]] {
      PartOneMore(source, d.order, i, center, p);
      if p == o {
        assert parts[o][..d.taken[o] + 1] == parts[o][..d.taken[o]] + [i];
      }
    }
  }

  lemma PartsAre(source: seq<Vec3>, run: seq<nat>, center: Vec3)
    requires InSource(source, run)
    ensures forall o: nat :: o < 8 ==> Parts(source, run, center)[o] == Part(source, run, center, o)
    ensures forall o: nat, i :: o < 8 && i in Parts(source, run, center)[o] ==> i < |source| && ChildOctant(center, source[i]) == o
  {
    hide ChildOctant;
    forall o: nat, i | o < 8 && i in Parts(source, run, center)[o] ensures i < |source| && ChildOctant(center, source[i]) == o {
      var part := Part(source, run, center, o);
      var k :| 0 <= k < |part| && part[k] == i;
    }
  }

  lemma NothingDealt(source: seq<Vec3>, run: seq<nat>, center: Vec3)
    requires InSource(source, run)
    ensures DealtByOctant(source, run, center, Deal(Parts(source, run, center), 0))
  {
    DealUnfolds(Parts(source, run, center), 0);
  }

  lemma {:induction false} DealIsByOctant(source: seq<Vec3>, run: seq<nat>, center: Vec3, budget: nat)
    requires InSource(source, run)
    ensures DealtByOctant(source, run, center, Deal(Parts(source, run, center), budget))
  {
    hide Deal, DealtByOctant, Parts;
    if budget == 0 {
      NothingDealt(source, run, center);
    } else {
      var parts := Parts(source, run, center);
      DealIsByOctant(source, run, center, budget - 1);
      DealUnfolds(parts, budget - 1);
      var d := Deal(parts, budget - 1);
      match NextOf(parts, d.taken)
      case Some(o) => ServedByOctant(source, run, center, d, o);
      case None =>
    }
  }

  lemma {:induction false} DealGrows(parts: seq<seq<nat>>, a: nat, b: nat)
    requires a <= b
    ensures Deal(parts, a).order <= Deal(parts, b).order
    decreases b
  {
    hide Deal;
    if a < b {
      DealGrows(parts, a, b - 1);
      DealUnfolds(parts, b - 1);
    }
  }

  /**
   An octant that a selection has not emptied is at most one point behind any other, and not behind a later one; and what the
   selection has of an octant is the front of the octant's part.
   */
  ghost predicate FairShare(source: seq<Vec3>, run: seq<nat>, center: Vec3, own: seq<nat>)
    requires InSource(source, run)
  {
    && InSource(source, own)
    && (forall o: nat :: o < 8 ==> Part(source, own, center, o) <= Part(source, run, center, o))
    && forall a: nat, b: nat :: a < 8 && b < 8 && |Part(source, own, center, a)| < |Part(source, run, center, a)| ==>
         |Part(source, own, center, b)| <= |Part(source, own, center, a)| + (if b < a then 1 else 0)
  }

  lemma DealIsFairShare(source: seq<Vec3>, run: seq<nat>, center: Vec3, k: nat)
    requires InSource(source, run)
    ensures FairShare(source, run, center, Deal(Parts(source, run, center), k).order)
    ensures |Deal(Parts(source, run, center), k).order| == Min(k, |run|)
  {
    hide Deal, Part, Parts;
    var parts := Parts(source, run, center);
    DealIsByOctant(source, run, center, k);
    DealIsFair(parts, k);
    PartsAre(source, run, center);
    PartSizes(source, run, center);
  }

  /** The points a node keeps of a run too big for it are, at every length, a fair share of the run. */
  lemma NodeKeepsFairShare(source: seq<Vec3>, run: seq<nat>, box: Box, level: nat, budget: nat, k: nat)
    requires InSource(source, run) && level < MAX_OCTREE_DEPTH && k <= budget < |run|
    ensures k <= |LodOrder(source, run, box, level, budget)|
    ensures FairShare(source, run, box.Center(), LodOrder(source, run, box, level, budget)[..k])
  {
    hide Deal, FairShare, OctantOrders, Parts, Box.Center;
    var parts := Parts(source, run, box.Center());
    DealIsFairShare(source, run, box.Center(), k);
    DealIsFairShare(source, run, box.Center(), budget);
    DealGrows(parts, k, budget);
    assert LodOrder(source, run, box, level, budget)[..k] == Deal(parts, k).order;
  }
}
