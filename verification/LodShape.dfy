/** What a built level-of-detail index looks like: tiling, tree shape and containment. */
module LodShape {
  import opened Core
  import opened Voxel
  import opened Bounds
  import opened Dealing

  const INDEX_RECORD_BYTES := 4
  const MAX_OCTREE_DEPTH := 30

  /** A node's slice of the order file: `start` in bytes, `count` in records. */
  datatype LodNodeRange = LodNodeRange(key: VoxelKey, start: nat, count: nat)

  function ChildOctant(center: Vec3, p: Vec3): (o: nat)
    ensures o < 8
  {
    (if p.x >= center.x then 1 else 0) + (if p.y >= center.y then 2 else 0) + (if p.z >= center.z then 4 else 0)
  }

  /** Every index names a point of the source. */
  predicate InSource(source: seq<Vec3>, run: seq<nat>) {
    forall i :: 0 <= i < |run| ==> run[i] < |source|
  }

  /** The points of a run that fall in one octant, in run order. */
  function Part(source: seq<Vec3>, run: seq<nat>, center: Vec3, o: nat): (part: seq<nat>)
    requires InSource(source, run)
    ensures InSource(source, part)
    ensures forall i :: i in part ==> i in run && ChildOctant(center, source[i]) == o
  {
    if run == [] then []
    else
      var last := run[|run| - 1];
      var rest := Part(source, run[..|run| - 1], center, o);
      if ChildOctant(center, source[last]) == o then rest + [last] else rest
  }

  function Parts(source: seq<Vec3>, run: seq<nat>, center: Vec3): (parts: seq<seq<nat>>)
    requires InSource(source, run)
    ensures |parts| == 8
  {
    seq(8, o requires 0 <= o < 8 => Part(source, run, center, o))
  }

  /** The points of octant `o` left for the child after the node took its share. */
  ghost function Leftover(source: seq<Vec3>, run: seq<nat>, center: Vec3, o: nat, budget: nat): (left: seq<nat>)
    requires InSource(source, run) && o < 8
    ensures InSource(source, left)
  {
    var parts := Parts(source, run, center);
    Tails(parts, Deal(parts, budget).taken)[o]
  }

  /** Some run still exceeds the budget at the depth limit. */
  ghost predicate Overfull(source: seq<Vec3>, run: seq<nat>, box: Box, level: nat, budget: nat)
    requires InSource(source, run)
    decreases MAX_OCTREE_DEPTH - level
  {
    && |run| > budget
    && (level >= MAX_OCTREE_DEPTH ||
        exists o: nat :: o < 8 &&
          Overfull(source, Leftover(source, run, box.Center(), o, budget), box.Octant(o), level + 1, budget))
  }

  // Partition ---------------------------------------------------------------

  lemma {:induction false} PartsConserve(source: seq<Vec3>, run: seq<nat>, center: Vec3)
    requires InSource(source, run)
    ensures Union(Parts(source, run, center)) == multiset(run)
  {
    var parts := Parts(source, run, center);
    if run == [] {
      UnionEmpty(parts);
    } else {
      var n := |run| - 1;
      var last := run[n];
      var o := ChildOctant(center, source[last]);
      var shorter := Parts(source, run[..n], center);
      PartsConserve(source, run[..n], center);
      assert parts == shorter[o := shorter[o] + [last]];
      UnionUpdate(shorter, o, shorter[o] + [last]);
      assert run == run[..n] + [last];
      MultisetCancel(Union(parts), Union(shorter), multiset(shorter[o]), multiset{last});
    }
  }

  lemma PartSizes(source: seq<Vec3>, run: seq<nat>, center: Vec3)
    requires InSource(source, run)
    ensures Sum(Lengths(Parts(source, run, center))) == |run|
  {
    PartsConserve(source, run, center);
    UnionSize(Parts(source, run, center));
  }

  /** Every octant's leftover is strictly smaller than the run it came from. */
  lemma LeftoverShrinks(source: seq<Vec3>, run: seq<nat>, center: Vec3, o: nat, budget: nat)
    requires InSource(source, run) && o < 8 && 1 <= budget < |run|
    ensures |Leftover(source, run, center, o, budget)| <= |run| - budget
  {
    var parts := Parts(source, run, center);
    PartSizes(source, run, center);
    DealIsFair(parts, budget);
    LeftoverBound(parts, Deal(parts, budget).taken, o);
  }

  lemma LeftoverMembers(source: seq<Vec3>, run: seq<nat>, center: Vec3, o: nat, budget: nat)
    requires InSource(source, run) && o < 8
    ensures forall i :: i in Leftover(source, run, center, o, budget) ==>
      i in run && ChildOctant(center, source[i]) == o
  {
    var parts := Parts(source, run, center);
    var left := Leftover(source, run, center, o, budget);
    forall i | i in left ensures i in parts[o] {
      var k :| 0 <= k < |left| && left[k] == i;
      assert i == parts[o][Deal(parts, budget).taken[o] + k];
    }
  }

  /** A point sorted into an octant lies in that octant's box. */
  lemma OctantHoldsPoint(box: Box, p: Vec3)
    requires box.Contains(p)
    ensures box.Octant(ChildOctant(box.Center(), p)).Contains(p)
  {
    OctantBits(ChildOctant(box.Center(), p));
  }

  // Tiling ------------------------------------------------------------------

  /** The nodes' byte ranges follow one another without gap or overlap. */
  ghost predicate Tiles(nodes: seq<LodNodeRange>, lo: nat, hi: nat) {
    if nodes == [] then lo == hi
    else nodes[0].start == lo && Tiles(nodes[1..], lo + INDEX_RECORD_BYTES * nodes[0].count, hi)
  }

  lemma {:induction false} TilesAppend(a: seq<LodNodeRange>, b: seq<LodNodeRange>, lo: nat, mid: nat, hi: nat)
    requires Tiles(a, lo, mid) && Tiles(b, mid, hi)
    ensures Tiles(a + b, lo, hi)
  {
    if a == [] {
      assert a + b == b;
    } else {
      TilesAppend(a[1..], b, lo + INDEX_RECORD_BYTES * a[0].count, mid, hi);
      assert (a + b)[1..] == a[1..] + b;
    }
  }

  function Counts(nodes: seq<LodNodeRange>): (s: seq<nat>)
    ensures |s| == |nodes|
  {
    seq(|nodes|, i requires 0 <= i < |nodes| => nodes[i].count)
  }

  predicate Covers(n: LodNodeRange, p: int) {
    n.start <= INDEX_RECORD_BYTES * p < n.start + INDEX_RECORD_BYTES * n.count
  }

  /** Each record slot of a tiled stretch belongs to exactly one node. */
  lemma {:induction false} TilesCoverOnce(nodes: seq<LodNodeRange>, lo: nat, hi: nat)
    requires Tiles(nodes, lo, hi)
    ensures lo <= hi
    ensures forall i :: 0 <= i < |nodes| ==> lo <= nodes[i].start && nodes[i].start + INDEX_RECORD_BYTES * nodes[i].count <= hi
    ensures forall p :: lo <= INDEX_RECORD_BYTES * p < hi ==> exists i :: 0 <= i < |nodes| && Covers(nodes[i], p)
    ensures forall i, j, p :: 0 <= i < j < |nodes| && Covers(nodes[i], p) ==> !Covers(nodes[j], p)
  {
    if nodes != [] {
      var next := lo + INDEX_RECORD_BYTES * nodes[0].count;
      var rest := nodes[1..];
      TilesCoverOnce(rest, next, hi);
      assert forall i :: 1 <= i < |nodes| ==> nodes[i] == rest[i - 1];
      forall p | lo <= INDEX_RECORD_BYTES * p < hi
        ensures exists i :: 0 <= i < |nodes| && Covers(nodes[i], p)
      {
        if INDEX_RECORD_BYTES * p < next {
          assert Covers(nodes[0], p);
        } else {
          var i :| 0 <= i < |rest| && Covers(rest[i], p);
          assert Covers(nodes[i + 1], p);
        }
      }
      forall i, j, p | 0 <= i < j < |nodes| && Covers(nodes[i], p)
        ensures !Covers(nodes[j], p)
      {
        if i == 0 {
          assert next <= rest[j - 1].start;
        } else {
          assert Covers(rest[i - 1], p);
        }
      }
    }
  }

  // Tree shape --------------------------------------------------------------

  ghost predicate HasNode(nodes: seq<LodNodeRange>, key: VoxelKey) {
    exists n :: n in nodes && n.key == key
  }

  ghost predicate NodeBelow(n: LodNodeRange, key: VoxelKey, budget: nat)
    requires key.Valid()
  {
    n.key.Valid() && Under(key, n.key) && n.key.level <= MAX_OCTREE_DEPTH && 1 <= n.count <= budget
  }

  ghost predicate DistinctKeys(nodes: seq<LodNodeRange>) {
    forall i, j :: 0 <= i < j < |nodes| ==> nodes[i].key != nodes[j].key
  }

  /** Every node with another node strictly below it is full. */
  ghost predicate InteriorFull(nodes: seq<LodNodeRange>, budget: nat) {
    forall n, m ::
      n in nodes && m in nodes && n.key.Valid() && m.key.Valid() && n.key != m.key && Under(n.key, m.key)
      ==> n.count == budget
  }

  /** Distinct valid keys of the subtree, closed under parent, interior nodes full. */
  ghost predicate TreeShape(nodes: seq<LodNodeRange>, key: VoxelKey, budget: nat)
    requires key.Valid()
  {
    && (forall n :: n in nodes ==> NodeBelow(n, key, budget))
    && DistinctKeys(nodes)
    && (forall n :: n in nodes && n.key != key ==> n.key.level > 0 && HasNode(nodes, Parent(n.key)))
    && InteriorFull(nodes, budget)
  }

  /** The nodes strictly below `key` in octants before `upto`. */
  ghost predicate KidsShape(kids: seq<LodNodeRange>, key: VoxelKey, upto: nat, budget: nat)
    requires key.Valid()
  {
    && (forall n :: n in kids ==> NodeBelow(n, key, budget) && n.key.level > key.level && OctantOf(key, n.key) < upto)
    && DistinctKeys(kids)
    && (forall n :: n in kids ==> Parent(n.key) == key || HasNode(kids, Parent(n.key)))
    && InteriorFull(kids, budget)
  }

  lemma BelowChild(key: VoxelKey, o: nat, k: VoxelKey)
    requires key.Valid() && key.Child(o).Ok? && k.Valid() && Under(key.Child(o).value, k)
    ensures Under(key, k) && k.level > key.level && OctantOf(key, k) == o
  {
    ChildIsUnder(key, o);
    UnderTransitive(key, key.Child(o).value, k);
    UnderOneChild(key, k, o);
  }

  lemma SameOctantBelow(key: VoxelKey, a: VoxelKey, b: VoxelKey)
    requires key.Valid() && a.Valid() && b.Valid() && key.level <= 30
    requires Under(key, a) && a.level > key.level && Under(a, b)
    ensures Under(key, b) && b.level > key.level && OctantOf(key, b) == OctantOf(key, a)
  {
    var o := OctantOf(key, a);
    ChildExists(key, o);
    UnderOneChild(key, a, o);
    UnderTransitive(key.Child(o).value, a, b);
    BelowChild(key, o, b);
  }

  lemma KidsDistinct(kids: seq<LodNodeRange>, sub: seq<LodNodeRange>, key: VoxelKey, o: nat)
    requires key.Valid() && DistinctKeys(kids) && DistinctKeys(sub)
    requires forall n :: n in kids || n in sub ==> n.key.Valid() && Under(key, n.key) && n.key.level > key.level
    requires (forall n :: n in kids ==> OctantOf(key, n.key) < o) && forall n :: n in sub ==> OctantOf(key, n.key) == o
    ensures DistinctKeys(kids + sub)
  {
    hide Under, OctantOf, VoxelKey.Valid;
    var all := kids + sub;
    forall i, j | 0 <= i < j < |all| ensures all[i].key != all[j].key {
      if i < |kids| <= j {
        assert all[i] in kids && all[j] in sub;
      }
    }
  }

  /** Adding one child's subtree to the earlier octants' nodes keeps their shape. */
  lemma AddChild(kids: seq<LodNodeRange>, sub: seq<LodNodeRange>, key: VoxelKey, o: nat, budget: nat)
    requires key.Valid() && key.level < MAX_OCTREE_DEPTH && key.Child(o).Ok? && o < 8
    requires KidsShape(kids, key, o, budget) && TreeShape(sub, key.Child(o).value, budget)
    ensures KidsShape(kids + sub, key, o + 1, budget)
  {
    var child := key.Child(o).value;
    var all := kids + sub;
    forall n | n in sub
      ensures NodeBelow(n, key, budget) && n.key.level > key.level && OctantOf(key, n.key) == o
    {
      BelowChild(key, o, n.key);
    }
    KidsDistinct(kids, sub, key, o);
    forall n | n in all ensures Parent(n.key) == key || HasNode(all, Parent(n.key)) {
      if n in kids && Parent(n.key) != key {
        var m :| m in kids && m.key == Parent(n.key);
        assert m in all;
      } else if n in sub {
        if n.key == child {
          ChildIsUnder(key, o);
        } else {
          var m :| m in sub && m.key == Parent(n.key);
          assert m in all;
        }
      }
    }
    forall n, m | n in all && m in all && n.key != m.key && Under(n.key, m.key) ensures n.count == budget {
      SameOctantBelow(key, n.key, m.key);
      assert n in kids <==> OctantOf(key, n.key) < o;
      assert m in kids <==> OctantOf(key, m.key) < o;
    }
  }

  lemma UnderLevels(a: VoxelKey, b: VoxelKey)
    requires a.Valid() && b.Valid() && Under(a, b)
    ensures a.level <= b.level
  {
  }

  lemma FinishParents(root: LodNodeRange, kids: seq<LodNodeRange>, budget: nat)
    requires root.key.Valid() && KidsShape(kids, root.key, 8, budget)
    ensures forall n :: n in [root] + kids && n.key != root.key ==> n.key.level > 0 && HasNode([root] + kids, Parent(n.key))
  {
    hide Under, OctantOf, InteriorFull, DistinctKeys;
    var all := [root] + kids;
    forall n | n in all && n.key != root.key ensures n.key.level > 0 && HasNode(all, Parent(n.key)) {
      assert n in kids;
      if Parent(n.key) == root.key {
        assert root in all;
      } else {
        var m :| m in kids && m.key == Parent(n.key);
        assert m in all;
      }
    }
  }

  lemma FinishFull(root: LodNodeRange, kids: seq<LodNodeRange>, budget: nat)
    requires root.key.Valid() && root.count == budget && KidsShape(kids, root.key, 8, budget)
    ensures InteriorFull([root] + kids, budget)
  {
    hide Under, OctantOf, DistinctKeys, HasNode, VoxelKey.Valid;
    var all := [root] + kids;
    forall n, m | n in all && m in all && n.key.Valid() && m.key.Valid() && n.key != m.key && Under(n.key, m.key)
      ensures n.count == budget
    {
      UnderLevels(n.key, m.key);
      if n in kids {
        assert NodeBelow(n, root.key, budget) && n.key.level > root.key.level;
        assert m in kids;
      }
    }
  }

  /** A full node over its children's subtrees is a tree. */
  lemma FinishTree(root: LodNodeRange, kids: seq<LodNodeRange>, budget: nat)
    requires root.key.Valid() && root.key.level < MAX_OCTREE_DEPTH && 1 <= root.count == budget
    requires KidsShape(kids, root.key, 8, budget)
    ensures TreeShape([root] + kids, root.key, budget)
  {
    hide Under, OctantOf, InteriorFull, HasNode, VoxelKey.Valid;
    UnderReflexive(root.key);
    FinishParents(root, kids, budget);
    FinishFull(root, kids, budget);
    assert forall n :: n in [root] + kids ==> n == root || n in kids;
  }

  lemma LeafTree(leaf: LodNodeRange, budget: nat)
    requires leaf.key.Valid() && leaf.key.level <= MAX_OCTREE_DEPTH && 1 <= leaf.count <= budget
    ensures TreeShape([leaf], leaf.key, budget)
  {
    UnderReflexive(leaf.key);
  }

  // Containment -------------------------------------------------------------

  /** Every point a node lists lies in the node's voxel. */
  ghost predicate Contained(source: seq<Vec3>, order: seq<nat>, nodes: seq<LodNodeRange>, center: Vec3, halfsize: real) {
    forall n, p :: n in nodes && Covers(n, p) ==>
      && 0 <= p < |order| && order[p] < |source| && n.key.Valid()
      && VoxelBounds(n.key, center, halfsize).Contains(source[order[p]])
  }

  ghost predicate AllInside(source: seq<Vec3>, run: seq<nat>, box: Box)
    requires InSource(source, run)
  {
    forall i :: i in run ==> i < |source| && box.Contains(source[i])
  }

  lemma LeftoverInside(source: seq<Vec3>, run: seq<nat>, box: Box, o: nat, budget: nat)
    requires InSource(source, run) && o < 8 && AllInside(source, run, box)
    ensures AllInside(source, Leftover(source, run, box.Center(), o, budget), box.Octant(o))
  {
    var left := Leftover(source, run, box.Center(), o, budget);
    LeftoverMembers(source, run, box.Center(), o, budget);
    forall i | i in left ensures i < |source| && box.Octant(o).Contains(source[i]) {
      OctantHoldsPoint(box, source[i]);
    }
  }

  lemma ContainedGrows(source: seq<Vec3>, order: seq<nat>, longer: seq<nat>, nodes: seq<LodNodeRange>, center: Vec3, halfsize: real)
    requires Contained(source, order, nodes, center, halfsize) && order <= longer
    ensures Contained(source, longer, nodes, center, halfsize)
  {
  }

  lemma ContainedAppend(source: seq<Vec3>, order: seq<nat>, a: seq<LodNodeRange>, b: seq<LodNodeRange>, center: Vec3, halfsize: real)
    requires Contained(source, order, a, center, halfsize) && Contained(source, order, b, center, halfsize)
    ensures Contained(source, order, a + b, center, halfsize)
  {
  }

  // Assembling a subtree ----------------------------------------------------

  /** What assigning a run to the subtree of `key` appended to the order file and the node list. */
  ghost predicate Built(order: seq<nat>, base: nat, nodes: seq<LodNodeRange>, key: VoxelKey, run: seq<nat>, budget: nat)
    requires key.Valid()
  {
    && base <= |order|
    && multiset(order[base..]) == multiset(run)
    && Tiles(nodes, INDEX_RECORD_BYTES * base, INDEX_RECORD_BYTES * |order|)
    && TreeShape(nodes, key, budget)
    && (run != [] ==> HasNode(nodes, key))
  }

  /** The same after the node's own points `dealt` and the leftovers of the octants before `upto`. */
  ghost predicate KidsBuilt(order: seq<nat>, base: nat, dealt: seq<nat>, kids: seq<LodNodeRange>,
    key: VoxelKey, lefts: seq<seq<nat>>, upto: nat, budget: nat)
    requires key.Valid()
  {
    && base + |dealt| <= |order| && upto <= |lefts|
    && order[base..base + |dealt|] == dealt
    && multiset(order[base..]) == multiset(dealt) + Union(lefts[..upto])
    && Tiles(kids, INDEX_RECORD_BYTES * (base + |dealt|), INDEX_RECORD_BYTES * |order|)
    && KidsShape(kids, key, upto, budget)
  }

  lemma KidsBegin(order: seq<nat>, base: nat, dealt: seq<nat>, key: VoxelKey, lefts: seq<seq<nat>>, budget: nat)
    requires key.Valid() && base <= |order| && order[base..] == dealt
    ensures KidsBuilt(order, base, dealt, [], key, lefts, 0, budget)
  {
    assert Union(lefts[..0]) == multiset{};
  }

  lemma KidsSkip(order: seq<nat>, base: nat, dealt: seq<nat>, kids: seq<LodNodeRange>,
    key: VoxelKey, lefts: seq<seq<nat>>, o: nat, budget: nat)
    requires key.Valid() && KidsBuilt(order, base, dealt, kids, key, lefts, o, budget)
    requires o < |lefts| && lefts[o] == []
    ensures KidsBuilt(order, base, dealt, kids, key, lefts, o + 1, budget)
  {
    UnionPrefix(lefts, o);
  }

  lemma KidsAdd(before: seq<nat>, order: seq<nat>, base: nat, dealt: seq<nat>, kids: seq<LodNodeRange>, sub: seq<LodNodeRange>,
    key: VoxelKey, lefts: seq<seq<nat>>, o: nat, budget: nat)
    requires key.Valid() && key.level < MAX_OCTREE_DEPTH && o < 8 && o < |lefts| && key.Child(o).Ok?
    requires KidsBuilt(before, base, dealt, kids, key, lefts, o, budget)
    requires before <= order && Built(order, |before|, sub, key.Child(o).value, lefts[o], budget)
    ensures KidsBuilt(order, base, dealt, kids + sub, key, lefts, o + 1, budget)
  {
    hide KidsShape, TreeShape, Tiles, Union;
    AddChild(kids, sub, key, o, budget);
    UnionPrefix(lefts, o);
    assert order[base..] == before[base..] + order[|before|..];
    TilesAppend(kids, sub, INDEX_RECORD_BYTES * (base + |dealt|), INDEX_RECORD_BYTES * |before|, INDEX_RECORD_BYTES * |order|);
  }

  lemma KidsFinish(order: seq<nat>, base: nat, root: LodNodeRange, kids: seq<LodNodeRange>,
    source: seq<Vec3>, run: seq<nat>, center: Vec3, budget: nat)
    requires InSource(source, run) && 1 <= budget < |run|
    requires root.key.Valid() && root.key.level < MAX_OCTREE_DEPTH
    requires root.start == INDEX_RECORD_BYTES * base && root.count == budget
    requires var parts := Parts(source, run, center); var d := Deal(parts, budget);
      KidsBuilt(order, base, d.order, kids, root.key, Tails(parts, d.taken), 8, budget)
    ensures Built(order, base, [root] + kids, root.key, run, budget)
  {
    hide KidsShape, TreeShape, Deal, Union, Parts, Heads, Tails;
    var parts := Parts(source, run, center);
    var d := Deal(parts, budget);
    var lefts := Tails(parts, d.taken);
    DealConserves(parts, budget);
    DealIsFair(parts, budget);
    PartSizes(source, run, center);
    PartsConserve(source, run, center);
    UnionSplits(parts, d.taken);
    assert lefts[..8] == lefts;
    FinishTree(root, kids, budget);
    var all := [root] + kids;
    assert all[1..] == kids && all[0] == root;
    assert root in all;
  }

  /** Every octant's leftover fits beside what has been appended before it. */
  lemma LeftoverFits(order: seq<nat>, base: nat, dealt: seq<nat>, kids: seq<LodNodeRange>,
    key: VoxelKey, source: seq<Vec3>, run: seq<nat>, center: Vec3, o: nat, budget: nat)
    requires InSource(source, run) && o < 8 && key.Valid()
    requires var parts := Parts(source, run, center); var d := Deal(parts, budget);
      dealt == d.order && KidsBuilt(order, base, dealt, kids, key, Tails(parts, d.taken), o, budget)
    ensures |order| + |Leftover(source, run, center, o, budget)| <= base + |run|
  {
    hide KidsShape, Deal, Union, Parts, Heads, Tiles;
    var parts := Parts(source, run, center);
    var d := Deal(parts, budget);
    var lefts := Tails(parts, d.taken);
    DealConserves(parts, budget);
    PartsConserve(source, run, center);
    UnionSplits(parts, d.taken);
    UnionPrefix(lefts, o);
    var used := multiset(order[base..]) + multiset(lefts[o]);
    assert used == multiset(dealt) + Union(lefts[..o + 1]);
    assert used <= multiset(run);
    assert |multiset(run)| == |used| + |multiset(run) - used| by {
      assert multiset(run) == used + (multiset(run) - used);
    }
    assert |used| == |order[base..]| + |lefts[o]|;
  }

  /** The points dealt to a node come from its run. */
  lemma DealtFromRun(source: seq<Vec3>, run: seq<nat>, center: Vec3, budget: nat)
    requires InSource(source, run)
    ensures forall i :: i in Deal(Parts(source, run, center), budget).order ==> i in run
  {
    hide Deal, Union, Heads, Parts;
    var parts := Parts(source, run, center);
    var d := Deal(parts, budget);
    DealConserves(parts, budget);
    PartsConserve(source, run, center);
    UnionSplits(parts, d.taken);
    forall i | i in d.order ensures i in run {
      assert i in multiset(d.order);
      assert i in multiset(run);
    }
  }

  /** A node whose slots hold points of its box is contained. */
  lemma NodeContained(source: seq<Vec3>, order: seq<nat>, n: LodNodeRange, base: nat, points: seq<nat>, center: Vec3, halfsize: real)
    requires n.key.Valid() && n.start == INDEX_RECORD_BYTES * base && n.count == |points|
    requires base + |points| <= |order| && order[base..base + |points|] == points
    requires InSource(source, points) && AllInside(source, points, VoxelBounds(n.key, center, halfsize))
    ensures Contained(source, order, [n], center, halfsize)
  {
    forall p | Covers(n, p)
      ensures 0 <= p < |order| && order[p] in points
    {
      assert order[p] == points[p - base];
    }
  }

  lemma EmptyBuilt(order: seq<nat>, key: VoxelKey, budget: nat)
    requires key.Valid()
    ensures Built(order, |order|, [], key, [], budget)
  {
  }

  lemma LeafBuilt(order: seq<nat>, base: nat, leaf: LodNodeRange, run: seq<nat>, budget: nat)
    requires leaf.key.Valid() && leaf.key.level <= MAX_OCTREE_DEPTH && 1 <= |run| <= budget
    requires base <= |order| && order[base..] == run
    requires leaf.start == INDEX_RECORD_BYTES * base && leaf.count == |run|
    ensures Built(order, base, [leaf], leaf.key, run, budget)
  {
    LeafTree(leaf, budget);
    assert [leaf][1..] == [] && leaf in [leaf];
  }

  lemma NodeIsFull(source: seq<Vec3>, run: seq<nat>, center: Vec3, budget: nat)
    requires InSource(source, run) && budget < |run|
    ensures var d := Deal(Parts(source, run, center), budget); Sum(d.taken) == |d.order| == budget
  {
    PartSizes(source, run, center);
    DealIsFair(Parts(source, run, center), budget);
  }

  lemma OverfullInChild(source: seq<Vec3>, run: seq<nat>, box: Box, level: nat, budget: nat, o: nat)
    requires InSource(source, run) && |run| > budget && level < MAX_OCTREE_DEPTH && o < 8
    requires Overfull(source, Leftover(source, run, box.Center(), o, budget), box.Octant(o), level + 1, budget)
    ensures Overfull(source, run, box, level, budget)
  {
    hide Leftover;
  }

  lemma OverfullInNoChild(source: seq<Vec3>, run: seq<nat>, box: Box, level: nat, budget: nat)
    requires InSource(source, run) && level < MAX_OCTREE_DEPTH
    requires forall o: nat :: o < 8 ==>
      !Overfull(source, Leftover(source, run, box.Center(), o, budget), box.Octant(o), level + 1, budget)
    ensures !Overfull(source, run, box, level, budget)
  {
    hide Leftover;
  }

  lemma SmallRunFits(source: seq<Vec3>, run: seq<nat>, box: Box, level: nat, budget: nat)
    requires InSource(source, run)
    ensures |run| <= budget ==> !Overfull(source, run, box, level, budget)
  {
  }

  lemma OverfullAtLimit(source: seq<Vec3>, run: seq<nat>, box: Box, level: nat, budget: nat)
    requires InSource(source, run) && |run| > budget && level >= MAX_OCTREE_DEPTH
    ensures Overfull(source, run, box, level, budget)
  {
  }

  lemma NothingContained(source: seq<Vec3>, order: seq<nat>, center: Vec3, halfsize: real)
    ensures Contained(source, order, [], center, halfsize)
  {
  }

  // One split node ----------------------------------------------------------

  /** A node that keeps a selection of its run and hands the leftovers to its children. */
  datatype Split = Split(source: seq<Vec3>, run: seq<nat>, key: VoxelKey, box: Box, budget: nat,
                         base: nat, center: Vec3, halfsize: real)
  {
    ghost predicate Valid() {
      && InSource(source, run) && key.Valid() && key.level < MAX_OCTREE_DEPTH && 1 <= budget < |run|
    }

    ghost function SplitParts(): (parts: seq<seq<nat>>)
      requires Valid()
      ensures |parts| == 8
    {
      Parts(source, run, box.Center())
    }

    ghost function Dealing(): Dealt
      requires Valid()
    {
      Deal(SplitParts(), budget)
    }

    ghost function Left(o: nat): (left: seq<nat>)
      requires Valid() && o < 8
      ensures InSource(source, left)
    {
      Leftover(source, run, box.Center(), o, budget)
    }

    ghost predicate Aligned()
      requires Valid()
    {
      box == VoxelBounds(key, center, halfsize) && AllInside(source, run, box)
    }

    ghost predicate ChildOverfull(o: nat)
      requires Valid() && o < 8
    {
      Overfull(source, Left(o), box.Octant(o), key.level + 1, budget)
    }

    /** The node's own points and the subtrees of the octants before `upto` are in place. */
    ghost predicate Progress(order: seq<nat>, kids: seq<LodNodeRange>, upto: nat)
      requires Valid() && upto <= 8
    {
      && KidsBuilt(order, base, Dealing().order, kids, key, Tails(SplitParts(), Dealing().taken), upto, budget)
      && (forall o: nat :: o < upto ==> !ChildOverfull(o))
      && (Aligned() ==> Contained(source, order, kids, center, halfsize))
    }

    lemma Begin(order: seq<nat>)
      requires Valid() && base <= |order| && order[base..] == Dealing().order
      ensures Progress(order, [], 0)
    {
      KidsBegin(order, base, Dealing().order, key, Tails(SplitParts(), Dealing().taken), budget);
    }

    /** What an octant passes on: the part's suffix, small enough, and inside the octant's box. */
    lemma ChildReady(order: seq<nat>, kids: seq<LodNodeRange>, o: nat)
      requires Valid() && o < 8 && Progress(order, kids, o)
      ensures Taking(SplitParts(), Dealing().taken)
      ensures Left(o) == SplitParts()[o][Dealing().taken[o]..]
      ensures |order| + |Left(o)| <= base + |run|
      ensures |Left(o)| < |run|
      ensures key.Child(o).Ok?
      ensures Aligned() ==> box.Octant(o) == VoxelBounds(key.Child(o).value, center, halfsize)
      ensures Aligned() ==> AllInside(source, Left(o), box.Octant(o))
    {
      hide KidsShape, Tiles, Deal, Union, Parts, Overfull, Contained;
      LeftoverFits(order, base, Dealing().order, kids, key, source, run, box.Center(), o, budget);
      LeftoverShrinks(source, run, box.Center(), o, budget);
      ChildExists(key, o);
      if Aligned() {
        OctantIsChildVoxel(key, o, center, halfsize);
        LeftoverInside(source, run, box, o, budget);
      }
    }

    lemma ChildEmpty(order: seq<nat>, kids: seq<LodNodeRange>, o: nat)
      requires Valid() && o < 8 && Progress(order, kids, o) && Left(o) == []
      ensures Progress(order, kids, o + 1)
    {
      hide KidsShape, Tiles, Deal, Union, Parts, Contained, KidsBuilt;
      SmallRunFits(source, Left(o), box.Octant(o), key.level + 1, budget);
      KidsSkip(order, base, Dealing().order, kids, key, Tails(SplitParts(), Dealing().taken), o, budget);
    }

    lemma ChildDone(before: seq<nat>, order: seq<nat>, kids: seq<LodNodeRange>, sub: seq<LodNodeRange>, o: nat)
      requires Valid() && o < 8 && key.Child(o).Ok? && Progress(before, kids, o)
      requires before <= order && Built(order, |before|, sub, key.Child(o).value, Left(o), budget)
      requires !ChildOverfull(o)
      requires Aligned() ==> Contained(source, order, sub, center, halfsize)
      ensures Progress(order, kids + sub, o + 1)
    {
      hide KidsShape, Tiles, Deal, Union, Parts, Overfull, Contained, KidsBuilt, Built;
      KidsAdd(before, order, base, Dealing().order, kids, sub, key, Tails(SplitParts(), Dealing().taken), o, budget);
      if Aligned() {
        ContainedGrows(source, before, order, kids, center, halfsize);
        ContainedAppend(source, order, kids, sub, center, halfsize);
      }
    }

    lemma Finish(order: seq<nat>, root: LodNodeRange, kids: seq<LodNodeRange>)
      requires Valid() && Progress(order, kids, 8)
      requires root == LodNodeRange(key, INDEX_RECORD_BYTES * base, budget)
      ensures Built(order, base, [root] + kids, key, run, budget)
      ensures !Overfull(source, run, box, key.level, budget)
      ensures Aligned() ==> Contained(source, order, [root] + kids, center, halfsize)
    {
      hide KidsShape, Tiles, Deal, Union, Parts, Overfull, Contained;
      KidsFinish(order, base, root, kids, source, run, box.Center(), budget);
      forall o: nat | o < 8
        ensures !Overfull(source, Leftover(source, run, box.Center(), o, budget), box.Octant(o), key.level + 1, budget)
      {
        assert !ChildOverfull(o);
      }
      OverfullInNoChild(source, run, box, key.level, budget);
      if Aligned() {
        NodeIsFull(source, run, box.Center(), budget);
        DealtFromRun(source, run, box.Center(), budget);
        RootContained(source, order, root, base, Dealing().order, run, box, kids, center, halfsize);
      }
    }
  }

  lemma RootContained(source: seq<Vec3>, order: seq<nat>, root: LodNodeRange, base: nat, dealt: seq<nat>, run: seq<nat>,
    box: Box, kids: seq<LodNodeRange>, center: Vec3, halfsize: real)
    requires root.key.Valid() && root.start == INDEX_RECORD_BYTES * base && root.count == |dealt|
    requires base + |dealt| <= |order| && order[base..base + |dealt|] == dealt
    requires InSource(source, run) && AllInside(source, run, box) && box == VoxelBounds(root.key, center, halfsize)
    requires forall i :: i in dealt ==> i in run
    requires Contained(source, order, kids, center, halfsize)
    ensures Contained(source, order, [root] + kids, center, halfsize)
  {
    forall i | 0 <= i < |dealt| ensures dealt[i] < |source| {
      assert dealt[i] in dealt;
    }
    NodeContained(source, order, root, base, dealt, center, halfsize);
    ContainedAppend(source, order, [root], kids, center, halfsize);
  }
}
