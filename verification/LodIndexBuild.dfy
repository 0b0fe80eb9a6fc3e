/** Building the whole level-of-detail index, and when it must fail (copc-writer/src/lod.rs). */
module LodIndexBuild {
  import opened Core
  import opened Voxel
  import opened Bounds
  import opened Sorting
  import opened Dealing
  import opened LodShape
  import opened LodExact
  import opened Lod

  datatype LodIndex = LodIndex(nodes: seq<LodNodeRange>, order: seq<nat>)

  function Iota(n: nat): (s: seq<nat>)
    ensures |s| == n && forall i :: 0 <= i < n ==> s[i] == i
  {
    if n == 0 then [] else Iota(n - 1) + [n - 1]
  }

  ghost predicate SlotCovered(nodes: seq<LodNodeRange>, p: int) {
    exists m :: m in nodes && Covers(m, p)
  }

  /** Each record slot below `n` is covered by exactly one node. */
  ghost predicate CoveredOnce(nodes: seq<LodNodeRange>, n: nat) {
    && (forall m :: m in nodes ==>
         m.start % INDEX_RECORD_BYTES == 0 && m.start + INDEX_RECORD_BYTES * m.count <= INDEX_RECORD_BYTES * n)
    && (forall p :: 0 <= p < n ==> SlotCovered(nodes, p))
    && (forall m, k, p :: m in nodes && k in nodes && Covers(m, p) && Covers(k, p) ==> m == k)
  }

  predicate SortedByKey(nodes: seq<LodNodeRange>) {
    forall i, j :: 0 <= i < j < |nodes| ==> KeyLess(nodes[i].key, nodes[j].key)
  }

  /** What a successful build promises about the index of a source. */
  ghost predicate IndexOf(index: LodIndex, source: seq<Vec3>, center: Vec3, halfsize: real, budget: nat) {
    && multiset(index.order) == multiset(Iota(|source|))
    && SortedByKey(index.nodes)
    && ROOT.Valid() && TreeShape(index.nodes, ROOT, budget)
    && CoveredOnce(index.nodes, |source|)
    && Sum(Counts(index.nodes)) == |source|
    && (AllInside(source, Iota(|source|), Cube(center, halfsize)) ==>
          Contained(source, index.order, index.nodes, center, halfsize))
  }

  /** Node `n` lists point `i` at slot `p` of the order file. */
  ghost predicate PointAt(index: LodIndex, n: LodNodeRange, p: int, i: nat) {
    n in index.nodes && Covers(n, p) && 0 <= p < |index.order| && index.order[p] == i
  }

  /** Conservation: every source point is in exactly one slot of exactly one node. */
  lemma EveryPointInOneNode(index: LodIndex, source: seq<Vec3>, center: Vec3, halfsize: real, budget: nat, i: nat)
    requires IndexOf(index, source, center, halfsize, budget) && i < |source|
    ensures exists n, p :: PointAt(index, n, p, i)
    ensures forall n, p, m, q :: PointAt(index, n, p, i) && PointAt(index, m, q, i) ==> n == m && p == q
  {
    hide TreeShape, Contained, Sum;
    var all := Iota(|source|);
    PermutationMembers(index.order, all);
    assert all[i] in all && i in index.order;
    var p :| 0 <= p < |index.order| && index.order[p] == i;
    assert SlotCovered(index.nodes, p);
    var n :| n in index.nodes && Covers(n, p);
    assert PointAt(index, n, p, i);
    forall n, p, m, q | PointAt(index, n, p, i) && PointAt(index, m, q, i) ensures n == m && p == q {
      SlotUnique(index.order, |source|, p, q);
    }
  }

  lemma SlotUnique(order: seq<nat>, n: nat, p: nat, q: nat)
    requires multiset(order) == multiset(Iota(n))
    requires p < |order| && q < |order| && order[p] == order[q]
    ensures p == q
  {
    if p != q {
      TwiceInMultiset(order, if p < q then p else q, if p < q then q else p);
      var i, j := MultisetTwice(Iota(n), order[p]);
    }
  }

  /** The node comes first: by level, then x, then y, then z. */
  ghost predicate Before(a: LodNodeRange, b: LodNodeRange) {
    || a.key.level < b.key.level
    || (a.key.level == b.key.level && a.key.x < b.key.x)
    || (a.key.level == b.key.level && a.key.x == b.key.x && a.key.y < b.key.y)
    || (a.key.level == b.key.level && a.key.x == b.key.x && a.key.y == b.key.y && a.key.z < b.key.z)
  }

  /** The nodes of an index in plain numbers. */
  lemma IndexInNumbers(index: LodIndex, source: seq<Vec3>, center: Vec3, halfsize: real, budget: nat)
    requires IndexOf(index, source, center, halfsize, budget)
    ensures forall i, j :: 0 <= i < j < |index.nodes| ==> Before(index.nodes[i], index.nodes[j])
    ensures forall n :: n in index.nodes ==>
      0 <= n.key.level <= 30 && 1 <= n.count <= budget && n.start % 4 == 0 && n.start + 4 * n.count <= 4 * |source|
  {
    hide Contained, AllInside, Sum, Iota;
  }

  // Sorting the nodes keeps what was proved of them -------------------------

  lemma DistinctPermute(a: seq<LodNodeRange>, b: seq<LodNodeRange>)
    requires multiset(a) == multiset(b) && DistinctKeys(a)
    ensures DistinctKeys(b)
  {
    forall i, j | 0 <= i < j < |b| ensures b[i].key != b[j].key {
      if b[i] == b[j] {
        TwiceInMultiset(b, i, j);
        var p, q := MultisetTwice(a, b[i]);
      } else {
        PermutationMembers(a, b);
        assert b[i] in b && b[j] in b;
        var p :| 0 <= p < |a| && a[p] == b[i];
        var q :| 0 <= q < |a| && a[q] == b[j];
        assert p != q;
      }
    }
  }

  lemma TreePermute(a: seq<LodNodeRange>, b: seq<LodNodeRange>, budget: nat)
    requires multiset(a) == multiset(b)
    requires ROOT.Valid() && TreeShape(a, ROOT, budget)
    ensures TreeShape(b, ROOT, budget)
  {
    PermutationMembers(a, b);
    DistinctPermute(a, b);
    forall n | n in b && n.key != ROOT ensures n.key.level > 0 && HasNode(b, Parent(n.key)) {
      var m :| m in a && m.key == Parent(n.key);
      assert m in b;
    }
  }

  lemma {:induction false} TilesAligned(nodes: seq<LodNodeRange>, lo: nat, hi: nat)
    requires Tiles(nodes, lo, hi) && lo % INDEX_RECORD_BYTES == 0
    ensures forall n :: n in nodes ==> n.start % INDEX_RECORD_BYTES == 0
    ensures hi == lo + INDEX_RECORD_BYTES * Sum(Counts(nodes))
  {
    if nodes != [] {
      hide Sum, Counts;
      TilesAligned(nodes[1..], lo + INDEX_RECORD_BYTES * nodes[0].count, hi);
      CountsFront(nodes);
    } else {
      assert Counts(nodes) == [];
    }
  }

  lemma CountsFront(nodes: seq<LodNodeRange>)
    requires nodes != []
    ensures Sum(Counts(nodes)) == nodes[0].count + Sum(Counts(nodes[1..]))
  {
    assert Counts(nodes) == [nodes[0].count] + Counts(nodes[1..]);
    SumAppend([nodes[0].count], Counts(nodes[1..]));
    assert Sum([nodes[0].count]) == Sum([]) + nodes[0].count;
  }

  lemma CoveredPermute(a: seq<LodNodeRange>, b: seq<LodNodeRange>, n: nat)
    requires multiset(a) == multiset(b) && Tiles(a, 0, INDEX_RECORD_BYTES * n)
    ensures CoveredOnce(b, n)
  {
    PermutationMembers(a, b);
    TilesCoverOnce(a, 0, INDEX_RECORD_BYTES * n);
    TilesAligned(a, 0, INDEX_RECORD_BYTES * n);
    forall p | 0 <= p < n ensures SlotCovered(b, p) {
      var i :| 0 <= i < |a| && Covers(a[i], p);
      assert a[i] in b;
    }
    forall m, k, p | m in b && k in b && Covers(m, p) && Covers(k, p) ensures m == k {
      var i :| 0 <= i < |a| && a[i] == m;
      var j :| 0 <= j < |a| && a[j] == k;
    }
  }

  lemma CountsInsert(a: seq<LodNodeRange>, x: LodNodeRange, b: seq<LodNodeRange>)
    ensures Sum(Counts(a + [x] + b)) == Sum(Counts(a + b)) + x.count
  {
    assert Counts(a + b) == Counts(a) + Counts(b);
    assert Counts(a + [x] + b) == Counts(a) + ([x.count] + Counts(b));
    SumAppend(Counts(a), Counts(b));
    SumAppend(Counts(a), [x.count] + Counts(b));
    SumAppend([x.count], Counts(b));
    assert Sum([x.count]) == Sum([]) + x.count;
  }

  lemma {:induction false} CountsPermute(a: seq<LodNodeRange>, b: seq<LodNodeRange>)
    requires multiset(a) == multiset(b)
    ensures Sum(Counts(a)) == Sum(Counts(b))
  {
    hide Sum, Counts;
    PermutationMembers(a, b);
    if a == [] {
      assert a == b;
    } else {
      var n := |a| - 1;
      var i := DropFromPermutation(a, b);
      CountsPermute(a[..n], b[..i] + b[i + 1..]);
      CountsInsert(a[..n], a[n], []);
      assert a[..n] + [] == a[..n] && a[..n] + [a[n]] + [] == a;
      CountsInsert(b[..i], a[n], b[i + 1..]);
      assert b[..i] + [a[n]] + b[i + 1..] == b;
    }
  }

  predicate NodeLess(a: LodNodeRange, b: LodNodeRange) {
    KeyLess(a.key, b.key)
  }

  lemma NodeLessIsOrder()
    ensures StrictWeakOrder(NodeLess)
  {
  }

  lemma SortedStrictly(nodes: seq<LodNodeRange>)
    requires Sorted(NodeLess, nodes) && DistinctKeys(nodes)
    ensures SortedByKey(nodes)
  {
    forall i, j | 0 <= i < j < |nodes| ensures KeyLess(nodes[i].key, nodes[j].key) {
      KeyLessTotal(nodes[i].key, nodes[j].key);
      assert !NodeLess(nodes[j], nodes[i]);
    }
  }

  method BuildLodIndex(source: seq<Vec3>, center: Vec3, halfsize: real, maxPointsPerNode: uint32)
    returns (r: Result<LodIndex>)
    ensures r.Ok? <==>
      && |source| <= 4294967295 && maxPointsPerNode > 0
      && !Overfull(source, Iota(|source|), Cube(center, halfsize), 0, maxPointsPerNode)
    ensures r.Ok? ==> IndexOf(r.value, source, center, halfsize, maxPointsPerNode)
    ensures r.Ok? ==> r.value.order == LodOrder(source, Iota(|source|), Cube(center, halfsize), 0, maxPointsPerNode)
    ensures ROOT.Valid()
    ensures r.Ok? ==>
      multiset(r.value.nodes) == multiset(LodNodes(source, Iota(|source|), ROOT, Cube(center, halfsize), maxPointsPerNode, 0))
  {
    hide TreeShape, Overfull, Contained, Sort, Tiles, IndexOf, AllInside, LodOrder, LodNodes;
    if |source| > UINT32_MAX {
      return Err(InvalidInput);
    }
    if maxPointsPerNode == 0 {
      return Err(InvalidInput);
    }
    var builder := new LodIndexBuilder(source, maxPointsPerNode);
    var rootRun := IndexRun(Iota(|source|), 0, |source|);
    RootVoxelIsCube(center, halfsize);
    assert rootRun.Indices() == Iota(|source|);
    var outcome := builder.Assign(ROOT, rootRun, Cube(center, halfsize), center, halfsize);
    if outcome.Err? {
      return Err(outcome.error);
    }
    var nodes := Sort(NodeLess, builder.nodes);
    var order := builder.order;
    assert builder.nodes[0..] == builder.nodes && order[0..] == order;
    assert [] + order == order && [] + builder.nodes == builder.nodes;
    SortedIndex(LodIndex(builder.nodes, order), nodes, source, center, halfsize, maxPointsPerNode);
    return Ok(LodIndex(nodes, order));
  }

  lemma SortedIndex(built: LodIndex, nodes: seq<LodNodeRange>, source: seq<Vec3>, center: Vec3, halfsize: real, budget: nat)
    requires nodes == Sort(NodeLess, built.nodes)
    requires ROOT.Valid() && Built(built.order, 0, built.nodes, ROOT, Iota(|source|), budget)
    requires AllInside(source, Iota(|source|), Cube(center, halfsize)) ==>
      Contained(source, built.order, built.nodes, center, halfsize)
    ensures IndexOf(LodIndex(nodes, built.order), source, center, halfsize, budget)
  {
    hide TreeShape, Sort, Contained, CoveredOnce, Tiles, Sum, Counts, AllInside, SortedByKey, Iota, Cube, VoxelKey.Valid, HasNode;
    assert built.order[0..] == built.order;
    PermutationMembers(built.order, Iota(|source|));
    SortedTree(built.nodes, nodes, budget);
    CoveredPermute(built.nodes, nodes, |source|);
    TilesAligned(built.nodes, 0, INDEX_RECORD_BYTES * |source|);
    CountsPermute(built.nodes, nodes);
    if AllInside(source, Iota(|source|), Cube(center, halfsize)) {
      ContainedPermute(source, built.order, built.nodes, nodes, center, halfsize);
    }
  }

  lemma SortedTree(built: seq<LodNodeRange>, nodes: seq<LodNodeRange>, budget: nat)
    requires nodes == Sort(NodeLess, built)
    requires ROOT.Valid() && TreeShape(built, ROOT, budget)
    ensures multiset(nodes) == multiset(built) && SortedByKey(nodes) && TreeShape(nodes, ROOT, budget)
  {
    hide TreeShape, Sort, KeyLess;
    TreeShapeDistinct(built, budget);
    NodeLessIsOrder();
    SortSorts(NodeLess, built);
    DistinctPermute(built, nodes);
    SortedStrictly(nodes);
    TreePermute(built, nodes, budget);
  }

  lemma TreeShapeDistinct(nodes: seq<LodNodeRange>, budget: nat)
    requires ROOT.Valid() && TreeShape(nodes, ROOT, budget)
    ensures DistinctKeys(nodes)
  {
  }

  lemma ContainedPermute(source: seq<Vec3>, order: seq<nat>, a: seq<LodNodeRange>, b: seq<LodNodeRange>, center: Vec3, halfsize: real)
    requires Contained(source, order, a, center, halfsize) && multiset(a) == multiset(b)
    ensures Contained(source, order, b, center, halfsize)
  {
    PermutationMembers(a, b);
  }

  // When the build must fail ------------------------------------------------

  lemma LeftoverSubset(source: seq<Vec3>, run: seq<nat>, center: Vec3, o: nat, budget: nat)
    requires InSource(source, run) && o < 8
    ensures multiset(Leftover(source, run, center, o, budget)) <= multiset(run)
  {
    hide Deal, Parts, Union, Heads;
    var parts := Parts(source, run, center);
    var d := Deal(parts, budget);
    var lefts := Tails(parts, d.taken);
    UnionPrefix(lefts, o);
    UnionSplits(parts, d.taken);
    PartsConserve(source, run, center);
  }

  /** A voxel at the depth limit holding more points of the run than a node may. */
  ghost predicate CrowdedVoxel(source: seq<Vec3>, run: seq<nat>, voxel: VoxelKey, crowd: seq<nat>,
    center: Vec3, halfsize: real, budget: nat)
    requires InSource(source, run)
  {
    && voxel.Valid() && voxel.level == MAX_OCTREE_DEPTH
    && |crowd| > budget && multiset(crowd) <= multiset(run) && InSource(source, crowd)
    && AllInside(source, crowd, VoxelBounds(voxel, center, halfsize))
  }

  /** The build fails only when one level-30 voxel holds more points than a node may. */
  lemma {:induction false} FailureMeansCrowdedVoxel(source: seq<Vec3>, run: seq<nat>, key: VoxelKey,
    center: Vec3, halfsize: real, budget: nat)
    requires InSource(source, run) && key.Valid() && key.level <= MAX_OCTREE_DEPTH
    requires AllInside(source, run, VoxelBounds(key, center, halfsize))
    requires Overfull(source, run, VoxelBounds(key, center, halfsize), key.level, budget)
    ensures exists voxel, crowd :: CrowdedVoxel(source, run, voxel, crowd, center, halfsize, budget)
    decreases MAX_OCTREE_DEPTH - key.level
  {
    hide Leftover, VoxelBounds, Box.Octant, Box.Center, VoxelKey.Child, Bit;
    var box := VoxelBounds(key, center, halfsize);
    if key.level == MAX_OCTREE_DEPTH {
      assert CrowdedVoxel(source, run, key, run, center, halfsize, budget);
    } else {
      var o: nat :| o < 8 &&
        Overfull(source, Leftover(source, run, box.Center(), o, budget), box.Octant(o), key.level + 1, budget);
      var left := Leftover(source, run, box.Center(), o, budget);
      ChildExists(key, o);
      OctantIsChildVoxel(key, o, center, halfsize);
      LeftoverInside(source, run, box, o, budget);
      LeftoverSubset(source, run, box.Center(), o, budget);
      FailureMeansCrowdedVoxel(source, left, key.Child(o).value, center, halfsize, budget);
      var voxel, crowd :| CrowdedVoxel(source, left, voxel, crowd, center, halfsize, budget);
      assert CrowdedVoxel(source, run, voxel, crowd, center, halfsize, budget);
    }
  }

  /** How many indices of a run sit exactly at one position. */
  ghost function CountAt(source: seq<Vec3>, run: seq<nat>, at: Vec3): (n: nat)
    requires InSource(source, run)
    ensures n <= |run|
  {
    if run == [] then 0
    else CountAt(source, run[..|run| - 1], at) + (if source[run[|run| - 1]] == at then 1 else 0)
  }

  lemma {:induction false} CountAtPart(source: seq<Vec3>, run: seq<nat>, center: Vec3, at: Vec3)
    requires InSource(source, run)
    ensures CountAt(source, Part(source, run, center, ChildOctant(center, at)), at) == CountAt(source, run, at)
  {
    hide CountAt, Part, ChildOctant;
    var o := ChildOctant(center, at);
    PartUnfolds(source, run, center, o);
    CountAtNone(source, at);
    if run != [] {
      var n := |run| - 1;
      CountAtPart(source, run[..n], center, at);
      var rest := Part(source, run[..n], center, o);
      CountAtOne(source, run[..n], run[n], at);
      CountAtOne(source, rest, run[n], at);
      assert run == run[..n] + [run[n]];
    }
  }

  lemma CountAtNone(source: seq<Vec3>, at: Vec3)
    ensures CountAt(source, [], at) == 0
  {
  }

  lemma CountAtOne(source: seq<Vec3>, run: seq<nat>, i: nat, at: Vec3)
    requires InSource(source, run) && i < |source|
    ensures CountAt(source, run + [i], at) == CountAt(source, run, at) + (if source[i] == at then 1 else 0)
  {
    assert (run + [i])[..|run|] == run;
  }

  lemma PartUnfolds(source: seq<Vec3>, run: seq<nat>, center: Vec3, o: nat)
    requires InSource(source, run)
    ensures run == [] ==> Part(source, run, center, o) == []
    ensures run != [] ==> var n := |run| - 1; var rest := Part(source, run[..n], center, o);
      InSource(source, rest) &&
      Part(source, run, center, o) == if ChildOctant(center, source[run[n]]) == o then rest + [run[n]] else rest
  {
    hide ChildOctant;
  }

  lemma {:induction false} CountAtSuffix(source: seq<Vec3>, run: seq<nat>, taken: nat, at: Vec3)
    requires InSource(source, run) && taken <= |run|
    ensures CountAt(source, run[taken..], at) + taken >= CountAt(source, run, at)
    decreases |run|
  {
    if taken < |run| {
      var n := |run| - 1;
      CountAtSuffix(source, run[..n], taken, at);
      assert run[taken..][..n - taken] == run[..n][taken..];
    }
  }

  /** The most points the levels left can absorb wherever they are: a budget each. */
  ghost function Room(level: nat, budget: nat): nat
    requires level <= MAX_OCTREE_DEPTH
  {
    (MAX_OCTREE_DEPTH + 1 - level) * budget
  }

  lemma RoomBelow(level: nat, budget: nat)
    requires level <= MAX_OCTREE_DEPTH
    ensures Room(level, budget) == if level == MAX_OCTREE_DEPTH then budget else Room(level + 1, budget) + budget
    ensures Room(level, budget) >= budget && (budget == 0 ==> Room(level, budget) == 0)
  {
  }

  /** More coincident points than the remaining levels can absorb always fail the build. */
  lemma {:induction false} CoincidentPointsFail(source: seq<Vec3>, run: seq<nat>, box: Box, level: nat, budget: nat, at: Vec3)
    requires InSource(source, run) && level <= MAX_OCTREE_DEPTH
    requires CountAt(source, run, at) > Room(level, budget)
    ensures Overfull(source, run, box, level, budget)
    decreases MAX_OCTREE_DEPTH - level
  {
    hide Leftover, CountAt, Overfull, Room, ChildOctant, Box.Octant, Box.Center;
    RoomBelow(level, budget);
    if level == MAX_OCTREE_DEPTH {
      OverfullAtLimit(source, run, box, level, budget);
    } else {
      var center := box.Center();
      var o := ChildOctant(center, at);
      LeftoverCountAt(source, run, center, budget, at);
      CoincidentPointsFail(source, Leftover(source, run, center, o, budget), box.Octant(o), level + 1, budget, at);
      OverfullInChild(source, run, box, level, budget, o);
    }
  }

  /** A run that the levels left can absorb never fails: every level keeps a full budget of it. */
  lemma {:induction false} SmallRunsSucceed(source: seq<Vec3>, run: seq<nat>, box: Box, level: nat, budget: nat)
    requires InSource(source, run) && level <= MAX_OCTREE_DEPTH
    requires |run| <= Room(level, budget)
    ensures !Overfull(source, run, box, level, budget)
    decreases MAX_OCTREE_DEPTH - level
  {
    hide Leftover, Overfull, Room, Box.Octant, Box.Center;
    RoomBelow(level, budget);
    if |run| <= budget {
      SmallRunFits(source, run, box, level, budget);
    } else {
      var center := box.Center();
      forall o: nat | o < 8 ensures !Overfull(source, Leftover(source, run, center, o, budget), box.Octant(o), level + 1, budget) {
        LeftoverShrinks(source, run, center, o, budget);
        SmallRunsSucceed(source, Leftover(source, run, center, o, budget), box.Octant(o), level + 1, budget);
      }
      OverfullInNoChild(source, run, box, level, budget);
    }
  }

  lemma {:induction false} CountAtAll(source: seq<Vec3>, run: seq<nat>, at: Vec3)
    requires InSource(source, run) && forall i :: 0 <= i < |run| ==> source[run[i]] == at
    ensures CountAt(source, run, at) == |run|
  {
    if run != [] {
      CountAtAll(source, run[..|run| - 1], at);
    }
  }

  /** A run of coincident points fails exactly when it is more than the levels left can absorb. */
  lemma CoincidentRunFailsExactly(source: seq<Vec3>, run: seq<nat>, box: Box, level: nat, budget: nat, at: Vec3)
    requires InSource(source, run) && level <= MAX_OCTREE_DEPTH
    requires forall i :: 0 <= i < |run| ==> source[run[i]] == at
    ensures Overfull(source, run, box, level, budget) <==> |run| > Room(level, budget)
  {
    hide Overfull, Room;
    CountAtAll(source, run, at);
    if |run| > Room(level, budget) {
      CoincidentPointsFail(source, run, box, level, budget, at);
    } else {
      SmallRunsSucceed(source, run, box, level, budget);
    }
  }

  /** A source of coincident points can be indexed exactly when there are at most 31 budgets of them. */
  lemma CoincidentSource(source: seq<Vec3>, box: Box, budget: nat, at: Vec3)
    requires forall i :: 0 <= i < |source| ==> source[i] == at
    ensures !Overfull(source, Iota(|source|), box, 0, budget) <==> |source| <= 31 * budget
  {
    hide Overfull;
    CoincidentRunFailsExactly(source, Iota(|source|), box, 0, budget, at);
  }

  lemma LeftoverCountAt(source: seq<Vec3>, run: seq<nat>, center: Vec3, budget: nat, at: Vec3)
    requires InSource(source, run)
    ensures CountAt(source, Leftover(source, run, center, ChildOctant(center, at), budget), at) + budget
      >= CountAt(source, run, at)
  {
    hide Deal;
    var o := ChildOctant(center, at);
    var parts := Parts(source, run, center);
    var d := Deal(parts, budget);
    CountAtPart(source, run, center, at);
    CountAtSuffix(source, parts[o], d.taken[o], at);
    DealIsFair(parts, budget);
    TakenBound(d.taken, o);
  }

  lemma TakenBound(taken: seq<nat>, o: nat)
    requires o < |taken|
    ensures taken[o] <= Sum(taken)
  {
    SumUpdate(taken, o, 0);
  }
}
