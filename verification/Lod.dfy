/** The disk-backed level-of-detail index builder (copc-writer/src/lod.rs). */
module Lod {
  import opened Core
  import opened Voxel
  import opened Bounds
  import opened Sorting
  import opened Dealing
  import opened LodShape
  import opened LodExact

  /** A spooled file of point indices, read from byte `start` for `count` records. */
  datatype IndexRun = IndexRun(file: seq<nat>, start: nat, count: nat) {
    predicate Valid() {
      start % INDEX_RECORD_BYTES == 0 && start / INDEX_RECORD_BYTES + count <= |file|
    }

    function First(): nat {
      start / INDEX_RECORD_BYTES
    }

    /** The run without its first `taken` records. */
    function Rest(taken: nat): IndexRun
      requires taken <= count
    {
      IndexRun(file, start + taken * INDEX_RECORD_BYTES, count - taken)
    }

    function Indices(): seq<nat>
      requires Valid()
    {
      file[First()..First() + count]
    }
  }

  predicate RunsOf(children: seq<Option<IndexRun>>, parts: seq<seq<nat>>) {
    && |children| == |parts|
    && forall o :: 0 <= o < |parts| ==>
         match children[o]
         case None => parts[o] == []
         case Some(run) => run.Valid() && run.count > 0 && run.Indices() == parts[o]
  }

  /** The counts when the round-robin stands in round `round` before octant `o`. */
  ghost function RoundTaken(parts: seq<seq<nat>>, round: nat, o: nat): (taken: seq<nat>)
    ensures Taking(parts, taken)
  {
    seq(|parts|, i requires 0 <= i < |parts| => Min(|parts[i]|, if i < o then round + 1 else round))
  }

  /** The indices appended by then: octant `i` gives its `r`-th index in round `r`. */
  ghost function RoundOrder(parts: seq<seq<nat>>, round: nat, o: nat): seq<nat>
    requires o <= |parts|
    decreases round, o
  {
    if o > 0 then
      RoundOrder(parts, round, o - 1) + (if round < |parts[o - 1]| then [parts[o - 1][round]] else [])
    else if round > 0 then RoundOrder(parts, round - 1, |parts|)
    else []
  }

  lemma RoundBegins(parts: seq<seq<nat>>)
    ensures RoundTaken(parts, 0, 0) == Zeros(|parts|) && RoundOrder(parts, 0, 0) == []
  {
  }

  lemma RoundReaches(parts: seq<seq<nat>>, round: nat, o: nat)
    requires o < |parts|
    ensures RoundTaken(parts, round, o)[o] == Min(|parts[o]|, round)
  {
  }

  lemma RoundSkips(parts: seq<seq<nat>>, round: nat, o: nat)
    requires o < |parts| && |parts[o]| <= round
    ensures RoundTaken(parts, round, o + 1) == RoundTaken(parts, round, o)
    ensures RoundOrder(parts, round, o + 1) == RoundOrder(parts, round, o)
  {
  }

  lemma RoundServes(parts: seq<seq<nat>>, round: nat, o: nat)
    requires o < |parts| && |parts[o]| > round
    ensures IsNext(parts, RoundTaken(parts, round, o), o)
    ensures RoundTaken(parts, round, o)[o] == round
    ensures RoundTaken(parts, round, o + 1) == RoundTaken(parts, round, o)[o := round + 1]
    ensures RoundOrder(parts, round, o + 1) == RoundOrder(parts, round, o) + [parts[o][round]]
  {
  }

  lemma RoundEnds(parts: seq<seq<nat>>, round: nat)
    ensures RoundTaken(parts, round, |parts|) == RoundTaken(parts, round + 1, 0)
    ensures RoundOrder(parts, round, |parts|) == RoundOrder(parts, round + 1, 0)
  {
  }

  lemma ServeRound(parts: seq<seq<nat>>, round: nat, o: nat, total: nat)
    requires o < |parts| && round < |parts[o]|
    requires Deal(parts, total) == Dealt(RoundTaken(parts, round, o), RoundOrder(parts, round, o))
    ensures Deal(parts, total + 1) == Dealt(RoundTaken(parts, round, o + 1), RoundOrder(parts, round, o + 1))
  {
    hide Deal;
    RoundServes(parts, round, o);
    DealStep(parts, total, o);
  }

  /** Going round the octants deals to the least-served octant every time. */
  lemma {:induction false} RoundsAreDeals(parts: seq<seq<nat>>, round: nat, o: nat)
    requires o <= |parts|
    ensures Deal(parts, |RoundOrder(parts, round, o)|)
         == Dealt(RoundTaken(parts, round, o), RoundOrder(parts, round, o))
    decreases round, o
  {
    hide Deal, RoundTaken, RoundOrder, IsNext;
    DealUnfolds(parts, 0);
    if o > 0 {
      RoundsAreDeals(parts, round, o - 1);
      if round < |parts[o - 1]| {
        RoundServes(parts, round, o - 1);
        ServeRound(parts, round, o - 1, |RoundOrder(parts, round, o - 1)|);
      } else {
        RoundSkips(parts, round, o - 1);
      }
    } else if round > 0 {
      RoundsAreDeals(parts, round - 1, |parts|);
      RoundEnds(parts, round - 1);
    } else {
      RoundBegins(parts);
    }
  }

  /** The selection is complete when the budget is met, or after a round that served nobody. */
  lemma RoundsComplete(parts: seq<seq<nat>>, round: nat, o: nat, budget: nat)
    requires o <= |parts| && |RoundOrder(parts, round, o)| <= budget
    requires |RoundOrder(parts, round, o)| < budget ==> forall i :: 0 <= i < |parts| ==> |parts[i]| <= round
    ensures Deal(parts, budget) == Dealt(RoundTaken(parts, round, o), RoundOrder(parts, round, o))
  {
    hide Deal;
    RoundsAreDeals(parts, round, o);
    var total := |RoundOrder(parts, round, o)|;
    if total < budget {
      DealSaturates(parts, total, budget - total);
    }
  }

  class LodIndexBuilder {
    const source: seq<Vec3>
    const maxPointsPerNode: nat
    var order: seq<nat>
    var orderOffset: uint64
    var nodes: seq<LodNodeRange>

    ghost predicate Valid()
      reads this
    {
      maxPointsPerNode > 0 && orderOffset == INDEX_RECORD_BYTES * |order|
    }

    constructor (source: seq<Vec3>, maxPointsPerNode: nat)
      requires maxPointsPerNode > 0
      ensures this.source == source && this.maxPointsPerNode == maxPointsPerNode
      ensures Valid() && order == [] && nodes == []
    {
      this.source := source;
      this.maxPointsPerNode := maxPointsPerNode;
      order := [];
      orderOffset := 0;
      nodes := [];
    }

    /** The u64 offset cannot overflow while the file holds at most u32::MAX records. */
    method AppendIndexToOrder(index: nat)
      requires Valid() && |order| < UINT32_MAX
      modifies `order, `orderOffset
      ensures Valid() && order == old(order) + [index]
    {
      order := order + [index];
      orderOffset := orderOffset + INDEX_RECORD_BYTES;
    }

    method AppendIndexRunToOrder(run: IndexRun)
      requires Valid() && run.Valid() && |order| + run.count <= UINT32_MAX
      modifies `order, `orderOffset
      ensures Valid() && order == old(order) + run.Indices()
    {
      for read := 0 to run.count
        invariant Valid() && order == old(order) + run.Indices()[..read]
      {
        AppendIndexToOrder(run.file[run.First() + read]);
        assert run.Indices()[..read + 1] == run.Indices()[..read] + [run.file[run.First() + read]];
      }
    }

    method PartitionIndexRun(run: IndexRun, box: Box) returns (children: seq<Option<IndexRun>>)
      requires run.Valid() && InSource(source, run.Indices())
      ensures RunsOf(children, Parts(source, run.Indices(), box.Center()))
    {
      var center := box.Center();
      var files: seq<seq<nat>> := [[], [], [], [], [], [], [], []];
      for read := 0 to run.count
        invariant files == Parts(source, run.Indices()[..read], center)
      {
        var index := run.file[run.First() + read];
        var octant := ChildOctant(center, source[index]);
        ghost var shorter := run.Indices()[..read];
        assert run.Indices()[..read + 1][..read] == shorter;
        assert run.Indices()[..read + 1][read] == index;
        files := files[octant := files[octant] + [index]];
        assert files == Parts(source, run.Indices()[..read + 1], center);
      }
      assert run.Indices()[..run.count] == run.Indices();
      children := [];
      for octant := 0 to 8
        invariant |children| == octant
        invariant RunsOf(children, files[..octant])
      {
        if files[octant] == [] {
          children := children + [None];
        } else {
          children := children + [Some(IndexRun(files[octant], 0, |files[octant]|))];
        }
      }
      assert files[..8] == files;
    }

    /** Round-robin over the octants until the budget is met or nothing is left. */
    method AppendLodSelectionToOrder(children: seq<Option<IndexRun>>, ghost parts: seq<seq<nat>>)
      returns (selected: seq<nat>)
      requires Valid() && |children| == 8 && RunsOf(children, parts)
      requires |order| + maxPointsPerNode <= UINT32_MAX
      modifies `order, `orderOffset
      ensures Valid()
      ensures selected == Deal(parts, maxPointsPerNode).taken
      ensures order == old(order) + Deal(parts, maxPointsPerNode).order
    {
      hide Deal, RoundTaken, RoundOrder;
      RoundBegins(parts);
      assert Zeros(8) == [0, 0, 0, 0, 0, 0, 0, 0];
      selected := [0, 0, 0, 0, 0, 0, 0, 0];
      var total := 0;
      ghost var round, reached := 0, 0;
      while total < maxPointsPerNode
        invariant Valid() && total <= maxPointsPerNode && reached <= 8
        invariant selected == RoundTaken(parts, round, reached)
        invariant order == old(order) + RoundOrder(parts, round, reached)
        invariant total == |RoundOrder(parts, round, reached)|
        invariant total < maxPointsPerNode ==> reached == 0
        decreases maxPointsPerNode - total
      {
        var progressed := false;
        ghost var before := total;
        for octant := 0 to 8
          invariant Valid() && before <= total < maxPointsPerNode && reached == octant
          invariant selected == RoundTaken(parts, round, octant)
          invariant order == old(order) + RoundOrder(parts, round, octant)
          invariant total == |RoundOrder(parts, round, octant)|
          invariant progressed <==> total > before
          invariant !progressed ==> forall i :: 0 <= i < octant ==> |parts[i]| <= round
        {
          reached := octant + 1;
          RoundReaches(parts, round, octant);
          if children[octant].Some? && selected[octant] < children[octant].value.count {
            var child := children[octant].value;
            RoundServes(parts, round, octant);
            var index := child.file[child.First() + selected[octant]];
            assert index == child.Indices()[round] == parts[octant][round];
            AppendIndexToOrder(index);
            selected := selected[octant := selected[octant] + 1];
            total := total + 1;
            progressed := true;
            if total == maxPointsPerNode {
              break;
            }
          } else {
            RoundSkips(parts, round, octant);
          }
        }
        if !progressed {
          break;
        }
        if total < maxPointsPerNode {
          RoundEnds(parts, round);
          round, reached := round + 1, 0;
        }
      }
      RoundsComplete(parts, round, reached, maxPointsPerNode);
    }

    /**
     Assigns a run to the subtree of `key`: the node takes what fits, or a fair selection, and each
     octant's leftover goes to that child. Fails exactly when a run at the depth limit exceeds the budget.
     */
    method Assign(key: VoxelKey, run: IndexRun, box: Box, ghost center: Vec3, ghost halfsize: real)
      returns (r: Result<()>)
      requires Valid() && run.Valid() && InSource(source, run.Indices())
      requires key.Valid() && key.level <= MAX_OCTREE_DEPTH
      requires |order| + run.count <= UINT32_MAX
      modifies this
      ensures Valid()
      ensures r.Err? <==> Overfull(source, run.Indices(), box, key.level, maxPointsPerNode)
      ensures r.Ok? ==> old(order) <= order && old(nodes) <= nodes
      ensures r.Ok? ==> Built(order, |old(order)|, nodes[|old(nodes)|..], key, run.Indices(), maxPointsPerNode)
      ensures r.Ok? && box == VoxelBounds(key, center, halfsize) && AllInside(source, run.Indices(), box) ==>
        Contained(source, order, nodes[|old(nodes)|..], center, halfsize)
      ensures r.Ok? ==> order == old(order) + LodOrder(source, run.Indices(), box, key.level, maxPointsPerNode)
      ensures r.Ok? ==> nodes == old(nodes) + LodNodes(source, run.Indices(), key, box, maxPointsPerNode, |old(order)|)
      decreases run.count, 1
    {
      hide TreeShape, Tiles, Deal, Parts, Contained, Built, Overfull, Split.Progress, LodOrder, LodNodes, OctantOrders, OctantNodes;
      ghost var indices, base, first := run.Indices(), |order|, |nodes|;
      SmallRunFits(source, indices, box, key.level, maxPointsPerNode);
      if run.count == 0 {
        EmptyBuilt(order, key, maxPointsPerNode);
        NothingContained(source, order, center, halfsize);
        NothingToIndex(source, key, box, key.level, maxPointsPerNode, base);
        assert nodes[first..] == [];
        return Ok(());
      }
      if run.count <= maxPointsPerNode {
        var start := orderOffset;
        AppendIndexRunToOrder(run);
        var node := LodNodeRange(key, start, run.count);
        nodes := nodes + [node];
        LeafBuilt(order, base, node, indices, maxPointsPerNode);
        if box == VoxelBounds(key, center, halfsize) && AllInside(source, indices, box) {
          NodeContained(source, order, node, base, indices, center, halfsize);
        }
        SmallIndex(source, indices, key, box, maxPointsPerNode, base);
        assert nodes[first..] == [node];
        return Ok(());
      }
      if key.level >= MAX_OCTREE_DEPTH {
        OverfullAtLimit(source, indices, box, key.level, maxPointsPerNode);
        return Err(InvalidInput);
      }
      ghost var split := Split(source, indices, key, box, maxPointsPerNode, base, center, halfsize);
      NodeIsFull(source, indices, box.Center(), maxPointsPerNode);
      var children := PartitionIndexRun(run, box);
      var start := orderOffset;
      var selected := AppendLodSelectionToOrder(children, split.SplitParts());
      var root := LodNodeRange(key, start, Sum(selected));
      nodes := nodes + [root];
      split.Begin(order);
      SplitIndex(source, indices, key, box, maxPointsPerNode, base);
      r := AssignChildren(key, children, selected, box, split);
      if r.Ok? {
        ghost var kids := nodes[first + 1..];
        split.Finish(order, root, kids);
        assert nodes[first..] == [root] + kids;
      }
    }

    method AssignChildren(key: VoxelKey, children: seq<Option<IndexRun>>, selected: seq<nat>, box: Box, ghost split: Split)
      returns (r: Result<()>)
      requires Valid() && split.Valid()
      requires split.source == source && split.budget == maxPointsPerNode && split.key == key && split.box == box
      requires |children| == 8 && RunsOf(children, split.SplitParts()) && selected == split.Dealing().taken
      requires split.Progress(order, [], 0) && split.base + |split.run| <= UINT32_MAX
      modifies this
      ensures Valid()
      ensures r.Err? ==> Overfull(source, split.run, box, key.level, maxPointsPerNode)
      ensures r.Ok? ==> old(order) <= order && old(nodes) <= nodes
      ensures r.Ok? ==> split.Progress(order, nodes[|old(nodes)|..], 8)
      ensures r.Ok? ==> order == old(order) + OctantOrders(source, split.run, box, key.level, maxPointsPerNode, 8)
      ensures r.Ok? ==> nodes == old(nodes) + OctantNodes(source, split.run, key, box, maxPointsPerNode, |old(order)|, 8)
      decreases |split.run|, 0
    {
      hide TreeShape, Tiles, Deal, Parts, Leftover, Contained, Built, Overfull, Split.Progress, AllInside, VoxelBounds, VoxelKey.Child,
        Split.Dealing, Split.SplitParts, Split.Left, Box.Octant, Box.Center, RunsOf, InSource, IndexRun.Valid, IndexRun.Indices,
        LodOrder, LodNodes, OctantOrders, OctantNodes;
      ghost var kids: seq<LodNodeRange> := [];
      ghost var first := |order|;
      NoOctants(source, split.run, key, box, maxPointsPerNode, first);
      for octant := 0 to 8
        invariant Valid() && old(order) <= order && nodes == old(nodes) + kids
        invariant split.Progress(order, kids, octant)
        invariant order == old(order) + OctantOrders(source, split.run, box, key.level, maxPointsPerNode, octant)
        invariant kids == OctantNodes(source, split.run, key, box, maxPointsPerNode, first, octant)
      {
        NextOctant(source, split.run, key, box, maxPointsPerNode, first, octant);
        split.ChildReady(order, kids, octant);
        ChildRunReady(split, order, kids, children, selected, octant);
        if children[octant].Some? && selected[octant] < children[octant].value.count {
          var childRun := children[octant].value.Rest(selected[octant]);
          ghost var before, listed, done := order, nodes, OctantOrders(source, split.run, box, key.level, maxPointsPerNode, octant);
          var childKey := key.Child(octant).value;
          r := Assign(childKey, childRun, box.Octant(octant), split.center, split.halfsize);
          if r.Err? {
            OverfullInChild(source, split.run, box, key.level, maxPointsPerNode, octant);
            return;
          }
          ghost var sub := nodes[|listed|..];
          assert |before| == first + |done|;
          split.ChildDone(before, order, kids, sub, octant);
          kids := kids + sub;
        } else {
          split.ChildEmpty(order, kids, octant);
          NothingToIndex(source, key.Child(octant).value, box.Octant(octant), key.level + 1, maxPointsPerNode, |order|);
        }
      }
      assert nodes[|old(nodes)|..] == kids;
      return Ok(());
    }
  }

  /** What a child octant is handed: its leftover, or nothing. */
  lemma ChildRunReady(split: Split, order: seq<nat>, kids: seq<LodNodeRange>, children: seq<Option<IndexRun>>, selected: seq<nat>, o: nat)
    requires split.Valid() && o < 8 && split.Progress(order, kids, o)
    requires |children| == 8 && RunsOf(children, split.SplitParts()) && selected == split.Dealing().taken
    ensures |selected| == 8
    ensures children[o].Some? && selected[o] < children[o].value.count ==>
      var rest := children[o].value.Rest(selected[o]);
      && rest.Valid() && InSource(split.source, rest.Indices()) && rest.Indices() == split.Left(o)
      && rest.count == |split.Left(o)|
    ensures !(children[o].Some? && selected[o] < children[o].value.count) ==> split.Left(o) == []
    ensures split.Left(o) == Leftover(split.source, split.run, split.box.Center(), o, split.budget)
  {
    hide TreeShape, Tiles, Deal, Parts, Contained, Built, Overfull, Split.Progress, AllInside, VoxelBounds, VoxelKey.Child, Leftover,
      Split.Dealing, Split.SplitParts, Box.Octant, Box.Center;
    split.ChildReady(order, kids, o);
    if children[o].Some? && selected[o] < children[o].value.count {
      SuffixRun(children[o].value, selected[o]);
    }
  }

  lemma SuffixRun(run: IndexRun, taken: nat)
    requires run.Valid() && taken <= run.count
    ensures run.Rest(taken).Valid() && run.Rest(taken).Indices() == run.Indices()[taken..]
  {
  }
}
