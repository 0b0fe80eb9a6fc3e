/** What a query asks for, in plain terms, and that selection and page loading go by exactly that. */
module Requests {
  import opened Core
  import opened Voxel
  import opened Bounds
  import opened Sorting
  import opened Codec
  import opened Hierarchy
  import opened Selection
  import opened RangeReader

  // Levels ------------------------------------------------------------------

  /** The selection is one the reader takes. */
  ghost predicate LodAccepted(lod: LodSelection) {
    match lod
    case AllLevels => true
    case Resolution(_) => true
    case Level(level) => 0 <= level < 2147483647
    case LevelMinMax(min, max) => 0 <= min <= max
  }

  /** The selection takes the chunks of a level. */
  ghost predicate AsksFor(lod: LodSelection, level: int) {
    match lod
    case AllLevels => 0 <= level < 2147483647
    case Resolution(levelMax) => level == 0 || 0 < level < levelMax
    case Level(wanted) => level == wanted
    case LevelMinMax(min, max) => min <= level < max
  }

  /** The selection has the reader look below pages of a level. */
  ghost predicate LooksBelow(lod: LodSelection, level: int) {
    match lod
    case AllLevels => level < 2147483647
    case Resolution(levelMax) => level <= 0 || level < levelMax
    case Level(wanted) => level <= wanted
    case LevelMinMax(_, max) => level < max
  }

  lemma LevelsExactly(lod: LodSelection, level: int)
    ensures LevelRange(lod).Ok? <==> LodAccepted(lod)
    ensures LodAccepted(lod) ==> (LevelRange(lod).value.0 <= level < LevelRange(lod).value.1 <==> AsksFor(lod, level))
    ensures LodAccepted(lod) ==> (level < LevelRange(lod).value.1 <==> LooksBelow(lod, level))
  {
  }

  /** The reader looks below a page exactly when a level at or below it is asked for, or the range of levels is empty. */
  lemma LooksBelowExactly(lod: LodSelection, level: int)
    requires LodAccepted(lod) && level >= 0
    ensures LooksBelow(lod, level) <==>
      (exists l :: l >= level && AsksFor(lod, l)) || (lod.LevelMinMax? && lod.min == lod.max && level < lod.max)
  {
    var deepest :=
      match lod
      case AllLevels => 2147483646
      case Resolution(levelMax) => if levelMax < 1 then 0 else levelMax - 1
      case Level(wanted) => wanted as int
      case LevelMinMax(_, max) => max - 1;
    if LooksBelow(lod, level) && !(lod.LevelMinMax? && lod.min == lod.max) {
      assert AsksFor(lod, deepest) && deepest >= level;
    }
  }

  // Boxes -------------------------------------------------------------------

  /** The point is in the box, faces included. */
  ghost predicate Spans(box: Box, p: Vec3) {
    box.min.x <= p.x <= box.max.x && box.min.y <= p.y <= box.max.y && box.min.z <= p.z <= box.max.z
  }

  /** The box, if there is one, holds a point. */
  ghost predicate BoxAccepted(bounds: Option<Box>) {
    match bounds
    case None => true
    case Some(box) => exists p :: Spans(box, p)
  }

  /** Some point is in the voxel and in the box; any voxel will do without a box. */
  ghost predicate Meets(key: VoxelKey, info: CopcInfo, bounds: Option<Box>)
    requires key.Valid()
  {
    match bounds
    case None => true
    case Some(box) => exists p :: Spans(VoxelBounds(key, info.center, info.halfsize), p) && Spans(box, p)
  }

  lemma OrderedSpans(box: Box)
    ensures box.Ordered() <==> exists p :: Spans(box, p)
  {
    if box.Ordered() {
      assert Spans(box, box.min);
    }
  }

  lemma QueryAcceptedExactly(q: PointQuery)
    ensures QueryAccepted(q) <==> BoxAccepted(q.bounds)
  {
    if q.bounds.Some? {
      OrderedSpans(q.bounds.value);
    }
  }

  /** Boxes that hold points intersect exactly when they share one. */
  lemma IntersectsExactly(a: Box, b: Box)
    requires a.Ordered() && b.Ordered()
    ensures a.Intersects(b) <==> exists p :: Spans(a, p) && Spans(b, p)
  {
    if a.Intersects(b) {
      var p := Vec3(RealMax(a.min.x, b.min.x), RealMax(a.min.y, b.min.y), RealMax(a.min.z, b.min.z));
      assert Spans(a, p) && Spans(b, p);
    }
  }

  lemma VoxelOrdered(key: VoxelKey, info: CopcInfo)
    requires key.Valid() && info.Valid()
    ensures VoxelBounds(key, info.center, info.halfsize).Ordered()
  {
    SidePositive(info.halfsize, key.level);
  }

  lemma ReachesExactly(key: VoxelKey, info: CopcInfo, bounds: Option<Box>)
    requires key.Valid() && info.Valid() && BoxAccepted(bounds)
    ensures BoxReaches(key, info, bounds) <==> Meets(key, info, bounds)
  {
    hide VoxelBounds, Box.Intersects, Box.Ordered, Spans;
    if bounds.Some? {
      OrderedSpans(bounds.value);
      VoxelOrdered(key, info);
      IntersectsExactly(VoxelBounds(key, info.center, info.halfsize), bounds.value);
    }
  }

  // Selection ---------------------------------------------------------------

  /** An entry whose chunk the query is to read. */
  ghost predicate IsAskedFor(e: Entry, info: CopcInfo, q: PointQuery) {
    e.key.Valid() && e.pointCount > 0 && AsksFor(q.lod, e.key.level) && Meets(e.key, info, q.bounds)
  }

  ghost function TimesAsked(entries: seq<Entry>, info: CopcInfo, q: PointQuery, e: Entry): nat {
    if IsAskedFor(e, info, q) then multiset(entries)[e] else 0
  }

  /** An entry selection stumbles over. */
  ghost predicate Stops(e: Entry, q: PointQuery) {
    e.pointCount > 0 && (e.byteSize <= 0 || (!e.key.Valid() && q.bounds.Some? && AsksFor(q.lod, e.key.level)))
  }

  lemma MatchesExactly(e: Entry, info: CopcInfo, q: PointQuery)
    requires info.Valid() && LodAccepted(q.lod) && BoxAccepted(q.bounds)
    ensures Matches(e, info, q) <==> IsAskedFor(e, info, q)
  {
    hide BoxReaches, Meets, LevelRange, LodAccepted, AsksFor, BoxAccepted;
    LevelsExactly(q.lod, e.key.level);
    if e.key.Valid() {
      ReachesExactly(e.key, info, q.bounds);
    }
  }

  lemma {:induction false} SelectedCounts(entries: seq<Entry>, info: CopcInfo, q: PointQuery, e: Entry)
    ensures multiset(Selected(entries, info, q))[e] == if Matches(e, info, q) then multiset(entries)[e] else 0
  {
    hide Matches;
    if entries != [] {
      var n := |entries| - 1;
      SelectedCounts(entries[..n], info, q, e);
      assert entries == entries[..n] + [entries[n]];
    }
  }

  lemma SelectUnfolds(entries: seq<Entry>, info: CopcInfo, q: PointQuery)
    ensures Select(entries, info, q).Ok? <==> QueryAccepted(q) && LevelRange(q.lod).Ok? && Selectable(entries, q)
    ensures Select(entries, info, q).Ok? ==> multiset(Select(entries, info, q).value) == multiset(Selected(entries, info, q))
  {
    hide Selected, Selectable, LevelRange, QueryAccepted;
  }

  lemma SelectableExactly(entries: seq<Entry>, q: PointQuery)
    requires LodAccepted(q.lod)
    ensures Selectable(entries, q) <==> forall e :: e in entries ==> !Stops(e, q)
  {
    hide LevelRange, LodAccepted, AsksFor, VoxelKey.Valid;
    forall e | e in entries ensures LevelInRange(e, q) <==> AsksFor(q.lod, e.key.level) {
      LevelsExactly(q.lod, e.key.level);
    }
  }

  /**
   Selection succeeds exactly on a selection of levels and a box the reader takes, when no entry stops it, and then returns
   every entry asked for as often as it is there, no other, in file order.
   */
  lemma SelectExactly(entries: seq<Entry>, info: CopcInfo, q: PointQuery)
    requires info.Valid()
    ensures Select(entries, info, q).Ok? <==>
      LodAccepted(q.lod) && BoxAccepted(q.bounds) && forall e :: e in entries ==> !Stops(e, q)
    ensures Select(entries, info, q).Ok? ==>
      forall e :: multiset(Select(entries, info, q).value)[e] == TimesAsked(entries, info, q, e)
    ensures Select(entries, info, q).Ok? ==> var found := Select(entries, info, q).value;
      forall i, j :: 0 <= i < j < |found| ==> found[i].offset <= found[j].offset
  {
    hide Matches, IsAskedFor, Selected, Selectable, LevelRange, LodAccepted, BoxAccepted, QueryAccepted, Select, Stops, KeyLess;
    SelectUnfolds(entries, info, q);
    LevelsExactly(q.lod, 0);
    QueryAcceptedExactly(q);
    if LodAccepted(q.lod) && BoxAccepted(q.bounds) {
      SelectableExactly(entries, q);
      forall e ensures multiset(Selected(entries, info, q))[e] == TimesAsked(entries, info, q, e) {
        SelectedCounts(entries, info, q, e);
        MatchesExactly(e, info, q);
      }
      if Select(entries, info, q).Ok? {
        SelectMembers(entries, info, q);
      }
    }
  }

  // Pages -------------------------------------------------------------------

  /** A page the query has the lazy reader load. */
  ghost predicate Calls(q: PointQuery, key: VoxelKey, info: CopcInfo) {
    key.Valid() && LodAccepted(q.lod) && LooksBelow(q.lod, key.level) && Meets(key, info, q.bounds)
  }

  lemma PageMayMatchExactly(key: VoxelKey, info: CopcInfo, q: PointQuery)
    requires key.Valid() && info.Valid() && LevelRange(q.lod).Ok? && BoxAccepted(q.bounds)
    ensures PageMayMatch(key, info, q) <==> Calls(q, key, info)
  {
    hide BoxReaches, Meets, LevelRange, LodAccepted, LooksBelow, BoxAccepted;
    LevelsExactly(q.lod, key.level);
    ReachesExactly(key, info, q.bounds);
  }
}
