/** Axis-aligned boxes (copc-core/src/bounds.rs) over exact reals. */
module Bounds {
  import opened Core
  import opened Voxel

  datatype Vec3 = Vec3(x: real, y: real, z: real)

  datatype Box = Box(min: Vec3, max: Vec3) {
    predicate Ordered() {
      min.x <= max.x && min.y <= max.y && min.z <= max.z
    }

    function Center(): Vec3 {
      Vec3(min.x * 0.5 + max.x * 0.5, min.y * 0.5 + max.y * 0.5, min.z * 0.5 + max.z * 0.5)
    }

    /** The half of each axis that the octant's bit picks. */
    function Octant(octant: nat): Box {
      var c := Center();
      Box(Vec3(if Bit(octant, 0) == 0 then min.x else c.x,
               if Bit(octant, 1) == 0 then min.y else c.y,
               if Bit(octant, 2) == 0 then min.z else c.z),
          Vec3(if Bit(octant, 0) == 0 then c.x else max.x,
               if Bit(octant, 1) == 0 then c.y else max.y,
               if Bit(octant, 2) == 0 then c.z else max.z))
    }

    predicate Intersects(other: Box) {
      && max.x >= other.min.x && min.x <= other.max.x
      && max.y >= other.min.y && min.y <= other.max.y
      && max.z >= other.min.z && min.z <= other.max.z
    }

    predicate Contains(p: Vec3) {
      && min.x <= p.x <= max.x
      && min.y <= p.y <= max.y
      && min.z <= p.z <= max.z
    }

    predicate Within(outer: Box) {
      && outer.min.x <= min.x && max.x <= outer.max.x
      && outer.min.y <= min.y && max.y <= outer.max.y
      && outer.min.z <= min.z && max.z <= outer.max.z
    }
  }

  function Cube(center: Vec3, halfsize: real): Box {
    Box(Vec3(center.x - halfsize, center.y - halfsize, center.z - halfsize),
        Vec3(center.x + halfsize, center.y + halfsize, center.z + halfsize))
  }

  function RealMax(a: real, b: real): real {
    if a >= b then a else b
  }

  function RealMin(a: real, b: real): real {
    if a <= b then a else b
  }

  /** The octree cube the writer builds around declared bounds (copc-writer/src/lod.rs). */
  function CubeFromBounds(b: Box): (Vec3, real) {
    var dx := b.max.x - b.min.x;
    var dy := b.max.y - b.min.y;
    var dz := b.max.z - b.min.z;
    (Vec3(b.min.x + dx * 0.5, b.min.y + dy * 0.5, b.min.z + dz * 0.5),
     RealMax(RealMax(RealMax(dx, dy), dz) * 0.5, 0.000001))
  }

  /** Edge length of a voxel at a level. */
  function Side(halfsize: real, level: nat): real {
    (halfsize * 2.0) / (Pow2(level) as real)
  }

  /** Distance covered by a number of voxel edges. */
  function Steps(count: nat, side: real): real {
    count as real * side
  }

  /** The reader's closed form for a voxel's box (copc-reader/src/points.rs). */
  function VoxelBounds(key: VoxelKey, center: Vec3, halfsize: real): Box
    requires key.Valid()
  {
    var side := Side(halfsize, key.level);
    var min := Vec3(center.x - halfsize + Steps(key.x, side),
                    center.y - halfsize + Steps(key.y, side),
                    center.z - halfsize + Steps(key.z, side));
    Box(min, Vec3(min.x + side, min.y + side, min.z + side))
  }

  /** Half the extent of the bounds along an axis, for the axis of widest extent. */
  function WidestHalf(b: Box): real {
    RealMax(RealMax((b.max.x - b.min.x) * 0.5, (b.max.y - b.min.y) * 0.5), (b.max.z - b.min.z) * 0.5)
  }

  /**
   The cube the writer centres on the declared bounds covers them, is as small as the floor of a millionth allows,
   and no smaller cube around the same centre covers the bounds.
   */
  lemma CubeCoversBounds(b: Box)
    requires b.Ordered()
    ensures var (center, halfsize) := CubeFromBounds(b);
      && halfsize == RealMax(WidestHalf(b), 0.000001) && halfsize > 0.0
      && center == b.Center()
      && forall h :: b.Within(Cube(center, h)) <==> h >= WidestHalf(b)
  {
    var (center, _) := CubeFromBounds(b);
    forall h ensures b.Within(Cube(center, h)) <==> h >= WidestHalf(b) {
      WithinCube(b, h);
    }
  }

  lemma WithinCube(b: Box, h: real)
    requires b.Ordered()
    ensures b.Within(Cube(CubeFromBounds(b).0, h)) <==> h >= WidestHalf(b)
  {
  }

  lemma RootVoxelIsCube(center: Vec3, halfsize: real)
    ensures ROOT.Valid() && VoxelBounds(ROOT, center, halfsize) == Cube(center, halfsize)
  {
    assert Pow2(0) == 1;
    assert Side(halfsize, 0) == halfsize * 2.0;
  }

  lemma SideHalves(halfsize: real, level: nat)
    ensures Side(halfsize, level) == 2.0 * Side(halfsize, level + 1)
  {
    var p := Pow2(level) as real;
    assert Pow2(level + 1) as real == 2.0 * p;
    assert (halfsize * 2.0) / (2.0 * p) == ((halfsize * 2.0) / p) / 2.0;
  }

  lemma StepsAdd(a: nat, b: nat, side: real)
    ensures Steps(a + b, side) == Steps(a, side) + Steps(b, side)
  {
  }

  lemma StepsOfSteps(a: nat, p: nat, side: real)
    ensures Steps(a, Steps(p, side)) == Steps(a * p, side)
  {
    assert (a * p) as real == a as real * p as real;
  }

  /** One axis of an octant: its low edge is the child key's low edge, and it is half as long. */
  lemma AxisChild(origin: real, k: nat, bit: nat, halfsize: real, level: nat, low: real, high: real, mid: real)
    requires bit <= 1
    requires low == origin + Steps(k, Side(halfsize, level)) && high == low + Side(halfsize, level)
    requires mid == low * 0.5 + high * 0.5
    ensures origin + Steps(2 * k + bit, Side(halfsize, level + 1)) == (if bit == 0 then low else mid)
    ensures origin + Steps(2 * k + bit, Side(halfsize, level + 1)) + Side(halfsize, level + 1)
         == (if bit == 0 then mid else high)
  {
    var half := Side(halfsize, level + 1);
    SideHalves(halfsize, level);
    StepsAdd(2 * k, bit, half);
    StepsOfSteps(k, 2, half);
    assert Steps(2, half) == Side(halfsize, level);
    assert Steps(0, half) == 0.0 && Steps(1, half) == half;
  }

  /**
   Halving a voxel's box by octant gives exactly the closed-form box of the child key:
   the writer's recursion and the reader's formula describe the same boxes.
   */
  lemma OctantIsChildVoxel(key: VoxelKey, o: nat, center: Vec3, halfsize: real)
    requires key.Child(o).Ok?
    ensures VoxelBounds(key, center, halfsize).Octant(o)
         == VoxelBounds(key.Child(o).value, center, halfsize)
  {
    var b := VoxelBounds(key, center, halfsize);
    var c := b.Center();
    AxisChild(center.x - halfsize, key.x, Bit(o, 0), halfsize, key.level, b.min.x, b.max.x, c.x);
    AxisChild(center.y - halfsize, key.y, Bit(o, 1), halfsize, key.level, b.min.y, b.max.y, c.y);
    AxisChild(center.z - halfsize, key.z, Bit(o, 2), halfsize, key.level, b.min.z, b.max.z, c.z);
  }

  lemma SidePositive(halfsize: real, level: nat)
    requires halfsize > 0.0
    ensures Side(halfsize, level) > 0.0
  {
  }

  lemma VoxelInParent(key: VoxelKey, center: Vec3, halfsize: real)
    requires key.Valid() && key.level > 0 && halfsize > 0.0
    ensures Parent(key).Valid()
    ensures VoxelBounds(key, center, halfsize).Within(VoxelBounds(Parent(key), center, halfsize))
  {
    ParentValid(key);
    var p := Parent(key);
    var b := VoxelBounds(p, center, halfsize);
    var c := b.Center();
    SidePositive(halfsize, p.level);
    AxisChild(center.x - halfsize, p.x, key.x % 2, halfsize, p.level, b.min.x, b.max.x, c.x);
    AxisChild(center.y - halfsize, p.y, key.y % 2, halfsize, p.level, b.min.y, b.max.y, c.y);
    AxisChild(center.z - halfsize, p.z, key.z % 2, halfsize, p.level, b.min.z, b.max.z, c.z);
  }

  /** A key of the subtree has its box inside the ancestor's box. */
  lemma {:induction false} VoxelNests(a: VoxelKey, key: VoxelKey, center: Vec3, halfsize: real)
    requires a.Valid() && key.Valid() && Under(a, key) && halfsize > 0.0
    ensures VoxelBounds(key, center, halfsize).Within(VoxelBounds(a, center, halfsize))
    decreases key.level
  {
    if key.level == a.level {
      UnderAntisymmetric(a, key);
    } else {
      VoxelInParent(key, center, halfsize);
      ParentStaysUnder(a, key);
      VoxelNests(a, Parent(key), center, halfsize);
    }
  }
}
