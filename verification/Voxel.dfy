/** Octree voxel keys (copc-core/src/hierarchy.rs) and the ancestor relation on them. */
module Voxel {
  import opened Core

  datatype VoxelKey = VoxelKey(level: int32, x: int32, y: int32, z: int32) {
    predicate Valid() {
      && level >= 0 && x >= 0 && y >= 0 && z >= 0
      && (level < 31 ==> x < Pow2(level) && y < Pow2(level) && z < Pow2(level))
    }

    /** `VoxelKey::child`: one octant of this voxel, one level down. */
    function Child(octant: nat): (r: Result<VoxelKey>)
      ensures r.Ok? ==> Valid() && octant <= 7 && r.value.Valid() && r.value.level == level + 1
    {
      if !Valid() then Err(InvalidData)
      else if octant > 7 then Err(InvalidInput)
      else if level == INT32_MAX then Err(InvalidInput)
      else
        var cx := 2 * x + Bit(octant, 0);
        var cy := 2 * y + Bit(octant, 1);
        var cz := 2 * z + Bit(octant, 2);
        if cx > INT32_MAX || cy > INT32_MAX || cz > INT32_MAX then Err(InvalidInput)
        else
          var child := VoxelKey(level + 1, cx, cy, cz);
          if child.Valid() then Ok(child) else Err(InvalidData)
    }
  }

  const ROOT := VoxelKey(0, 0, 0, 0)

  lemma KeyLessTransitive(a: VoxelKey, b: VoxelKey, c: VoxelKey)
    requires KeyLess(a, b) && KeyLess(b, c)
    ensures KeyLess(a, c)
  {
  }

  lemma KeyLessTotal(a: VoxelKey, b: VoxelKey)
    ensures a == b || KeyLess(a, b) || KeyLess(b, a)
  {
  }

  /** `axis >> shift` for a non-negative axis, one bit at a time. */
  function Shr(axis: nat, shift: nat): nat {
    if shift == 0 then axis else Shr(axis / 2, shift - 1)
  }

  /** `(octant >> i) & 1` */
  function Bit(octant: nat, i: nat): (b: nat)
    ensures b <= 1
  {
    Shr(octant, i) % 2
  }

  /** The derived `Ord`: level first, then x, y, z. */
  predicate KeyLess(a: VoxelKey, b: VoxelKey) {
    a.level < b.level ||
    (a.level == b.level && (a.x < b.x ||
    (a.x == b.x && (a.y < b.y ||
    (a.y == b.y && a.z < b.z)))))
  }

  /** Key lies in the subtree of ancestor. */
  predicate Under(ancestor: VoxelKey, key: VoxelKey)
    requires ancestor.Valid() && key.Valid()
  {
    && key.level >= ancestor.level
    && var shift := key.level - ancestor.level;
       && Shr(key.x, shift) == ancestor.x
       && Shr(key.y, shift) == ancestor.y
       && Shr(key.z, shift) == ancestor.z
  }

  /** Which child octant of ancestor a strictly deeper key of its subtree lies under. */
  function OctantOf(ancestor: VoxelKey, key: VoxelKey): (o: nat)
    requires ancestor.Valid() && key.Valid() && key.level > ancestor.level
    ensures o < 8
  {
    var shift := key.level - ancestor.level - 1;
    Shr(key.x, shift) % 2 + 2 * (Shr(key.y, shift) % 2) + 4 * (Shr(key.z, shift) % 2)
  }

  function Parent(key: VoxelKey): (p: VoxelKey)
    requires key.Valid() && key.level > 0
    ensures p.level == key.level - 1 && p.x >= 0 && p.y >= 0 && p.z >= 0
  {
    VoxelKey(key.level - 1, key.x / 2, key.y / 2, key.z / 2)
  }

  lemma OctantBits(o: nat)
    requires o < 8
    ensures Bit(o, 0) == o % 2 && Bit(o, 1) == (o / 2) % 2 && Bit(o, 2) == (o / 4) % 2
    ensures o == Bit(o, 0) + 2 * Bit(o, 1) + 4 * Bit(o, 2)
  {
    assert Shr(o, 1) == o / 2;
    assert Shr(o, 2) == Shr(o / 2, 1) == o / 2 / 2;
  }

  /** A key above the depth limit has all eight children. */
  lemma ChildExists(key: VoxelKey, o: nat)
    requires key.Valid() && key.level <= 30 && o < 8
    ensures key.Child(o).Ok?
    ensures var c := key.Child(o).value;
      c == VoxelKey(key.level + 1, 2 * key.x + Bit(o, 0), 2 * key.y + Bit(o, 1), 2 * key.z + Bit(o, 2))
  {
    Pow2Of31();
    Pow2Monotone(key.level, 30);
    assert Pow2(key.level + 1) == 2 * Pow2(key.level);
  }

  /**
   Exactly when a voxel has a child, and which: always down to level 30, and below that as long as the doubled axes
   still fit an i32.
   */
  lemma ChildExactly(key: VoxelKey, o: nat)
    ensures key.Child(o).Ok? <==>
      key.Valid() && o < 8 && (key.level <= 30 || (key.level < INT32_MAX && AxesDouble(key, o)))
    ensures key.Child(o).Ok? ==>
      key.Child(o).value == VoxelKey(key.level + 1, 2 * key.x + o % 2, 2 * key.y + o / 2 % 2, 2 * key.z + o / 4 % 2)
  {
    if o < 8 {
      OctantBits(o);
    }
    if key.Valid() && o < 8 && key.level <= 30 {
      ChildExists(key, o);
    }
  }

  predicate AxesDouble(key: VoxelKey, o: nat) {
    2 * key.x + o % 2 <= INT32_MAX && 2 * key.y + o / 2 % 2 <= INT32_MAX && 2 * key.z + o / 4 % 2 <= INT32_MAX
  }

  // Axis arithmetic ---------------------------------------------------------

  lemma {:induction false} ShrShr(v: nat, a: nat, b: nat)
    ensures Shr(Shr(v, a), b) == Shr(v, a + b)
  {
    if a > 0 {
      ShrShr(v / 2, a - 1, b);
    }
  }

  // The ancestor relation ---------------------------------------------------

  lemma UnderReflexive(key: VoxelKey)
    requires key.Valid()
    ensures Under(key, key)
  {
    assert Pow2(0) == 1;
  }

  lemma UnderTransitive(a: VoxelKey, b: VoxelKey, c: VoxelKey)
    requires a.Valid() && b.Valid() && c.Valid()
    requires Under(a, b) && Under(b, c)
    ensures Under(a, c)
  {
    var s, t := c.level - b.level, b.level - a.level;
    ShrShr(c.x, s, t);
    ShrShr(c.y, s, t);
    ShrShr(c.z, s, t);
  }

  /** Two ancestors of one key are comparable. */
  lemma AncestorsNest(a: VoxelKey, b: VoxelKey, key: VoxelKey)
    requires a.Valid() && b.Valid() && key.Valid()
    requires Under(a, key) && Under(b, key) && a.level <= b.level
    ensures Under(a, b)
  {
    var s, t := key.level - b.level, b.level - a.level;
    ShrShr(key.x, s, t);
    ShrShr(key.y, s, t);
    ShrShr(key.z, s, t);
  }

  lemma UnderAntisymmetric(a: VoxelKey, b: VoxelKey)
    requires a.Valid() && b.Valid() && Under(a, b) && a.level == b.level
    ensures a == b
  {
    assert Pow2(0) == 1;
  }

  lemma {:induction false} ShrBelowBound(v: nat, s: nat)
    requires v < Pow2(s)
    ensures Shr(v, s) == 0
  {
    if s > 0 {
      ShrBelowBound(v / 2, s - 1);
    }
  }

  lemma RootCovers(key: VoxelKey)
    requires key.Valid() && key.level <= 31
    ensures ROOT.Valid() && Under(ROOT, key)
  {
    assert Pow2(0) == 1;
    Pow2Of31();
    ShrBelowBound(key.x, key.level);
    ShrBelowBound(key.y, key.level);
    ShrBelowBound(key.z, key.level);
  }

  lemma ChildIsUnder(key: VoxelKey, o: nat)
    requires key.Child(o).Ok?
    ensures Under(key, key.Child(o).value)
    ensures OctantOf(key, key.Child(o).value) == o
    ensures Parent(key.Child(o).value) == key
  {
    assert Pow2(0) == 1 && Pow2(1) == 2;
    OctantBits(o);
  }

  lemma AxisUnderChild(v: nat, s: nat, bit: nat)
    requires bit <= 1
    ensures Shr(v, s) == 2 * Shr(v, s + 1) + bit <==> bit == Shr(v, s) % 2
  {
    ShrShr(v, s, 1);
    assert Pow2(1) == 2;
  }

  /** A strictly deeper key of the subtree lies under the child octant `o` iff `o` is its octant. */
  lemma UnderOneChild(a: VoxelKey, key: VoxelKey, o: nat)
    requires a.Valid() && key.Valid() && Under(a, key) && key.level > a.level
    requires a.Child(o).Ok?
    ensures Under(a.Child(o).value, key) <==> o == OctantOf(a, key)
  {
    OctantBits(o);
    var s := key.level - a.level - 1;
    AxisUnderChild(key.x, s, Bit(o, 0));
    AxisUnderChild(key.y, s, Bit(o, 1));
    AxisUnderChild(key.z, s, Bit(o, 2));
    var ox, oy, oz := Shr(key.x, s) % 2, Shr(key.y, s) % 2, Shr(key.z, s) % 2;
    assert OctantOf(a, key) == ox + 2 * oy + 4 * oz;
    SameBits(Bit(o, 0), Bit(o, 1), Bit(o, 2), ox, oy, oz);
  }

  lemma SameBits(x: nat, y: nat, z: nat, x': nat, y': nat, z': nat)
    requires x <= 1 && y <= 1 && z <= 1 && x' <= 1 && y' <= 1 && z' <= 1
    ensures x + 2 * y + 4 * z == x' + 2 * y' + 4 * z' <==> x == x' && y == y' && z == z'
  {
  }

  /** Parents of keys strictly below an ancestor stay below it. */
  lemma ParentStaysUnder(a: VoxelKey, key: VoxelKey)
    requires a.Valid() && key.Valid() && Under(a, key) && key.level > a.level
    ensures Parent(key).Valid() && Under(a, Parent(key))
  {
    ParentValid(key);
    var s := key.level - a.level - 1;
    ShrShr(key.x, 1, s);
    ShrShr(key.y, 1, s);
    ShrShr(key.z, 1, s);
    assert Pow2(1) == 2;
  }

  lemma ParentValid(key: VoxelKey)
    requires key.Valid() && key.level > 0
    ensures Parent(key).Valid()
  {
    Pow2Of31();
    if key.level <= 31 {
      assert Pow2(key.level) == 2 * Pow2(key.level - 1);
    }
  }
}
