/** The in-memory hierarchy: an ordered map from voxel keys to entries, and sums over it. */
module Hierarchy {
  import opened Core
  import opened Voxel
  import opened Codec

  type EntryMap = map<VoxelKey, Entry>

  /** Every entry is stored under its own key. */
  predicate Keyed(h: EntryMap) {
    forall k :: k in h ==> h[k].key == k
  }

  // The ordered view --------------------------------------------------------

  predicate Least(k: VoxelKey, s: set<VoxelKey>) {
    k in s && forall j :: j in s && j != k ==> KeyLess(k, j)
  }

  lemma {:induction false} LeastExists(s: set<VoxelKey>)
    requires s != {}
    ensures exists k :: Least(k, s)
  {
    var k :| k in s;
    var rest := s - {k};
    if rest == {} {
      assert s == {k};
      assert Least(k, s);
    } else {
      LeastExists(rest);
      var j :| Least(j, rest);
      KeyLessTotal(k, j);
      if KeyLess(k, j) {
        forall i | i in s && i != k && i != j ensures KeyLess(k, i) {
          assert KeyLess(j, i);
          KeyLessTransitive(k, j, i);
        }
        assert Least(k, s);
      } else {
        assert Least(j, s);
      }
    }
  }

  /** `BTreeMap::keys`: ascending, each once. */
  function SortedKeys(s: set<VoxelKey>): (r: seq<VoxelKey>)
    ensures |r| == |s|
    ensures forall k :: k in r <==> k in s
    ensures forall i, j :: 0 <= i < j < |r| ==> KeyLess(r[i], r[j])
  {
    if s == {} then []
    else
      LeastExists(s);
      var k :| Least(k, s);
      var rest := SortedKeys(s - {k});
      assert forall j :: 0 <= j < |rest| ==> rest[j] in rest;
      [k] + rest
  }

  /** `BTreeMap::values`. */
  function SortedValues(h: EntryMap): (r: seq<Entry>)
    ensures |r| == |h| == |SortedKeys(h.Keys)|
    ensures forall i :: 0 <= i < |r| ==> SortedKeys(h.Keys)[i] in h && r[i] == h[SortedKeys(h.Keys)[i]]
  {
    var keys := SortedKeys(h.Keys);
    assert |h.Keys| == |h|;
    assert forall i :: 0 <= i < |keys| ==> keys[i] in keys;
    seq(|keys|, i requires 0 <= i < |keys| => h[keys[i]])
  }

  lemma SortedValuesAre(h: EntryMap)
    requires Keyed(h)
    ensures var r := SortedValues(h);
      && (forall i :: 0 <= i < |r| ==> r[i].key in h && h[r[i].key] == r[i])
      && (forall k :: k in h ==> h[k] in r)
      && (forall i, j :: 0 <= i < j < |r| ==> KeyLess(r[i].key, r[j].key))
  {
    hide SortedKeys, KeyLess;
    var r, keys := SortedValues(h), SortedKeys(h.Keys);
    forall i | 0 <= i < |r| ensures r[i].key == keys[i] {
      assert keys[i] in keys;
    }
    forall k | k in h ensures h[k] in r {
      assert k in keys;
      var i :| 0 <= i < |keys| && keys[i] == k;
      assert r[i] == h[k];
    }
    forall i, j | 0 <= i < j < |r| ensures KeyLess(r[i].key, r[j].key) {
      assert KeyLess(keys[i], keys[j]);
    }
  }

  // Sums --------------------------------------------------------------------

  ghost function MapSum(h: EntryMap, f: Entry -> nat): nat {
    if h == map[] then 0
    else
      var k :| k in h;
      f(h[k]) + MapSum(h - {k}, f)
  }

  lemma {:induction false} MapSumRemove(h: EntryMap, f: Entry -> nat, k: VoxelKey)
    requires k in h
    ensures MapSum(h, f) == f(h[k]) + MapSum(h - {k}, f)
    decreases |h|
  {
    var j :| j in h && MapSum(h, f) == f(h[j]) + MapSum(h - {j}, f);
    if j != k {
      MapSumRemove(h - {j}, f, k);
      MapSumRemove(h - {k}, f, j);
      assert h - {j} - {k} == h - {k} - {j};
    }
  }

  lemma MapSumInsert(h: EntryMap, f: Entry -> nat, k: VoxelKey, e: Entry)
    requires k !in h
    ensures MapSum(h[k := e], f) == MapSum(h, f) + f(e)
  {
    MapSumRemove(h[k := e], f, k);
    assert h[k := e] - {k} == h;
  }

  /** Replacing a value changes the sum by the difference. */
  lemma MapSumReplace(h: EntryMap, f: Entry -> nat, k: VoxelKey, e: Entry)
    requires k in h
    ensures MapSum(h[k := e], f) == MapSum(h, f) - f(h[k]) + f(e)
  {
    MapSumRemove(h[k := e], f, k);
    MapSumRemove(h, f, k);
    assert h[k := e] - {k} == h - {k};
  }

  function PointsOf(e: Entry): nat {
    if e.HasPointData() then e.pointCount else 0
  }

  function BytesOf(e: Entry): nat {
    if e.HasPointData() && e.byteSize > 0 then e.byteSize else 0
  }

  function EntriesPoints(s: seq<Entry>): nat {
    if s == [] then 0 else EntriesPoints(s[..|s| - 1]) + PointsOf(s[|s| - 1])
  }

  ghost predicate DistinctEntryKeys(s: seq<Entry>) {
    forall i, j :: 0 <= i < j < |s| ==> s[i].key != s[j].key
  }

  ghost predicate Lists(s: seq<Entry>, h: EntryMap) {
    && |s| == |h| && DistinctEntryKeys(s)
    && forall i :: 0 <= i < |s| ==> s[i].key in h && h[s[i].key] == s[i]
  }

  /** Adding the entries up one by one gives the map's sum, in whatever order they come. */
  lemma {:induction false} ListSum(s: seq<Entry>, h: EntryMap)
    requires Lists(s, h)
    ensures EntriesPoints(s) == MapSum(h, PointsOf)
  {
    if s == [] {
      assert h == map[];
    } else {
      var n := |s| - 1;
      var k := s[n].key;
      MapSumRemove(h, PointsOf, k);
      assert |h - {k}| == |h| - 1 by {
        assert (h - {k}).Keys == h.Keys - {k};
        assert |(h - {k}).Keys| == |h.Keys| - 1;
      }
      ListSum(s[..n], h - {k});
    }
  }

  lemma SortedLists(h: EntryMap)
    requires Keyed(h)
    ensures Lists(SortedValues(h), h)
    ensures forall k :: k in h ==> h[k] in SortedValues(h)
  {
    hide SortedValues;
    SortedValuesAre(h);
  }
}
