/** The 32-byte hierarchy entry and its little-endian form (copc-core/src/hierarchy.rs). */
module Codec {
  import opened Core
  import opened Voxel

  const HIERARCHY_ENTRY_BYTES := 32

  function Pow256(width: nat): (p: nat)
    ensures p >= 1
  {
    if width == 0 then 1 else 256 * Pow256(width - 1)
  }

  /** `to_le_bytes` of an unsigned value of the given width. */
  function ToLe(v: nat, width: nat): (bytes: seq<byte>)
    ensures |bytes| == width
  {
    if width == 0 then [] else [v % 256] + ToLe(v / 256, width - 1)
  }

  /** `from_le_bytes`. */
  function FromLe(bytes: seq<byte>): (v: nat)
    ensures v < Pow256(|bytes|)
  {
    if bytes == [] then 0 else bytes[0] + 256 * FromLe(bytes[1..])
  }

  lemma {:induction false} LeRoundTrip(v: nat, width: nat)
    requires v < Pow256(width)
    ensures FromLe(ToLe(v, width)) == v
  {
    if width > 0 {
      LeRoundTrip(v / 256, width - 1);
      assert ToLe(v, width)[1..] == ToLe(v / 256, width - 1);
    }
  }

  lemma {:induction false} LeExact(bytes: seq<byte>)
    ensures ToLe(FromLe(bytes), |bytes|) == bytes
  {
    if bytes != [] {
      LeExact(bytes[1..]);
      var rest := FromLe(bytes[1..]);
      assert FromLe(bytes) % 256 == bytes[0] && FromLe(bytes) / 256 == rest;
      assert bytes == [bytes[0]] + bytes[1..];
    }
  }

  lemma Widths()
    ensures Pow256(2) == 0x1_0000 && Pow256(4) == 0x1_0000_0000 && Pow256(8) == 0x1_0000_0000_0000_0000
  {
    assert Pow256(3) == 0x100_0000;
    assert Pow256(4) == 0x1_0000_0000;
    assert Pow256(6) == 0x1_0000_0000_0000;
  }

  /** Two's complement. */
  function Unsigned(x: int32): (u: uint32) {
    if x < 0 then x + 0x1_0000_0000 else x
  }

  function Signed(u: uint32): (x: int32) {
    if u >= 0x8000_0000 then u - 0x1_0000_0000 else u
  }

  datatype Entry = Entry(key: VoxelKey, offset: uint64, byteSize: int32, pointCount: int32) {
    predicate HasPointData() {
      pointCount > 0
    }

    predicate IsEmpty() {
      pointCount == 0
    }

    predicate IsChildPage() {
      pointCount == -1
    }

    /** `Entry::validate` succeeds. */
    predicate Valid() {
      && key.Valid()
      && pointCount >= -1
      && (if IsEmpty() then offset == 0 && byteSize == 0 else byteSize > 0)
    }
  }

  function I32Le(x: int32): (bytes: seq<byte>)
    ensures |bytes| == 4
  {
    ToLe(Unsigned(x), 4)
  }

  function I32At(src: seq<byte>, at: nat): int32
    requires at + 4 <= |src|
  {
    Widths();
    Signed(FromLe(src[at..at + 4]))
  }

  function U64At(src: seq<byte>, at: nat): uint64
    requires at + 8 <= |src|
  {
    Widths();
    FromLe(src[at..at + 8])
  }

  function U16Le(v: uint16): (bytes: seq<byte>)
    ensures |bytes| == 2
  {
    ToLe(v, 2)
  }

  function U16At(src: seq<byte>, at: nat): uint16
    requires at + 2 <= |src|
  {
    Widths();
    FromLe(src[at..at + 2])
  }

  lemma U16RoundTrip(v: uint16)
    ensures |U16Le(v)| == 2 && FromLe(U16Le(v)) == v
  {
    Widths();
    LeRoundTrip(v, 2);
  }

  /** The bytes of an entry, field after field. */
  function EntryBytes(e: Entry): (bytes: seq<byte>)
    ensures |bytes| == HIERARCHY_ENTRY_BYTES
  {
    I32Le(e.key.level) + I32Le(e.key.x) + I32Le(e.key.y) + I32Le(e.key.z) +
    ToLe(e.offset, 8) + I32Le(e.byteSize) + I32Le(e.pointCount)
  }

  function EntryFields(src: seq<byte>): Entry
    requires |src| == HIERARCHY_ENTRY_BYTES
  {
    Entry(VoxelKey(I32At(src, 0), I32At(src, 4), I32At(src, 8), I32At(src, 12)),
          U64At(src, 16), I32At(src, 24), I32At(src, 28))
  }

  /** `Entry::from_le` */
  function EntryFromLe(src: seq<byte>): Result<Entry> {
    if |src| != HIERARCHY_ENTRY_BYTES then Err(InvalidData)
    else
      var entry := EntryFields(src);
      if entry.Valid() then Ok(entry) else Err(InvalidData)
  }

  method PutLe(dst: array<byte>, at: nat, bytes: seq<byte>)
    requires at + |bytes| <= dst.Length
    modifies dst
    ensures dst[..] == old(dst[..at]) + bytes + old(dst[at + |bytes|..])
  {
    for i := 0 to |bytes|
      invariant dst[..] == old(dst[..at]) + bytes[..i] + old(dst[at + i..])
    {
      dst[at + i] := bytes[i];
    }
  }

  /** Fills the buffer after the `at` bytes already written. */
  method PutNext(buf: array<byte>, at: nat, bytes: seq<byte>)
    requires at + |bytes| <= buf.Length
    modifies buf
    ensures buf[..at + |bytes|] == old(buf[..at]) + bytes
  {
    PutLe(buf, at, bytes);
  }

  /** `Entry::write_le`: fills exactly the 32 destination bytes of a valid entry. */
  method WriteLe(e: Entry, dst: array<byte>) returns (r: Result<()>)
    modifies dst
    ensures r.Ok? <==> e.Valid() && dst.Length == HIERARCHY_ENTRY_BYTES
    ensures r.Ok? ==> dst[..] == EntryBytes(e)
    ensures r.Err? ==> dst[..] == old(dst[..])
  {
    if !e.Valid() {
      return Err(InvalidData);
    }
    if dst.Length != HIERARCHY_ENTRY_BYTES {
      return Err(InvalidInput);
    }
    PutLe(dst, 0, I32Le(e.key.level));
    PutLe(dst, 4, I32Le(e.key.x));
    PutLe(dst, 8, I32Le(e.key.y));
    PutLe(dst, 12, I32Le(e.key.z));
    PutLe(dst, 16, ToLe(e.offset, 8));
    PutLe(dst, 24, I32Le(e.byteSize));
    PutLe(dst, 28, I32Le(e.pointCount));
    return Ok(());
  }

  lemma I32RoundTrip(x: int32)
    ensures FromLe(I32Le(x)) == Unsigned(x) && Signed(Unsigned(x)) == x
  {
    Widths();
    LeRoundTrip(Unsigned(x), 4);
  }

  lemma FieldSlices(e: Entry)
    ensures var b := EntryBytes(e);
      && b[0..4] == I32Le(e.key.level) && b[4..8] == I32Le(e.key.x)
      && b[8..12] == I32Le(e.key.y) && b[12..16] == I32Le(e.key.z)
      && b[16..24] == ToLe(e.offset, 8)
      && b[24..28] == I32Le(e.byteSize) && b[28..32] == I32Le(e.pointCount)
  {
    hide I32Le, ToLe;
  }

  /** Writing then reading an entry gives it back. */
  lemma EntryRoundTrip(e: Entry)
    requires e.Valid()
    ensures EntryFromLe(EntryBytes(e)) == Ok(e)
  {
    hide I32Le, ToLe, FromLe, EntryBytes;
    FieldSlices(e);
    I32RoundTrip(e.key.level);
    I32RoundTrip(e.key.x);
    I32RoundTrip(e.key.y);
    I32RoundTrip(e.key.z);
    Widths();
    LeRoundTrip(e.offset, 8);
    I32RoundTrip(e.byteSize);
    I32RoundTrip(e.pointCount);
  }

  lemma I32Exact(bytes: seq<byte>)
    requires |bytes| == 4
    ensures FromLe(bytes) < 0x1_0000_0000
    ensures I32Le(Signed(FromLe(bytes))) == bytes
  {
    Widths();
    LeExact(bytes);
  }

  /** Reading is the exact inverse: only the bytes of an entry read back as it. */
  lemma EntryReadsOnlyItsBytes(src: seq<byte>)
    requires EntryFromLe(src).Ok?
    ensures EntryBytes(EntryFromLe(src).value) == src
  {
    hide I32Le, ToLe, FromLe;
    I32Exact(src[0..4]);
    I32Exact(src[4..8]);
    I32Exact(src[8..12]);
    I32Exact(src[12..16]);
    LeExact(src[16..24]);
    I32Exact(src[24..28]);
    I32Exact(src[28..32]);
    assert src == src[0..4] + src[4..8] + src[8..12] + src[12..16] + src[16..24] + src[24..28] + src[28..32];
  }

  // Pages -------------------------------------------------------------------

  function PageBytes(entries: seq<Entry>): (bytes: seq<byte>)
    ensures |bytes| == HIERARCHY_ENTRY_BYTES * |entries|
  {
    if entries == [] then [] else PageBytes(entries[..|entries| - 1]) + EntryBytes(entries[|entries| - 1])
  }

  /** `HierarchyPage::from_le_bytes` */
  function PageFromLe(bytes: seq<byte>): (r: Result<seq<Entry>>)
    ensures r.Ok? ==> |bytes| == HIERARCHY_ENTRY_BYTES * |r.value|
    ensures r.Ok? ==> forall e :: e in r.value ==> e.Valid()
    decreases |bytes|
  {
    if |bytes| % HIERARCHY_ENTRY_BYTES != 0 then Err(InvalidData)
    else if bytes == [] then Ok([])
    else
      var cut := |bytes| - HIERARCHY_ENTRY_BYTES;
      var head :- PageFromLe(bytes[..cut]);
      var last :- EntryFromLe(bytes[cut..]);
      Ok(head + [last])
  }

  lemma {:induction false} PageRoundTrip(entries: seq<Entry>)
    requires forall e :: e in entries ==> e.Valid()
    ensures PageFromLe(PageBytes(entries)) == Ok(entries)
  {
    hide EntryBytes, EntryFromLe;
    if entries != [] {
      var n := |entries| - 1;
      var bytes := PageBytes(entries);
      var cut := HIERARCHY_ENTRY_BYTES * n;
      PageRoundTrip(entries[..n]);
      EntryRoundTrip(entries[n]);
      assert bytes[..cut] == PageBytes(entries[..n]);
      assert bytes[cut..] == EntryBytes(entries[n]);
      assert entries == entries[..n] + [entries[n]];
    }
  }
}
