/** Finding the hierarchy section through the EVLR headers (copc-reader/src/lib.rs, ranged.rs, copc-writer/src/las_out.rs). */
module Evlrs {
  import opened Core
  import opened Codec
  import opened Words
  import opened Loader
  import opened HierarchyFile

  const MAX_EVLR_COUNT := 4096
  const COPC_USER_ID: seq<byte> := [99, 111, 112, 99]
  const COPC_HIERARCHY_RECORD_ID := 1000

  // Reading headers ---------------------------------------------------------

  datatype EvlrRef = EvlrRef(userId: seq<byte>, recordId: uint16, dataOffset: nat, dataLen: uint64) {
    /** The first byte after the record. */
    function End(): nat {
      dataOffset + dataLen
    }
  }

  /** `trim_nul` */
  function TrimNul(bytes: seq<byte>): seq<byte> {
    if bytes == [] || bytes[0] == 0 then [] else [bytes[0]] + TrimNul(bytes[1..])
  }

  predicate IsHierarchy(userId: seq<byte>, recordId: uint16) {
    TrimNul(userId) == COPC_USER_ID && recordId == COPC_HIERARCHY_RECORD_ID
  }

  function U64From(bytes: seq<byte>, at: nat): uint64
    requires at + 8 <= |bytes|
  {
    Widths();
    FromLe(bytes[at..at + 8])
  }

  /** The reserved field of a header. */
  function ReservedAt(bytes: seq<byte>, at: nat): uint16
    requires at + LAS_EVLR_HEADER_BYTES <= |bytes|
  {
    U16At(bytes, at)
  }

  /** The fields of the header at an offset. */
  function HeaderAt(bytes: seq<byte>, at: nat): EvlrRef
    requires at + LAS_EVLR_HEADER_BYTES <= |bytes|
  {
    EvlrRef(bytes[at + 2..at + 18], U16At(bytes, at + 18), at + LAS_EVLR_HEADER_BYTES, U64From(bytes, at + 20))
  }

  /** The record whose header starts at an offset, if header and data lie in the file. */
  function EvlrAt(bytes: seq<byte>, at: nat): Result<EvlrRef> {
    if !InFile(bytes, at, LAS_EVLR_HEADER_BYTES) || ReservedAt(bytes, at) != 0 then Err(InvalidData)
    else
      var evlr := HeaderAt(bytes, at);
      if InFile(bytes, evlr.dataOffset, evlr.dataLen) then Ok(evlr) else Err(InvalidData)
  }

  /** The next `count` records from an offset. */
  function EvlrsFrom(bytes: seq<byte>, at: nat, count: nat): Result<seq<EvlrRef>>
    decreases count
  {
    if count == 0 then Ok([])
    else
      var first :- EvlrAt(bytes, at);
      var rest :- EvlrsFrom(bytes, first.End(), count - 1);
      Ok([first] + rest)
  }

  /** The records a header declares; none when it gives no offset or no count. */
  function DeclaredEvlrs(bytes: seq<byte>, offsetToFirstEvlr: uint64, numberOfEvlrs: uint32): Result<seq<EvlrRef>> {
    if offsetToFirstEvlr == 0 || numberOfEvlrs == 0 then Ok([])
    else if numberOfEvlrs > MAX_EVLR_COUNT then Err(InvalidData)
    else EvlrsFrom(bytes, offsetToFirstEvlr, numberOfEvlrs)
  }

  /** What is left to read after the first records. */
  ghost function Continued(refs: seq<EvlrRef>, rest: Result<seq<EvlrRef>>): Result<seq<EvlrRef>> {
    if rest.Ok? then Ok(refs + rest.value) else rest
  }

  lemma ContinuedStep(bytes: seq<byte>, refs: seq<EvlrRef>, at: nat, count: nat)
    requires count > 0
    ensures EvlrAt(bytes, at).Err? ==> Continued(refs, EvlrsFrom(bytes, at, count)).Err?
    ensures EvlrAt(bytes, at).Ok? ==> var first := EvlrAt(bytes, at).value;
      Continued(refs, EvlrsFrom(bytes, at, count)) == Continued(refs + [first], EvlrsFrom(bytes, first.End(), count - 1))
  {
    hide EvlrAt;
    if EvlrAt(bytes, at).Ok? {
      var rest := EvlrsFrom(bytes, EvlrAt(bytes, at).value.End(), count - 1);
      if rest.Ok? {
        assert refs + ([EvlrAt(bytes, at).value] + rest.value) == refs + [EvlrAt(bytes, at).value] + rest.value;
      }
    }
  }

  /** `read_evlr_refs` */
  method ReadEvlrRefs(bytes: seq<byte>, offsetToFirstEvlr: uint64, numberOfEvlrs: uint32) returns (r: Result<seq<EvlrRef>>)
    ensures r.Ok? <==> DeclaredEvlrs(bytes, offsetToFirstEvlr, numberOfEvlrs).Ok?
    ensures r.Ok? ==> r == DeclaredEvlrs(bytes, offsetToFirstEvlr, numberOfEvlrs)
  {
    hide EvlrAt, EvlrsFrom;
    if offsetToFirstEvlr == 0 || numberOfEvlrs == 0 {
      return Ok([]);
    }
    if numberOfEvlrs > MAX_EVLR_COUNT {
      return Err(InvalidData);
    }
    var evlrs: seq<EvlrRef> := [];
    var at: nat := offsetToFirstEvlr;
    var all := EvlrsFrom(bytes, offsetToFirstEvlr, numberOfEvlrs);
    assert all == Continued([], all) by {
      NothingBefore(all);
    }
    for index := 0 to numberOfEvlrs
      invariant all == Continued(evlrs, EvlrsFrom(bytes, at, numberOfEvlrs - index))
    {
      ContinuedStep(bytes, evlrs, at, numberOfEvlrs - index);
      var evlr := EvlrAt(bytes, at);
      if evlr.Err? {
        return Err(InvalidData);
      }
      evlrs := evlrs + [evlr.value];
      at := evlr.value.End();
    }
    NoMoreEvlrs(bytes, at, evlrs);
    return Ok(evlrs);
  }

  lemma NothingBefore(all: Result<seq<EvlrRef>>)
    ensures Continued([], all) == all
  {
    if all.Ok? {
      assert [] + all.value == all.value;
    }
  }

  lemma NoMoreEvlrs(bytes: seq<byte>, at: nat, refs: seq<EvlrRef>)
    ensures Continued(refs, EvlrsFrom(bytes, at, 0)) == Ok(refs)
  {
    assert refs + [] == refs;
  }

  // The hierarchy section ---------------------------------------------------

  /** Where the hierarchy section starts and how long it is. */
  datatype Section = Section(start: nat, len: uint64)

  /** The first record with the hierarchy's identity. */
  function FirstHierarchy(refs: seq<EvlrRef>): Option<EvlrRef> {
    if refs == [] then None
    else if IsHierarchy(refs[0].userId, refs[0].recordId) then Some(refs[0])
    else FirstHierarchy(refs[1..])
  }

  /** The eager reader finds the section by walking the declared records. */
  function EagerSection(bytes: seq<byte>, offsetToFirstEvlr: uint64, numberOfEvlrs: uint32, rootOffset: uint64, rootSize: uint64): Result<Section> {
    var evlrs :- DeclaredEvlrs(bytes, offsetToFirstEvlr, numberOfEvlrs);
    match FirstHierarchy(evlrs)
    case None => Err(InvalidData)
    case Some(evlr) =>
      if rootOffset != evlr.dataOffset || rootSize > evlr.dataLen then Err(InvalidData)
      else Ok(Section(evlr.dataOffset, evlr.dataLen))
  }

  /** `validate_root_hierarchy_evlr`: the lazy reader looks only at the header in front of the root page. */
  function LazySection(bytes: seq<byte>, rootOffset: uint64, rootSize: uint64): Result<Section> {
    if rootOffset < LAS_EVLR_HEADER_BYTES then Err(InvalidData)
    else
      var at := rootOffset - LAS_EVLR_HEADER_BYTES;
      if !InFile(bytes, at, LAS_EVLR_HEADER_BYTES) then Err(InvalidData)
      else
        var evlr := HeaderAt(bytes, at);
        if ReservedAt(bytes, at) != 0 || !IsHierarchy(evlr.userId, evlr.recordId) then Err(InvalidData)
        else if rootSize > evlr.dataLen || !InFile(bytes, rootOffset, evlr.dataLen) then Err(InvalidData)
        else Ok(Section(rootOffset, evlr.dataLen))
  }

  lemma {:induction false} RecordsAreRead(bytes: seq<byte>, at: nat, count: nat, i: nat)
    requires EvlrsFrom(bytes, at, count).Ok? && i < |EvlrsFrom(bytes, at, count).value|
    ensures var evlr := EvlrsFrom(bytes, at, count).value[i];
      evlr.dataOffset >= LAS_EVLR_HEADER_BYTES && EvlrAt(bytes, evlr.dataOffset - LAS_EVLR_HEADER_BYTES) == Ok(evlr)
    decreases count
  {
    hide U16At, U64From;
    if i > 0 {
      RecordsAreRead(bytes, EvlrAt(bytes, at).value.End(), count - 1, i - 1);
    }
  }

  lemma {:induction false} FirstIsOne(refs: seq<EvlrRef>)
    requires FirstHierarchy(refs).Some?
    ensures FirstHierarchy(refs).value in refs
    ensures IsHierarchy(FirstHierarchy(refs).value.userId, FirstHierarchy(refs).value.recordId)
  {
    hide IsHierarchy;
    if !IsHierarchy(refs[0].userId, refs[0].recordId) {
      FirstIsOne(refs[1..]);
    }
  }

  /** The first declared record of the hierarchy's identity is the one in front of the root page. */
  ghost predicate RootIsDeclared(bytes: seq<byte>, offsetToFirstEvlr: uint64, numberOfEvlrs: uint32, rootOffset: uint64) {
    var evlrs := DeclaredEvlrs(bytes, offsetToFirstEvlr, numberOfEvlrs);
    evlrs.Ok? && FirstHierarchy(evlrs.value).Some? && FirstHierarchy(evlrs.value).value.dataOffset == rootOffset
  }

  /**
   The two readers find the same section, and the eager one finds it exactly when the lazy one does and the header
   declares the record the root page follows, before any other of that identity.
   */
  lemma SectionsAgree(bytes: seq<byte>, offsetToFirstEvlr: uint64, numberOfEvlrs: uint32, rootOffset: uint64, rootSize: uint64)
    ensures var eager := EagerSection(bytes, offsetToFirstEvlr, numberOfEvlrs, rootOffset, rootSize);
      var lazy := LazySection(bytes, rootOffset, rootSize);
      && (eager.Ok? <==> lazy.Ok? && RootIsDeclared(bytes, offsetToFirstEvlr, numberOfEvlrs, rootOffset))
      && (eager.Ok? ==> eager == lazy)
  {
    hide U16At, U64From, EvlrsFrom, IsHierarchy, FirstHierarchy;
    if RootIsDeclared(bytes, offsetToFirstEvlr, numberOfEvlrs, rootOffset) {
      var evlrs := DeclaredEvlrs(bytes, offsetToFirstEvlr, numberOfEvlrs).value;
      FirstIsOne(evlrs);
      var i :| 0 <= i < |evlrs| && evlrs[i] == FirstHierarchy(evlrs).value;
      RecordsAreRead(bytes, offsetToFirstEvlr, numberOfEvlrs, i);
    }
  }

  // In plain numbers --------------------------------------------------------

  /** "copc" and a NUL, or "copc" filling the field. */
  lemma HierarchyIdentityExactly(userId: seq<byte>, recordId: uint16)
    ensures IsHierarchy(userId, recordId) <==>
      recordId == 1000 && |userId| >= 4 && userId[..4] == [99, 111, 112, 99] && (|userId| == 4 || userId[4] == 0)
  {
    if |userId| >= 4 {
      TrimStep(userId);
      TrimStep(userId[1..]);
      TrimStep(userId[2..]);
      TrimStep(userId[3..]);
      assert userId[1..][1..] == userId[2..] && userId[2..][1..] == userId[3..] && userId[3..][1..] == userId[4..];
      assert userId[..4] == [userId[0], userId[1], userId[2], userId[3]];
      if |userId| > 4 {
        TrimStep(userId[4..]);
      }
    } else {
      TrimShorter(userId);
    }
  }

  lemma TrimStep(bytes: seq<byte>)
    requires bytes != []
    ensures TrimNul(bytes) == if bytes[0] == 0 then [] else [bytes[0]] + TrimNul(bytes[1..])
  {
  }

  lemma {:induction false} TrimShorter(bytes: seq<byte>)
    ensures |TrimNul(bytes)| <= |bytes|
  {
    if bytes != [] {
      TrimShorter(bytes[1..]);
    }
  }

  /** A record: its header's 60 bytes and its data lie in the file and the reserved word is zero. */
  lemma EvlrInNumbers(bytes: seq<byte>, at: nat)
    ensures EvlrAt(bytes, at).Ok? <==>
      && at + 60 <= |bytes| && Word16(bytes, at) == 0
      && at + 60 + Word64(bytes, at + 20) <= |bytes| && at + 60 + Word64(bytes, at + 20) <= 18446744073709551615
    ensures EvlrAt(bytes, at).Ok? ==>
      EvlrAt(bytes, at).value == EvlrRef(bytes[at + 2..at + 18], Word16(bytes, at + 18), at + 60, Word64(bytes, at + 20))
  {
    hide Word16, Word64, U16At, FromLe;
    if at + 60 <= |bytes| {
      ReadsWord16(bytes, at);
      ReadsWord16(bytes, at + 18);
      ReadsWord64(bytes, at + 20);
    }
  }

  /** "copc" and a NUL. */
  ghost predicate NamesCopc(bytes: seq<byte>, at: nat)
    requires at + 5 <= |bytes|
  {
    bytes[at] == 99 && bytes[at + 1] == 111 && bytes[at + 2] == 112 && bytes[at + 3] == 99 && bytes[at + 4] == 0
  }

  lemma IdentityAt(bytes: seq<byte>, at: nat, recordId: uint16)
    requires at + 16 <= |bytes|
    ensures IsHierarchy(bytes[at..at + 16], recordId) <==> recordId == 1000 && NamesCopc(bytes, at)
  {
    hide IsHierarchy;
    var userId := bytes[at..at + 16];
    HierarchyIdentityExactly(userId, recordId);
    assert userId[0] == bytes[at] && userId[1] == bytes[at + 1] && userId[2] == bytes[at + 2] && userId[3] == bytes[at + 3];
    assert userId[4] == bytes[at + 4] && userId[..4] == [userId[0], userId[1], userId[2], userId[3]];
  }

  /** The lazy reader's check of the section, byte by byte. */
  lemma LazySectionInNumbers(bytes: seq<byte>, rootOffset: uint64, rootSize: uint64)
    ensures LazySection(bytes, rootOffset, rootSize).Ok? <==>
      && 60 <= rootOffset <= |bytes|
      && Word16(bytes, rootOffset - 60) == 0
      && NamesCopc(bytes, rootOffset - 58)
      && Word16(bytes, rootOffset - 42) == 1000
      && rootSize <= Word64(bytes, rootOffset - 40)
      && rootOffset + Word64(bytes, rootOffset - 40) <= |bytes|
      && rootOffset + Word64(bytes, rootOffset - 40) <= 18446744073709551615
    ensures LazySection(bytes, rootOffset, rootSize).Ok? ==>
      LazySection(bytes, rootOffset, rootSize).value == Section(rootOffset, Word64(bytes, rootOffset - 40))
  {
    hide Word16, Word64, U16At, FromLe, IsHierarchy;
    if 60 <= rootOffset <= |bytes| {
      var at := rootOffset - 60;
      ReadsWord16(bytes, at);
      ReadsWord16(bytes, at + 18);
      ReadsWord64(bytes, at + 20);
      IdentityAt(bytes, at + 2, U16At(bytes, at + 18));
    }
  }

  /** How many records are looked for, and how many at most. */
  lemma DeclaredInNumbers(bytes: seq<byte>, offsetToFirstEvlr: uint64, numberOfEvlrs: uint32)
    ensures var declared := DeclaredEvlrs(bytes, offsetToFirstEvlr, numberOfEvlrs);
      && (offsetToFirstEvlr == 0 || numberOfEvlrs == 0 ==> declared == Ok([]))
      && (offsetToFirstEvlr > 0 && numberOfEvlrs > 4096 ==> declared.Err?)
      && (offsetToFirstEvlr > 0 && numberOfEvlrs <= 4096 ==> declared == EvlrsFrom(bytes, offsetToFirstEvlr, numberOfEvlrs))
  {
    hide EvlrAt;
  }

  // Writing records ---------------------------------------------------------

  /** `pad` */
  function Pad(value: seq<byte>, len: nat): (r: seq<byte>)
    ensures |r| == len
  {
    (if |value| < len then value else value[..len]) + seq(if |value| < len then len - |value| else 0, _ => 0)
  }

  /** `write_evlr_header` */
  function EvlrHeaderBytes(userId: seq<byte>, recordId: uint16, bodySize: uint64, description: seq<byte>): (r: seq<byte>)
    ensures |r| == LAS_EVLR_HEADER_BYTES
  {
    U16Le(0) + Pad(userId, 16) + U16Le(recordId) + ToLe(bodySize, 8) + Pad(description, 32)
  }

  /** A record to write. */
  datatype Evlr = Evlr(userId: seq<byte>, recordId: uint16, description: seq<byte>, data: seq<byte>) {
    function Bytes(): seq<byte>
      requires |data| <= UINT64_MAX
    {
      EvlrHeaderBytes(userId, recordId, |data|, description) + data
    }

    /** What a reader is to find for the record when its header is at an offset. */
    ghost function Ref(at: nat): EvlrRef
      requires |data| <= UINT64_MAX
    {
      EvlrRef(Pad(userId, 16), recordId, at + LAS_EVLR_HEADER_BYTES, |data|)
    }
  }

  predicate Sized(evlrs: seq<Evlr>) {
    forall i :: 0 <= i < |evlrs| ==> |evlrs[i].data| <= UINT64_MAX
  }

  function EvlrsBytes(evlrs: seq<Evlr>): seq<byte>
    requires Sized(evlrs)
  {
    if evlrs == [] then [] else evlrs[0].Bytes() + EvlrsBytes(evlrs[1..])
  }

  ghost function RefsFrom(evlrs: seq<Evlr>, at: nat): (refs: seq<EvlrRef>)
    requires Sized(evlrs)
    ensures |refs| == |evlrs|
  {
    if evlrs == [] then [] else [evlrs[0].Ref(at)] + RefsFrom(evlrs[1..], at + |evlrs[0].Bytes()|)
  }

  lemma HeaderReadsBack(bytes: seq<byte>, at: nat, userId: seq<byte>, recordId: uint16, bodySize: uint64, description: seq<byte>)
    requires at + LAS_EVLR_HEADER_BYTES <= |bytes|
    requires bytes[at..at + LAS_EVLR_HEADER_BYTES] == EvlrHeaderBytes(userId, recordId, bodySize, description)
    ensures ReservedAt(bytes, at) == 0
    ensures HeaderAt(bytes, at) == EvlrRef(Pad(userId, 16), recordId, at + LAS_EVLR_HEADER_BYTES, bodySize)
  {
    hide Pad, ToLe, FromLe, U16Le;
    HeaderSlices(userId, recordId, bodySize, description);
    SliceOfSlice(bytes, at, at + LAS_EVLR_HEADER_BYTES, 0, 2);
    SliceOfSlice(bytes, at, at + LAS_EVLR_HEADER_BYTES, 2, 18);
    SliceOfSlice(bytes, at, at + LAS_EVLR_HEADER_BYTES, 18, 20);
    SliceOfSlice(bytes, at, at + LAS_EVLR_HEADER_BYTES, 20, 28);
    U16RoundTrip(0);
    U16RoundTrip(recordId);
    Widths();
    LeRoundTrip(bodySize, 8);
  }

  lemma HeaderSlices(userId: seq<byte>, recordId: uint16, bodySize: uint64, description: seq<byte>)
    ensures var h := EvlrHeaderBytes(userId, recordId, bodySize, description);
      h[0..2] == U16Le(0) && h[2..18] == Pad(userId, 16) && h[18..20] == U16Le(recordId) && h[20..28] == ToLe(bodySize, 8)
  {
    hide Pad, ToLe, U16Le;
  }

  /** Every byte of a written header: names are cut or filled with zeros. */
  lemma WrittenHeaderInNumbers(userId: seq<byte>, recordId: uint16, bodySize: uint64, description: seq<byte>)
    ensures var h := EvlrHeaderBytes(userId, recordId, bodySize, description);
      && |h| == 60 && Word16(h, 0) == 0 && Word16(h, 18) == recordId && Word64(h, 20) == bodySize
      && (forall k :: 2 <= k < 18 ==> h[k] == (if k - 2 < |userId| then userId[k - 2] else 0))
      && (forall k :: 28 <= k < 60 ==> h[k] == (if k - 28 < |description| then description[k - 28] else 0))
  {
    hide Word16, Word64, ToLe, U16Le, Pad;
    var h := EvlrHeaderBytes(userId, recordId, bodySize, description);
    HeaderSlices(userId, recordId, bodySize, description);
    Widths();
    U16Bytes(0);
    U16Bytes(recordId);
    WroteWord16(h, 0, 0);
    WroteWord16(h, 18, recordId);
    WroteWord64(h, 20, bodySize);
    PadInNumbers(userId, 16);
    PadInNumbers(description, 32);
  }

  lemma U16Bytes(v: uint16)
    ensures U16Le(v) == ToLe(v, 2)
  {
  }

  lemma PadInNumbers(value: seq<byte>, len: nat)
    ensures forall k :: 0 <= k < len ==> Pad(value, len)[k] == if k < |value| then value[k] else 0
  {
  }

  /** Records written one after another are walked back. */
  lemma {:induction false} ChainReadsBack(bytes: seq<byte>, before: seq<byte>, evlrs: seq<Evlr>, after: seq<byte>)
    requires Sized(evlrs) && bytes == before + EvlrsBytes(evlrs) + after && |bytes| <= UINT64_MAX
    ensures EvlrsFrom(bytes, |before|, |evlrs|) == Ok(RefsFrom(evlrs, |before|))
    decreases |evlrs|
  {
    hide HeaderAt, ReservedAt, Pad, ToLe, EvlrHeaderBytes;
    if evlrs != [] {
      var first, at := evlrs[0], |before|;
      var rest := EvlrsBytes(evlrs[1..]);
      var header := EvlrHeaderBytes(first.userId, first.recordId, |first.data|, first.description);
      assert bytes == before + (header + (first.data + rest + after));
      assert bytes[at..at + LAS_EVLR_HEADER_BYTES] == header;
      HeaderReadsBack(bytes, at, first.userId, first.recordId, |first.data|, first.description);
      assert bytes == (before + first.Bytes()) + rest + after;
      ChainReadsBack(bytes, before + first.Bytes(), evlrs[1..], after);
    }
  }
}
