/** The row iterator over selected chunks (copc-reader/src/points.rs). */
module PointRows {
  import opened Core
  import opened Bounds
  import opened PointRecord
  import opened Columns

  /** A record still to decode: its chunk's bytes and its place in the chunk. */
  type Slot = (seq<byte>, nat)

  ghost function SlotsFrom(chunk: Chunk, i: nat): (s: seq<Slot>)
    requires i <= chunk.count
    ensures |s| == chunk.count - i
    decreases chunk.count - i
  {
    if i == chunk.count then [] else [(chunk.bytes, i)] + SlotsFrom(chunk, i + 1)
  }

  lemma SlotsHead(chunk: Chunk, i: nat)
    requires i < chunk.count
    ensures SlotsFrom(chunk, i) == [(chunk.bytes, i)] + SlotsFrom(chunk, i + 1)
    ensures SlotsFrom(chunk, chunk.count) == []
  {
  }

  ghost function SlotsOf(chunks: seq<Chunk>): seq<Slot> {
    if chunks == [] then [] else SlotsFrom(chunks[0], 0) + SlotsOf(chunks[1..])
  }

  function Total(chunks: seq<Chunk>): nat {
    if chunks == [] then 0 else Total(chunks[..|chunks| - 1]) + chunks[|chunks| - 1].count
  }

  lemma {:induction false} TotalFront(chunks: seq<Chunk>)
    requires chunks != []
    ensures Total(chunks) == chunks[0].count + Total(chunks[1..])
    decreases |chunks|
  {
    if |chunks| > 1 {
      var n := |chunks| - 1;
      TotalFront(chunks[..n]);
      assert chunks[..n][1..] == chunks[1..][..n - 1];
    }
  }

  lemma {:induction false} SlotsTotal(chunks: seq<Chunk>)
    ensures |SlotsOf(chunks)| == Total(chunks)
  {
    if chunks != [] {
      SlotsTotal(chunks[1..]);
      TotalFront(chunks);
    }
  }

  lemma RecordSized(dec: Decoder, bytes: seq<byte>, i: nat)
    requires dec.Valid()
    ensures dec.record(bytes, i).Ok? ==> |dec.record(bytes, i).value| == dec.format.Len()
  {
  }

  lemma ScanStep(dec: Decoder, rest: seq<Slot>)
    requires dec.Valid()
    ensures rest == [] ==> Scan(dec, rest) == (None, [])
    ensures rest != [] ==> var buf := dec.record(rest[0].0, rest[0].1);
      if buf.Err? then Scan(dec, rest) == (Some(Err(buf.error)), rest)
      else
        |buf.value| == dec.format.Len() &&
        if dec.Accepts(dec.RowOf(buf.value)) then Scan(dec, rest) == (Some(Ok(dec.RowOf(buf.value))), rest[1..])
        else Scan(dec, rest) == Scan(dec, rest[1..])
  {
    hide DecodeRow;
  }

  /** What the next call returns from the records left, and those left after it: a record that fails stays. */
  ghost function Scan(dec: Decoder, rest: seq<Slot>): (Option<Result<Row>>, seq<Slot>)
    requires dec.Valid()
  {
    if rest == [] then (None, [])
    else
      match dec.record(rest[0].0, rest[0].1)
      case Err(e) => (Some(Err(e)), rest)
      case Ok(buf) => if dec.Accepts(dec.RowOf(buf)) then (Some(Ok(dec.RowOf(buf))), rest[1..]) else Scan(dec, rest[1..])
  }

  /** The rows that calls return from the records left, until the end or a record that fails. */
  ghost function Yields(dec: Decoder, rest: seq<Slot>): seq<Row>
    requires dec.Valid()
  {
    if rest == [] then []
    else
      match dec.record(rest[0].0, rest[0].1)
      case Err(_) => []
      case Ok(buf) => (if dec.Accepts(dec.RowOf(buf)) then [dec.RowOf(buf)] else []) + Yields(dec, rest[1..])
  }

  class PointIter {
    const dec: Decoder
    const chunks: seq<Chunk>
    var nextChunk: nat
    var currentChunkPointsLeft: nat
    var remainingCandidatePoints: nat
    var decodedPoints: nat
    var finished: bool

    ghost predicate Valid()
      reads `nextChunk, `currentChunkPointsLeft, `remainingCandidatePoints
    {
      && dec.Valid() && nextChunk <= |chunks|
      && (currentChunkPointsLeft > 0 ==> nextChunk > 0 && currentChunkPointsLeft <= chunks[nextChunk - 1].count)
      && remainingCandidatePoints == |Rest()|
    }

    /** The records still to decode. */
    ghost function Rest(): seq<Slot>
      reads `nextChunk, `currentChunkPointsLeft
      requires nextChunk <= |chunks|
      requires currentChunkPointsLeft > 0 ==> nextChunk > 0 && currentChunkPointsLeft <= chunks[nextChunk - 1].count
    {
      (if currentChunkPointsLeft > 0 then
         SlotsFrom(chunks[nextChunk - 1], chunks[nextChunk - 1].count - currentChunkPointsLeft)
       else []) + SlotsOf(chunks[nextChunk..])
    }

    constructor (dec: Decoder, chunks: seq<Chunk>)
      requires dec.Valid()
      ensures Valid() && this.dec == dec && this.chunks == chunks && !finished && Rest() == SlotsOf(chunks)
    {
      this.dec, this.chunks := dec, chunks;
      nextChunk, currentChunkPointsLeft, decodedPoints, finished := 0, 0, 0, false;
      remainingCandidatePoints := Total(chunks);
      new;
      SlotsTotal(chunks);
      assert chunks[0..] == chunks;
    }

    method LoadNextChunk() returns (loaded: bool)
      requires Valid() && currentChunkPointsLeft == 0
      modifies `nextChunk, `currentChunkPointsLeft
      ensures Valid() && Rest() == old(Rest())
      ensures loaded <==> currentChunkPointsLeft > 0
      ensures !loaded ==> Rest() == []
    {
      while nextChunk < |chunks|
        invariant Valid() && currentChunkPointsLeft == 0 && Rest() == old(Rest())
        decreases |chunks| - nextChunk
      {
        var chunk := chunks[nextChunk];
        assert chunks[nextChunk..][0] == chunk && chunks[nextChunk..][1..] == chunks[nextChunk + 1..];
        nextChunk := nextChunk + 1;
        if chunk.count == 0 {
          continue;
        }
        currentChunkPointsLeft := chunk.count;
        return true;
      }
      assert chunks[nextChunk..] == [];
      return false;
    }

    /** Decodes the next record of the current chunk; one that fails is not counted as taken. */
    method TakeRecord() returns (buf: Result<seq<byte>>)
      requires Valid() && currentChunkPointsLeft > 0
      modifies `currentChunkPointsLeft, `remainingCandidatePoints, `decodedPoints
      ensures Valid() && |old(Rest())| > 0 && Rest() == if buf.Ok? then old(Rest())[1..] else old(Rest())
      ensures buf == dec.record(old(Rest())[0].0, old(Rest())[0].1)
    {
      hide SlotsOf, SlotsFrom, Decoder.Valid;
      ghost var before := Rest();
      var chunk := chunks[nextChunk - 1];
      var at := chunk.count - currentChunkPointsLeft;
      SlotsHead(chunk, at);
      assert before == [(chunk.bytes, at)] + (SlotsFrom(chunk, at + 1) + SlotsOf(chunks[nextChunk..]));
      buf := dec.record(chunk.bytes, at);
      if buf.Err? {
        return;
      }
      currentChunkPointsLeft := currentChunkPointsLeft - 1;
      remainingCandidatePoints := remainingCandidatePoints - 1;
      decodedPoints := decodedPoints + 1;
      assert Rest() == SlotsFrom(chunk, at + 1) + SlotsOf(chunks[nextChunk..]);
    }

    /**
     `next`: the first accepted record left, decoded. An error ends the iteration, yet the size hint goes on counting the
     record that failed and all after it.
     */
    method Next() returns (r: Option<Result<Row>>)
      requires Valid()
      modifies this
      ensures Valid()
      ensures old(finished) ==> r == None && finished && Rest() == old(Rest())
      ensures !old(finished) ==> (r, Rest()) == Scan(dec, old(Rest()))
      ensures !old(finished) ==> (finished <==> r.None? || r.value.Err?)
      ensures SizeHint().1 == |Rest()| && (r.Some? && r.value.Err? ==> Rest() != [])
    {
      hide Scan, DecodeRow, Decoder.Valid, PointIter.Rest, SlotsOf, SlotsFrom, Box.Contains;
      if finished {
        return None;
      }
      while true
        invariant Valid() && !finished && Scan(dec, Rest()) == Scan(dec, old(Rest()))
        decreases |Rest()|
      {
        ScanStep(dec, Rest());
        if currentChunkPointsLeft == 0 {
          var loaded := LoadNextChunk();
          if !loaded {
            finished := true;
            return None;
          }
        }
        ghost var before := Rest();
        var buf := TakeRecord();
        if buf.Err? {
          finished := true;
          return Some(Err(buf.error));
        }
        assert |buf.value| == dec.format.Len() by {
          RecordSized(dec, before[0].0, before[0].1);
        }
        var row := dec.RowOf(buf.value);
        if dec.bounds.Some? && !dec.bounds.value.Contains(Vec3(row.x, row.y, row.z)) {
          continue;
        }
        return Some(Ok(row));
      }
    }

    /** `size_hint`: lower and upper bound on the rows left. */
    function SizeHint(): (hint: (nat, nat))
      reads this
    {
      var lower: nat := if dec.bounds.None? then remainingCandidatePoints else 0;
      (lower, remainingCandidatePoints)
    }
  }

  ghost predicate SlotsDecode(dec: Decoder, rest: seq<Slot>) {
    forall i :: 0 <= i < |rest| ==> dec.record(rest[i].0, rest[i].1).Ok?
  }

  /**
   Each call returns the first of the rows left and leaves the others; it returns none when no record is left, and an
   error when no row comes before a record that fails, which then stays first.
   */
  lemma {:induction false} ScanYields(dec: Decoder, rest: seq<Slot>)
    requires dec.Valid()
    ensures var (r, after) := Scan(dec, rest);
      && (SlotsDecode(dec, after) <==> SlotsDecode(dec, rest))
      && (r.None? ==> Yields(dec, rest) == [] && after == [])
      && (r.Some? && r.value.Ok? ==> Yields(dec, rest) == [r.value.value] + Yields(dec, after))
      && (r.Some? && r.value.Err? ==> Yields(dec, rest) == [] && after != [] && dec.record(after[0].0, after[0].1).Err?)
  {
    if rest != [] {
      hide DecodeRow, Decoder.Accepts;
      SlotsDecodeTail(dec, rest);
      ScanYields(dec, rest[1..]);
    }
  }

  lemma SlotsDecodeTail(dec: Decoder, rest: seq<Slot>)
    requires rest != []
    ensures SlotsDecode(dec, rest) <==> dec.record(rest[0].0, rest[0].1).Ok? && SlotsDecode(dec, rest[1..])
  {
    assert rest == [rest[0]] + rest[1..];
  }

  /** The size hint bounds the rows left; without a query box it is exact until, and only until, a record left fails. */
  lemma {:induction false} HintIsRowsLeft(dec: Decoder, rest: seq<Slot>)
    requires dec.Valid()
    ensures |Yields(dec, rest)| <= |rest|
    ensures dec.bounds.None? ==> (|Yields(dec, rest)| == |rest| <==> SlotsDecode(dec, rest))
  {
    if rest != [] {
      hide DecodeRow, SlotsDecode;
      SlotsDecodeTail(dec, rest);
      HintIsRowsLeft(dec, rest[1..]);
    } else {
      NoYields(dec);
    }
  }

  lemma {:induction false} YieldsAppend(dec: Decoder, a: seq<Slot>, b: seq<Slot>)
    requires dec.Valid() && SlotsDecode(dec, a)
    ensures Yields(dec, a + b) == Yields(dec, a) + Yields(dec, b)
  {
    hide DecodeRow, Decoder.Accepts;
    if a == [] {
      assert a + b == b;
    } else {
      YieldsAppend(dec, a[1..], b);
      assert (a + b)[1..] == a[1..] + b;
    }
  }

  lemma {:induction false} ChunkYields(dec: Decoder, chunk: Chunk, i: nat)
    requires dec.Valid() && dec.Decodes(chunk.bytes, chunk.count) && i <= chunk.count
    ensures SlotsDecode(dec, SlotsFrom(chunk, i))
    ensures dec.Rows(chunk.bytes, i) + Yields(dec, SlotsFrom(chunk, i)) == dec.Rows(chunk.bytes, chunk.count)
    decreases chunk.count - i
  {
    hide DecodeRow, Decoder.Rows, Decoder.Accepts;
    if i < chunk.count {
      ChunkYields(dec, chunk, i + 1);
      OneMoreRow(dec, chunk.bytes, i);
      var slots := SlotsFrom(chunk, i);
      assert slots[0] == (chunk.bytes, i) && slots[1..] == SlotsFrom(chunk, i + 1);
    }
  }

  lemma {:induction false} RowsFront(dec: Decoder, chunks: seq<Chunk>)
    requires dec.Valid() && dec.AllDecode(chunks) && chunks != []
    ensures dec.Decodes(chunks[0].bytes, chunks[0].count) && dec.AllDecode(chunks[1..])
    ensures dec.AllRows(chunks) == dec.Rows(chunks[0].bytes, chunks[0].count) + dec.AllRows(chunks[1..])
    decreases |chunks|
  {
    hide Decoder.Rows, Decoder.Decodes;
    var n := |chunks| - 1;
    if n > 0 {
      RowsFront(dec, chunks[..n]);
      assert chunks[..n][1..] == chunks[1..][..n - 1];
    } else {
      NoChunks(dec);
      assert chunks[..0] == [] && chunks[1..] == [];
    }
  }

  /** The row iterator returns, in order, exactly the rows a column read of the same chunks holds. */
  lemma {:induction false} IteratorMatchesColumns(dec: Decoder, chunks: seq<Chunk>)
    requires dec.Valid() && dec.AllDecode(chunks)
    ensures SlotsDecode(dec, SlotsOf(chunks)) && Yields(dec, SlotsOf(chunks)) == dec.AllRows(chunks)
  {
    hide Yields, Decoder.Rows, Decoder.Decodes, Decoder.AllRows, Decoder.AllDecode, Decoder.Valid, SlotsFrom, SlotsOf, SlotsDecode;
    SlotsFront(chunks);
    if chunks == [] {
      NoChunks(dec);
      NoYields(dec);
    } else {
      RowsFront(dec, chunks);
      IteratorMatchesColumns(dec, chunks[1..]);
      ChunkYields(dec, chunks[0], 0);
      NoRows(dec, chunks[0].bytes);
      var a, b := SlotsFrom(chunks[0], 0), SlotsOf(chunks[1..]);
      YieldsAppend(dec, a, b);
      SlotsDecodeAppend(dec, a, b);
      assert [] + Yields(dec, a) == Yields(dec, a);
    }
  }

  lemma SlotsFront(chunks: seq<Chunk>)
    ensures chunks == [] ==> SlotsOf(chunks) == []
    ensures chunks != [] ==> SlotsOf(chunks) == SlotsFrom(chunks[0], 0) + SlotsOf(chunks[1..])
  {
    hide SlotsFrom;
  }

  lemma SlotsDecodeAppend(dec: Decoder, a: seq<Slot>, b: seq<Slot>)
    requires SlotsDecode(dec, a) && SlotsDecode(dec, b)
    ensures SlotsDecode(dec, a + b)
  {
  }

  lemma NoYields(dec: Decoder)
    requires dec.Valid()
    ensures Yields(dec, []) == [] && SlotsDecode(dec, [])
  {
  }
}
