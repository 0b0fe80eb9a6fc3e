/** Little-endian words, byte by byte. */
module Words {
  import opened Core
  import opened Codec

  function Word16(b: seq<byte>, at: nat): nat
    requires at + 2 <= |b|
  {
    var b0: nat, b1: nat := b[at], b[at + 1];
    b0 + 0x100 * b1
  }

  function Word32(b: seq<byte>, at: nat): nat
    requires at + 4 <= |b|
  {
    var b0: nat, b1: nat, b2: nat, b3: nat := b[at], b[at + 1], b[at + 2], b[at + 3];
    b0 + 0x100 * b1 + 0x1_0000 * b2 + 0x100_0000 * b3
  }

  function Word64(b: seq<byte>, at: nat): nat
    requires at + 8 <= |b|
  {
    Word32(b, at) + 0x1_0000_0000 * Word32(b, at + 4)
  }

  /** Two's complement. */
  function Int16(b: seq<byte>, at: nat): int
    requires at + 2 <= |b|
  {
    if Word16(b, at) >= 0x8000 then Word16(b, at) - 0x1_0000 else Word16(b, at)
  }

  function Int32(b: seq<byte>, at: nat): int
    requires at + 4 <= |b|
  {
    if Word32(b, at) >= 0x8000_0000 then Word32(b, at) - 0x1_0000_0000 else Word32(b, at)
  }

  // What the codec reads ----------------------------------------------------

  lemma FromLeStep(s: seq<byte>)
    requires s != []
    ensures FromLe(s) == s[0] + 256 * FromLe(s[1..])
    ensures FromLe([]) == 0
  {
  }

  lemma FromLe2(s: seq<byte>)
    requires |s| == 2
    ensures FromLe(s) == Word16(s, 0)
  {
    hide FromLe;
    FromLeStep(s);
    FromLeStep(s[1..]);
    assert s[1..][1..] == [];
  }

  lemma FromLe4(s: seq<byte>)
    requires |s| == 4
    ensures FromLe(s) == Word32(s, 0)
  {
    hide FromLe;
    FromLeStep(s);
    FromLeStep(s[1..]);
    assert s[1..][1..] == s[2..];
    FromLe2(s[2..]);
  }

  lemma FromLe8(s: seq<byte>)
    requires |s| == 8
    ensures FromLe(s) == FromLe(s[..4]) + 0x1_0000_0000 * FromLe(s[4..])
  {
    hide FromLe;
    FromLe4(s[..4]);
    FromLeStep(s);
    FromLeStep(s[1..]);
    FromLeStep(s[2..]);
    FromLeStep(s[3..]);
    assert s[1..][1..] == s[2..] && s[2..][1..] == s[3..] && s[3..][1..] == s[4..];
  }

  lemma ReadsWord16(b: seq<byte>, at: nat)
    requires at + 2 <= |b|
    ensures FromLe(b[at..at + 2]) == Word16(b, at) && U16At(b, at) == Word16(b, at)
  {
    hide FromLe;
    FromLe2(b[at..at + 2]);
  }

  lemma ReadsWord32(b: seq<byte>, at: nat)
    requires at + 4 <= |b|
    ensures FromLe(b[at..at + 4]) == Word32(b, at) && I32At(b, at) == Int32(b, at)
  {
    hide FromLe;
    FromLe4(b[at..at + 4]);
  }

  lemma ReadsWord64(b: seq<byte>, at: nat)
    requires at + 8 <= |b|
    ensures FromLe(b[at..at + 8]) == Word64(b, at) && U64At(b, at) == Word64(b, at)
  {
    hide FromLe;
    var s := b[at..at + 8];
    FromLe8(s);
    assert s[..4] == b[at..at + 4] && s[4..] == b[at + 4..at + 8];
    ReadsWord32(b, at);
    ReadsWord32(b, at + 4);
  }

  // What the codec writes ---------------------------------------------------

  lemma WroteWord16(b: seq<byte>, at: nat, v: uint16)
    requires at + 2 <= |b| && b[at..at + 2] == ToLe(v, 2)
    ensures Word16(b, at) == v
  {
    Widths();
    LeRoundTrip(v, 2);
    ReadsWord16(b, at);
  }

  lemma WroteWord32(b: seq<byte>, at: nat, v: uint32)
    requires at + 4 <= |b| && b[at..at + 4] == ToLe(v, 4)
    ensures Word32(b, at) == v
  {
    Widths();
    LeRoundTrip(v, 4);
    ReadsWord32(b, at);
  }

  lemma WroteInt32(b: seq<byte>, at: nat, v: int32)
    requires at + 4 <= |b| && b[at..at + 4] == I32Le(v)
    ensures Int32(b, at) == v
  {
    WroteWord32(b, at, Unsigned(v));
  }

  lemma WroteWord64(b: seq<byte>, at: nat, v: uint64)
    requires at + 8 <= |b| && b[at..at + 8] == ToLe(v, 8)
    ensures Word64(b, at) == v
  {
    Widths();
    LeRoundTrip(v, 8);
    ReadsWord64(b, at);
  }
}
