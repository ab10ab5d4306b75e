/** The slice-by-8 CRC-32 of util/util/sliceby8.cpp and the running checksum of util/util/crc32.hpp. */
module Crc32 {
  // They are proved equal to the bit-serial register of section 8 of RFC 1952.
  //
  // A machine word is the list of its bits, least significant first. So `c[8..]` padded with
  // zeros is `c >> 8`, `c[..8]` is `c & 0xFF`, and the little-endian word made of four bytes
  // is their concatenation.

  type Bits = seq<bool>
  type Byte = b: Bits | |b| == 8 witness seq(8, _ => false)
  type Word = w: Bits | |w| == 32 witness seq(32, _ => false)

  function Zeros(n: nat): (z: Bits)
    ensures |z| == n
  {
    seq(n, _ => false)
  }

  /** The exponents below 32 of the generator of section 8 of RFC 1952. */
  const EXPONENTS := {0, 1, 2, 4, 5, 7, 8, 10, 11, 12, 16, 22, 23, 26}

  /** The generator, bit-reversed. */
  function Polynomial(): Word {
    seq(32, i requires 0 <= i < 32 => 31 - i in EXPONENTS)
  }

  function Xor(a: Bits, b: Bits): (c: Bits)
    requires |a| == |b|
    ensures |c| == |a|
  {
    seq(|a|, i requires 0 <= i < |a| => a[i] != b[i])
  }

  function Not(a: Word): Word {
    seq(32, i requires 0 <= i < 32 => !a[i])
  }

  function Shr(c: Word, n: nat): Word
    requires n <= 32
  {
    c[n..] + Zeros(n)
  }

  function Low(c: Word): Byte {
    c[..8]
  }

  function Widen(b: Bits): Word
    requires |b| <= 32
  {
    b + Zeros(32 - |b|)
  }

  // ----- Reference: a shift register fed one message bit at a time -----

  /** Feeds one message bit into the reflected register. */
  function ShiftIn(c: Word, bit: bool): Word {
    Xor(Shr(c, 1), if c[0] != bit then Polynomial() else Zeros(32))
  }

  function Feed(c: Word, bits: Bits): Word
    decreases |bits|
  {
    if bits == [] then c else Feed(ShiftIn(c, bits[0]), bits[1..])
  }

  function Register(c: Word, s: seq<Byte>): Word
    decreases |s|
  {
    if s == [] then c else Register(Feed(c, s[0]), s[1..])
  }

  /** The checksum of `s` continued from `crc`, the checksum of what came before it. */
  function Checksum(s: seq<Byte>, crc: Word): Word {
    Not(Register(Not(crc), s))
  }

  // ----- The register without input, and the lookup tables -----

  function BitStep(c: Word): Word {
    Xor(Shr(c, 1), if c[0] then Polynomial() else Zeros(32))
  }

  function Steps(c: Word, n: nat): Word
    decreases n, c
  {
    if n == 0 then c else Steps(BitStep(c), n - 1)
  }

  /** Row `k`, column `i` of the lookup tables. */
  function Table(k: nat, i: Byte): Word
    decreases k
  {
    if k == 0 then Steps(Widen(i), 8)
    else
      var previous := Table(k - 1, i);
      Xor(Shr(previous, 8), Table(0, Low(previous)))
  }

  // ----- Linearity over GF(2) -----

  lemma BitStepLinear(x: Word, y: Word)
    ensures BitStep(Xor(x, y)) == Xor(BitStep(x), BitStep(y))
  {
    assert forall i | 0 <= i < 32 :: BitStep(Xor(x, y))[i] == Xor(BitStep(x), BitStep(y))[i];
  }

  lemma {:induction false} StepsLinear(x: Word, y: Word, n: nat)
    ensures Steps(Xor(x, y), n) == Xor(Steps(x, n), Steps(y, n))
    decreases n
  {
    if n > 0 {
      BitStepLinear(x, y);
      StepsLinear(BitStep(x), BitStep(y), n - 1);
    }
  }

  lemma {:induction false} StepsCompose(x: Word, m: nat, n: nat)
    ensures Steps(x, m + n) == Steps(Steps(x, m), n)
    decreases m
  {
    if m > 0 {
      StepsCompose(BitStep(x), m - 1, n);
    }
  }

  /** A register whose `n` low bits are clear only shifts for `n` steps. */
  lemma {:induction false} StepsShift(x: Word, n: nat)
    requires n <= 32
    requires forall i | 0 <= i < n :: !x[i]
    ensures Steps(x, n) == Shr(x, n)
    decreases n
  {
    if n == 0 {
      assert Shr(x, 0) == x;
    } else {
      assert BitStep(x) == Shr(x, 1);
      StepsShift(Shr(x, 1), n - 1);
      assert Shr(Shr(x, 1), n - 1) == Shr(x, n);
    }
  }

  /** The low byte and the rest of a register step independently. */
  lemma StepsSplit(x: Word, n: nat)
    ensures Steps(x, 8 + n) == Xor(Steps(Widen(Low(x)), 8 + n), Steps(Shr(x, 8), n))
  {
    var high: Word := Zeros(8) + x[8..];
    assert x == Xor(Widen(Low(x)), high);
    StepsLinear(Widen(Low(x)), high, 8 + n);
    StepsCompose(high, 8, n);
    StepsShift(high, 8);
    assert Shr(high, 8) == Shr(x, 8);
  }

  /** Eight steps of a register in one lookup. */
  lemma EightSteps(x: Word)
    ensures Steps(x, 8) == Xor(Shr(x, 8), Table(0, Low(x)))
  {
    StepsSplit(x, 0);
    XorCommutes(Shr(x, 8), Table(0, Low(x)));
  }

  /** Each table row advances the one before it by eight more steps. */
  lemma {:induction false} TableIsSteps(k: nat, i: Byte)
    ensures Table(k, i) == Steps(Widen(i), 8 * k + 8)
    decreases k
  {
    if k > 0 {
      TableIsSteps(k - 1, i);
      StepsCompose(Widen(i), 8 * k, 8);
      EightSteps(Table(k - 1, i));
    }
  }

  lemma XorCommutes(a: Word, b: Word)
    ensures Xor(a, b) == Xor(b, a)
  {
  }

  // ----- Input folded into the register -----

  lemma {:induction false} FeedAppend(c: Word, a: Bits, b: Bits)
    ensures Feed(c, a + b) == Feed(Feed(c, a), b)
    decreases |a|
  {
    if a == [] {
      assert a + b == b;
    } else {
      assert (a + b)[1..] == a[1..] + b;
      FeedAppend(ShiftIn(c, a[0]), a[1..], b);
    }
  }

  lemma FeedOne(c: Word, d: Bits)
    requires 0 < |d| <= 32
    ensures BitStep(Xor(c, Widen(d))) == Xor(ShiftIn(c, d[0]), Widen(d[1..]))
  {
    assert forall i | 0 <= i < 32 ::
      BitStep(Xor(c, Widen(d)))[i] == Xor(ShiftIn(c, d[0]), Widen(d[1..]))[i];
  }

  /** Feeding up to 32 bits one by one is xoring them in at once and then stepping. */
  lemma {:induction false} FeedIsSteps(c: Word, d: Bits)
    requires |d| <= 32
    ensures Feed(c, d) == Steps(Xor(c, Widen(d)), |d|)
    decreases |d|
  {
    if d == [] {
      assert Xor(c, Widen(d)) == c;
    } else {
      FeedOne(c, d);
      FeedIsSteps(ShiftIn(c, d[0]), d[1..]);
    }
  }

  /** The single-byte update of the byte loops. */
  function NextByte(c: Word, b: Byte): Word {
    Xor(Table(0, Xor(b, Low(c))), Shr(c, 8))
  }

  /** One table lookup consumes one byte. */
  lemma ByteLookup(c: Word, b: Byte)
    ensures Feed(c, b) == NextByte(c, b)
  {
    FeedIsSteps(c, b);
    var x := Xor(c, Widen(b));
    StepsSplit(x, 0);
    assert Low(x) == Xor(b, Low(c));
    assert Shr(x, 8) == Shr(c, 8);
  }

  // ----- Eight bytes at a time -----

  function Load(s: seq<Byte>, p: nat): Word
    requires p + 4 <= |s|
  {
    var b0: Bits, b1: Bits, b2: Bits, b3: Bits := s[p], s[p + 1], s[p + 2], s[p + 3];
    b0 + b1 + b2 + b3
  }

  /** One lookup in row `k` and eight fewer steps for the rest of the register. */
  lemma OneLookup(x: Word, k: nat)
    ensures Steps(x, 8 * k + 8) == Xor(Table(k, Low(x)), Steps(Shr(x, 8), 8 * k))
  {
    StepsSplit(x, 8 * k);
    TableIsSteps(k, Low(x));
  }

  lemma LastLookup(x: Word, k: nat)
    requires Shr(x, 8) == Zeros(32)
    ensures Steps(x, 8 * k + 8) == Table(k, Low(x))
  {
    TableIsSteps(k, Low(x));
    assert forall i | 8 <= i < 32 :: x[i] == Shr(x, 8)[i - 8];
    assert Widen(Low(x)) == x;
  }

  lemma ShrCompose(x: Word, m: nat, n: nat)
    requires m + n <= 32
    ensures Shr(Shr(x, m), n) == Shr(x, m + n)
  {
  }

  /** The four lookups, in rows `k + 3` down to `k`, of the bytes of `x`. */
  function Lookups(x: Word, k: nat): Word {
    Xor(Xor(Xor(Table(k + 3, Low(x)), Table(k + 2, Low(Shr(x, 8)))),
            Table(k + 1, Low(Shr(x, 16)))), Table(k, Low(Shr(x, 24))))
  }

  /** The four lookups of a second word, with the register xored in between the two pairs. */
  function LookupsAround(x: Word, crc: Word): Word {
    Xor(Xor(Xor(Xor(Table(3, Low(x)), Table(2, Low(Shr(x, 8)))), crc),
            Table(1, Low(Shr(x, 16)))), Table(0, Low(Shr(x, 24))))
  }

  /** Four lookups advance a register by `8 * k + 32` steps. */
  lemma FourLookups(x: Word, k: nat)
    ensures Steps(x, 8 * k + 32) == Lookups(x, k)
  {
    var x1, x2, x3 := Shr(x, 8), Shr(x, 16), Shr(x, 24);
    OneLookup(x, k + 3);
    ShrCompose(x, 8, 8);
    OneLookup(x1, k + 2);
    ShrCompose(x, 16, 8);
    OneLookup(x2, k + 1);
    ShrCompose(x, 24, 8);
    assert Shr(x, 32) == Zeros(32);
    LastLookup(x3, k);
    XorChain(Table(k + 3, Low(x)), Table(k + 2, Low(x1)), Table(k + 1, Low(x2)), Table(k, Low(x3)));
  }

  lemma XorChain(a: Word, b: Word, c: Word, d: Word)
    ensures Xor(a, Xor(b, Xor(c, d))) == Xor(Xor(Xor(a, b), c), d)
  {
  }

  lemma XorInterleave(a: Word, b: Word, crc: Word, c: Word, d: Word)
    ensures Xor(Xor(Xor(Xor(a, b), crc), c), d) == Xor(crc, Xor(Xor(Xor(a, b), c), d))
  {
  }

  /** Two words fed one after the other: the first one steps on while the second one enters. */
  lemma FeedTwoWords(c: Word, first: Word, second: Word)
    ensures Feed(Feed(c, first), second) == Xor(Steps(Xor(c, first), 64), Steps(second, 32))
  {
    FeedIsSteps(c, first);
    FeedIsSteps(Feed(c, first), second);
    assert Widen(first) == first && Widen(second) == second;
    StepsLinear(Feed(c, first), second, 32);
    StepsCompose(Xor(c, first), 32, 32);
  }

  lemma {:induction false} RegisterAppend(c: Word, a: seq<Byte>, b: seq<Byte>)
    ensures Register(c, a + b) == Register(Register(c, a), b)
    decreases |a|
  {
    if a == [] {
      assert a + b == b;
    } else {
      assert (a + b)[1..] == a[1..] + b;
      RegisterAppend(Feed(c, a[0]), a[1..], b);
    }
  }

  /** The register after the next four bytes is the register fed with their little-endian word. */
  lemma RegisterWord(c: Word, s: seq<Byte>, p: nat)
    requires p + 4 <= |s|
    ensures Register(c, s[p..]) == Register(Feed(c, Load(s, p)), s[p + 4..])
  {
    var b0: Bits, b1: Bits, b2: Bits, b3: Bits := s[p], s[p + 1], s[p + 2], s[p + 3];
    FeedAppend(c, b0 + b1 + b2, b3);
    FeedAppend(c, b0 + b1, b2);
    FeedAppend(c, b0, b1);
    RegisterByte(c, s, p);
    RegisterByte(Feed(c, s[p]), s, p + 1);
    RegisterByte(Feed(Feed(c, s[p]), s[p + 1]), s, p + 2);
    RegisterByte(Feed(Feed(Feed(c, s[p]), s[p + 1]), s[p + 2]), s, p + 3);
  }

  lemma RegisterByte(c: Word, s: seq<Byte>, p: nat)
    requires p < |s|
    ensures Register(c, s[p..]) == Register(Feed(c, s[p]), s[p + 1..])
  {
    assert s[p..][1..] == s[p + 1..];
  }

  /** Checksumming a stream piece by piece gives the checksum of the whole stream. */
  lemma ChecksumAppend(a: seq<Byte>, b: seq<Byte>, crc: Word)
    ensures Checksum(a + b, crc) == Checksum(b, Checksum(a, crc))
  {
    RegisterAppend(Not(crc), a, b);
    assert Not(Not(Register(Not(crc), a))) == Register(Not(crc), a);
  }

  // ----- The program -----

  /** The body of the block loop. */
  function NextBlock(crc: Word, first: Word, second: Word): Word {
    LookupsAround(second, Lookups(Xor(crc, first), 4))
  }

  /** One pass of the block loop: the register after the next eight bytes. */
  lemma {:induction false} BlockStep(crc: Word, buf: seq<Byte>, p: nat)
    requires p + 8 <= |buf|
    ensures Register(crc, buf[p..]) ==
            Register(NextBlock(crc, Load(buf, p), Load(buf, p + 4)), buf[p + 8..])
  {
    var first, second := Load(buf, p), Load(buf, p + 4);
    RegisterWord(crc, buf, p);
    RegisterWord(Feed(crc, first), buf, p + 4);
    FeedTwoWords(crc, first, second);
    FourLookups(Xor(crc, first), 4);
    FourLookups(second, 0);
    XorInterleave(Table(3, Low(second)), Table(2, Low(Shr(second, 8))), Lookups(Xor(crc, first), 4),
                  Table(1, Low(Shr(second, 16))), Table(0, Low(Shr(second, 24))));
  }

  /** The byte loops: the register after the next byte. */
  lemma ByteStep(crc: Word, buf: seq<Byte>, p: nat)
    requires p < |buf|
    ensures Register(crc, buf[p..]) ==
            Register(NextByte(crc, buf[p]), buf[p + 1..])
  {
    RegisterByte(crc, buf, p);
    ByteLookup(crc, buf[p]);
  }

  /** What is left of the buffer completes `crc` to the register of the whole buffer. */
  ghost predicate OnTrack(buf: seq<Byte>, start: Word, crc: Word, p: nat)
  {
    p <= |buf| && Register(crc, buf[p..]) == Register(start, buf)
  }

  lemma {:induction false} ByteKeepsTrack(buf: seq<Byte>, start: Word, crc: Word, p: nat)
    requires p < |buf| && OnTrack(buf, start, crc, p)
    ensures OnTrack(buf, start, NextByte(crc, buf[p]), p + 1)
  {
    ByteStep(crc, buf, p);
  }

  lemma {:induction false} BlockKeepsTrack(buf: seq<Byte>, start: Word, crc: Word, p: nat)
    requires p + 8 <= |buf| && OnTrack(buf, start, crc, p)
    ensures OnTrack(buf, start, NextBlock(crc, Load(buf, p), Load(buf, p + 4)), p + 8)
  {
    BlockStep(crc, buf, p);
  }

  lemma TrackStarts(buf: seq<Byte>, start: Word)
    ensures OnTrack(buf, start, start, 0)
  {
    assert buf[0..] == buf;
  }

  lemma TrackEnds(buf: seq<Byte>, start: Word, crc: Word)
    requires OnTrack(buf, start, crc, |buf|)
    ensures crc == Register(start, buf)
  {
  }

  predicate Aligned(address: nat) {
    address % 8 == 0
  }

  /** How many bytes the prologue consumes. */
  function Padding(address: nat): (n: nat)
    ensures n <= 7
  {
    (8 - address % 8) % 8
  }

  lemma PaddingAligns(address: nat, p: nat)
    requires p <= Padding(address) && !Aligned(address + p)
    ensures p < Padding(address)
  {
  }

  /** The part guarded by `size > 8`: bytes up to an aligned address, then whole blocks. */
  method AlignedBlocks(buf: seq<Byte>, address: nat, crc0: Word) returns (crc: Word, p: nat, size: nat)
    requires |buf| > 8
    ensures p + size == |buf| && size < 8
    ensures OnTrack(buf, crc0, crc, p)
  {
    crc, p, size := crc0, 0, |buf|;
    TrackStarts(buf, crc0);

    while !Aligned(address + p)
      invariant p + size == |buf| && p <= Padding(address)
      invariant OnTrack(buf, crc0, crc, p)
      decreases 8 - p
    {
      PaddingAligns(address, p);
      ByteKeepsTrack(buf, crc0, crc, p);
      crc := NextByte(crc, buf[p]);
      p, size := p + 1, size - 1;
    }

    var limit := p + (size - size % 8);
    size := size % 8;
    crc := WholeBlocks(buf, crc0, crc, p, limit);
    p := limit;
  }

  lemma RoomForBlock(p: nat, limit: nat)
    requires p < limit && (limit - p) % 8 == 0
    ensures p + 8 <= limit && (limit - (p + 8)) % 8 == 0
  {
  }

  /** The body of that loop. */
  method OneBlock(buf: seq<Byte>, ghost start: Word, crc: Word, p: nat) returns (next: Word)
    requires p + 8 <= |buf| && OnTrack(buf, start, crc, p)
    ensures OnTrack(buf, start, next, p + 8)
  {
    BlockKeepsTrack(buf, start, crc, p);
    next := NextBlock(crc, Load(buf, p), Load(buf, p + 4));
  }

  /** The loop over the whole blocks before `limit`. */
  method WholeBlocks(buf: seq<Byte>, ghost start: Word, crc0: Word, p0: nat, limit: nat) returns (crc: Word)
    requires p0 <= limit <= |buf| && (limit - p0) % 8 == 0 && OnTrack(buf, start, crc0, p0)
    ensures OnTrack(buf, start, crc, limit)
  {
    crc := crc0;
    var p := p0;
    while p < limit
      invariant p <= limit && (limit - p) % 8 == 0
      invariant OnTrack(buf, start, crc, p)
    {
      RoomForBlock(p, limit);
      crc := OneBlock(buf, start, crc, p);
      p := p + 8;
    }
  }

  /** `buf` is what the pointer and the size of the original delimit, so every read at an
      index of `buf` lies inside the caller's buffer; `address` is where it starts in memory. */
  method SliceBy8(buf: seq<Byte>, address: nat, crc0: Word) returns (result: Word)
    ensures result == Checksum(buf, crc0)
  {
    var crc: Word := Not(crc0);
    var p: nat, size: nat := 0, |buf|;
    TrackStarts(buf, crc);

    if size > 8 {
      crc, p, size := AlignedBlocks(buf, address, crc);
    }

    while size != 0
      invariant p + size == |buf|
      invariant OnTrack(buf, Not(crc0), crc, p)
    {
      ByteKeepsTrack(buf, Not(crc0), crc, p);
      crc := NextByte(crc, buf[p]);
      p, size := p + 1, size - 1;
    }
    TrackEnds(buf, Not(crc0), crc);
    result := Not(crc);
  }

  /** The running checksum of a stream. */
  class CRC32 {
    var checksum: Word
    ghost var hashed: seq<Byte>

    ghost predicate Valid()
      reads this
    {
      checksum == Checksum(hashed, Zeros(32))
    }

    constructor ()
      ensures Valid() && hashed == []
    {
      checksum, hashed := Zeros(32), [];
      new;
      assert Not(Not(Zeros(32))) == Zeros(32);
    }

    method Update(bytes: seq<Byte>, address: nat)
      requires Valid()
      modifies this
      ensures Valid() && hashed == old(hashed) + bytes
    {
      ChecksumAppend(hashed, bytes, Zeros(32));
      checksum := SliceBy8(bytes, address, checksum);
      hashed := hashed + bytes;
    }
  }
}
