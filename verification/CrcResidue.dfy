/** What pins the checksum of util/util/sliceby8.cpp to its constants: the generator, entries of the tables, the residue. */
module CrcResidue {
  import opened Crc32

  // ----- Machine words -----

  /** The masks of single bits, least significant first. */
  const MASKS: seq<bv32> :=
    [0x1, 0x2, 0x4, 0x8, 0x10, 0x20, 0x40, 0x80,
     0x100, 0x200, 0x400, 0x800, 0x1000, 0x2000, 0x4000, 0x8000,
     0x10000, 0x20000, 0x40000, 0x80000, 0x100000, 0x200000, 0x400000, 0x800000,
     0x1000000, 0x2000000, 0x4000000, 0x8000000, 0x10000000, 0x20000000, 0x40000000, 0x80000000]

  predicate Has(v: bv32, mask: bv32) {
    v & mask != 0
  }

  /** The bits of a machine word. */
  function WordOf(v: bv32): Word {
    WordBy(MASKS, v)
  }

  function WordBy(masks: seq<bv32>, v: bv32): Word
    requires |masks| == 32
  {
    seq(32, i requires 0 <= i < 32 => Has(v, masks[i]))
  }

  ghost predicate Doubling(masks: seq<bv32>) {
    && |masks| == 32 && masks[0] == 1 && masks[31] == 0x80000000
    && forall i, j | 0 <= i && i + 1 == j < 32 :: masks[j] == masks[i] << 1
  }

  lemma NextMask(i: nat)
    requires i < 31
    ensures MASKS[i + 1] == MASKS[i] << 1
  {
    if i < 8 {
      if i < 4 {
      } else {
      }
    } else if i < 16 {
      if i < 12 {
      } else {
      }
    } else if i < 24 {
      if i < 20 {
      } else {
      }
    }
  }

  lemma MasksAreDoubling()
    ensures Doubling(MASKS)
  {
    forall i, j | 0 <= i && i + 1 == j < 32
      ensures MASKS[j] == MASKS[i] << 1
    {
      NextMask(i);
    }
  }

  lemma ShiftBit(v: bv32, m: bv32, n: bv32)
    requires n == m << 1
    ensures Has(v >> 1, m) == Has(v, n)
  {
  }

  lemma TopBit(v: bv32)
    ensures !Has(v >> 1, 0x80000000)
  {
  }

  lemma ShiftedBit(masks: seq<bv32>, v: bv32, i: nat)
    requires Doubling(masks) && i < 31
    ensures Has(v >> 1, masks[i]) == Has(v, masks[i + 1])
  {
    ShiftBit(v, masks[i], masks[i + 1]);
  }

  lemma ShiftBy(masks: seq<bv32>, v: bv32)
    requires Doubling(masks)
    ensures Shr(WordBy(masks, v), 1) == WordBy(masks, v >> 1)
  {
    var w := WordBy(masks, v);
    forall i | 0 <= i < 32
      ensures Shr(w, 1)[i] == WordBy(masks, v >> 1)[i]
    {
      if i < 31 {
        ShiftedBit(masks, v, i);
      } else {
        TopBit(v);
      }
    }
  }

  ghost predicate Single(mask: bv32) {
    mask & (mask - 1) == 0
  }

  lemma Doubled(m: bv32, n: bv32)
    requires n == m << 1 && Single(m)
    ensures Single(n)
  {
  }

  lemma {:induction false} AllSingle(masks: seq<bv32>, i: nat)
    requires Doubling(masks) && i < 32
    ensures Single(masks[i])
  {
    if i > 0 {
      AllSingle(masks, i - 1);
      Doubled(masks[i - 1], masks[i]);
    }
  }

  predicate Differ(a: bool, b: bool) {
    a != b
  }

  lemma XorBit(v: bv32, w: bv32, m: bv32)
    requires Single(m)
    ensures Has(v ^ w, m) == Differ(Has(v, m), Has(w, m))
  {
  }

  lemma XorAt(masks: seq<bv32>, v: bv32, w: bv32, i: nat)
    requires Doubling(masks) && i < 32
    ensures Has(v ^ w, masks[i]) == Differ(Has(v, masks[i]), Has(w, masks[i]))
  {
    AllSingle(masks, i);
    XorBit(v, w, masks[i]);
  }

  lemma XorBy(masks: seq<bv32>, v: bv32, w: bv32)
    requires Doubling(masks)
    ensures Xor(WordBy(masks, v), WordBy(masks, w)) == WordBy(masks, v ^ w)
  {
    forall i | 0 <= i < 32
      ensures WordBy(masks, v ^ w)[i] == Differ(WordBy(masks, v)[i], WordBy(masks, w)[i])
    {
      XorAt(masks, v, w, i);
    }
  }

  lemma XorIs(v: bv32, w: bv32)
    ensures Xor(WordOf(v), WordOf(w)) == WordOf(v ^ w)
  {
    MasksAreDoubling();
    XorBy(MASKS, v, w);
  }

  lemma ShiftIs(v: bv32)
    ensures Shr(WordOf(v), 1) == WordOf(v >> 1)
  {
    MasksAreDoubling();
    ShiftBy(MASKS, v);
  }

  lemma AllOnes()
    ensures WordOf(0xFFFFFFFF) == Not(Zeros(32))
  {
    var ones := Not(Zeros(32));
    assert WordOf(0xFFFFFFFF) == ones;
  }

  lemma NoOnes()
    ensures WordOf(0) == Zeros(32)
  {
  }

  lemma NotIs(v: bv32)
    ensures Not(WordOf(v)) == WordOf(v ^ 0xFFFFFFFF)
  {
    AllOnes();
    XorIs(v, 0xFFFFFFFF);
    assert Not(WordOf(v)) == Xor(WordOf(v), WordOf(0xFFFFFFFF));
  }

  /** The generator is the constant that the tables are made of. */
  lemma GeneratorIs()
    ensures Polynomial() == WordOf(0xEDB88320)
  {
    var bits :=
             [false, false, false, false, false, true, false, false,
              true, true, false, false, false, false, false, true,
              false, false, false, true, true, true, false, true,
              true, false, true, true, false, true, true, true];
    assert WordOf(0xEDB88320) == bits;
    assert Polynomial() == bits;
  }

  // ----- Bit steps on machine words -----

  function StepOf(v: bv32): bv32 {
    if v & 1 != 0 then (v >> 1) ^ 0xEDB88320 else v >> 1
  }

  lemma StepIs(v: bv32)
    ensures BitStep(WordOf(v)) == WordOf(StepOf(v))
  {
    ShiftIs(v);
    GeneratorIs();
    XorIs(v >> 1, 0xEDB88320);
    NoOnes();
    XorIs(v >> 1, 0);
    assert (v >> 1) ^ 0 == v >> 1;
  }

  /** `k` bit steps lead from one word to the other. */
  ghost predicate Leads(v: bv32, k: nat, w: bv32) {
    Steps(WordOf(v), k) == WordOf(w)
  }

  lemma OneMore(v: bv32, k: nat, w: bv32)
    requires Leads(StepOf(v), k, w)
    ensures Leads(v, k + 1, w)
  {
    StepIs(v);
  }

  lemma EightMore(a: bv32, k: nat, w: bv32)
    requires Leads(StepOf(StepOf(StepOf(StepOf(StepOf(StepOf(StepOf(StepOf(a)))))))), k, w)
    ensures Leads(a, k + 8, w)
  {
    var b := StepOf(a);
    var c := StepOf(b);
    var d := StepOf(c);
    var e := StepOf(d);
    var f := StepOf(e);
    var g := StepOf(f);
    OneMore(StepOf(g), k, w);
    OneMore(g, k + 1, w);
    OneMore(f, k + 2, w);
    OneMore(e, k + 3, w);
    OneMore(d, k + 4, w);
    OneMore(c, k + 5, w);
    OneMore(b, k + 6, w);
    OneMore(a, k + 7, w);
  }

  lemma OnesStepped()
    ensures Leads(0xFFFFFFFF, 32, 0xDEBB20E3)
  {
    assert Leads(0xDEBB20E3, 0, 0xDEBB20E3);
    EightMore(0x00BE26ED, 0, 0xDEBB20E3);
    EightMore(0xBE26ED00, 8, 0xDEBB20E3);
    EightMore(0x2DFD1072, 16, 0xDEBB20E3);
    EightMore(0xFFFFFFFF, 24, 0xDEBB20E3);
  }

  // ----- The residue -----

  /** The bytes of a word, least significant first. */
  function FourBytes(w: Word): seq<Byte> {
    [w[..8], w[8..16], w[16..24], w[24..]]
  }

  lemma OwnChecksumFed(c: Word, s: seq<Byte>)
    requires s == FourBytes(Not(c))
    ensures Register(c, s) == Steps(Not(Zeros(32)), 32)
  {
    assert Load(s, 0) == Not(c);
    assert s[0..] == s && s[4..] == [];
    RegisterWord(c, s, 0);
    FeedIsSteps(c, Not(c));
    assert Xor(c, Widen(Not(c))) == Not(Zeros(32));
  }

  /** Whatever the message, and whatever the checksum it is continued from, the checksum of the message followed by
      its own checksum is always the same number. */
  lemma Residue(s: seq<Byte>, crc: Word)
    ensures Checksum(s + FourBytes(Checksum(s, crc)), crc) == WordOf(0x2144DF1C)
  {
    var c := Register(Not(crc), s);
    RegisterAppend(Not(crc), s, FourBytes(Not(c)));
    OwnChecksumFed(c, FourBytes(Not(c)));
    AllOnes();
    OnesStepped();
    NotIs(0xDEBB20E3);
  }

  lemma ZeroFed(c: Word)
    ensures Register(c, [Zeros(8)]) == Steps(c, 8)
  {
    var s := [Zeros(8)];
    assert s[1..] == [];
    FeedIsSteps(c, s[0]);
    assert Xor(c, Widen(s[0])) == c;
  }

  lemma ZeroChecksum(v: bv32, w: bv32)
    requires Leads(v ^ 0xFFFFFFFF, 8, w)
    ensures Checksum([Zeros(8)], WordOf(v)) == WordOf(w ^ 0xFFFFFFFF)
  {
    NotIs(v);
    ZeroFed(WordOf(v ^ 0xFFFFFFFF));
    NotIs(w);
  }

  /** The checksum of one zero byte. */
  lemma ZeroByte()
    ensures Checksum([Zeros(8)], WordOf(0)) == WordOf(0xD202EF8D)
  {
    assert Leads(0x2DFD1072, 0, 0x2DFD1072);
    EightMore(0xFFFFFFFF, 0, 0x2DFD1072);
    ZeroChecksum(0, 0x2DFD1072);
  }

  // ----- Entries of the tables -----

  /** The byte with one bit set. */
  function OneBit(k: nat): Byte
    requires k < 8
  {
    seq(8, i => i == k)
  }

  lemma OneBitIs(k: nat)
    requires k < 8
    ensures Widen(OneBit(k)) == WordOf(MASKS[k])
  {
    var single := Widen(OneBit(k));
    forall i | 0 <= i < 32
      ensures single[i] == WordOf(MASKS[k])[i]
    {
      if k < 4 {
        if k < 2 {
        } else {
        }
      } else if k < 6 {
      }
    }
  }

  lemma Entry(k: nat, start: bv32, entry: bv32)
    requires k < 8 && start == MASKS[k]
    requires entry == StepOf(StepOf(StepOf(StepOf(StepOf(StepOf(StepOf(StepOf(start))))))))
    ensures Table(0, OneBit(k)) == WordOf(entry)
  {
    OneBitIs(k);
    assert Leads(entry, 0, entry);
    EightMore(start, 0, entry);
  }

  /** Row 0 at the powers of two. */
  lemma RowZero()
    ensures Table(0, OneBit(0)) == WordOf(0x77073096) && Table(0, OneBit(1)) == WordOf(0xEE0E612C)
    ensures Table(0, OneBit(2)) == WordOf(0x076DC419) && Table(0, OneBit(3)) == WordOf(0x0EDB8832)
    ensures Table(0, OneBit(4)) == WordOf(0x1DB71064) && Table(0, OneBit(5)) == WordOf(0x3B6E20C8)
    ensures Table(0, OneBit(6)) == WordOf(0x76DC4190) && Table(0, OneBit(7)) == WordOf(0xEDB88320)
  {
    Entry(0, 0x1, 0x77073096);
    Entry(1, 0x2, 0xEE0E612C);
    Entry(2, 0x4, 0x076DC419);
    Entry(3, 0x8, 0x0EDB8832);
    Entry(4, 0x10, 0x1DB71064);
    Entry(5, 0x20, 0x3B6E20C8);
    Entry(6, 0x40, 0x76DC4190);
    Entry(7, 0x80, 0xEDB88320);
  }

  /** Each row at 0x80. */
  lemma LastColumn()
    ensures Table(0, OneBit(7)) == WordOf(0xEDB88320) && Table(1, OneBit(7)) == WordOf(0x3B83984B)
    ensures Table(2, OneBit(7)) == WordOf(0xE1351B80) && Table(3, OneBit(7)) == WordOf(0xED59B63B)
    ensures Table(4, OneBit(7)) == WordOf(0xB1E6B092) && Table(5, OneBit(7)) == WordOf(0x1EB014D8)
    ensures Table(6, OneBit(7)) == WordOf(0x8816EAF2) && Table(7, OneBit(7)) == WordOf(0x533B85DA)
  {
    RowZero();
    NextRow(0, 0xEDB88320, 0x3B83984B);
    NextRow(1, 0x3B83984B, 0xE1351B80);
    NextRow(2, 0xE1351B80, 0xED59B63B);
    NextRow(3, 0xED59B63B, 0xB1E6B092);
    NextRow(4, 0xB1E6B092, 0x1EB014D8);
    NextRow(5, 0x1EB014D8, 0x8816EAF2);
    NextRow(6, 0x8816EAF2, 0x533B85DA);
  }

  lemma RowSteps(k: nat, i: Byte)
    ensures Table(k + 1, i) == Steps(Table(k, i), 8)
  {
    TableIsSteps(k, i);
    TableIsSteps(k + 1, i);
    StepsCompose(Widen(i), 8 * k + 8, 8);
  }

  lemma NextRow(k: nat, entry: bv32, next: bv32)
    requires Table(k, OneBit(7)) == WordOf(entry)
    requires next == StepOf(StepOf(StepOf(StepOf(StepOf(StepOf(StepOf(StepOf(entry))))))))
    ensures Table(k + 1, OneBit(7)) == WordOf(next)
  {
    RowSteps(k, OneBit(7));
    assert Leads(next, 0, next);
    EightMore(entry, 0, next);
  }

  /** The other entries of a row follow: the rows are linear. */
  lemma RowsAreLinear(k: nat, a: Byte, b: Byte)
    ensures Table(k, Xor(a, b)) == Xor(Table(k, a), Table(k, b))
  {
    TableIsSteps(k, a);
    TableIsSteps(k, b);
    TableIsSteps(k, Xor(a, b));
    assert Widen(Xor(a, b)) == Xor(Widen(a), Widen(b));
    StepsLinear(Widen(a), Widen(b), 8 * k + 8);
  }
}
