// The 102-bit ROB entry, PC[101:38] | instruction[37:6] | prfDest[5:0], in four 32-bit words, and
// the three decoders of sim/harness that read it.
module RobEntry {
  import opened Common

  const WORD := 0x1_0000_0000
  const DWORD := 0x1_0000_0000_0000_0000

  type Word = x: int | 0 <= x < WORD

  // ---------------------------------------------------------------- bits of a number

  function Bit(n: nat, i: nat): (r: nat)
    ensures r <= 1
  {
    if i == 0 then n % 2 else Bit(n / 2, i - 1)
  }

  function Drop(n: nat, lo: nat): nat { if lo == 0 then n else Drop(n / 2, lo - 1) }

  function Low(n: nat, len: nat): nat { if len == 0 then 0 else n % 2 + 2 * Low(n / 2, len - 1) }

  // Bits lo to lo + len - 1.
  function Field(n: nat, lo: nat, len: nat): nat { Low(Drop(n, lo), len) }

  lemma {:induction false} BitOfDrop(n: nat, lo: nat, i: nat)
    ensures Bit(Drop(n, lo), i) == Bit(n, lo + i)
  {
    if lo > 0 { BitOfDrop(n / 2, lo - 1, i); }
  }

  lemma Twice(p: nat, k: nat)
    ensures 2 * (p * k) == (2 * p) * k
  {
  }

  lemma {:induction false} LowNext(n: nat, i: nat)
    ensures Low(n, i + 1) == Low(n, i) + Pow2(i) * Bit(n, i)
  {
    if i > 0 {
      LowNext(n / 2, i - 1);
      Twice(Pow2(i - 1), Bit(n / 2, i - 1));
    }
  }

  lemma {:induction false} LowBound(n: nat, len: nat)
    ensures Low(n, len) < Pow2(len)
  {
    if len > 0 { LowBound(n / 2, len - 1); }
  }

  lemma {:induction false} DropLow(n: nat, lo: nat)
    ensures n == Pow2(lo) * Drop(n, lo) + Low(n, lo)
  {
    if lo > 0 {
      DropLow(n / 2, lo - 1);
      Twice(Pow2(lo - 1), Drop(n / 2, lo - 1));
    }
  }

  // Dropping and keeping bits are division and remainder.
  lemma FieldIs(n: nat, lo: nat, len: nat)
    ensures Field(n, lo, len) == n / Pow2(lo) % Pow2(len)
  {
    DropLow(n, lo);
    LowBound(n, lo);
    DivUnique(n, Pow2(lo), Drop(n, lo), Low(n, lo));
    var m := Drop(n, lo);
    DropLow(m, len);
    LowBound(m, len);
    DivUnique(m, Pow2(len), Drop(m, len), Low(m, len));
  }

  lemma {:induction false} BitIs(n: nat, i: nat)
    ensures Bit(n, i) == Nth(n, i)
  {
    BitOfDrop(n, i, 0);
    DropLow(n, i);
    LowBound(n, i);
    DivUnique(n, Pow2(i), Drop(n, i), Low(n, i));
  }

  // ---------------------------------------------------------------- or

  // `|` on uint64_t.
  function Or64(a: nat, b: nat): nat { Bitwise(Or, a, b, 64) }

  lemma {:induction false} OrZero(b: nat, n: nat)
    requires b < Pow2(n)
    ensures Bitwise(Or, 0, b, n) == b
  {
    if n > 0 { OrZero(b / 2, n - 1); }
  }

  // Where no bit is shared, or is addition.
  lemma {:induction false} OrAdds(a: nat, i: nat, k: nat, n: nat)
    requires a < Pow2(i) && i <= n && k < Pow2(n - i)
    ensures Bitwise(Or, a, Pow2(i) * k, n) == a + Pow2(i) * k
  {
    if i == 0 { OrZero(k, n); } else {
      Twice(Pow2(i - 1), k);
      assert Pow2(i) * k / 2 == Pow2(i - 1) * k && Pow2(i) * k % 2 == 0;
      OrAdds(a / 2, i - 1, k, n - 1);
    }
  }

  // ---------------------------------------------------------------- the words

  // The number that the words hold, lowest word first.
  function Value(w: seq<Word>): nat { if w == [] then 0 else w[0] + WORD * Value(w[1..]) }

  lemma {:induction false} BitLow(a: nat, m: nat, k: nat, i: nat)
    requires i < m
    ensures Bit(a + Pow2(m) * k, i) == Bit(a, i)
  {
    Twice(Pow2(m - 1), k);
    if i > 0 {
      assert (a + Pow2(m) * k) / 2 == a / 2 + Pow2(m - 1) * k;
      BitLow(a / 2, m - 1, k, i - 1);
    }
  }

  lemma {:induction false} BitHigh(a: nat, m: nat, k: nat, i: nat)
    requires a < Pow2(m)
    ensures Bit(a + Pow2(m) * k, m + i) == Bit(k, i)
  {
    if m > 0 {
      Twice(Pow2(m - 1), k);
      assert (a + Pow2(m) * k) / 2 == a / 2 + Pow2(m - 1) * k;
      BitHigh(a / 2, m - 1, k, i);
    }
  }

  lemma Powers()
    ensures Pow2(6) == 64 && Pow2(26) == 0x400_0000 && Pow2(32) == WORD && Pow2(38) == 0x40_0000_0000
            && Pow2(58) == 0x400_0000_0000_0000 && Pow2(64) == DWORD
  {
    assert Pow2(6) == 64;
    assert Pow2(16) == 0x1_0000;
    assert Pow2(26) == 0x400_0000;
    assert Pow2(32) == WORD;
    assert Pow2(38) == 0x40_0000_0000;
    assert Pow2(48) == 0x1_0000_0000_0000;
    assert Pow2(58) == 0x400_0000_0000_0000;
    assert Pow2(64) == DWORD;
  }

  // `(w[b >> 5] >> (b & 31)) & 1`
  function WordBit(w: seq<Word>, b: nat): nat
    requires b < 32 * |w|
  {
    Nth(w[b / 32], b % 32)
  }

  lemma ValueStep(w: seq<Word>)
    requires w != []
    ensures Value(w) == w[0] as int + Pow2(32) * Value(w[1..]) && w[0] < Pow2(32)
  {
    Powers();
  }

  lemma {:induction false} WordBitIs(w: seq<Word>, b: nat)
    requires b < 32 * |w|
    ensures WordBit(w, b) == Bit(Value(w), b)
  {
    if b < 32 {
      ValueBit(w, b);
      BitIs(w[0], b);
      WordBitFirst(w, b);
    } else {
      ValueBit(w, b);
      WordBitIs(w[1..], b - 32);
      WordBitNext(w, b);
    }
  }

  lemma ValueBit(w: seq<Word>, b: nat)
    requires w != []
    ensures Bit(Value(w), b) == if b < 32 then Bit(w[0], b) else Bit(Value(w[1..]), b - 32)
  {
    ValueStep(w);
    if b < 32 { BitLow(w[0], 32, Value(w[1..]), b); } else { BitHigh(w[0], 32, Value(w[1..]), b - 32); }
  }

  lemma WordBitFirst(w: seq<Word>, b: nat)
    requires w != [] && b < 32
    ensures WordBit(w, b) == Nth(w[0], b)
  {
    assert b / 32 == 0 && b % 32 == b;
  }

  lemma WordBitNext(w: seq<Word>, b: nat)
    requires 32 <= b < 32 * |w|
    ensures WordBit(w, b) == WordBit(w[1..], b - 32)
  {
    assert (b - 32) / 32 == b / 32 - 1 && (b - 32) % 32 == b % 32;
  }

  lemma NextBit(w: seq<Word>, lo: nat, i: nat)
    requires lo + i < 32 * |w| && i < 64
    ensures Or64(Field(Value(w), lo, i), Pow2(i) * WordBit(w, lo + i)) == Field(Value(w), lo, i + 1)
  {
    var n := Drop(Value(w), lo);
    WordBitIs(w, lo + i);
    BitOfDrop(Value(w), lo, i);
    LowNext(n, i);
    LowBound(n, i);
    assert Pow2(64 - i) == 2 * Pow2(63 - i);
    OrAdds(Low(n, i), i, Bit(n, i), 64);
  }

  // The three fields, with the powers of two written out.
  function PcOf(n: nat): nat { n / 0x40_0000_0000 % DWORD }
  function InsnPart(n: nat): nat { n / 64 % WORD }
  function PrfOf(n: nat): nat { n % 64 }

  lemma PcField(n: nat)
    ensures Field(n, 38, 64) == PcOf(n)
  {
    FieldIs(n, 38, 64);
    Powers();
  }

  lemma InsnField(n: nat)
    ensures Field(n, 6, 32) == InsnPart(n) < WORD
  {
    FieldIs(n, 6, 32);
    Powers();
  }

  lemma PrfField(n: nat)
    ensures Field(n, 0, 6) == PrfOf(n)
  {
    FieldIs(n, 0, 6);
    assert Pow2(0) == 1 && n / 1 == n;
    assert Pow2(6) == 64;
  }

  // ---------------------------------------------------------------- the decoders

  // robhead_probe.cpp: one bit at a time.
  method WBits(w: seq<Word>, lo: nat, len: nat) returns (v: nat)
    requires len <= 64 && lo + len <= 32 * |w|
    ensures v == Field(Value(w), lo, len) == Value(w) / Pow2(lo) % Pow2(len)
  {
    v := 0;
    var i := 0;
    while i < len
      invariant i <= len && v == Field(Value(w), lo, i)
    {
      var b := lo + i;
      NextBit(w, lo, i);
      v := Or64(v, Pow2(i) * WordBit(w, b));
      i := i + 1;
    }
    FieldIs(Value(w), lo, len);
  }

  lemma ModSmall(v: nat)
    requires v < WORD
    ensures v % WORD == v
  {
  }

  // invariants.h: the instruction, cut to 32 bits at the end.
  method InsnOf(w: seq<Word>) returns (insn: Word)
    requires |w| == 4
    ensures insn == InsnPart(Value(w))
  {
    var v := 0;
    var i := 0;
    while i < 32
      invariant i <= 32 && v == Field(Value(w), 6, i)
    {
      var b := 6 + i;
      NextBit(w, 6, i);
      v := Or64(v, Pow2(i) * WordBit(w, b));
      i := i + 1;
    }
    InsnField(Value(w));
    ModSmall(v);
    insn := v % WORD;
  }

  // linux_robjam_probe.cpp: shifts and masks across the word boundaries.
  function MaskedInsn(w: seq<Word>): nat
    requires |w| == 4
  {
    Or64(w[0] / 0x40, w[1] % 0x40 * 0x400_0000 % WORD)
  }

  function MaskedPc(w: seq<Word>): nat
    requires |w| == 4
  {
    Or64(Or64(w[1] / 0x40, w[2] * 0x400_0000 % DWORD), w[3] % 0x40 * 0x400_0000_0000_0000 % DWORD)
  }

  function FourWords(a: nat, b: nat, c: nat, d: nat): nat { a + WORD * (b + WORD * (c + WORD * d)) }

  lemma ValueOfFour(w: seq<Word>)
    requires |w| == 4
    ensures Value(w) == FourWords(w[0], w[1], w[2], w[3])
  {
    assert Value(w[3..]) == w[3];
    assert w[2..][1..] == w[3..] && w[1..][1..] == w[2..];
    assert Value(w[2..]) == w[2] as int + WORD * w[3];
  }

  lemma InsnParts(a: Word, b: Word, c: Word, d: Word)
    ensures FourWords(a, b, c, d) / 64 % WORD == a / 64 + 0x400_0000 * (b % 64)
  {
    var e: nat := c as int + WORD * d;
    var m: nat := b as int + WORD * e;
    DivUnique(FourWords(a, b, c, d), 64, a / 64 + 0x400_0000 * m, a % 64);
    DivUnique(a / 64 + 0x400_0000 * m, WORD, b / 64 + 0x400_0000 * e, a / 64 + 0x400_0000 * (b % 64));
  }

  lemma PcParts(a: Word, b: Word, c: Word, d: Word)
    ensures FourWords(a, b, c, d) / 0x40_0000_0000 % DWORD
            == b / 64 + 0x400_0000 * c as int + 0x400_0000_0000_0000 * (d % 64)
  {
    var low: nat := b / 64 + 0x400_0000 * c as int;
    DivUnique(FourWords(a, b, c, d), 0x40_0000_0000, low + 0x400_0000_0000_0000 * d as int, a as int + WORD * (b % 64));
    DivUnique(low + 0x400_0000_0000_0000 * d as int, DWORD, d / 64, low + 0x400_0000_0000_0000 * (d % 64));
  }

  lemma OrShift(low: nat, i: nat, p: nat, high: nat)
    requires i <= 64 && p == Pow2(i) && low < p && high < Pow2(64 - i)
    ensures Or64(low, high * p) == low + p * high
  {
    assert high * p == p * high;
    OrAdds(low, i, high, 64);
  }

  lemma OrInsn(low: nat, high: nat)
    requires low < 0x400_0000 && high < 0x40_0000_0000
    ensures Or64(low, high * 0x400_0000) == low + 0x400_0000 * high
  {
    Powers();
    OrShift(low, 26, 0x400_0000, high);
  }

  lemma OrPc(low: nat, high: nat)
    requires low < 0x400_0000_0000_0000 && high < 64
    ensures Or64(low, high * 0x400_0000_0000_0000) == low + 0x400_0000_0000_0000 * high
  {
    Powers();
    OrShift(low, 58, 0x400_0000_0000_0000, high);
  }

  lemma NoWrap(c: nat, d: nat)
    requires c < WORD && d < 64
    ensures c * 0x400_0000 % DWORD == c * 0x400_0000 && d * 0x400_0000_0000_0000 % DWORD == d * 0x400_0000_0000_0000
  {
  }

  lemma JoinInsn(a: nat, b: nat)
    requires a < 0x400_0000 && b < 64
    ensures Or64(a, b * 0x400_0000 % WORD) == a + 0x400_0000 * b
  {
    ModSmall(b * 0x400_0000);
    OrInsn(a, b);
  }

  lemma JoinPc(b: nat, c: nat, d: nat)
    requires b < 0x400_0000 && c < WORD && d < 64
    ensures Or64(Or64(b, c * 0x400_0000 % DWORD), d * 0x400_0000_0000_0000 % DWORD)
            == b + 0x400_0000 * c + 0x400_0000_0000_0000 * d
  {
    NoWrap(c, d);
    OrInsn(b, c);
    OrPc(b + 0x400_0000 * c, d);
  }

  // On any four words the shift and mask decode reads the same fields as the bit loops.
  lemma MaskedInsnIs(w: seq<Word>)
    requires |w| == 4
    ensures MaskedInsn(w) == InsnPart(Value(w))
  {
    ValueOfFour(w);
    JoinInsn(w[0] / 64, w[1] % 64);
    InsnParts(w[0], w[1], w[2], w[3]);
  }

  lemma MaskedPcIs(w: seq<Word>)
    requires |w| == 4
    ensures MaskedPc(w) == PcOf(Value(w))
  {
    ValueOfFour(w);
    JoinPc(w[1] / 64, w[2], w[3] % 64);
    PcParts(w[0], w[1], w[2], w[3]);
  }

  // ---------------------------------------------------------------- packing

  datatype Entry = Entry(pc: nat, insn: nat, prf: nat)

  predicate Fits(e: Entry) { e.pc < DWORD && e.insn < WORD && e.prf < 64 }

  function Packed(e: Entry): nat { e.prf + 64 * (e.insn + WORD * e.pc) }

  function Words(n: nat): (w: seq<Word>)
    ensures |w| == 4
  {
    [n % WORD, n / WORD % WORD, n / WORD / WORD % WORD, n / WORD / WORD / WORD % WORD]
  }

  lemma WordsValue(e: Entry)
    requires Fits(e)
    ensures Value(Words(Packed(e))) == Packed(e)
  {
    var n := Packed(e);
    var a := n / WORD;
    var b := a / WORD;
    var c := b / WORD;
    ValueOfFour(Words(n));
    assert n < 64 * WORD * DWORD && a < 64 * DWORD && b < 64 * WORD && c < 64;
    assert n == n % WORD + WORD * a && a == a % WORD + WORD * b && b == b % WORD + WORD * c;
    assert c % WORD == c;
  }

  // The entry is its fields: dividing and taking remainders reads them back.
  lemma PackedFields(e: Entry)
    requires Fits(e)
    ensures Packed(e) % 64 == e.prf && Packed(e) / 64 % WORD == e.insn && Packed(e) / 64 / WORD == e.pc
  {
    DivUnique(Packed(e), 64, e.insn + WORD * e.pc, e.prf);
    DivUnique(e.insn + WORD * e.pc, WORD, e.pc, e.insn);
  }

  lemma PackedPc(e: Entry)
    requires Fits(e)
    ensures Packed(e) / 0x40_0000_0000 % DWORD == e.pc
  {
    DivUnique(Packed(e), 0x40_0000_0000, e.pc, e.prf + 64 * e.insn);
  }

  // What the decoders return: each is proved equal to a field of this.
  function Decoded(w: seq<Word>): Entry { Entry(PcOf(Value(w)), InsnPart(Value(w)), PrfOf(Value(w))) }

  // Decoding inverts packing, bit by bit and by shifts and masks.
  lemma DecodersInvertPacking(e: Entry)
    requires Fits(e)
    ensures var w := Words(Packed(e));
            && MaskedInsn(w) == Field(Value(w), 6, 32) == e.insn
            && MaskedPc(w) == Field(Value(w), 38, 64) == e.pc
            && Field(Value(w), 0, 6) == e.prf
  {
    var w := Words(Packed(e));
    WordsValue(e);
    MaskedInsnIs(w);
    MaskedPcIs(w);
    PackedFields(e);
    PackedPc(e);
    PcField(Packed(e));
    InsnField(Packed(e));
    PrfField(Packed(e));
  }

  // And packing what was decoded from any words gives back their lowest 102 bits.
  lemma PackingInvertsDecoders(w: seq<Word>)
    ensures Fits(Decoded(w)) && Packed(Decoded(w)) == Value(w) % (64 * WORD * DWORD)
  {
    var n := Value(w);
    var m := n / 64;
    assert n / 0x40_0000_0000 == m / WORD;
    DivUnique(n, 64 * WORD * DWORD, m / WORD / DWORD, n % 64 + 64 * (m % WORD + WORD * (m / WORD % DWORD)));
  }
}
