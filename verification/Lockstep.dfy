// Reconciliation of racy atomics in sim/harness/lockstep_quad.cpp: the golden model's register
// and memory are repaired to what the recorded LR, SC or AMO gives with the RTL's outcome.
// A 64-bit value is a number below 2^64, a 32-bit one a number below 2^32.
module Lockstep {
  import opened Common

  const W31: nat := 0x8000_0000
  const W32: nat := 0x1_0000_0000
  const W63: nat := 0x8000_0000_0000_0000
  const W64: nat := 0x1_0000_0000_0000_0000

  // ---------------------------------------------------------------- halves

  lemma HalfMod(a: nat, m: nat)
    requires m > 0
    ensures a % (2 * m) == 2 * (a / 2 % m) + a % 2
  {
    var q, r := a / 2 / m, a / 2 % m;
    assert a / 2 == q * m + r && a == 2 * (a / 2) + a % 2;
    assert a == (2 * m) * q + (2 * r + a % 2) by { assert 2 * (q * m) == (2 * m) * q; }
    DivUnique(a, 2 * m, q, 2 * r + a % 2);
  }

  lemma Halves(x: nat, c: nat)
    requires c < 2
    ensures (2 * x + c) / 2 == x && (2 * x + c) % 2 == c
  {
  }

  lemma {:induction false} BitwiseLow(op: Op, a: nat, b: nat, n: nat, k: nat)
    requires k <= n
    ensures Bitwise(op, a, b, n) % Pow2(k) == Bitwise(op, a % Pow2(k), b % Pow2(k), k)
  {
    if k > 0 {
      BitwiseLow(op, a / 2, b / 2, n - 1, k - 1);
      BitwiseLowStep(op, a, b, n, k, Pow2(k - 1));
    }
  }

  lemma BitwiseLowStep(op: Op, a: nat, b: nat, n: nat, k: nat, m: nat)
    requires 0 < k <= n && m > 0
    requires Bitwise(op, a / 2, b / 2, n - 1) % m == Bitwise(op, a / 2 % m, b / 2 % m, k - 1)
    ensures Bitwise(op, a, b, n) % (2 * m) == Bitwise(op, a % (2 * m), b % (2 * m), k)
  {
    HalfMod(a, m);
    HalfMod(b, m);
    Halves(a / 2 % m, a % 2);
    Halves(b / 2 % m, b % 2);
    var x, c := Bitwise(op, a / 2, b / 2, n - 1), OpBit(op, a, b);
    Halves(x, c);
    HalfMod(2 * x + c, m);
    assert Bitwise(op, a, b, n) == 2 * x + c;
  }

  lemma Pow2Words()
    ensures Pow2(32) == W32
  {
    assert Pow2(8) == 0x100;
    assert Pow2(16) == 0x1_0000;
    assert Pow2(24) == 0x100_0000;
  }

  // ---------------------------------------------------------------- the code's arithmetic

  // (uint64_t)(int64_t)(int32_t)v
  function Sext32(v: nat): nat { if v % W32 >= W31 then v % W32 + (W64 - W32) else v % W32 }

  // (int64_t)v
  function Signed64(v: nat): int { if v >= W63 then v - W64 else v }

  function AmoResult(funct5: nat, width: nat, oldv: nat, rs2: nat): nat {
    var o := if width == 4 then Sext32(oldv) else oldv;
    var r := if width == 4 then Sext32(rs2) else rs2;
    match funct5
    case 0x00 => (o + r) % W64
    case 0x01 => r
    case 0x04 => Bitwise(Xor, o, r, 64)
    case 0x08 => Bitwise(Or, o, r, 64)
    case 0x0c => Bitwise(And, o, r, 64)
    case 0x10 => if Signed64(o) < Signed64(r) then o else r
    case 0x14 => if Signed64(o) > Signed64(r) then o else r
    case 0x18 => if o < r then o else r
    case 0x1c => if o > r then o else r
    case _ => o
  }

  // `addr & 4`
  predicate UpperHalf(addr: nat) { addr / 4 % 2 == 1 }

  function Aligned(addr: nat): nat { addr / 8 * 8 }

  function SpliceWord(word8: nat, addr: nat, width: nat, value: nat): nat {
    if width == 8 then value
    else if UpperHalf(addr) then word8 % W32 + value % W32 * W32
    else word8 / W32 * W32 + value % W32
  }

  // ---------------------------------------------------------------- the instruction set

  // The word a .w access at `addr` designates, and the one beside it.
  function Word(d: nat, addr: nat): nat { if UpperHalf(addr) then d / W32 else d % W32 }
  function Other(d: nat, addr: nat): nat { if UpperHalf(addr) then d % W32 else d / W32 }
  function Join(word: nat, other: nat, addr: nat): nat {
    if UpperHalf(addr) then word * W32 + other else other * W32 + word
  }

  lemma JoinParts(d: nat, addr: nat, word: nat, other: nat)
    requires d < W64
    ensures Word(d, addr) < W32 && Other(d, addr) < W32 && Join(Word(d, addr), Other(d, addr), addr) == d
    ensures word < W32 && other < W32 ==>
              && Join(word, other, addr) < W64
              && Word(Join(word, other, addr), addr) == word && Other(Join(word, other, addr), addr) == other
  {
  }

  // A word of n bits read as a two's complement number.
  function Signed(v: nat, n: nat): int
    requires n > 0
  {
    if v >= Pow2(n - 1) then v - Pow2(n) else v
  }

  // RISC-V Unprivileged ISA 20191213, section 8.4: the operations and their five-bit codes.
  datatype AmoOp = AmoSwap | AmoAdd | AmoXor | AmoAnd | AmoOr | AmoMin | AmoMax | AmoMinu | AmoMaxu

  function Funct5(op: AmoOp): nat {
    match op
    case AmoSwap => 1
    case AmoAdd => 0
    case AmoXor => 4
    case AmoAnd => 12
    case AmoOr => 8
    case AmoMin => 16
    case AmoMax => 20
    case AmoMinu => 24
    case AmoMaxu => 28
  }

  // What an operation stores on a word of n bits that held o, with operand r.
  function IsaValue(op: AmoOp, n: nat, o: nat, r: nat): nat
    requires n > 0
  {
    match op
    case AmoSwap => r
    case AmoAdd => (o + r) % Pow2(n)
    case AmoXor => Bitwise(Xor, o, r, n)
    case AmoAnd => Bitwise(And, o, r, n)
    case AmoOr => Bitwise(Or, o, r, n)
    case AmoMin => if Signed(o, n) <= Signed(r, n) then o else r
    case AmoMax => if Signed(o, n) >= Signed(r, n) then o else r
    case AmoMinu => if o <= r then o else r
    case AmoMaxu => if o >= r then o else r
  }

  // The operation of a code; none for a code that the ISA leaves free.
  function OpOf(funct5: nat): Option<AmoOp> {
    match funct5
    case 0x00 => Some(AmoAdd)
    case 0x01 => Some(AmoSwap)
    case 0x04 => Some(AmoXor)
    case 0x08 => Some(AmoOr)
    case 0x0c => Some(AmoAnd)
    case 0x10 => Some(AmoMin)
    case 0x14 => Some(AmoMax)
    case 0x18 => Some(AmoMinu)
    case 0x1c => Some(AmoMaxu)
    case _ => None
  }

  lemma OpOfFunct5(op: AmoOp)
    ensures OpOf(Funct5(op)) == Some(op)
  {
  }

  // What the memory holds after an operation code; a free code stores the old word.
  function IsaAmo(funct5: nat, n: nat, o: nat, r: nat): nat
    requires n > 0
  {
    match OpOf(funct5)
    case Some(op) => IsaValue(op, n, o, r)
    case None => o
  }

  lemma SignedWord(v: nat)
    requires v < W32
    ensures Signed(v, 32) == if v >= W31 then v - W32 else v
  {
    Pow2Words();
    assert Pow2(32) == 2 * Pow2(31);
  }

  lemma SignedLong(v: nat)
    requires v < W64
    ensures Signed(v, 64) == Signed64(v)
  {
    Pow2Long();
    assert Pow2(64) == 2 * Pow2(63);
  }

  lemma LowBits(op: Op, a: nat, b: nat)
    ensures Bitwise(op, a, b, 64) % W32 == Bitwise(op, a % W32, b % W32, 32)
  {
    Pow2Words();
    BitwiseLow(op, a, b, 64, 32);
  }

  lemma SextLow(v: nat)
    ensures Sext32(v) % W32 == v % W32 && Sext32(v) < W64
  {
  }

  // Sign extension keeps the signed value and, though it moves half of the range to the top, the
  // unsigned order.
  lemma SextOrder(a: nat, b: nat)
    ensures Signed64(Sext32(a)) == Signed(a % W32, 32)
    ensures Sext32(a) < Sext32(b) <==> a % W32 < b % W32
  {
    SignedWord(a % W32);
  }

  lemma AddLow(a: nat, b: nat)
    ensures (a + b) % W64 % W32 == (a % W32 + b % W32) % W32
  {
  }

  // The 64-bit computation on sign-extended operands agrees with the 32-bit one on every operation,
  // the unsigned minimum and maximum included.
  lemma AmoLow(funct5: nat, oldv: nat, rs2: nat)
    ensures AmoResult(funct5, 4, oldv, rs2) % W32 == IsaAmo(funct5, 32, oldv % W32, rs2 % W32)
  {
    var o, r := Sext32(oldv), Sext32(rs2);
    SextLow(oldv);
    SextLow(rs2);
    match funct5
    case 0x00 => AddLow(o, r); Pow2Words();
    case 0x04 => LowBits(Xor, o, r);
    case 0x08 => LowBits(Or, o, r);
    case 0x0c => LowBits(And, o, r);
    case 0x10 => SextOrder(oldv, rs2); SextOrder(rs2, oldv); SameSext(oldv, rs2);
    case 0x14 => SextOrder(oldv, rs2); SextOrder(rs2, oldv); SameSext(oldv, rs2);
    case 0x18 => SextOrder(oldv, rs2); SextOrder(rs2, oldv);
    case 0x1c => SextOrder(oldv, rs2); SextOrder(rs2, oldv);
    case _ =>
  }

  // Words that read as the same signed number are the same.
  lemma SameSext(a: nat, b: nat)
    ensures Signed(a % W32, 32) == Signed(b % W32, 32) ==> a % W32 == b % W32
  {
    SignedWord(a % W32);
    SignedWord(b % W32);
  }

  // On 8-byte operands the computation is the instruction set's.
  lemma AmoLong(funct5: nat, oldv: nat, rs2: nat)
    requires oldv < W64 && rs2 < W64
    ensures AmoResult(funct5, 8, oldv, rs2) == IsaAmo(funct5, 64, oldv, rs2)
  {
    match funct5
    case 0x00 => Pow2Long();
    case 0x10 => SignedLong(oldv); SignedLong(rs2);
    case 0x14 => SignedLong(oldv); SignedLong(rs2);
    case _ =>
  }

  // A .w atomic computed in 64 bits and spliced in writes exactly the 32-bit result and leaves the
  // other word alone.
  lemma WordAmoExact(funct5: nat, d: nat, addr: nat, oldv: nat, rs2: nat)
    requires d < W64
    ensures var w := SpliceWord(d, addr, 4, AmoResult(funct5, 4, oldv, rs2));
            && w < W64
            && Word(w, addr) == IsaAmo(funct5, 32, oldv % W32, rs2 % W32)
            && Other(w, addr) == Other(d, addr)
  {
    AmoLow(funct5, oldv, rs2);
    SpliceParts(d, addr, AmoResult(funct5, 4, oldv, rs2));
  }

  lemma SpliceParts(d: nat, addr: nat, v: nat)
    requires d < W64
    ensures SpliceWord(d, addr, 4, v) == Join(v % W32, Other(d, addr), addr)
    ensures SpliceWord(d, addr, 4, v) < W64
    ensures Word(SpliceWord(d, addr, 4, v), addr) == v % W32 && Other(SpliceWord(d, addr, 4, v), addr) == Other(d, addr)
  {
    JoinParts(d, addr, v % W32, Other(d, addr));
  }

  // ---------------------------------------------------------------- the recorded operation

  // kind: 0 none, 1 load, 2 LR, 3 SC, 4 AMO, as in struct MemOp.
  datatype MemOp = MemOp(
    valid: bool, kind: nat, rd: nat, width: nat, funct5: nat, addr: nat, rs2val: nat, oldword: nat)

  const DRAM: nat := 0x8000_0000
  const DRAM_END: nat := 0x8900_0000

  // What the operation leaves in its dword d when rd gets the value rd: nothing changes for a load,
  // an LR or a failed SC; a successful SC (rd 0) stores rs2; an AMO stores its result on the value
  // it observed.
  function Effect(op: MemOp, d: nat, rd: nat): nat {
    if op.kind == 3 then
      if rd == 0 then Put(d, op.addr, op.width, op.rs2val) else d
    else if op.kind == 4 then
      Put(d, op.addr, op.width,
          if op.width == 8 then IsaAmo(op.funct5, 64, rd, op.rs2val)
          else IsaAmo(op.funct5, 32, rd % W32, op.rs2val % W32))
    else d
  }

  function Put(d: nat, addr: nat, width: nat, v: nat): nat {
    if width == 8 then v else Join(v % W32, Other(d, addr), addr)
  }

  // The dword `reconcile_racy` leaves, given the one it finds.
  function Repaired(op: MemOp, d: nat, rtlRd: nat, goldRd: nat): nat {
    if op.kind == 3 then
      if rtlRd == 0 && goldRd != 0 then SpliceWord(d, op.addr, op.width, op.rs2val)
      else if rtlRd != 0 && goldRd == 0 then op.oldword
      else d
    else if op.kind == 4 then
      SpliceWord(d, op.addr, op.width, AmoResult(op.funct5, op.width, rtlRd, op.rs2val))
    else d
  }

  predicate Undo(op: MemOp, rtlRd: nat, goldRd: nat) { op.kind == 3 && rtlRd != 0 && goldRd == 0 }
  predicate Redo(op: MemOp, rtlRd: nat, goldRd: nat) { op.kind == 4 || (op.kind == 3 && rtlRd == 0 && goldRd != 0) }

  predicate WellFormed(op: MemOp) {
    (op.width == 4 || op.width == 8) && op.rs2val < W64 && op.oldword < W64
  }

  // ---------------------------------------------------------------- bytes

  function Pow256(n: nat): (r: nat)
    ensures r > 0
  {
    if n == 0 then 1 else 0x100 * Pow256(n - 1)
  }

  lemma Pow256Words()
    ensures Pow256(4) == W32 && Pow256(8) == W64
  {
    assert Pow256(4) == W32;
    assert Pow256(6) == 0x1_0000 * W32;
  }

  // Byte k of a number in little-endian memory.
  function ByteAt(d: nat, k: nat): (b: nat)
    ensures b < 0x100
  {
    if k == 0 then d % 0x100 else ByteAt(d / 0x100, k - 1)
  }

  // The number with byte k replaced.
  function PutByte(d: nat, k: nat, v: nat): nat {
    if k == 0 then d / 0x100 * 0x100 + v else PutByte(d / 0x100, k - 1, v) * 0x100 + d % 0x100
  }

  lemma PutByteHalf(d: nat, k: nat, v: nat)
    requires v < 0x100
    ensures PutByte(d, k, v) / 0x100 == if k == 0 then d / 0x100 else PutByte(d / 0x100, k - 1, v)
    ensures PutByte(d, k, v) % 0x100 == if k == 0 then v else d % 0x100
  {
    var hi, lo := if k == 0 then d / 0x100 else PutByte(d / 0x100, k - 1, v), if k == 0 then v else d % 0x100;
    DivUnique(PutByte(d, k, v), 0x100, hi, lo);
  }

  lemma {:induction false} PutByteAt(d: nat, k: nat, v: nat, i: nat)
    requires v < 0x100
    ensures ByteAt(PutByte(d, k, v), i) == if i == k then v else ByteAt(d, i)
  {
    PutByteHalf(d, k, v);
    if k > 0 && i > 0 { PutByteAt(d / 0x100, k - 1, v, i - 1); }
  }

  lemma Bound256(hi: nat, lo: nat, p: nat)
    requires hi < p && lo < 0x100
    ensures hi * 0x100 + lo < 0x100 * p
  {
  }

  lemma {:induction false} PutByteRange(d: nat, k: nat, v: nat, n: nat)
    requires v < 0x100 && k < n && d < Pow256(n)
    ensures PutByte(d, k, v) < Pow256(n)
  {
    var p := Pow256(n - 1);
    assert d / 0x100 < p;
    if k > 0 {
      PutByteRange(d / 0x100, k - 1, v, n - 1);
      Bound256(PutByte(d / 0x100, k - 1, v), d % 0x100, p);
    } else {
      Bound256(d / 0x100, v, p);
    }
  }

  lemma Shifted(lo: nat, p: nat, hi: nat)
    ensures (lo + 0x100 * p * hi) / 0x100 == lo / 0x100 + p * hi && (lo + 0x100 * p * hi) % 0x100 == lo % 0x100
  {
    assert 0x100 * p * hi == 0x100 * (p * hi);
    DivUnique(lo + 0x100 * p * hi, 0x100, lo / 0x100 + p * hi, lo % 0x100);
  }

  lemma {:induction false} LowByte(lo: nat, m: nat, hi: nat, k: nat)
    requires k < m
    ensures ByteAt(lo + Pow256(m) * hi, k) == ByteAt(lo, k)
  {
    Shifted(lo, Pow256(m - 1), hi);
    if k > 0 { LowByte(lo / 0x100, m - 1, hi, k - 1); }
  }

  lemma {:induction false} HighByte(lo: nat, m: nat, hi: nat, k: nat)
    requires lo < Pow256(m)
    ensures ByteAt(lo + Pow256(m) * hi, m + k) == ByteAt(hi, k)
  {
    if m > 0 {
      Shifted(lo, Pow256(m - 1), hi);
      HighByte(lo / 0x100, m - 1, hi, k);
    }
  }

  // The bytes of two words side by side.
  lemma ByteOfHalves(lo: nat, hi: nat, k: nat)
    requires lo < W32
    ensures ByteAt(lo + hi * W32, k) == if k < 4 then ByteAt(lo, k) else ByteAt(hi, k - 4)
  {
    Pow256Words();
    if k < 4 { LowByte(lo, 4, hi, k); } else { HighByte(lo, 4, hi, k - 4); }
  }

  lemma {:induction false} BytesDetermine(d: nat, e: nat, n: nat)
    requires d < Pow256(n) && e < Pow256(n) && forall k: nat | k < n :: ByteAt(d, k) == ByteAt(e, k)
    ensures d == e
  {
    if n > 0 {
      assert ByteAt(d, 0) == ByteAt(e, 0);
      forall k: nat | k < n - 1 ensures ByteAt(d / 0x100, k) == ByteAt(e / 0x100, k) {
        assert ByteAt(d, k + 1) == ByteAt(e, k + 1);
      }
      BytesDetermine(d / 0x100, e / 0x100, n - 1);
    }
  }

  // The dword of an address begins at the multiple of eight at or below it.
  lemma AlignedIs(addr: nat)
    ensures Aligned(addr) % 8 == 0 && Aligned(addr) + addr % 8 == addr
  {
  }

  // The bytes of a dword are those of its halves, the low half's bytes those of the dword.
  lemma BytesOf(d: nat, k: nat)
    ensures ByteAt(d, k) == if k < 4 then ByteAt(d % W32, k) else ByteAt(d / W32, k - 4)
  {
    assert d == d % W32 + d / W32 * W32;
    ByteOfHalves(d % W32, d / W32, k);
  }

  lemma HalfOf(addr: nat)
    requires addr % 4 == 0
    ensures UpperHalf(addr) <==> addr % 8 == 4
    ensures addr % 8 == 0 || addr % 8 == 4
  {
    assert addr == 4 * (addr / 4);
  }

  lemma LowByteOfWord(v: nat, k: nat)
    requires k < 4
    ensures ByteAt(v % W32, k) == ByteAt(v, k)
  {
    BytesOf(v, k);
  }

  // At an address that is a multiple of eight, and four beyond it.
  lemma SpliceHalves(d: nat, addr: nat, v: nat)
    requires addr % 4 == 0
    ensures SpliceWord(d, addr, 4, v) == if addr % 8 == 0 then v % W32 + d / W32 * W32 else d % W32 + v % W32 * W32
  {
    HalfOf(addr);
  }

  lemma SpliceLower(d: nat, v: nat, k: nat)
    requires k < 8
    ensures ByteAt(v % W32 + d / W32 * W32, k) == if k < 4 then ByteAt(v, k) else ByteAt(d, k)
  {
    ByteOfHalves(v % W32, d / W32, k);
    if k < 4 { LowByteOfWord(v, k); } else { BytesOf(d, k); }
  }

  lemma SpliceUpper(d: nat, v: nat, k: nat)
    requires k < 8
    ensures ByteAt(d % W32 + v % W32 * W32, k) == if k < 4 then ByteAt(d, k) else ByteAt(v, k - 4)
  {
    ByteOfHalves(d % W32, v % W32, k);
    if k >= 4 { LowByteOfWord(v, k - 4); } else { BytesOf(d, k); }
  }

  lemma HalvesBound(lo: nat, hi: nat)
    requires lo < W32 && hi < W32
    ensures lo + hi * W32 < W64
  {
  }

  // Splicing replaces exactly the bytes at the address: by those of the value, lowest first.
  lemma SpliceBytes(d: nat, addr: nat, width: nat, v: nat, k: nat)
    requires (width == 4 || width == 8) && addr % width == 0 && d < W64 && v < W64 && k < 8
    ensures SpliceWord(d, addr, width, v) < W64
    ensures ByteAt(SpliceWord(d, addr, width, v), k)
         == if addr % 8 <= k < addr % 8 + width then ByteAt(v, k - addr % 8) else ByteAt(d, k)
  {
    if width == 4 {
      HalvesBound(v % W32, d / W32);
      HalvesBound(d % W32, v % W32);
      HalfOf(addr);
      SpliceHalves(d, addr, v);
      if addr % 8 == 4 { SpliceUpper(d, v, k); } else { SpliceLower(d, v, k); }
    }
  }

  // ---------------------------------------------------------------- other harts' stores

  // One byte stored into the dword: its place and its value.  A wider store is several of these.
  datatype ByteStore = ByteStore(lane: nat, value: nat)

  predicate InRange(st: seq<ByteStore>) { forall i | 0 <= i < |st| :: st[i].lane < 8 && st[i].value < 0x100 }

  function Stored(d: nat, b: ByteStore): nat { PutByte(d, b.lane, b.value) }

  function StoredAll(d: nat, st: seq<ByteStore>): nat
    decreases |st|
  {
    if st == [] then d else StoredAll(Stored(d, st[0]), st[1..])
  }

  lemma {:induction false} StoresInRange(d: nat, st: seq<ByteStore>)
    requires d < W64 && InRange(st)
    ensures StoredAll(d, st) < W64
    decreases |st|
  {
    if st != [] {
      Pow256Words();
      PutByteRange(d, st[0].lane, st[0].value, 8);
      StoresInRange(Stored(d, st[0]), st[1..]);
    }
  }

  // What stores leave in a byte depends on that byte only.
  lemma {:induction false} BytesAreLocal(d: nat, e: nat, k: nat, st: seq<ByteStore>)
    requires InRange(st) && ByteAt(d, k) == ByteAt(e, k)
    ensures ByteAt(StoredAll(d, st), k) == ByteAt(StoredAll(e, st), k)
    decreases |st|
  {
    if st != [] {
      PutByteAt(d, st[0].lane, st[0].value, k);
      PutByteAt(e, st[0].lane, st[0].value, k);
      BytesAreLocal(Stored(d, st[0]), Stored(e, st[0]), k, st[1..]);
    }
  }

  // The word beside the one at addr, by its bytes.
  lemma OtherBytes(d: nat, addr: nat, k: nat)
    requires d < W64 && k < 4
    ensures Other(d, addr) < W32 && ByteAt(Other(d, addr), k) == ByteAt(d, if UpperHalf(addr) then k else k + 4)
  {
    assert d == d % W32 + d / W32 * W32;
    ByteOfHalves(d % W32, d / W32, if UpperHalf(addr) then k else k + 4);
  }

  // What stores leave in one half depends on that half only.
  lemma StoresAreLocal(d: nat, e: nat, addr: nat, st: seq<ByteStore>)
    requires d < W64 && e < W64 && Other(d, addr) == Other(e, addr) && InRange(st)
    ensures StoredAll(d, st) < W64 && StoredAll(e, st) < W64
    ensures Other(StoredAll(d, st), addr) == Other(StoredAll(e, st), addr)
  {
    StoresInRange(d, st);
    StoresInRange(e, st);
    Pow256Words();
    var f, g := Other(StoredAll(d, st), addr), Other(StoredAll(e, st), addr);
    OtherBytes(StoredAll(d, st), addr, 0);
    OtherBytes(StoredAll(e, st), addr, 0);
    forall k: nat | k < 4 ensures ByteAt(f, k) == ByteAt(g, k) {
      OtherBytes(d, addr, k);
      OtherBytes(e, addr, k);
      OtherBytes(StoredAll(d, st), addr, k);
      OtherBytes(StoredAll(e, st), addr, k);
      BytesAreLocal(d, e, if UpperHalf(addr) then k else k + 4, st);
    }
    BytesDetermine(f, g, 4);
  }

  // A hart's store of `n` bytes of v from place `off` on, lowest byte first.
  function ByteStores(off: nat, v: nat, j: nat, n: nat): (st: seq<ByteStore>)
    requires j <= n
    decreases n - j
  {
    if j == n then [] else [ByteStore(off + j, ByteAt(v, j))] + ByteStores(off, v, j + 1, n)
  }

  lemma {:induction false} ByteStoresRange(off: nat, v: nat, j: nat, n: nat)
    requires j <= n && off + n <= 8
    ensures InRange(ByteStores(off, v, j, n))
    decreases n - j
  {
    if j < n { ByteStoresRange(off, v, j + 1, n); }
  }

  lemma {:induction false} ByteStoresAt(d: nat, off: nat, v: nat, j: nat, n: nat, k: nat)
    requires j <= n
    ensures ByteAt(StoredAll(d, ByteStores(off, v, j, n)), k)
         == if off + j <= k < off + n then ByteAt(v, k - off) else ByteAt(d, k)
    decreases n - j
  {
    if j < n {
      var first, rest := ByteStore(off + j, ByteAt(v, j)), ByteStores(off, v, j + 1, n);
      var st := [first] + rest;
      assert st[0] == first && st[1..] == rest;
      PutByteAt(d, off + j, ByteAt(v, j), k);
      ByteStoresAt(Stored(d, first), off, v, j + 1, n, k);
    }
  }

  // Splicing is that store.
  lemma SpliceIsStore(d: nat, addr: nat, width: nat, v: nat)
    requires (width == 4 || width == 8) && addr % width == 0 && d < W64 && v < W64
    ensures SpliceWord(d, addr, width, v) == StoredAll(d, ByteStores(addr % 8, v, 0, width))
  {
    var e := StoredAll(d, ByteStores(addr % 8, v, 0, width));
    assert addr % 8 + width <= 8;
    ByteStoresRange(addr % 8, v, 0, width);
    StoresInRange(d, ByteStores(addr % 8, v, 0, width));
    SpliceBytes(d, addr, width, v, 0);
    Pow256Words();
    forall k: nat | k < 8 ensures ByteAt(SpliceWord(d, addr, width, v), k) == ByteAt(e, k) {
      SpliceBytes(d, addr, width, v, k);
      ByteStoresAt(d, addr % 8, v, 0, width, k);
    }
    BytesDetermine(SpliceWord(d, addr, width, v), e, 8);
  }

  // ---------------------------------------------------------------- theorems

  lemma EffectKeepsOther(op: MemOp, d: nat, rd: nat)
    requires WellFormed(op) && d < W64 && rd < W64
    ensures Effect(op, d, rd) < W64
    ensures op.width == 4 ==> Other(Effect(op, d, rd), op.addr) == Other(d, op.addr)
  {
    if op.width == 8 {
      AmoRange(op.funct5, rd, op.rs2val);
    } else {
      PutKeepsOther(d, op.addr, op.rs2val);
      PutKeepsOther(d, op.addr, IsaAmo(op.funct5, 32, rd % W32, op.rs2val % W32));
    }
  }

  lemma PutKeepsOther(d: nat, addr: nat, v: nat)
    requires d < W64
    ensures Put(d, addr, 4, v) < W64 && Other(Put(d, addr, 4, v), addr) == Other(d, addr)
  {
    JoinParts(d, addr, v % W32, Other(d, addr));
  }

  lemma AmoRange(funct5: nat, o: nat, r: nat)
    requires o < W64 && r < W64
    ensures IsaAmo(funct5, 64, o, r) < W64
  {
    BitwiseRange(Xor, o, r, 64);
    BitwiseRange(Or, o, r, 64);
    BitwiseRange(And, o, r, 64);
    Pow2Long();
  }

  lemma Pow2Long()
    ensures Pow2(64) == W64
  {
    Pow2Words();
    assert Pow2(40) == 0x100 * W32;
    assert Pow2(48) == 0x1_0000 * W32;
    assert Pow2(56) == 0x100_0000 * W32;
  }

  lemma SpliceIsPut(d: nat, addr: nat, width: nat, v: nat)
    requires (width == 4 || width == 8) && d < W64
    ensures SpliceWord(d, addr, width, v) == Put(d, addr, width, v)
  {
    if width == 4 { SpliceParts(d, addr, v); }
  }

  // The code's value for an AMO is what the instruction set stores.
  lemma AmoIsEffect(op: MemOp, d: nat, rtlRd: nat)
    requires WellFormed(op) && op.kind == 4 && rtlRd < W64
    ensures Put(d, op.addr, op.width, AmoResult(op.funct5, op.width, rtlRd, op.rs2val)) == Effect(op, d, rtlRd)
  {
    if op.width == 4 {
      var v, w := AmoResult(op.funct5, 4, rtlRd, op.rs2val), IsaAmo(op.funct5, 32, rtlRd % W32, op.rs2val % W32);
      AmoLow(op.funct5, rtlRd, op.rs2val);
      assert w % W32 == v % W32;
    } else {
      AmoLong(op.funct5, rtlRd, op.rs2val);
    }
  }

  // The golden model has executed the operation on d with its own outcome, and other harts have
  // stored to the dword since.  If the repair stores (an AMO, or an SC the golden model failed), the
  // result is the operation executed with the RTL's outcome after those stores; if it need not touch
  // memory, the result is the operation before those stores.
  lemma ReconcileSerialises(op: MemOp, d: nat, st: seq<ByteStore>, rtlRd: nat, goldRd: nat)
    requires WellFormed(op) && d < W64 && InRange(st) && rtlRd < W64 && goldRd < W64 && !Undo(op, rtlRd, goldRd)
    ensures var found := StoredAll(Effect(op, d, goldRd), st);
            Repaired(op, found, rtlRd, goldRd) == if Redo(op, rtlRd, goldRd) then Effect(op, StoredAll(d, st), rtlRd)
                                                  else StoredAll(Effect(op, d, rtlRd), st)
  {
    EffectKeepsOther(op, d, goldRd);
    var found := StoredAll(Effect(op, d, goldRd), st);
    if Redo(op, rtlRd, goldRd) {
      StoresInRange(Effect(op, d, goldRd), st);
      SpliceIsPut(found, op.addr, op.width, op.rs2val);
      SpliceIsPut(found, op.addr, op.width, AmoResult(op.funct5, op.width, rtlRd, op.rs2val));
      if op.kind == 4 { AmoIsEffect(op, found, rtlRd); }
      if op.width == 4 { StoresAreLocal(Effect(op, d, goldRd), d, op.addr, st); }
    }
  }

  // With no other store since the capture, every kind of operation ends as the RTL executed it; in
  // particular an SC the RTL failed is fully undone.
  lemma ReconcileExact(op: MemOp, d: nat, rtlRd: nat, goldRd: nat)
    requires WellFormed(op) && d < W64 && op.oldword == d && rtlRd < W64 && goldRd < W64
    ensures Repaired(op, Effect(op, d, goldRd), rtlRd, goldRd) == Effect(op, d, rtlRd)
    ensures op.width == 4 ==> Other(Repaired(op, Effect(op, d, goldRd), rtlRd, goldRd), op.addr) == Other(d, op.addr)
  {
    if !Undo(op, rtlRd, goldRd) { ReconcileSerialises(op, d, [], rtlRd, goldRd); }
    EffectKeepsOther(op, d, rtlRd);
  }

  // Undoing an SC writes the whole captured dword back.  It leaves what the other harts stored since
  // the capture in place, for every captured dword, exactly when they stored nothing there.
  lemma UndoErasesStores(op: MemOp, st: seq<ByteStore>, rtlRd: nat)
    requires WellFormed(op) && op.kind == 3 && rtlRd != 0 && InRange(st)
    ensures (forall d: nat | d < W64 ::
               Repaired(op.(oldword := d), StoredAll(Effect(op, d, 0), st), rtlRd, 0)
               == StoredAll(Effect(op, d, rtlRd), st))
            <==> st == []
  {
    if st != [] {
      var last := st[|st| - 1];
      var d := if last.value == 0 then W64 - 1 else 0;
      LastByteStays(d, st);
      Pow256Words();
      AllBytes(8, last.lane);
      assert d < W64 && StoredAll(d, st) != d;
      assert Repaired(op.(oldword := d), StoredAll(Effect(op, d, 0), st), rtlRd, 0) == d;
    }
  }

  lemma {:induction false} AllBytes(n: nat, k: nat)
    requires k < n
    ensures ByteAt(0, k) == 0 && ByteAt(Pow256(n) - 1, k) == 0xff
  {
    DivUnique(Pow256(n) - 1, 0x100, Pow256(n - 1) - 1, 0xff);
    if k > 0 { AllBytes(n - 1, k - 1); }
  }

  lemma {:induction false} LastByteStays(d: nat, st: seq<ByteStore>)
    requires d < W64 && InRange(st) && st != []
    ensures ByteAt(StoredAll(d, st), st[|st| - 1].lane) == st[|st| - 1].value
    decreases |st|
  {
    Pow256Words();
    PutByteAt(d, st[0].lane, st[0].value, st[0].lane);
    PutByteRange(d, st[0].lane, st[0].value, 8);
    if |st| == 1 { assert st[1..] == []; } else { LastByteStays(Stored(d, st[0]), st[1..]); }
  }

  // ---------------------------------------------------------------- the harness

  function Field(insn: nat, shift: nat, size: nat): nat
    requires shift > 0 && size > 0
  {
    insn / shift % size
  }

  // The sign-extended I-immediate added to a base register.
  function LoadAddress(base: nat, insn: nat): nat {
    var imm := insn / 0x10_0000;
    (base + (if imm >= 0x800 then imm + (W64 - 0x1000) else imm)) % W64
  }

  function AmoAddress(insn: nat, regs: seq<nat>): nat
    requires |regs| == 32
  {
    regs[Field(insn, 0x8000, 32)]
  }

  // What is recorded of instruction insn before the golden model executes it; `oldword` is the
  // aligned dword an atomic is about to work on.  Register x0 is never repaired, so operations that
  // write it are not recorded.
  function Captured(prev: MemOp, insn: nat, regs: seq<nat>, oldword: nat): MemOp
    requires |regs| == 32
  {
    var rd := Field(insn, 0x80, 32);
    if insn % 0x80 == 0x03 && rd != 0 && LoadAddress(AmoAddress(insn, regs), insn) >= DRAM then
      MemOp(true, 1, rd, 8, 0, LoadAddress(AmoAddress(insn, regs), insn), 0, 0)
    else if insn % 0x80 == 0x2f && rd != 0 && AmoAddress(insn, regs) >= DRAM then
      var funct5 := insn / 0x800_0000;
      MemOp(true, if funct5 == 0x02 then 2 else if funct5 == 0x03 then 3 else 4, rd,
            if Field(insn, 0x1000, 8) == 2 then 4 else 8, funct5,
            AmoAddress(insn, regs), regs[Field(insn, 0x10_0000, 32)], oldword)
    else prev.(valid := false)
  }

  // Everything recorded is an operation the repair theorems speak about, on a register it may repair.
  lemma CapturedWellFormed(prev: MemOp, insn: nat, regs: seq<nat>, oldword: nat)
    requires |regs| == 32 && oldword < W64 && forall r | 0 <= r < 32 :: regs[r] < W64
    ensures var op := Captured(prev, insn, regs, oldword);
            op.valid ==>
              WellFormed(op) && 1 <= op.rd <= 31 && op.addr >= DRAM && (op.kind > 1 ==> op.oldword == oldword)
  {
  }

  // ---------------------------------------------------------------- instructions

  // Loads and atomics of RISC-V Unprivileged ISA 20191213 (sections 2.6, 8.2 and 8.4): registers, the
  // load's signed 12-bit offset and funct3, the atomics' size.
  datatype Instr =
    | Load(rd: nat, rs1: nat, offset: int, funct3: nat)
    | Lr(rd: nat, rs1: nat, word: bool)
    | Sc(rd: nat, rs1: nat, rs2: nat, word: bool)
    | Amo(op: AmoOp, rd: nat, rs1: nat, rs2: nat, word: bool)

  predicate Proper(i: Instr) {
    && i.rd < 32 && i.rs1 < 32
    && (i.Sc? || i.Amo? ==> i.rs2 < 32)
    && (i.Load? ==> i.funct3 < 8 && -0x800 <= i.offset < 0x800)
  }

  // The seven-bit opcode, rd, funct3, rs1, rs2, the two ordering bits and funct5, lowest first.
  function Format(
    opcode: nat, rd: nat, funct3: nat, rs1: nat, rs2: nat, order: nat, funct5: nat): nat
  {
    opcode + 0x80 * (rd + 0x20 * (funct3 + 8 * (rs1 + 0x20 * (rs2 + 0x20 * (order + 4 * funct5)))))
  }

  // A load's offset fills the upper twelve bits; an atomic's ordering bits may be any.
  function Encoded(i: Instr, order: nat): nat {
    match i
    case Load(rd, rs1, offset, funct3) =>
      var imm := offset % 0x1000;
      Format(0x03, rd, funct3, rs1, imm % 0x20, imm / 0x20 % 4, imm / 0x80)
    case Lr(rd, rs1, word) => Format(0x2f, rd, if word then 2 else 3, rs1, 0, order, 2)
    case Sc(rd, rs1, rs2, word) => Format(0x2f, rd, if word then 2 else 3, rs1, rs2, order, 3)
    case Amo(op, rd, rs1, rs2, word) => Format(0x2f, rd, if word then 2 else 3, rs1, rs2, order, Funct5(op))
  }

  function AddressOf(i: Instr, regs: seq<nat>): nat
    requires |regs| == 32 && Proper(i)
  {
    if i.Load? then (regs[i.rs1] + i.offset) % W64 else regs[i.rs1]
  }

  function Size(i: Instr): nat { if !i.Load? && i.word then 4 else 8 }

  // What the ISA demands of a store-conditional and of an AMO.
  predicate NaturallyAligned(i: Instr, regs: seq<nat>)
    requires |regs| == 32 && Proper(i)
  {
    i.Sc? || i.Amo? ==> AddressOf(i, regs) % Size(i) == 0
  }

  // The dword after the instruction, when rd gets the value rd: a successful store-conditional (rd 0)
  // and an AMO store at the instruction's address, byte by byte; nothing else changes memory.
  function IsaEffect(i: Instr, regs: seq<nat>, d: nat, rd: nat): nat
    requires |regs| == 32 && Proper(i)
  {
    match i
    case Load(_, _, _, _) => d
    case Lr(_, _, _) => d
    case Sc(_, rs1, rs2, word) =>
      if rd == 0 then StoredAll(d, ByteStores(regs[rs1] % 8, regs[rs2], 0, if word then 4 else 8)) else d
    case Amo(op, _, rs1, rs2, word) =>
      var v := if word then IsaValue(op, 32, rd % W32, regs[rs2] % W32) else IsaValue(op, 64, rd, regs[rs2]);
      StoredAll(d, ByteStores(regs[rs1] % 8, v, 0, if word then 4 else 8))
  }

  // The fields come back.
  lemma FormatFields(opcode: nat, rd: nat, funct3: nat, rs1: nat, rs2: nat, order: nat, funct5: nat)
    requires opcode < 0x80 && rd < 0x20 && funct3 < 8 && rs1 < 0x20 && rs2 < 0x20 && order < 4
    ensures var x := Format(opcode, rd, funct3, rs1, rs2, order, funct5);
            && x % 0x80 == opcode && Field(x, 0x80, 0x20) == rd && Field(x, 0x1000, 8) == funct3
            && Field(x, 0x8000, 0x20) == rs1 && Field(x, 0x10_0000, 0x20) == rs2 && x / 0x800_0000 == funct5
            && x / 0x10_0000 == rs2 + 0x20 * (order + 4 * funct5)
  {
    var x := Format(opcode, rd, funct3, rs1, rs2, order, funct5);
    var x5 := order + 4 * funct5;
    var x4 := rs2 + 0x20 * x5;
    var x3 := rs1 + 0x20 * x4;
    var x2 := funct3 + 8 * x3;
    var x1 := rd + 0x20 * x2;
    DivUnique(x, 0x80, x1, opcode);
    DivUnique(x1, 0x20, x2, rd);
    DivUnique(x, 0x1000, x2, opcode + 0x80 * rd);
    DivUnique(x2, 8, x3, funct3);
    DivUnique(x, 0x8000, x3, opcode + 0x80 * (rd + 0x20 * funct3));
    DivUnique(x3, 0x20, x4, rs1);
    var low := opcode + 0x80 * (rd + 0x20 * (funct3 + 8 * rs1));
    DivUnique(x, 0x10_0000, x4, low);
    DivUnique(x4, 0x20, x5, rs2);
    DivUnique(x, 0x800_0000, funct5, low + 0x10_0000 * (rs2 + 0x20 * order));
  }

  // The twelve bits of the offset, split over the format's fields and put together again.
  lemma LoadFormat(rd: nat, rs1: nat, offset: int, funct3: nat)
    requires Proper(Load(rd, rs1, offset, funct3))
    ensures var x := Encoded(Load(rd, rs1, offset, funct3), 0);
            && x % 0x80 == 0x03 && Field(x, 0x80, 0x20) == rd && Field(x, 0x8000, 0x20) == rs1
            && x / 0x10_0000 == offset % 0x1000
  {
    var imm := offset % 0x1000;
    assert imm / 0x20 % 4 < 4 && imm / 0x80 == imm / 0x20 / 4;
    FormatFields(0x03, rd, funct3, rs1, imm % 0x20, imm / 0x20 % 4, imm / 0x80);
  }

  lemma SignedOffset(base: nat, offset: int, x: nat)
    requires base < W64 && -0x800 <= offset < 0x800 && x / 0x10_0000 == offset % 0x1000
    ensures LoadAddress(base, x) == (base + offset) % W64
  {
    var imm := offset % 0x1000;
    assert imm == if offset >= 0 then offset else offset + 0x1000;
    if offset < 0 { DivUnique(base + offset + W64, W64, (base + offset) / W64 + 1, (base + offset) % W64); }
  }

  // What is recorded of each instruction: its kind, destination, size, address and operand, and the
  // dword it is about to work on; nothing where rd is x0 or the address lies below DRAM.
  lemma CaptureDecodes(prev: MemOp, i: Instr, order: nat, regs: seq<nat>, oldword: nat)
    requires Proper(i) && order < 4 && |regs| == 32 && (forall r | 0 <= r < 32 :: regs[r] < W64)
    ensures var op, addr := Captured(prev, Encoded(i, order), regs, oldword), AddressOf(i, regs);
            op == if i.rd == 0 || addr < DRAM then prev.(valid := false) else
                  match i
                  case Load(rd, _, _, _) => MemOp(true, 1, rd, 8, 0, addr, 0, 0)
                  case Lr(rd, _, _) => MemOp(true, 2, rd, Size(i), 2, addr, regs[0], oldword)
                  case Sc(rd, _, rs2, _) => MemOp(true, 3, rd, Size(i), 3, addr, regs[rs2], oldword)
                  case Amo(o, rd, _, rs2, _) => MemOp(true, 4, rd, Size(i), Funct5(o), addr, regs[rs2], oldword)
  {
    match i {
      case Load(rd, rs1, offset, funct3) =>
        LoadFormat(rd, rs1, offset, funct3);
        SignedOffset(regs[rs1], offset, Encoded(i, order));
      case Lr(rd, rs1, word) => FormatFields(0x2f, rd, if word then 2 else 3, rs1, 0, order, 2);
      case Sc(rd, rs1, rs2, word) => FormatFields(0x2f, rd, if word then 2 else 3, rs1, rs2, order, 3);
      case Amo(op, rd, rs1, rs2, word) => FormatFields(0x2f, rd, if word then 2 else 3, rs1, rs2, order, Funct5(op));
    }
  }

  // No other instruction is recorded.
  lemma OthersNotCaptured(prev: MemOp, insn: nat, regs: seq<nat>, oldword: nat)
    requires |regs| == 32 && insn % 0x80 != 0x03 && insn % 0x80 != 0x2f
    ensures !Captured(prev, insn, regs, oldword).valid
  {
  }

  // On a record of kind SC or AMO the code's effect is the store of the instruction.
  lemma PutIsStore(d: nat, addr: nat, width: nat, v: nat)
    requires (width == 4 || width == 8) && addr % width == 0 && d < W64 && v < W64
    ensures Put(d, addr, width, v) == StoredAll(d, ByteStores(addr % 8, v, 0, width))
  {
    SpliceIsPut(d, addr, width, v);
    SpliceIsStore(d, addr, width, v);
  }

  lemma EffectIsIsa(prev: MemOp, i: Instr, order: nat, regs: seq<nat>, d: nat, rd: nat)
    requires Proper(i) && order < 4 && |regs| == 32 && (forall r | 0 <= r < 32 :: regs[r] < W64)
    requires d < W64 && rd < W64 && i.rd != 0 && AddressOf(i, regs) >= DRAM && NaturallyAligned(i, regs)
    ensures Effect(Captured(prev, Encoded(i, order), regs, d), d, rd) == IsaEffect(i, regs, d, rd)
  {
    CaptureDecodes(prev, i, order, regs, d);
    match i {
      case Load(_, _, _, _) =>
      case Lr(_, _, _) =>
      case Sc(_, rs1, rs2, word) => PutIsStore(d, regs[rs1], Size(i), regs[rs2]);
      case Amo(op, _, rs1, rs2, word) =>
        OpOfFunct5(op);
        var v := if word then IsaValue(op, 32, rd % W32, regs[rs2] % W32) else IsaValue(op, 64, rd, regs[rs2]);
        IsaRange(op, rd % W32, regs[rs2] % W32, 32);
        IsaRange(op, rd, regs[rs2], 64);
        Pow2Words();
        Pow2Long();
        PutIsStore(d, regs[rs1], Size(i), v);
    }
  }

  lemma IsaRange(op: AmoOp, o: nat, r: nat, n: nat)
    requires n > 0
    ensures o < Pow2(n) && r < Pow2(n) ==> IsaValue(op, n, o, r) < Pow2(n)
  {
    BitwiseRange(Xor, o, r, n);
    BitwiseRange(And, o, r, n);
    BitwiseRange(Or, o, r, n);
  }

  // For every load and naturally aligned atomic, with any registers: it is recorded unless rd is x0 or
  // the address lies below DRAM; and then, after the golden model has executed it with its own outcome,
  // the repair leaves the dword as the instruction leaves it with the RTL's.
  lemma CaptureThenReconcile(
    prev: MemOp, i: Instr, order: nat, regs: seq<nat>, d: nat, rtlRd: nat, goldRd: nat)
    requires Proper(i) && order < 4 && |regs| == 32 && (forall r | 0 <= r < 32 :: regs[r] < W64)
    requires d < W64 && rtlRd < W64 && goldRd < W64 && NaturallyAligned(i, regs)
    ensures var op := Captured(prev, Encoded(i, order), regs, d);
            && (op.valid <==> i.rd != 0 && AddressOf(i, regs) >= DRAM)
            && (op.valid ==> op.rd == i.rd && op.addr == AddressOf(i, regs))
            && (op.valid ==> Repaired(op, IsaEffect(i, regs, d, goldRd), rtlRd, goldRd) == IsaEffect(i, regs, d, rtlRd))
  {
    var op := Captured(prev, Encoded(i, order), regs, d);
    CaptureDecodes(prev, i, order, regs, d);
    if op.valid {
      EffectIsIsa(prev, i, order, regs, d, goldRd);
      EffectIsIsa(prev, i, order, regs, d, rtlRd);
      if !i.Load? { ReconcileExact(op, d, rtlRd, goldRd); }
    }
  }

  // The golden memory, one register file and one recorded operation a hart, and the fix-up counter.
  class Harness {
    var mem: map<nat, nat>
    var regs: array<seq<nat>>
    var lastMemop: array<MemOp>
    var racyFixups: nat

    ghost predicate Valid()
      reads this, regs, lastMemop
    {
      regs.Length == lastMemop.Length && forall h | 0 <= h < regs.Length :: |regs[h]| == 32
    }

    // Addresses outside DRAM read as 0, and writes to them do nothing.
    function ReadMem64(addr: nat): (d: nat)
      reads this`mem
      ensures !(DRAM <= addr < DRAM_END) ==> d == 0
    {
      if DRAM <= addr < DRAM_END && Aligned(addr) in mem then mem[Aligned(addr)] else 0
    }

    method WriteMem64(addr: nat, value: nat)
      modifies this`mem
      ensures mem == if DRAM <= addr < DRAM_END then old(mem)[Aligned(addr) := value] else old(mem)
      ensures DRAM <= addr < DRAM_END ==> ReadMem64(addr) == value
      ensures forall a: nat | Aligned(a) != Aligned(addr) :: ReadMem64(a) == old(ReadMem64(a))
    {
      if DRAM <= addr < DRAM_END { mem := mem[Aligned(addr) := value]; }
    }

    // Before the golden step of hart h.
    method CaptureMemOp(h: nat, insn: nat)
      requires Valid() && h < regs.Length
      modifies lastMemop
      ensures Valid()
      ensures lastMemop[h] == Captured(old(lastMemop[h]), insn, regs[h], ReadMem64(Aligned(AmoAddress(insn, regs[h]))))
      ensures forall i | 0 <= i < lastMemop.Length && i != h :: lastMemop[i] == old(lastMemop[i])
    {
      lastMemop[h] := lastMemop[h].(valid := false);
      var opcode, rd, rs1 := insn % 0x80, Field(insn, 0x80, 32), Field(insn, 0x8000, 32);
      if opcode == 0x03 {
        var addr := LoadAddress(regs[h][rs1], insn);
        if rd != 0 && addr >= DRAM { lastMemop[h] := MemOp(true, 1, rd, 8, 0, addr, 0, 0); }
      } else if opcode == 0x2f {
        var rs2, funct5 := Field(insn, 0x10_0000, 32), insn / 0x800_0000;
        var width := if Field(insn, 0x1000, 8) == 2 then 4 else 8;
        var addr := regs[h][rs1];
        var kind := if funct5 == 0x02 then 2 else if funct5 == 0x03 then 3 else 4;
        if rd != 0 && addr >= DRAM {
          lastMemop[h] := MemOp(true, kind, rd, width, funct5, addr, regs[h][rs2], ReadMem64(Aligned(addr)));
        }
      }
    }

    // Register r of hart h disagrees with the RTL, which has rtlRd there.
    method ReconcileRacy(h: nat, r: nat, rtlRd: nat) returns (fixed: bool)
      requires Valid() && h < regs.Length && r <= 32
      modifies this`mem, this`racyFixups, regs
      ensures Valid()
      ensures fixed <==> 1 <= r <= 31 && lastMemop[h].valid && r == lastMemop[h].rd
      ensures !fixed ==> regs[..] == old(regs[..]) && mem == old(mem) && racyFixups == old(racyFixups)
      ensures fixed ==> regs[..] == old(regs[..])[h := old(regs[h])[r := rtlRd]] && racyFixups == old(racyFixups) + 1
      ensures fixed ==>
                var op := lastMemop[h];
                var found, gold := old(ReadMem64(Aligned(lastMemop[h].addr))), old(regs[h])[r];
                if Writes(op, rtlRd, gold) && DRAM <= Aligned(op.addr) < DRAM_END
                then mem == old(mem)[Aligned(op.addr) := Repaired(op, found, rtlRd, gold)]
                else mem == old(mem)
    {
      if r < 1 || r > 31 || !lastMemop[h].valid || r != lastMemop[h].rd {
        return false;
      }
      var op := lastMemop[h];
      var goldRd := regs[h][r];
      regs[h] := regs[h][r := rtlRd];
      if op.kind == 3 {
        var w8 := ReadMem64(Aligned(op.addr));
        if rtlRd == 0 && goldRd != 0 {
          WriteMem64(Aligned(op.addr), SpliceWord(w8, op.addr, op.width, op.rs2val));
        } else if rtlRd != 0 && goldRd == 0 {
          WriteMem64(Aligned(op.addr), op.oldword);
        }
      } else if op.kind == 4 {
        var neww := AmoResult(op.funct5, op.width, rtlRd, op.rs2val);
        var w8 := ReadMem64(Aligned(op.addr));
        WriteMem64(Aligned(op.addr), SpliceWord(w8, op.addr, op.width, neww));
      }
      racyFixups := racyFixups + 1;
      return true;
    }
  }

  // The repair writes memory.
  predicate Writes(op: MemOp, rtlRd: nat, goldRd: nat) { Redo(op, rtlRd, goldRd) || Undo(op, rtlRd, goldRd) }
}
