// What several of the models share.
module Common {

  datatype Option<T> = None | Some(value: T)

  function Pow2(n: nat): (r: nat)
    ensures r > 0
  {
    if n == 0 then 1 else 2 * Pow2(n - 1)
  }

  // Quotient and remainder are determined by the division equation.
  lemma DivUnique(x: int, d: nat, q: int, r: int)
    requires d > 0 && 0 <= r < d && x == d * q + r
    ensures x / d == q && x % d == r
  {
    var k := x / d - q;
    assert d * k == r - x % d;
    assert k >= 1 ==> d * k >= d;
    assert k <= -1 ==> d * k + d <= 0;
  }

  // ---------------------------------------------------------------- bitwise operations

  datatype Op = Xor | Or | And

  function OpBit(op: Op, a: nat, b: nat): nat {
    match op
    case Xor => if a % 2 != b % 2 then 1 else 0
    case Or => if a % 2 == 1 || b % 2 == 1 then 1 else 0
    case And => if a % 2 == 1 && b % 2 == 1 then 1 else 0
  }

  // The operation on the low n bits.
  function Bitwise(op: Op, a: nat, b: nat, n: nat): nat {
    if n == 0 then 0 else 2 * Bitwise(op, a / 2, b / 2, n - 1) + OpBit(op, a, b)
  }

  // Bit i of x.
  function Nth(x: nat, i: nat): nat { x / Pow2(i) % 2 }

  lemma HalfDiv(x: nat, p: nat)
    requires p > 0
    ensures x / (2 * p) == x / 2 / p
  {
    var q, r := x / 2 / p, x / 2 % p;
    assert x / 2 == p * q + r;
    assert x == (2 * p) * q + (2 * r + x % 2) by { assert 2 * (p * q) == (2 * p) * q; }
    DivUnique(x, 2 * p, q, 2 * r + x % 2);
  }

  lemma NthHalf(x: nat, i: nat)
    ensures i > 0 ==> Nth(x, i) == Nth(x / 2, i - 1)
    ensures Nth(x, 0) == x % 2
  {
    if i > 0 { HalfDiv(x, Pow2(i - 1)); }
  }

  // The operations in the arithmetic of bits: the sum modulo 2, the sum less the product, the product.
  function BitLaw(op: Op, x: nat, y: nat): int {
    match op
    case Xor => (x + y) % 2
    case Or => x + y - x * y
    case And => x * y
  }

  lemma OpBitLaw(op: Op, a: nat, b: nat)
    ensures OpBit(op, a, b) == BitLaw(op, a % 2, b % 2)
  {
    assert a % 2 == 0 || a % 2 == 1;
    assert b % 2 == 0 || b % 2 == 1;
  }

  lemma BitwiseHalf(op: Op, a: nat, b: nat, n: nat)
    requires n > 0
    ensures var r := Bitwise(op, a, b, n); r / 2 == Bitwise(op, a / 2, b / 2, n - 1) && r % 2 == OpBit(op, a, b)
  {
  }

  // Each bit of the result is given by the same bits of the operands.
  lemma {:induction false} BitwiseBit(op: Op, a: nat, b: nat, n: nat, i: nat)
    requires i < n
    ensures Nth(Bitwise(op, a, b, n), i) == BitLaw(op, Nth(a, i), Nth(b, i))
  {
    BitwiseHalf(op, a, b, n);
    NthHalf(a, i);
    NthHalf(b, i);
    NthHalf(Bitwise(op, a, b, n), i);
    if i > 0 { BitwiseBit(op, a / 2, b / 2, n - 1, i - 1); } else { OpBitLaw(op, a, b); }
  }

  lemma {:induction false} BitwiseRange(op: Op, a: nat, b: nat, n: nat)
    ensures Bitwise(op, a, b, n) < Pow2(n)
  {
    if n > 0 { BitwiseRange(op, a / 2, b / 2, n - 1); }
  }

  // ---------------------------------------------------------------- lists of lists

  function Flatten<T>(parts: seq<seq<T>>): seq<T> {
    if parts == [] then [] else parts[0] + Flatten(parts[1..])
  }

  lemma {:induction false} FlattenLast<T>(parts: seq<seq<T>>)
    requires parts != []
    ensures Flatten(parts) == Flatten(parts[..|parts| - 1]) + parts[|parts| - 1]
  {
    if |parts| == 1 {
      assert parts[1..] == [] && parts[..0] == [];
    } else {
      var init := parts[..|parts| - 1];
      FlattenLast(parts[1..]);
      assert parts[1..][..|parts| - 2] == init[1..];
      assert Flatten(init) == init[0] + Flatten(init[1..]);
    }
  }
}
