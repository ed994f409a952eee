/** What the arithmetic of the classic BPF machine means, in numbers and in bits. */
module CbpfAlu {
  import opened Common
  import opened Cbpf

  /** Bit `i` of a number. */
  predicate Bit(a: nat, i: nat) {
    if i == 0 then a % 2 == 1 else Bit(a / 2, i - 1)
  }

  /** The same 32-bit word, whatever has been carried or borrowed beyond it. */
  predicate Wraps(r: word, n: int) {
    (n - r) % WORD_RANGE == 0
  }

  predicate Joins(r: word, a: word, b: word, join: (bool, bool) -> bool) {
    forall i :: 0 <= i < 32 ==> Bit(r, i) == join(Bit(a, i), Bit(b, i))
  }

  /** What each operation is, without saying how it is computed. */
  ghost predicate Means(op: ArithOp, a: word, rhs: word, r: Option<word>) {
    match op
    case Add => r.Some? && Wraps(r.value, a + rhs)
    case Sub => r.Some? && Wraps(r.value, a - rhs)
    case Mul => r.Some? && Wraps(r.value, a * rhs)
    case Negate => r.Some? && Wraps(r.value, -(a as int))
    case Div => (r.None? <==> rhs == 0) && (r.Some? ==> r.value * rhs <= a < r.value * rhs + rhs)
    case Mod => (r.None? <==> rhs == 0) && (r.Some? ==> r.value < rhs && exists q: nat :: a == rhs * q + r.value)
    case And => r.Some? && Joins(r.value, a, rhs, BothSet)
    case Or => r.Some? && Joins(r.value, a, rhs, EitherSet)
    case Xor => r.Some? && Joins(r.value, a, rhs, OneSet)
    case LeftShift =>
      var n := rhs % 32;
      r.Some? && forall i :: 0 <= i < 32 ==> Bit(r.value, i) == (i >= n && Bit(a, i - n))
    case RightShift =>
      var n := rhs % 32;
      r.Some? && forall i :: 0 <= i < 32 ==> Bit(r.value, i) == Bit(a, i + n)
  }

  lemma WordIsThirtyTwoBits()
    ensures TwoTo(32) == WORD_RANGE
  {
    assert TwoTo(8) == 0x100 && TwoTo(16) == 0x1_0000 && TwoTo(24) == 0x100_0000;
  }

  lemma {:induction false} BitwiseBit(join: (bool, bool) -> bool, a: nat, b: nat, n: nat, i: nat)
    requires i < n
    ensures Bit(Bitwise(join, a, b, TwoTo(n)), i) == join(Bit(a, i), Bit(b, i))
  {
    var low := if join(a % 2 == 1, b % 2 == 1) then 1 else 0;
    var high := Bitwise(join, a / 2, b / 2, TwoTo(n - 1));
    assert Bitwise(join, a, b, TwoTo(n)) == 2 * high + low;
    assert (2 * high + low) / 2 == high && (2 * high + low) % 2 == low;
    if i > 0 {
      BitwiseBit(join, a / 2, b / 2, n - 1, i - 1);
    }
  }

  lemma BitwiseJoins(join: (bool, bool) -> bool, a: word, b: word)
    ensures Joins(Bitwise(join, a, b, WORD_RANGE), a, b, join)
  {
    WordIsThirtyTwoBits();
    forall i | 0 <= i < 32
      ensures Bit(Bitwise(join, a, b, WORD_RANGE), i) == join(Bit(a, i), Bit(b, i))
    {
      BitwiseBit(join, a, b, 32, i);
    }
  }

  lemma DoubleProduct(m: nat, q: nat)
    ensures 2 * m * q == 2 * (m * q)
  {
  }

  lemma HalfOfSum(a: nat, x: nat, r: nat)
    requires a == 2 * x + r
    ensures a / 2 == x + r / 2 && a % 2 == r % 2
  {
  }

  lemma Divides(a: nat, d: nat) returns (q: nat, r: nat)
    requires d > 0
    ensures a == d * q + r && r == a % d && r < d
  {
    q, r := a / d, a % d;
  }

  lemma HalfOfRest(a: nat, m: nat)
    requires m > 0
    ensures a % (2 * m) / 2 == a / 2 % m && a % (2 * m) % 2 == a % 2
  {
    var q, r := Divides(a, 2 * m);
    DoubleProduct(m, q);
    HalfOfSum(a, m * q, r);
    ModuloIs(a / 2, m, q, r / 2);
  }

  lemma Multiple(m: nat, d: int)
    ensures d >= 1 ==> m * d >= m
    ensures d <= -1 ==> m * d <= -(m as int)
  {
    assert m * d == m * (d - 1) + m && m * d == m * (d + 1) - m;
    if d >= 1 {
      assert m * (d - 1) >= 0;
    }
    if d <= -1 {
      assert m * (-(d + 1)) >= 0;
    }
  }

  lemma ModuloIs(n: nat, m: nat, q: nat, r: nat)
    requires n == m * q + r && r < m
    ensures n % m == r
  {
    var (p, s) := (n / m, n % m);
    assert n == m * p + s && 0 <= s < m;
    Multiple(m, p - q);
    assert m * (p - q) == m * p - m * q;
  }

  /** Dropping the high part keeps the low bits. */
  lemma {:induction false} LowBits(a: nat, n: nat, i: nat)
    requires i < n
    ensures Bit(a % TwoTo(n), i) == Bit(a, i)
  {
    HalfOfRest(a, TwoTo(n - 1));
    if i > 0 {
      LowBits(a / 2, n - 1, i - 1);
    }
  }

  lemma DoubledBits(a: word, i: nat)
    requires i < 32
    ensures Bit(2 * a % WORD_RANGE, i) == (i > 0 && Bit(a, i - 1))
  {
    WordIsThirtyTwoBits();
    LowBits(2 * a, 32, i);
    assert 2 * a / 2 == a && 2 * a % 2 == 0;
  }

  lemma {:induction false} ShiftLeftBits(a: word, n: nat, i: nat)
    requires i < 32
    ensures Bit(ShiftLeft(a, n), i) == (i >= n && Bit(a, i - n))
    decreases n
  {
    if n > 0 {
      ShiftLeftBits(2 * a % WORD_RANGE, n - 1, i);
      if i >= n - 1 {
        DoubledBits(a, i - (n - 1));
      }
    }
  }

  lemma {:induction false} ShiftRightBits(a: word, n: nat, i: nat)
    ensures Bit(ShiftRight(a, n), i) == Bit(a, i + n)
    decreases n
  {
    if n > 0 {
      ShiftRightBits(a / 2, n - 1, i);
    }
  }

  lemma RemainderMeans(a: nat, b: nat)
    requires b > 0
    ensures a % b < b && exists q: nat :: a == b * q + a % b
  {
    assert a == b * (a / b) + a % b;
  }

  lemma WrapsModulo(n: int)
    ensures Wraps(n % WORD_RANGE, n)
  {
  }

  lemma QuotientMeans(a: word, rhs: word)
    requires rhs > 0
    ensures Quotient(a, rhs) * rhs <= a < Quotient(a, rhs) * rhs + rhs
  {
    var q := Quotient(a, rhs);
    assert (q + 1) * rhs == q * rhs + rhs;
  }

  lemma ArithmeticMeans(op: ArithOp, a: word, rhs: word)
    requires op.Add? || op.Sub? || op.Mul? || op.Negate? || op.Div? || op.Mod?
    ensures Means(op, a, rhs, Compute(op, a, rhs))
  {
    match op
    case Add => WrapsModulo(a + rhs);
    case Sub => WrapsModulo(a - rhs);
    case Negate => WrapsModulo(0 - a);
    case Mul =>
      var n := a * rhs;
      WrapsModulo(n);
    case Div => if rhs != 0 { QuotientMeans(a, rhs); }
    case Mod => if rhs != 0 { RemainderMeans(a, rhs); }
  }

  lemma ShiftMeans(op: ArithOp, a: word, rhs: word)
    requires op.LeftShift? || op.RightShift?
    ensures Means(op, a, rhs, Compute(op, a, rhs))
  {
    var n := rhs % 32;
    forall i | 0 <= i < 32
      ensures Bit(ShiftLeft(a, n), i) == (i >= n && Bit(a, i - n))
      ensures Bit(ShiftRight(a, n), i) == Bit(a, i + n)
    {
      ShiftLeftBits(a, n, i);
      ShiftRightBits(a, n, i);
    }
  }

  /**
   Arithmetic wraps at 32 bits, division truncates, and the bit operations work bit by bit; only a zero divisor fails.
   */
  lemma ComputeMeans(op: ArithOp, a: word, rhs: word)
    ensures Means(op, a, rhs, Compute(op, a, rhs))
  {
    match op
    case And => BitwiseJoins(BothSet, a, rhs);
    case Or => BitwiseJoins(EitherSet, a, rhs);
    case Xor => BitwiseJoins(OneSet, a, rhs);
    case LeftShift => ShiftMeans(op, a, rhs);
    case RightShift => ShiftMeans(op, a, rhs);
    case _ => ArithmeticMeans(op, a, rhs);
  }
}
