/**
 What the operators of the language compute, in terms of the integers and nothing else: for the
 meaning of the source, for every machine instruction, and for the instruction that is emitted.
 */
module Operators {
  import opened Words
  import opened Values
  import opened Clif
  import opened Translator
  import opened Lowering
  import T = Tokens

  // ----- 64-bit numbers

  /** Two integers agree in their low 64 bits. */
  predicate Congruent(a: int, b: int) {
    (a - b) % TWO_64 == 0
  }

  /** Wrapping keeps the low 64 bits, and leaves a number alone that fits. */
  lemma WrapExact(x: int)
    ensures Congruent(Wrap(x), x)
    ensures -(TWO_63 as int) <= x < TWO_63 ==> Wrap(x) == x
  {
    var y := x + TWO_63;
    assert y == TWO_64 * (y / TWO_64) + y % TWO_64;
    assert x - Wrap(x) == TWO_64 * (y / TWO_64);
    Multiple(-(y / TWO_64));
  }

  lemma Multiple(k: int)
    ensures TWO_64 * k % TWO_64 == 0
  {
  }

  /** Only one 64-bit number agrees with an integer. */
  lemma WrapUnique(x: int, n: I64)
    requires Congruent(n, x)
    ensures Wrap(x) == n
  {
    WrapExact(x);
    var k := (n - x) / TWO_64;
    assert n - x == TWO_64 * k;
    var j := (Wrap(x) - x) / TWO_64;
    assert Wrap(x) - x == TWO_64 * j;
    assert n - Wrap(x) == TWO_64 * (k - j);
  }

  /** The unsigned reading has the same low 64 bits and is not negative. */
  lemma UnsignedExact(x: I64)
    ensures Unsigned(x) < TWO_64 && Congruent(Unsigned(x), x)
  {
  }

  // ----- what an answer must be

  /** The answer is a number that agrees with `x` in its low 64 bits. */
  predicate IsNumber(a: Answer, x: int) {
    a.Value? && a.v.Int? && Congruent(a.v.n, x)
  }

  /** The answer is the truth value `b`. */
  predicate IsTruth(a: Answer, b: bool) {
    a == Value(Bool(b))
  }

  /** Unsigned division: a trap on zero, and otherwise the quotient that leaves a smaller remainder. */
  predicate IsQuotient(a: Answer, l: I64, r: I64) {
    if r == 0 then a == DivideTrap
    else
      && a.Value? && a.v.Int?
      && var q := Unsigned(a.v.n);
         q * Unsigned(r) <= Unsigned(l) < (q + 1) * Unsigned(r)
  }

  /** What the language promises of `l op r`. */
  predicate Promised(op: T.TKind, l: I64, r: I64, a: Answer) {
    match op
    case Plus => IsNumber(a, l + r)
    case Minus => IsNumber(a, l - r)
    case Star => IsNumber(a, l * r)
    case Slash => IsQuotient(a, l, r)
    case EqualEqual => IsTruth(a, l == r)
    case BangEqual => IsTruth(a, l != r)
    case Greater => IsTruth(a, l > r)
    case GreaterEqual => IsTruth(a, l >= r)
    case Less => IsTruth(a, l < r)
    case LessEqual => IsTruth(a, l <= r)
    case _ => a == Mismatch
  }

  /** What the machine promises of an instruction. */
  predicate Computed(opcode: Opcode, l: I64, r: I64, a: Answer) {
    match opcode
    case Iadd => IsNumber(a, l + r)
    case Isub => IsNumber(a, l - r)
    case Imul => IsNumber(a, l * r)
    case Udiv => IsQuotient(a, l, r)
    case Icmp(Equal) => IsTruth(a, l == r)
    case Icmp(NotEqual) => IsTruth(a, l != r)
    case Icmp(SignedGreaterThan) => IsTruth(a, l > r)
    case Icmp(SignedGreaterThanOrEqual) => IsTruth(a, l >= r)
    case Icmp(SignedLessThan) => IsTruth(a, l < r)
    case Icmp(SignedLessThanOrEqual) => IsTruth(a, l <= r)
  }

  /** A number below 2^64 survives the way through the signed reading and back. */
  lemma UnsignedWrap(q: nat)
    requires q < TWO_64
    ensures Unsigned(Wrap(q)) == q
  {
    WrapExact(q);
    if q >= TWO_63 { WrapUnique(q, q - TWO_64); }
  }

  lemma QuotientExact(l: I64, r: I64)
    requires r != 0
    ensures IsQuotient(Value(Int(Wrap(Unsigned(l) / Unsigned(r)))), l, r)
  {
    UnsignedExact(l);
    hide Wrap, Unsigned;
    DivisorPositive(r);
    var a, b := Unsigned(l), Unsigned(r);
    var q := a / b;
    assert a == b * q + a % b;
    QuotientSmall(a, b);
    UnsignedWrap(q);
    assert q * b == b * q && (q + 1) * b == b * q + b;
  }

  lemma QuotientSmall(a: nat, b: nat)
    requires b > 0
    ensures a / b <= a
  {
    var q := a / b;
    Growing(b - 1, q);
    assert a == b * q + a % b;
    assert b * q == (b - 1) * q + q;
  }

  lemma Growing(x: nat, y: nat)
    ensures x * y >= 0
  {
  }

  // ----- a promise has one answer

  lemma NumberOnce(x: int, a: Answer, b: Answer)
    requires IsNumber(a, x) && IsNumber(b, x)
    ensures a == b
  {
    WrapUnique(x, a.v.n);
    WrapUnique(x, b.v.n);
  }

  lemma SmallerQuotient(a: nat, b: nat, p: nat, q: nat)
    requires b > 0 && p < q && q * b <= a
    ensures (p + 1) * b <= a
  {
    Growing(q - p - 1, b);
    assert q * b == (p + 1) * b + (q - p - 1) * b;
  }

  lemma QuotientOnce(l: I64, r: I64, a: Answer, b: Answer)
    requires IsQuotient(a, l, r) && IsQuotient(b, l, r)
    ensures a == b
  {
    hide Unsigned;
    if r != 0 {
      DivisorPositive(r);
      var p, q := Unsigned(a.v.n), Unsigned(b.v.n);
      if p < q { SmallerQuotient(Unsigned(l), Unsigned(r), p, q); }
      if q < p { SmallerQuotient(Unsigned(l), Unsigned(r), q, p); }
      UnsignedOnce(a.v.n, b.v.n);
    }
  }

  lemma UnsignedOnce(x: I64, y: I64)
    requires Unsigned(x) == Unsigned(y)
    ensures x == y
  {
  }

  /** What is promised of an operator determines its answer. */
  lemma PromisedOnce(op: T.TKind, l: I64, r: I64, a: Answer, b: Answer)
    requires Promised(op, l, r, a) && Promised(op, l, r, b)
    ensures a == b
  {
    hide IsNumber, IsQuotient;
    match op
    case Plus => NumberOnce(l + r, a, b);
    case Minus => NumberOnce(l - r, a, b);
    case Star => NumberOnce(l * r, a, b);
    case Slash => QuotientOnce(l, r, a, b);
    case _ =>
  }

  /** The meaning of the source is the promised one. */
  lemma ApplyMeans(op: T.TKind, l: I64, r: I64)
    ensures Promised(op, l, r, Apply(op, Int(l), Int(r)))
  {
    hide Wrap, Unsigned;
    WrapExact(l + r);
    WrapExact(l - r);
    WrapExact(l * r);
    if r != 0 {
      DivisorPositive(r);
      QuotientExact(l, r);
    }
  }

  lemma DivisorPositive(r: I64)
    requires r != 0
    ensures Unsigned(r) > 0
  {
  }

  /** Every instruction computes what its name says. */
  lemma ExecuteMeans(opcode: Opcode, l: I64, r: I64)
    ensures Computed(opcode, l, r, Execute(opcode, Int(l), Int(r)))
  {
    hide Wrap, Unsigned;
    WrapExact(l + r);
    WrapExact(l - r);
    WrapExact(l * r);
    if r != 0 {
      DivisorPositive(r);
      QuotientExact(l, r);
    }
  }

  /** The instruction emitted for an operator computes what the language promises of the operator. */
  lemma EmittedMeans(op: T.TKind, l: I64, r: I64)
    requires IsArithmetic(op) || IsComparison(op)
    ensures OpcodeOf(op).Some? && Promised(op, l, r, Execute(OpcodeOf(op).value, Int(l), Int(r)))
  {
    OpcodeMeans(op, Int(l), Int(r));
    ApplyMeans(op, l, r);
  }
}
