/** Run-time values of the Yacari fragment and the meaning of its operators. */
module Values {
  import opened Tokens
  import opened Words

  /** A signed 64-bit machine integer. */
  type I64 = x: int | -(TWO_63 as int) <= x < TWO_63

  /** Two's complement wrap-around to 64 bits. */
  function Wrap(x: int): I64 {
    (x + TWO_63) % TWO_64 - TWO_63
  }

  /** The same 64 bits read as an unsigned number. */
  function Unsigned(x: I64): nat {
    if x < 0 then x + TWO_64 else x
  }

  /** `Unit` is the value of an expression of type `Void`. */
  datatype Val = Unit | Int(n: I64) | Bool(b: bool)

  /** The result of one operator: a value, a hardware trap, or operands outside its domain. */
  datatype Answer = Value(v: Val) | DivideTrap | Mismatch

  predicate IsArithmetic(op: TKind) {
    op in {Plus, Minus, Star, Slash}
  }

  predicate IsComparison(op: TKind) {
    op in {EqualEqual, BangEqual, Greater, GreaterEqual, Less, LessEqual}
  }

  /** What the language means by `l op r` on integers. Division is unsigned and traps on zero. */
  function Apply(op: TKind, l: Val, r: Val): Answer {
    if !l.Int? || !r.Int? then Mismatch
    else match op
      case Plus => Value(Int(Wrap(l.n + r.n)))
      case Minus => Value(Int(Wrap(l.n - r.n)))
      case Star => Value(Int(Wrap(l.n * r.n)))
      case Slash => if r.n == 0 then DivideTrap else Value(Int(Wrap(Unsigned(l.n) / Unsigned(r.n))))
      case EqualEqual => Value(Bool(l.n == r.n))
      case BangEqual => Value(Bool(l.n != r.n))
      case Greater => Value(Bool(l.n > r.n))
      case GreaterEqual => Value(Bool(l.n >= r.n))
      case Less => Value(Bool(l.n < r.n))
      case LessEqual => Value(Bool(l.n <= r.n))
      case _ => Mismatch
  }

  /** The result of evaluating an expression from state `S` with bounded loop fuel. */
  datatype Result<S> =
    | Done(v: Val, state: S)
    | Trapped
    | Wrong
    | OutOfFuel
  {
    predicate IsFailure() { !Done? }

    function PropagateFailure<T>(): Result<T>
      requires IsFailure()
    {
      match this
      case Trapped => Trapped
      case Wrong => Wrong
      case OutOfFuel => OutOfFuel
    }

    function Extract(): (Val, S)
      requires !IsFailure()
    {
      (v, state)
    }
  }

  /** Continue with the answer of an operator. */
  function Finish<S>(a: Answer, s: S): Result<S> {
    match a
    case Value(v) => Done(v, s)
    case DivideTrap => Trapped
    case Mismatch => Wrong
  }
}
