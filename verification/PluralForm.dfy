/** Plural forms: the trees the parser builds, and what they compute. */
module PluralForm {
  import opened Options

  datatype BinOp = Or | And | Equal | NotEqual | LessEq | GreaterEq | Less | Greater | Add | Sub | Mul | Div | Mod

  // A missing part of a conditional is a null pointer.
  datatype Form =
    | Identity
    | ConstValue(value: nat)
    | Not(operand: Form)
    | Binary(op: BinOp, lhs: Form, rhs: Form)
    | Ternary(cond: Option<Form>, val: Option<Form>, alt: Option<Form>)

  const LIMIT: nat := 0x1_0000_0000_0000_0000  // unsigned long wraps around here

  function Min(a: nat, b: nat): nat { if a < b then a else b }

  /** size(): the number of plurals every part was built with, 0 where one is missing. */
  function Size(f: Form, nplurals: nat): nat {
    match f
    case Identity => nplurals
    case ConstValue(_) => nplurals
    case Not(a) => Size(a, nplurals)
    case Binary(_, a, b) => Min(Size(a, nplurals), Size(b, nplurals))
    case Ternary(c, a, b) => Min(PartSize(c, nplurals), Min(PartSize(a, nplurals), PartSize(b, nplurals)))
  }

  function PartSize(f: Option<Form>, nplurals: nat): nat {
    match f case None => 0 case Some(a) => Size(a, nplurals)
  }

  predicate Complete(f: Form) {
    match f
    case Identity => true
    case ConstValue(v) => v < LIMIT
    case Not(a) => Complete(a)
    case Binary(_, a, b) => Complete(a) && Complete(b)
    case Ternary(c, a, b) =>
      c.Some? && a.Some? && b.Some? && Complete(c.value) && Complete(a.value) && Complete(b.value)
  }

  function Truth(b: bool): nat { if b then 1 else 0 }

  /** One operator over unsigned long; None for a division by zero. Both sides of && and || are evaluated. */
  function Calculate(op: BinOp, a: nat, b: nat): Option<nat> {
    match op
    case Or => Some(Truth(a != 0 || b != 0))
    case And => Some(Truth(a != 0 && b != 0))
    case Equal => Some(Truth(a == b))
    case NotEqual => Some(Truth(a != b))
    case LessEq => Some(Truth(a <= b))
    case GreaterEq => Some(Truth(a >= b))
    case Less => Some(Truth(a < b))
    case Greater => Some(Truth(a > b))
    case Add => Some((a + b) % LIMIT)
    case Sub => Some((a - b) % LIMIT)
    case Mul => Some((a * b) % LIMIT)
    case Div => if b == 0 then None else Some(a / b)
    case Mod => if b == 0 then None else Some(a % b)
  }

  /** The result of an operator, None for a division by zero; comparisons give 0 or 1. */
  predicate Gives(op: BinOp, a: nat, b: nat, r: nat) { Calculate(op, a, b) == Some(r) }

  /** Of less, equal and greater exactly one holds; the others are put together from them or are their opposites. */
  lemma ComparisonLaws(a: nat, b: nat)
    ensures Gives(Less, a, b, if a < b then 1 else 0) && Gives(Greater, a, b, if b < a then 1 else 0)
    ensures Calculate(Less, a, b).value + Calculate(Equal, a, b).value + Calculate(Greater, a, b).value == 1
    ensures Calculate(LessEq, a, b).value == Calculate(Less, a, b).value + Calculate(Equal, a, b).value
    ensures Calculate(GreaterEq, a, b).value == Calculate(Greater, a, b).value + Calculate(Equal, a, b).value
    ensures Calculate(LessEq, a, b).value + Calculate(Greater, a, b).value == 1
    ensures Calculate(NotEqual, a, b).value + Calculate(Equal, a, b).value == 1
    ensures Calculate(And, a, b).value == 1 <==> a > 0 && b > 0
    ensures Calculate(Or, a, b).value == 0 <==> a == 0 && b == 0
    ensures Calculate(And, a, b).value <= 1 && Calculate(Or, a, b).value <= 1
  {
  }

  lemma WrapOnce(n: int)
    requires -18446744073709551616 <= n < 2 * 18446744073709551616
    ensures n % LIMIT == if n < 0 then n + 18446744073709551616
                         else if n < 18446744073709551616 then n else n - 18446744073709551616
  {
  }

  /** Sums and differences are those of the integers, as far as they fit into 64 bits; */
  lemma SumLaw(a: nat, b: nat, r: nat)
    requires a < LIMIT && b < LIMIT
    ensures Gives(Add, a, b, r) <==> r == if a + b < 18446744073709551616 then a + b else a + b - 18446744073709551616
    ensures Gives(Sub, a, b, r) <==> r == if b <= a then a - b else 18446744073709551616 - (b - a)
  {
    WrapOnce(a + b);
    WrapOnce(a - b);
  }

  /** a difference is what is to be added. */
  lemma DifferenceLaw(a: nat, b: nat, r: nat)
    requires a < LIMIT && b < LIMIT
    ensures Gives(Sub, a, b, r) <==> r < 18446744073709551616 && Gives(Add, r, b, a)
  {
    hide Gives;
    SumLaw(a, b, r);
    if r < LIMIT {
      SumLaw(r, b, a);
    }
  }

  /** A product is cut to its lowest 64 bits. */
  lemma ProductLaw(a: nat, b: nat, r: nat)
    ensures Gives(Mul, a, b, r) <==> r < 18446744073709551616 && exists k :: a * b == r + k * 18446744073709551616
  {
    if Gives(Mul, a, b, r) {
      assert a * b == r + (a * b) / 18446744073709551616 * 18446744073709551616;
    }
  }

  /** Quotient and remainder make up the dividend. */
  lemma QuotientLaw(a: nat, b: nat, q: nat, r: nat)
    ensures Gives(Div, a, b, q) && Gives(Mod, a, b, r) <==> q * b + r == a && r < b
  {
    if q * b + r == a && r < b {
      QuotientUnique(a, b, q, r);
    }
  }

  lemma QuotientUnique(a: nat, b: nat, q: nat, r: nat)
    requires q * b + r == a && r < b
    ensures a / b == q && a % b == r
  {
    var d := a / b - q;
    assert a / b * b + a % b == a;
    assert d * b == a / b * b - q * b;
    if d > 0 {
      AtLeastOnce(d, b);
      assert false;
    } else if d < 0 {
      assert -d * b == -(d * b);
      AtLeastOnce(-d, b);
      assert false;
    }
  }

  lemma {:induction false} AtLeastOnce(n: nat, b: nat)
    requires n > 0
    ensures n * b >= b
  {
    if n > 1 {
      AtLeastOnce(n - 1, b);
      assert n * b == (n - 1) * b + b;
    }
  }

  /** operator(): 0 from a form with a missing part, None where the value is undefined. */
  function Evaluate(f: Form, nplurals: nat, n: nat): Option<nat> {
    match f
    case Identity => Some(n)
    case ConstValue(v) => Some(v)
    case Not(a) =>
      if Size(f, nplurals) == 0 then Some(0)
      else (match Evaluate(a, nplurals, n) case None => None case Some(x) => Some(Truth(x == 0)))
    case Binary(op, a, b) =>
      if Size(f, nplurals) == 0 then Some(0)
      else (match (Evaluate(a, nplurals, n), Evaluate(b, nplurals, n))
            case (Some(x), Some(y)) => Calculate(op, x, y)
            case _ => None)
    case Ternary(c, a, b) =>
      if Size(f, nplurals) == 0 || c.None? || a.None? || b.None? then Some(0)
      else (match Evaluate(c.value, nplurals, n)
            case None => None
            case Some(x) => Evaluate(if x != 0 then a.value else b.value, nplurals, n))
  }

  /** A part of some conditional is missing. */
  predicate HasGap(f: Form) {
    match f
    case Identity => false
    case ConstValue(_) => false
    case Not(a) => HasGap(a)
    case Binary(_, a, b) => HasGap(a) || HasGap(b)
    case Ternary(c, a, b) =>
      c.None? || a.None? || b.None? || HasGap(c.value) || HasGap(a.value) || HasGap(b.value)
  }

  /** However deep the gap is, the whole form yields 0. */
  lemma {:induction false} GapYieldsZero(f: Form, nplurals: nat, n: nat)
    requires HasGap(f)
    ensures Size(f, nplurals) == 0 && Evaluate(f, nplurals, n) == Some(0)
  {
    match f
    case Not(a) => GapYieldsZero(a, nplurals, n);
    case Binary(_, a, b) => if HasGap(a) { GapYieldsZero(a, nplurals, n); } else { GapYieldsZero(b, nplurals, n); }
    case Ternary(c, a, b) =>
      if c.Some? && a.Some? && b.Some? {
        GapYieldsZero(if HasGap(c.value) then c.value else if HasGap(a.value) then a.value else b.value, nplurals, n);
      }
  }

  lemma {:induction false} CompleteSize(f: Form, nplurals: nat)
    requires Complete(f)
    ensures Size(f, nplurals) == nplurals
  {
    match f
    case Identity =>
    case ConstValue(_) =>
    case Not(a) => CompleteSize(a, nplurals);
    case Binary(_, a, b) => CompleteSize(a, nplurals); CompleteSize(b, nplurals);
    case Ternary(c, a, b) =>
      CompleteSize(c.value, nplurals);
      CompleteSize(a.value, nplurals);
      CompleteSize(b.value, nplurals);
  }

  /** Values stay in the range of unsigned long. */
  lemma {:induction false} EvaluateInRange(f: Form, nplurals: nat, n: nat)
    requires Complete(f) && n < LIMIT
    ensures Evaluate(f, nplurals, n).Some? ==> Evaluate(f, nplurals, n).value < LIMIT
  {
    match f
    case Identity =>
    case ConstValue(_) =>
    case Not(_) =>
    case Binary(op, a, b) =>
      EvaluateInRange(a, nplurals, n);
      EvaluateInRange(b, nplurals, n);
    case Ternary(c, a, b) =>
      EvaluateInRange(a.value, nplurals, n);
      EvaluateInRange(b.value, nplurals, n);
  }
}
