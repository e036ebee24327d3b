/** The arithmetic operators of `Cash` (lib/cashify/arithmetic.rb).

    Each operator dispatches on the runtime category of its right operand.
    `+`, `*` and `/` combine two values with a hash merge, so an entry on
    one side only passes through; `-` walks the full key union and reads a
    missing entry as 0. Only `+` and `-` look at `zero?` first. */
module Arithmetic {
  import opened Money
  import opened CashErrors

  /** What an operator call gives back. */
  datatype Outcome =
      /** a Cash: a new one, `self`, or a Cash operand handed back */
    | CashValue(cash: Cash)
      /** a non-Cash operand handed back as it is (`return other`) */
    | Returned(operand: Operand)
      /** no branch matched and the method fell off its end */
    | Nil
    | Raised(error: Error)

  /** `present?` (arithmetic.rb:42-44): not nil, "" or false. Every operand
      that answers `zero?` is present. */
  predicate Present(o: Operand)
    ensures RespondsToZero(o) ==> Present(o)
  {
    !(o.NoZero? && o.absent)
  }

  /** The per-entry operation a merge or a transform applies. */
  datatype Combiner = SumOf | DifferenceOf | ProductOf | QuotientOf

  /** Ruby's `Integer#/`: the quotient rounded toward minus infinity. */
  function FloorDiv(a: int, b: int): (q: int)
    requires b != 0
    ensures b > 0 ==> b * q <= a < b * q + b
    ensures b < 0 ==> b * q + b < a <= b * q
  {
    if b > 0 then a / b else (-a) / (-b)
  }

  function Combine(comb: Combiner, x: int, y: int): int
    requires comb.QuotientOf? ==> y != 0
  {
    match comb
    case SumOf => x + y
    case DifferenceOf => x - y
    case ProductOf => x * y
    case QuotientOf => FloorDiv(x, y)
  }

  /** Every amount of `y` that meets an amount of `x` is non-zero. */
  predicate NonZeroWhereShared(x: map<string, int>, y: map<string, int>) {
    forall k :: k in x && k in y ==> y[k] != 0
  }

  /** `x.merge(y) { |_k, a, b| a OP b }`: the union of the keys, the
      combiner on shared keys, a one-sided entry unchanged. */
  function Merge(x: map<string, int>, y: map<string, int>, comb: Combiner): (r: map<string, int>)
    requires comb.QuotientOf? ==> NonZeroWhereShared(x, y)
    ensures r.Keys == x.Keys + y.Keys
    ensures forall k :: k in x && k in y ==> r[k] == Combine(comb, x[k], y[k])
    ensures forall k :: k in r && k !in y ==> r[k] == x[k]
    ensures forall k :: k in r && k !in x ==> r[k] == y[k]
    ensures y == map[] ==> r == x
    ensures x == map[] ==> r == y
  {
    map k | k in x.Keys + y.Keys ::
      if k in x && k in y then Combine(comb, x[k], y[k])
      else if k in x then x[k]
      else y[k]
  }

  /** `x.transform_values { |v| v OP n }` */
  function TransformValues(x: map<string, int>, comb: Combiner, n: int): (r: map<string, int>)
    requires comb.QuotientOf? ==> n != 0 || x == map[]
    ensures r.Keys == x.Keys
    ensures forall k :: k in x ==> r[k] == Combine(comb, x[k], n)
    ensures (comb.SumOf? || comb.DifferenceOf?) && n == 0 ==> r == x
    ensures (comb.ProductOf? || comb.QuotientOf?) && n == 1 ==> r == x
  {
    map k | k in x :: Combine(comb, x[k], n)
  }

  /** `@currencies[k] || 0` */
  function AmountOr0(x: map<string, int>, k: string): int {
    if k in x then x[k] else 0
  }

  /** The full-union difference of arithmetic.rb:79-84. */
  function SubtractUnion(x: map<string, int>, y: map<string, int>): (r: map<string, int>)
    ensures r.Keys == x.Keys + y.Keys
    ensures forall k :: k in r ==> r[k] + AmountOr0(y, k) == AmountOr0(x, k)
    ensures y == map[] ==> r == x
    ensures x == map[] ==> r == Negated(y)
  {
    map k | k in x.Keys + y.Keys :: AmountOr0(x, k) - AmountOr0(y, k)
  }

  /** `other.currencies.transform_values { |v| 0 - v }` */
  function Negated(y: map<string, int>): (r: map<string, int>)
    ensures r.Keys == y.Keys
    ensures forall k :: k in r ==> r[k] + y[k] == 0
  {
    map k | k in y :: 0 - y[k]
  }

  /** `subtract_currencies` (arithmetic.rb:74-85), reached from `-` only for
      a Cash operand or a zero one; its own `respond_to?` guard repeats the
      check `-` has already made. */
  function SubtractCurrencies(a: Cash, o: Operand): (r: map<string, int>)
    requires RespondsToZero(o) && (o.CashOp? || OperandIsZero(o))
    ensures OperandIsZero(o) ==> r == a.m
    ensures !OperandIsZero(o) ==>
      && o.cash.m.Keys <= r.Keys
      && (forall k :: k in r ==> r[k] == AmountOr0(a.m, k) - AmountOr0(o.cash.m, k))
    ensures !OperandIsZero(o) ==> (r.Keys == if IsZero(a) then o.cash.m.Keys else a.m.Keys + o.cash.m.Keys)
  {
    if OperandIsZero(o) then a.m
    else if IsZero(a) then Negated(o.cash.m)
    else SubtractUnion(a.m, o.cash.m)
  }

  /** `+` (arithmetic.rb:7-16). */
  function Add(a: Cash, o: Operand): (r: Outcome)
    ensures r.Raised? <==> !RespondsToZero(o)
    ensures r.Raised? ==> r.error == AdditionError
    ensures !Present(o) ==> r == Raised(AdditionError)
    ensures RespondsToZero(o) && OperandIsZero(o) ==> r == CashValue(a)
    ensures RespondsToZero(o) && !OperandIsZero(o) && IsZero(a) ==>
      r == (if o.CashOp? then CashValue(o.cash) else Returned(o))
    ensures o.CashOp? && !IsZero(o.cash) && !IsZero(a) ==>
      && r.CashValue?
      && r.cash.m.Keys == a.m.Keys + o.cash.m.Keys
      && (forall k :: k in a.m && k in o.cash.m ==> r.cash.m[k] == a.m[k] + o.cash.m[k])
      && (forall k :: k in a.m && k !in o.cash.m ==> r.cash.m[k] == a.m[k])
      && (forall k :: k !in a.m && k in o.cash.m ==> r.cash.m[k] == o.cash.m[k])
    ensures o.IntOp? && o.n != 0 && !IsZero(a) ==>
      && r.CashValue?
      && r.cash.m.Keys == a.m.Keys
      && (forall k :: k in a.m ==> r.cash.m[k] == a.m[k] + o.n)
    ensures o.ZeroLike? && !o.isZero && !IsZero(a) ==> r == Nil
  {
    if !RespondsToZero(o) then Raised(AdditionError)
    // `return self unless present?(other)` cannot fire here: every absent
    // operand failed the line above (see AbsentOperandsRaise).
    else if OperandIsZero(o) then CashValue(a)
    else if IsZero(a) then (if o.CashOp? then CashValue(o.cash) else Returned(o))
    else
      match o
      case CashOp(b) => CashValue(Cash(Merge(a.m, b.m, SumOf)))
      case IntOp(n) => CashValue(Cash(TransformValues(a.m, SumOf, n)))
      case ZeroLike(_) => Nil
  }

  /** `-` (arithmetic.rb:18-24). */
  function Sub(a: Cash, o: Operand): (r: Outcome)
    ensures r.Raised? <==> !RespondsToZero(o)
    ensures r.Raised? ==> r.error == SubtractionError
    ensures !Present(o) ==> r == Raised(SubtractionError)
    ensures RespondsToZero(o) && OperandIsZero(o) ==> r == CashValue(a)
    ensures o.CashOp? && !IsZero(o.cash) && IsZero(a) ==>
      && r.CashValue?
      && r.cash.m.Keys == o.cash.m.Keys
      && (forall k :: k in o.cash.m ==> r.cash.m[k] == -o.cash.m[k])
    ensures o.CashOp? && !IsZero(o.cash) && !IsZero(a) ==>
      && r.CashValue?
      && r.cash.m.Keys == a.m.Keys + o.cash.m.Keys
      && (forall k :: k in r.cash.m ==> r.cash.m[k] == AmountOr0(a.m, k) - AmountOr0(o.cash.m, k))
    ensures o.IntOp? && o.n != 0 ==>
      && r.CashValue?
      && r.cash.m.Keys == a.m.Keys
      && (forall k :: k in a.m ==> r.cash.m[k] == a.m[k] - o.n)
    ensures o.ZeroLike? && !o.isZero ==> r == Nil
  {
    if !RespondsToZero(o) then Raised(SubtractionError)
    // As in `+`, the `present?` check cannot fire once `zero?` is known.
    else if o.CashOp? || OperandIsZero(o) then CashValue(Cash(SubtractCurrencies(a, o)))
    else if o.IntOp? then CashValue(Cash(TransformValues(a.m, DifferenceOf, o.n)))
    else Nil
  }

  /** `*` (arithmetic.rb:26-31). */
  function Mul(a: Cash, o: Operand): (r: Outcome)
    ensures r.Raised? <==> !(o.IntOp? || o.CashOp?)
    ensures r.Raised? ==> r.error == MultiplicationError
    ensures r.Raised? || r.CashValue?
    ensures o.IntOp? ==>
      && r.CashValue?
      && r.cash.m.Keys == a.m.Keys
      && (forall k :: k in a.m ==> r.cash.m[k] == a.m[k] * o.n)
    ensures o.CashOp? ==>
      && r.CashValue?
      && r.cash.m.Keys == a.m.Keys + o.cash.m.Keys
      && (forall k :: k in a.m && k in o.cash.m ==> r.cash.m[k] == a.m[k] * o.cash.m[k])
      && (forall k :: k in a.m && k !in o.cash.m ==> r.cash.m[k] == a.m[k])
      && (forall k :: k !in a.m && k in o.cash.m ==> r.cash.m[k] == o.cash.m[k])
  {
    match o
    case IntOp(n) => CashValue(Cash(TransformValues(a.m, ProductOf, n)))
    case CashOp(b) => CashValue(Cash(Merge(a.m, b.m, ProductOf)))
    case _ => Raised(MultiplicationError)
  }

  /** The divisors `/` meets are non-zero (Ruby raises ZeroDivisionError,
      which is outside the `Cash` error taxonomy). An Integer 0 meets no
      amount of an empty value, which `/` returns empty. */
  predicate DivisorsNonZero(a: Cash, o: Operand) {
    && (o.IntOp? ==> o.n != 0 || IsEmpty(a))
    && (o.CashOp? ==> NonZeroWhereShared(a.m, o.cash.m))
  }

  /** `/` (arithmetic.rb:33-38). */
  function Div(a: Cash, o: Operand): (r: Outcome)
    requires DivisorsNonZero(a, o)
    ensures r.Raised? <==> !(o.IntOp? || o.CashOp?)
    ensures r.Raised? ==> r.error == DivisionError
    ensures r.Raised? || r.CashValue?
    ensures o.IntOp? ==>
      && r.CashValue?
      && r.cash.m.Keys == a.m.Keys
      && (forall k :: k in a.m ==> r.cash.m[k] == FloorDiv(a.m[k], o.n))
    ensures o.CashOp? ==>
      && r.CashValue?
      && r.cash.m.Keys == a.m.Keys + o.cash.m.Keys
      && (forall k :: k in a.m && k in o.cash.m ==> r.cash.m[k] == FloorDiv(a.m[k], o.cash.m[k]))
      && (forall k :: k in a.m && k !in o.cash.m ==> r.cash.m[k] == a.m[k])
      && (forall k :: k !in a.m && k in o.cash.m ==> r.cash.m[k] == o.cash.m[k])
  {
    match o
    case IntOp(n) => CashValue(Cash(TransformValues(a.m, QuotientOf, n)))
    case CashOp(b) => CashValue(Cash(Merge(a.m, b.m, QuotientOf)))
    case _ => Raised(DivisionError)
  }

  /** The operator named by `op`. */
  function Apply(op: Operator, a: Cash, o: Operand): Outcome
    requires op.Divide? ==> DivisorsNonZero(a, o)
  {
    match op
    case Plus => Add(a, o)
    case Minus => Sub(a, o)
    case Times => Mul(a, o)
    case Divide => Div(a, o)
  }

  /** Every operator raises only its own error kind. */
  lemma OnlyOwnError(op: Operator, a: Cash, o: Operand)
    requires op.Divide? ==> DivisorsNonZero(a, o)
    ensures Apply(op, a, o).Raised? ==> Apply(op, a, o).error == ErrorOf(op)
    ensures Apply(op, a, o).Raised? <==>
      if op.Plus? || op.Minus? then !RespondsToZero(o) else !(o.IntOp? || o.CashOp?)
  {
  }

  /** nil, "" and false fail the `zero?` check before `present?` could
      return `self`: `+` and `-` raise on them. */
  lemma AbsentOperandsRaise(a: Cash, o: Operand)
    requires !Present(o)
    ensures Add(a, o) == Raised(AdditionError)
    ensures Sub(a, o) == Raised(SubtractionError)
  {
  }

  /** `coerce` (arithmetic.rb:3-5) */
  function Coerce(self: Cash, other: Operand): (Cash, Operand) {
    (self, other)
  }

  /** `n OP cash` for an Integer `n`: Ruby asks the Cash to `coerce` and then
      evaluates the pair it gets back, which is `cash OP n`. */
  function Reflected(op: Operator, n: int, c: Cash): (r: Outcome)
    requires op.Divide? ==> n != 0 || IsEmpty(c)
    ensures r == Apply(op, c, IntOp(n))
  {
    var (x, y) := Coerce(c, IntOp(n));
    Apply(op, x, y)
  }

  /** So `n - cash` is `cash - n`, not its negation: every amount becomes
      `amount - n`, for every Integer `n` (0 included, which `-` answers with
      `self`). */
  lemma ReflectedSubtraction(n: int, c: Cash)
    ensures Reflected(Minus, n, c).CashValue?
    ensures Reflected(Minus, n, c).cash.m.Keys == c.m.Keys
    ensures forall k :: k in c.m ==> Reflected(Minus, n, c).cash.m[k] == c.m[k] - n
  {
  }

  /** `a + b` for two Cash values, which is always a Cash. */
  function AddCash(a: Cash, b: Cash): (r: Cash)
    ensures Add(a, CashOp(b)) == CashValue(r)
  {
    Add(a, CashOp(b)).cash
  }

  /** `a - b` for two Cash values, which is always a Cash. */
  function SubCash(a: Cash, b: Cash): (r: Cash)
    ensures Sub(a, CashOp(b)) == CashValue(r)
  {
    Sub(a, CashOp(b)).cash
  }

  /** `+` on Cash is commutative up to `==`; it is commutative on the maps
      unless both sides are zero, when each order returns its own `self`. */
  lemma AddCommutes(a: Cash, b: Cash)
    ensures Equals(AddCash(a, b), CashOp(AddCash(b, a)))
    ensures !(IsZero(a) && IsZero(b)) ==> AddCash(a, b) == AddCash(b, a)
    ensures IsZero(a) && IsZero(b) ==> AddCash(a, b) == a && AddCash(b, a) == b
  {
    if !IsZero(a) && !IsZero(b) {
      assert AddCash(a, b).m == AddCash(b, a).m;
    }
  }

  /** `Cash.zero` is an identity of `+` up to `==`, and an exact one on the
      right. */
  lemma AddZeroIdentity(x: Cash)
    ensures AddCash(x, Zero()) == x
    ensures Equals(AddCash(Zero(), x), CashOp(x))
    ensures !IsZero(x) ==> AddCash(Zero(), x) == x
  {
  }

  /** Adding an Integer to a non-zero value and subtracting it again gives
      the value back (`-` has no zero short-cut for numbers, so this holds
      even when the sum in between is zero). */
  lemma AddThenSubtractScalar(a: Cash, n: int)
    requires n != 0 && !IsZero(a)
    ensures Add(a, IntOp(n)).CashValue?
    ensures Sub(Add(a, IntOp(n)).cash, IntOp(n)) == CashValue(a)
  {
  }

  /** Subtracting a Cash and adding it back restores the minuend, provided
      the subtrahend names no currency the minuend lacks and neither the
      operands nor the difference are zero. */
  lemma SubtractThenAdd(a: Cash, b: Cash)
    requires !IsZero(a) && !IsZero(b) && b.m.Keys <= a.m.Keys
    requires !IsZero(SubCash(a, b))
    ensures AddCash(SubCash(a, b), b) == a
  {
  }

  /** Ruby's `Integer#/` undoes `*` by the same non-zero Integer. */
  lemma FloorDivOfMultiple(v: int, n: int)
    requires n != 0
    ensures FloorDiv(v * n, n) == v
  {
    var q := FloorDiv(v * n, n);
    assert n * (v - q) == v * n - n * q;
    ProductBound(n, v - q);
  }

  /** Multiplying by a non-zero Integer and dividing by it again gives the
      value back. */
  lemma MultiplyThenDivideScalar(a: Cash, n: int)
    requires n != 0
    ensures Mul(a, IntOp(n)).CashValue?
    ensures Div(Mul(a, IntOp(n)).cash, IntOp(n)) == CashValue(a)
  {
    var r := Div(Mul(a, IntOp(n)).cash, IntOp(n)).cash;
    forall k | k in a.m ensures r.m[k] == a.m[k] {
      FloorDivOfMultiple(a.m[k], n);
    }
    assert r.m == a.m;
  }

  /** `*` between two Cash values is commutative. */
  lemma MultiplyCommutes(a: Cash, b: Cash)
    ensures Mul(a, CashOp(b)) == Mul(b, CashOp(a))
  {
  }

  /** A missing entry contributes 0 to the total. */
  lemma TotalRemoveAny(x: map<string, int>, k: string)
    ensures Total(x) == AmountOr0(x, k) + Total(x - {k})
  {
    if k in x {
      TotalRemove(x, k);
    } else {
      assert x - {k} == x;
    }
  }

  lemma {:induction false} TotalMergeSum(x: map<string, int>, y: map<string, int>)
    ensures Total(Merge(x, y, SumOf)) == Total(x) + Total(y)
    decreases |y|
  {
    var m := Merge(x, y, SumOf);
    if y == map[] {
      assert m == x;
    } else {
      var k :| k in y;
      MapRemove(y, k);
      TotalMergeSum(x - {k}, y - {k});
      MergeRemove(x, y, k);
      TotalRemove(m, k);
      TotalRemove(y, k);
      TotalRemoveAny(x, k);
    }
  }

  lemma MapRemove(x: map<string, int>, k: string)
    ensures (x - {k}).Keys == x.Keys - {k}
    ensures k !in x ==> x - {k} == x
    ensures k in x ==> |x - {k}| == |x| - 1
  {
  }

  lemma MergeRemove(x: map<string, int>, y: map<string, int>, k: string)
    ensures Merge(x, y, SumOf) - {k} == Merge(x - {k}, y - {k}, SumOf)
  {
  }

  lemma SubtractUnionRemove(x: map<string, int>, y: map<string, int>, k: string)
    ensures SubtractUnion(x, y) - {k} == SubtractUnion(x - {k}, y - {k})
  {
  }

  lemma NegatedRemove(y: map<string, int>, k: string)
    ensures Negated(y) - {k} == Negated(y - {k})
  {
  }

  lemma {:induction false} TotalSubtractUnion(x: map<string, int>, y: map<string, int>)
    ensures Total(SubtractUnion(x, y)) == Total(x) - Total(y)
    decreases |x| + |y|
  {
    var m := SubtractUnion(x, y);
    if x == map[] && y == map[] {
      assert m == map[];
    } else {
      var k :| k in x.Keys + y.Keys;
      MapRemove(x, k);
      MapRemove(y, k);
      TotalSubtractUnion(x - {k}, y - {k});
      SubtractUnionRemove(x, y, k);
      TotalRemove(m, k);
      TotalRemoveAny(x, k);
      TotalRemoveAny(y, k);
    }
  }

  lemma {:induction false} TotalNegated(y: map<string, int>)
    ensures Total(Negated(y)) == -Total(y)
    decreases |y|
  {
    var m := Negated(y);
    if y == map[] {
      assert m == map[];
    } else {
      var k :| k in y;
      MapRemove(y, k);
      TotalNegated(y - {k});
      NegatedRemove(y, k);
      TotalRemove(m, k);
      TotalRemove(y, k);
    }
  }

  /** `<=>` is consistent with `+` and `-` between Cash values: the total of
      a sum or a difference is the sum or difference of the totals, across
      every zero short-cut and every missing-key policy. */
  lemma TotalsAdd(a: Cash, b: Cash)
    ensures Total(AddCash(a, b).m) == Total(a.m) + Total(b.m)
    ensures Total(SubCash(a, b).m) == Total(a.m) - Total(b.m)
  {
    if !IsZero(a) && !IsZero(b) {
      TotalMergeSum(a.m, b.m);
      TotalSubtractUnion(a.m, b.m);
    }
    if IsZero(a) && !IsZero(b) {
      TotalNegated(b.m);
    }
  }

  /** Subtraction keeps a zero result, takes the full key union, and from a
      zero `self` negates the other side in its own currencies. */
  lemma SubtractExamples()
    ensures SubCash(Cash(map["SEK" := 100]), Cash(map["SEK" := 100])) == Cash(map["SEK" := 0])
    ensures SubCash(Cash(map["SEK" := 100]), Cash(map["USD" := 100])) == Cash(map["SEK" := 100, "USD" := -100])
    ensures SubCash(Zero(), Cash(map["SEK" := 100])) == Cash(map["SEK" := -100])
  {
    SubtractSame();
    SubtractOther();
    SubtractFromZero();
  }

  /** {SEK:100} - {SEK:100} keeps the zero entry. */
  lemma SubtractSame()
    ensures SubCash(Cash(map["SEK" := 100]), Cash(map["SEK" := 100])) == Cash(map["SEK" := 0])
  {
    var sek := Cash(map["SEK" := 100]);
    assert !IsZero(sek) by { assert sek.m["SEK"] != 0; }
    assert SubCash(sek, sek).m.Keys == {"SEK"};
    assert SubCash(sek, sek).m == map["SEK" := 0];
  }

  /** {SEK:100} - {USD:100} takes the full key union. */
  lemma SubtractOther()
    ensures SubCash(Cash(map["SEK" := 100]), Cash(map["USD" := 100])) == Cash(map["SEK" := 100, "USD" := -100])
  {
    var sek, usd := Cash(map["SEK" := 100]), Cash(map["USD" := 100]);
    assert !IsZero(sek) by { assert sek.m["SEK"] != 0; }
    assert !IsZero(usd) by { assert usd.m["USD"] != 0; }
    assert SubCash(sek, usd).m.Keys == {"SEK", "USD"};
    assert SubCash(sek, usd).m == map["SEK" := 100, "USD" := -100];
  }

  /** `Cash.zero` - {SEK:100} negates the other side in its own currencies. */
  lemma SubtractFromZero()
    ensures SubCash(Zero(), Cash(map["SEK" := 100])) == Cash(map["SEK" := -100])
  {
    var sek := Cash(map["SEK" := 100]);
    assert !IsZero(sek) by { assert sek.m["SEK"] != 0; }
    assert SubCash(Zero(), sek).m.Keys == {"SEK"};
    assert SubCash(Zero(), sek).m == map["SEK" := -100];
  }

  /** `*` and `/` between values combine shared currencies and pass the
      others through. */
  lemma MergeExamples()
    ensures var a := Cash(map["SEK" := 100, "USD" := 100, "NOK" := 100]);
      var b := Cash(map["SEK" := 2, "USD" := 2, "DKK" := 100]);
      && Mul(a, CashOp(b)) == CashValue(Cash(map["SEK" := 200, "USD" := 200, "DKK" := 100, "NOK" := 100]))
      && Div(a, CashOp(b)) == CashValue(Cash(map["SEK" := 50, "USD" := 50, "DKK" := 100, "NOK" := 100]))
  {
    MultiplyExample();
    DivideExample();
  }

  /** The `*` half of `MergeExamples`. */
  lemma MultiplyExample()
    ensures Mul(Cash(map["SEK" := 100, "USD" := 100, "NOK" := 100]), CashOp(Cash(map["SEK" := 2, "USD" := 2, "DKK" := 100])))
      == CashValue(Cash(map["SEK" := 200, "USD" := 200, "DKK" := 100, "NOK" := 100]))
  {
    var a := Cash(map["SEK" := 100, "USD" := 100, "NOK" := 100]);
    var b := Cash(map["SEK" := 2, "USD" := 2, "DKK" := 100]);
    var r := Mul(a, CashOp(b)).cash.m;
    assert r.Keys == {"SEK", "USD", "DKK", "NOK"};
    assert r == map["SEK" := 200, "USD" := 200, "DKK" := 100, "NOK" := 100];
  }

  /** The `/` half of `MergeExamples`. */
  lemma DivideExample()
    ensures Div(Cash(map["SEK" := 100, "USD" := 100, "NOK" := 100]), CashOp(Cash(map["SEK" := 2, "USD" := 2, "DKK" := 100])))
      == CashValue(Cash(map["SEK" := 50, "USD" := 50, "DKK" := 100, "NOK" := 100]))
  {
    var a := Cash(map["SEK" := 100, "USD" := 100, "NOK" := 100]);
    var b := Cash(map["SEK" := 2, "USD" := 2, "DKK" := 100]);
    assert DivisorsNonZero(a, CashOp(b));
    assert FloorDiv(100, 2) == 50;
    var r := Div(a, CashOp(b)).cash.m;
    assert r.Keys == {"SEK", "USD", "DKK", "NOK"};
    assert r == map["SEK" := 50, "USD" := 50, "DKK" := 100, "NOK" := 100];
  }
}
