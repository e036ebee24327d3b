/** The `Cash` value (lib/cashify.rb): an immutable multi-currency amount,
    a map from currency code to an integer amount in minor units, with its
    predicates, its zero-aware equality, its currency-blind comparison, its
    accessors and its per-entry transforms. */
module Money {
  import opened KeyOrder

  datatype Option<T> = None | Some(value: T)

  /** A multi-currency amount. A Ruby `Cash` keeps its entries sorted by
      key; that order is not state here but `SortedKeys(m.Keys)`, which is
      exactly the order construction produces. */
  datatype Cash = Cash(m: map<string, int>)

  /** The right-hand operand of `==`, `<=>` and the arithmetic operators,
      by the runtime categories the source tells apart. */
  datatype Operand =
    | CashOp(cash: Cash)
      /** an Integer (Floats are not modelled) */
    | IntOp(n: int)
      /** something else that answers `zero?`, such as a Rational */
    | ZeroLike(isZero: bool)
      /** something that does not answer `zero?`: `absent` for nil, "" and
          false, otherwise a Symbol or a non-empty String */
    | NoZero(absent: bool)

  /** `other.respond_to?(:zero?)` */
  predicate RespondsToZero(o: Operand) {
    !o.NoZero?
  }

  /** `other.zero?`, for an operand that has it. */
  predicate OperandIsZero(o: Operand)
    requires RespondsToZero(o)
  {
    match o
    case CashOp(c) => IsZero(c)
    case IntOp(n) => n == 0
    case ZeroLike(z) => z
  }

  /** No key occurs twice. */
  predicate DistinctKeys(pairs: seq<(string, int)>) {
    forall i, j :: 0 <= i < j < |pairs| ==> pairs[i].0 != pairs[j].0
  }

  /** No later pair has the same key as `pairs[i]`. */
  predicate LastFor(pairs: seq<(string, int)>, i: int)
    requires 0 <= i < |pairs|
  {
    forall j :: i < j < |pairs| ==> pairs[j].0 != pairs[i].0
  }

  /** `Cash.new(**currencies)`: keys already in symbol form (a string key and
      the symbol with the same name coincide), amounts already integers; a
      later pair for the same key wins, as in a Ruby hash. */
  function Build(pairs: seq<(string, int)>): (r: Cash)
    ensures forall i :: 0 <= i < |pairs| ==> pairs[i].0 in r.m
    ensures pairs != [] ==> r.m[pairs[|pairs| - 1].0] == pairs[|pairs| - 1].1
  {
    if pairs == [] then Cash(map[])
    else
      var init, last := pairs[..|pairs| - 1], pairs[|pairs| - 1];
      var m := Build(init).m;
      assert forall i :: 0 <= i < |init| ==> init[i] == pairs[i];
      Cash(m[last.0 := last.1])
  }

  /** Construction keeps exactly the keys it was given, each with the amount
      of its last occurrence. */
  lemma {:induction false} BuildSpec(pairs: seq<(string, int)>)
    ensures forall k :: k in Build(pairs).m <==> exists i :: 0 <= i < |pairs| && pairs[i].0 == k
    ensures forall i :: 0 <= i < |pairs| && LastFor(pairs, i) ==> Build(pairs).m[pairs[i].0] == pairs[i].1
  {
    if pairs != [] {
      var n := |pairs| - 1;
      var init, last := pairs[..n], pairs[n];
      BuildSpec(init);
      var c := Build(pairs);
      forall k ensures k in c.m <==> exists i :: 0 <= i < |pairs| && pairs[i].0 == k {
        if k in c.m && k != last.0 {
          var i :| 0 <= i < |init| && init[i].0 == k;
          assert pairs[i].0 == k;
        }
        if k !in c.m {
          forall i | 0 <= i < |pairs| ensures pairs[i].0 != k {
            if i < n { assert init[i] == pairs[i]; }
          }
        }
      }
      forall i | 0 <= i < |pairs| && LastFor(pairs, i) ensures c.m[pairs[i].0] == pairs[i].1 {
        if i < n {
          assert init[i] == pairs[i];
          assert LastFor(init, i);
        }
      }
    }
  }

  /** The entries in the order a Ruby `Cash` stores them: ascending by key. */
  function Entries(c: Cash): (es: seq<(string, int)>)
    ensures |es| == |c.m|
    ensures forall i :: 0 <= i < |es| ==> es[i].0 in c.m && es[i].1 == c.m[es[i].0]
    ensures forall i, j :: 0 <= i < j < |es| ==> Less(es[i].0, es[j].0)
  {
    var ks := SortedKeys(c.m.Keys);
    seq(|ks|, i requires 0 <= i < |ks| => (ks[i], c.m[ks[i]]))
  }

  /** Every entry of the value appears among its sorted entries. */
  lemma EntriesCover(c: Cash, k: string)
    requires k in c.m
    ensures exists i :: 0 <= i < |Entries(c)| && Entries(c)[i].0 == k
  {
    var ks := SortedKeys(c.m.Keys);
    assert k in ks;
    var i :| 0 <= i < |ks| && ks[i] == k;
    assert Entries(c)[i].0 == k;
  }

  /** Pairs with distinct keys build the same value whatever their order. */
  lemma BuildOrderIndependent(p: seq<(string, int)>, q: seq<(string, int)>)
    requires DistinctKeys(p) && DistinctKeys(q)
    requires forall x :: x in p <==> x in q
    ensures Build(p) == Build(q)
  {
    BuildSpec(p);
    BuildSpec(q);
    var a, b := Build(p), Build(q);
    forall k | k in a.m ensures k in b.m && a.m[k] == b.m[k] {
      var i :| 0 <= i < |p| && p[i].0 == k;
      assert LastFor(p, i);
      assert p[i] in q;
      var j :| 0 <= j < |q| && q[j] == p[i];
      assert LastFor(q, j);
    }
    forall k | k in b.m ensures k in a.m {
      var j :| 0 <= j < |q| && q[j].0 == k;
      assert q[j] in p;
      var i :| 0 <= i < |p| && p[i] == q[j];
    }
  }

  /** Constructing from a value's own entries gives that value back, so a
      transform that rebuilds with `Cash.new(**map)` is the map itself. */
  lemma BuildEntries(c: Cash)
    ensures Build(Entries(c)) == c
  {
    var es := Entries(c);
    BuildSpec(es);
    var b := Build(es);
    forall k | k in c.m ensures k in b.m && b.m[k] == c.m[k] {
      EntriesCover(c, k);
      var i :| 0 <= i < |es| && es[i].0 == k;
      forall j | i < j < |es| ensures es[j].0 != es[i].0 {
        LessIrreflexive(es[j].0);
      }
      assert LastFor(es, i);
    }
    forall k | k in b.m ensures k in c.m {
      var i :| 0 <= i < |es| && es[i].0 == k;
    }
    assert b.m == c.m;
  }

  /** `zero?`: every amount is zero (vacuously so for no entries); the
      amounts then total zero. */
  predicate IsZero(c: Cash)
    ensures IsZero(c) ==> Total(c.m) == 0
  {
    forall k :: k in c.m ==> c.m[k] == 0
  }

  /** `positive?`: every amount is above zero; the amounts of a non-empty
      positive value total more than zero. */
  predicate IsPositive(c: Cash)
    ensures IsPositive(c) && c.m != map[] ==> Total(c.m) > 0
  {
    forall k :: k in c.m ==> c.m[k] > 0
  }

  /** `negative?`: every amount is below zero; the amounts of a non-empty
      negative value total less than zero. */
  predicate IsNegative(c: Cash)
    ensures IsNegative(c) && c.m != map[] ==> Total(c.m) < 0
  {
    forall k :: k in c.m ==> c.m[k] < 0
  }

  /** `empty?`: no stored entries, so the three "every amount" predicates
      hold vacuously. */
  predicate IsEmpty(c: Cash)
    ensures IsEmpty(c) ==> IsZero(c) && IsPositive(c) && IsNegative(c)
  {
    |c.m| == 0
  }

  /** The three "every entry" predicates hold together exactly on the empty
      value; on any other value at most one of them holds. */
  lemma PredicatesOnEmpty(c: Cash)
    ensures IsZero(c) && IsPositive(c) && IsNegative(c) <==> IsEmpty(c)
    ensures !IsEmpty(c) ==>
      (IsZero(c) ==> !IsPositive(c) && !IsNegative(c)) && !(IsPositive(c) && IsNegative(c))
  {
  }

  /** `Cash.zero`: US dollars, nothing of them. */
  function Zero(): (z: Cash)
    ensures IsZero(z) && |z.m| == 1 && "USD" in z.m
  {
    Cash(map["USD" := 0])
  }

  /** `==` (cashify.rb:35-39). */
  predicate Equals(a: Cash, o: Operand)
    ensures !IsZero(a) ==> (Equals(a, o) <==> o.CashOp? && o.cash.m == a.m)
    ensures IsZero(a) ==> (Equals(a, o) <==> RespondsToZero(o) && OperandIsZero(o))
  {
    if o.CashOp? then a.m == o.cash.m || (IsZero(a) && IsZero(o.cash))
    else IsZero(a) && (RespondsToZero(o) && OperandIsZero(o))
  }

  /** Between two `Cash` values `==` is an equivalence. */
  lemma EqualsIsEquivalence(a: Cash, b: Cash, c: Cash)
    ensures Equals(a, CashOp(a))
    ensures Equals(a, CashOp(b)) ==> Equals(b, CashOp(a))
    ensures Equals(a, CashOp(b)) && Equals(b, CashOp(c)) ==> Equals(a, CashOp(c))
  {
  }

  /** The sum of all amounts, currency ignored (`currencies.values.sum`,
      taken in key order). */
  function Total(m: map<string, int>): (t: int)
    ensures (forall k :: k in m ==> m[k] >= 0) ==> t >= 0
    ensures (forall k :: k in m ==> m[k] <= 0) ==> t <= 0
    ensures m != map[] && (forall k :: k in m ==> m[k] > 0) ==> t > 0
    ensures m != map[] && (forall k :: k in m ==> m[k] < 0) ==> t < 0
    decreases |m|
  {
    if m == map[] then 0
    else
      var k := MinKey(m.Keys);
      assert |m - {k}| < |m| by { assert (m - {k}).Keys == m.Keys - {k}; }
      m[k] + Total(m - {k})
  }

  /** The total does not depend on the order the amounts are added in:
      any entry can be taken out first. */
  lemma {:induction false} TotalRemove(m: map<string, int>, k: string)
    requires k in m
    ensures Total(m) == m[k] + Total(m - {k})
    decreases |m|
  {
    var least := MinKey(m.Keys);
    if k != least {
      var rest := m - {least};
      assert (m - {k}).Keys == m.Keys - {k};
      assert rest.Keys == m.Keys - {least};
      assert |rest| < |m|;
      TotalRemove(rest, k);
      MinKeyRemove(m.Keys, k);
      assert rest - {k} == (m - {k}) - {least};
      assert Total(m - {k}) == m[least] + Total((m - {k}) - {least});
    }
  }

  /** Integer `<=>`: -1, 0 or 1. */
  function Cmp(x: int, y: int): int {
    if x < y then -1 else if x == y then 0 else 1
  }

  /** `<=>` (cashify.rb:53-58): the total against a Cash's total or an
      Integer; nil for anything else. */
  function Compare(a: Cash, o: Operand): (r: Option<int>)
    ensures r.Some? <==> o.CashOp? || o.IntOp?
    ensures o.CashOp? ==> (r == Some(-1) <==> Total(a.m) < Total(o.cash.m))
    ensures o.CashOp? ==> (r == Some(0) <==> Total(a.m) == Total(o.cash.m))
    ensures o.CashOp? ==> (r == Some(1) <==> Total(a.m) > Total(o.cash.m))
    ensures o.IntOp? ==> (r == Some(-1) <==> Total(a.m) < o.n)
    ensures o.IntOp? ==> (r == Some(0) <==> Total(a.m) == o.n)
    ensures o.IntOp? ==> (r == Some(1) <==> Total(a.m) > o.n)
  {
    match o
    case CashOp(b) => Some(Cmp(Total(a.m), Total(b.m)))
    case IntOp(n) => Some(Cmp(Total(a.m), n))
    case _ => None
  }

  /** Swapping the sides of `<=>` between two Cash values flips the sign. */
  lemma CompareAntisymmetric(a: Cash, b: Cash)
    ensures Compare(a, CashOp(b)).Some? && Compare(b, CashOp(a)).Some?
    ensures Compare(a, CashOp(b)).value == -Compare(b, CashOp(a)).value
  {
  }

  /** `to_a` (cashify.rb:60-62): one single-currency value per entry, in key
      order. */
  function ToA(c: Cash): (r: seq<Cash>)
    ensures |r| == |c.m|
    ensures forall i :: 0 <= i < |r| ==> Entries(r[i]) == [Entries(c)[i]]
    ensures forall i :: 0 <= i < |r| ==> r[i].m == map[Entries(c)[i].0 := Entries(c)[i].1]
  {
    var es := Entries(c);
    var r := seq(|es|, i requires 0 <= i < |es| => Cash(map[es[i].0 := es[i].1]));
    assert forall i :: 0 <= i < |r| ==> Entries(r[i]) == [es[i]] by {
      forall i | 0 <= i < |r| ensures Entries(r[i]) == [es[i]] {
        SingleEntries(es[i].0, es[i].1);
      }
    }
    r
  }

  lemma SingleEntries(k: string, v: int)
    ensures Entries(Cash(map[k := v])) == [(k, v)]
  {
  }

  /** `currency` (cashify.rb:72-74): the smallest key, nil when empty. */
  function Currency(c: Cash): (r: Option<string>)
    ensures r.None? <==> IsEmpty(c)
    ensures r.Some? ==> IsLeast(r.value, c.m.Keys)
  {
    if c.m == map[] then None
    else
      SortedKeysHead(c.m.Keys);
      Some(SortedKeys(c.m.Keys)[0])
  }

  /** `value` (cashify.rb:76-78): the amount under `currency`, nil when empty. */
  function Value(c: Cash): (r: Option<int>)
    ensures r.None? <==> IsEmpty(c)
    ensures r.Some? ==> r.value == c.m[Currency(c).value]
  {
    if c.m == map[] then None
    else Some(Entries(c)[0].1)
  }

  function AbsInt(x: int): (r: nat) {
    if x < 0 then -x else x
  }

  /** `abs` (cashify.rb:84-86). */
  function Abs(c: Cash): (r: Cash)
    ensures r.m.Keys == c.m.Keys
    ensures forall k :: k in r.m ==> r.m[k] >= 0 && (r.m[k] == c.m[k] || r.m[k] == -c.m[k])
  {
    Cash(map k | k in c.m :: AbsInt(c.m[k]))
  }

  /** `(n / d.to_f).round`, taken over the rationals: the integer nearest to
      n / d, halves rounded away from zero. */
  function RoundQuotient(n: int, d: int): (q: int)
    requires d != 0
    ensures 2 * AbsInt(n - q * d) <= AbsInt(d)
    ensures 2 * AbsInt(n - q * d) == AbsInt(d) ==> AbsInt(q * d) > AbsInt(n)
  {
    var a, b := AbsInt(n), AbsInt(d);
    var q0 := (2 * a + b) / (2 * b);
    RoundQuotientMagnitude(a, b, q0);
    var q := if (n < 0) == (d < 0) then q0 else -q0;
    RoundQuotientSign(n, d, q0, q);
    q
  }

  lemma RoundQuotientMagnitude(a: nat, b: nat, q0: int)
    requires b > 0 && q0 == (2 * a + b) / (2 * b)
    ensures q0 >= 0
    ensures 2 * AbsInt(a - q0 * b) <= b
    ensures 2 * AbsInt(a - q0 * b) == b ==> q0 * b > a
  {
  }

  lemma RoundQuotientSign(n: int, d: int, q0: int, q: int)
    requires d != 0 && q0 >= 0
    requires 2 * AbsInt(AbsInt(n) - q0 * AbsInt(d)) <= AbsInt(d)
    requires 2 * AbsInt(AbsInt(n) - q0 * AbsInt(d)) == AbsInt(d) ==> q0 * AbsInt(d) > AbsInt(n)
    requires q == if (n < 0) == (d < 0) then q0 else -q0
    ensures 2 * AbsInt(n - q * d) <= AbsInt(d)
    ensures 2 * AbsInt(n - q * d) == AbsInt(d) ==> AbsInt(q * d) > AbsInt(n)
  {
  }

  /** `round(interval)` (cashify.rb:88-90): every amount moved to the nearest
      multiple of `interval`, halves away from zero. The source's default
      interval is 100. */
  function Round(c: Cash, interval: int): (r: Cash)
    requires interval != 0 || IsEmpty(c)
    ensures r.m.Keys == c.m.Keys
    ensures forall k :: k in r.m ==> r.m[k] % interval == 0
    ensures forall k :: k in r.m ==> 2 * AbsInt(r.m[k] - c.m[k]) <= AbsInt(interval)
    ensures forall k :: k in r.m && 2 * AbsInt(r.m[k] - c.m[k]) == AbsInt(interval) ==>
      AbsInt(r.m[k]) > AbsInt(c.m[k])
  {
    var r := Cash(map k | k in c.m :: RoundQuotient(c.m[k], interval) * interval);
    forall k | k in r.m
      ensures r.m[k] % interval == 0
      ensures 2 * AbsInt(r.m[k] - c.m[k]) <= AbsInt(interval)
      ensures 2 * AbsInt(r.m[k] - c.m[k]) == AbsInt(interval) ==> AbsInt(r.m[k]) > AbsInt(c.m[k])
    {
      RoundAmount(c.m[k], interval);
    }
    r
  }

  lemma RoundAmount(v: int, interval: int)
    requires interval != 0
    ensures var r := RoundQuotient(v, interval) * interval;
      && r % interval == 0
      && 2 * AbsInt(r - v) <= AbsInt(interval)
      && (2 * AbsInt(r - v) == AbsInt(interval) ==> AbsInt(r) > AbsInt(v))
  {
    var q := RoundQuotient(v, interval);
    MultipleMod(q, interval);
    assert AbsInt(q * interval - v) == AbsInt(v - q * interval);
  }

  lemma MultipleMod(q: int, d: int)
    requires d != 0
    ensures (q * d) % d == 0
  {
    var r, x := (q * d) % d, (q * d) / d;
    assert q * d == d * x + r;
    assert r == d * (q - x);
    ProductBound(d, q - x);
  }

  lemma ProductBound(d: int, t: int)
    ensures t != 0 ==> AbsInt(d * t) >= AbsInt(d)
  {
  }

  /** A two-currency value answers `currency` and `value` from its
      alphabetically first entry. */
  lemma FirstEntryExample()
    ensures Currency(Cash(map["SEK" := 100, "USD" := 80])) == Some("SEK")
    ensures Value(Cash(map["SEK" := 100, "USD" := 80])) == Some(100)
  {
  }

  /** 100.20 rounds down to 100.00 and 80.75 up to 81.00. */
  lemma RoundExample()
    ensures Round(Cash(map["SEK" := 10020, "USD" := 8075]), 100) == Cash(map["SEK" := 10000, "USD" := 8100])
  {
    assert RoundQuotient(10020, 100) == 100;
    assert RoundQuotient(8075, 100) == 81;
    assert Round(Cash(map["SEK" := 10020, "USD" := 8075]), 100).m == map["SEK" := 10000, "USD" := 8100];
  }

  /** `<=>` ignores currency: 100 SEK is less than 200 USD. */
  lemma CompareIgnoresCurrency()
    ensures Compare(Cash(map["SEK" := 100]), CashOp(Cash(map["USD" := 200]))) == Some(-1)
  {
    TotalRemove(map["SEK" := 100], "SEK");
    TotalRemove(map["USD" := 200], "USD");
    assert map["SEK" := 100] - {"SEK"} == map[];
    assert map["USD" := 200] - {"USD"} == map[];
  }

  /** Values that differ in a non-zero currency are not `==`. */
  lemma EqualsNeedsAllCurrencies()
    ensures !Equals(Cash(map["SEK" := 100]), CashOp(Cash(map["USD" := 100, "SEK" := 100])))
    ensures !Equals(Cash(map["SEK" := 100]), CashOp(Cash(map["USD" := 100])))
  {
    assert Cash(map["SEK" := 100]).m["SEK"] != 0;
    assert "USD" !in Cash(map["SEK" := 100]).m;
  }
}
