# Cashify in Dafny

A model of `Cash`, the multi-currency money value of the Ruby gem cashify.
A `Cash` maps currency codes (`:SEK`, `:USD`, ...) to integer amounts in
minor units. It keeps its entries sorted by currency code and never changes
after construction. The model covers the arithmetic and comparison engine:

- the operators `+`, `-`, `*` and `/`, each with its own missing-key policy,
  its zero short-cuts and its error;
- the zero-aware `==` and the currency-blind `<=>`;
- the `zero?`, `positive?`, `negative?` and `empty?` predicates;
- the accessors `currency`, `value` and `to_a`, and the transforms `abs`
  and `round`;
- `Cash.zero` and `Cash.sum`.

Everything in the core is pure, so the model is datatypes, functions and
lemmas. The modules are:

- `CashErrors` (errors.dfy): the four error kinds.
- `KeyOrder` (key_order.dfy): the ascending order of currency codes.
- `Money` (cash.dfy): the value itself.
- `Arithmetic` (arithmetic.dfy): the operators.
- `Multicash` (multicash.dfy): `Cash.sum`.

Ruby dispatches on the right operand's runtime class. In the model that
operand is an `Operand`:

- a `Cash`;
- an Integer;
- something else that answers `zero?`;
- something that does not answer `zero?`. This last case marks nil, `""`
  and `false` as *absent*.

An operator returns an `Outcome`:

- a `Cash`;
- the operand handed back unchanged (`+` returns a bare Integer as it is
  when `self` is zero);
- `nil`, when no branch of the method matches;
- one of the four errors.

`lib/cashify.rb` and `lib/multicash.rb` define the same class twice. It is
modelled once, with `Cash.sum` taken from `lib/multicash.rb`. The operators
that `lib/multicash.rb` loads are taken to be those of
`lib/cashify/arithmetic.rb`.

Three behaviours of the code are easy to miss:

- nil, `""` and `false` make `+` and `-` raise. Both operators check
  `respond_to?(:zero?)` (lib/cashify/arithmetic.rb:8 and :19) before
  `present?`, and none of the three answers `zero?`, so the `present?` check
  can never fire. `Arithmetic.AbsentOperandsRaise` proves this.
- `Cash.sum(m.to_a) == m` holds when no amount of `m` is zero and when every
  amount is zero, and fails when zero and non-zero amounts are mixed
  (`Multicash.SumToARoundTrip`). `+` drops a zero operand, so the sum keeps
  only the non-zero amounts (`Multicash.SumToAParts`): `{SEK: 0, USD: 100}`
  sums to `{USD: 100}` (`Multicash.SumToAMixedFails`).
- When `self` is zero, `+` returns a bare Integer operand as it is, not a
  `Cash` (lib/cashify/arithmetic.rb:11; see `Arithmetic.Add`).

## Model

| member | source | states |
|---|---|---|
| `CashErrors.ErrorOf` | lib/cashify/errors.rb:3-9 | each operator has its own error kind: addition for `+`, subtraction for `-`, multiplication for `*`, division for `/` |
| `CashErrors.OperatorOf` | lib/cashify/errors.rb:3-9 | every error kind belongs to an operator; it inverts `ErrorOf` |
| `CashErrors.ErrorKindsDistinct` | lib/cashify/errors.rb:3-9 | no two operators share an error kind |
| `KeyOrder.MinKey` | lib/cashify.rb:32 | a non-empty set of currency codes has a least code in the lexicographic order Ruby sorts symbols by |
| `KeyOrder.SortedKeys` | lib/cashify.rb:32 | lists a key set once per key, strictly ascending, with nothing added or lost |
| `KeyOrder.LessTransitive` | lib/cashify.rb:32 | the code order is transitive |
| `KeyOrder.LessTotal` | lib/cashify.rb:32 | any two distinct codes are ordered one way or the other |
| `Money.Build` | lib/cashify.rb:28-33 | `Cash.new` keeps every key it is given, and the final pair sets its key's amount |
| `Money.BuildSpec` | lib/cashify.rb:28-33 | construction keeps exactly the keys given, and each key holds the amount of its last occurrence |
| `Money.Entries` | lib/cashify.rb:30-32 | the stored entries are exactly the map's pairs, one per key, strictly ascending by currency code |
| `Money.EntriesCover` | lib/cashify.rb:32 | every currency of a value appears among its sorted entries |
| `Money.BuildOrderIndependent` | lib/cashify.rb:28-33 | pairs with distinct keys give the same value in any order |
| `Money.BuildEntries` | lib/cashify.rb:28-33 | rebuilding a value from its own entries gives it back, so `Cash.new(**map)` of an existing map is that map |
| `Money.IsZero` | lib/cashify.rb:41-43 | `zero?` holds when every amount is zero; the amounts of such a value total 0 |
| `Money.IsPositive` | lib/cashify.rb:45-47 | `positive?` holds when every amount is above zero; a non-empty positive value totals more than 0 |
| `Money.IsNegative` | lib/cashify.rb:49-51 | `negative?` holds when every amount is below zero; a non-empty negative value totals less than 0 |
| `Money.IsEmpty` | lib/cashify.rb:80-82 | `empty?` holds when there are no entries, and then `zero?`, `positive?` and `negative?` all hold vacuously |
| `Money.PredicatesOnEmpty` | lib/cashify.rb:41-51 | `zero?`, `positive?` and `negative?` all hold exactly on an empty value; on a non-empty value at most one holds |
| `Money.Zero` | lib/cashify.rb:24-26 | `Cash.zero` has the single currency USD and is zero |
| `Money.Equals` | lib/cashify.rb:35-39 | a non-zero value equals only a Cash with the same map; a zero value equals exactly the operands that answer `zero?` with true |
| `Money.EqualsIsEquivalence` | lib/cashify.rb:35-36 | between Cash values `==` is reflexive, symmetric and transitive |
| `Money.EqualsNeedsAllCurrencies` | lib/cashify.rb:35-36 | {SEK:100} differs from {USD:100, SEK:100} and from {USD:100} |
| `Money.TotalRemove` | lib/cashify.rb:57 | the sum of the amounts does not depend on the order they are added in |
| `Money.Total` | lib/cashify.rb:57 | `currencies.values.sum` is non-negative when no amount is negative, positive when all are, and the mirror statements for negative amounts |
| `Money.Compare` | lib/cashify.rb:53-58 | `<=>` gives -1, 0 or 1 as the total is below, equal to or above the other Cash's total or the Integer, and nil for any other operand |
| `Money.CompareAntisymmetric` | lib/cashify.rb:53-58 | swapping two Cash values flips the sign of `<=>` |
| `Money.CompareIgnoresCurrency` | lib/cashify.rb:53-58 | 100 SEK compares below 200 USD |
| `Money.ToA` | lib/cashify.rb:60-62 | `to_a` gives one single-currency value per entry, the i-th holding the i-th entry in key order |
| `Money.Currency` | lib/cashify.rb:72-74 | `currency` is the least currency code, and nil exactly when the value is empty |
| `Money.Value` | lib/cashify.rb:76-78 | `value` is the amount under `currency`, and nil exactly when the value is empty |
| `Money.FirstEntryExample` | lib/cashify.rb:72-78 | {SEK:100, USD:80} has currency SEK and value 100 |
| `Money.Abs` | lib/cashify.rb:84-86 | `abs` keeps the currencies and makes each amount non-negative with the same magnitude |
| `Money.RoundQuotient` | lib/cashify.rb:89 | `(v / d.to_f).round` is the integer nearest to v/d, with halves going away from zero |
| `Money.Round` | lib/cashify.rb:88-90 | `round(interval)` keeps the currencies and moves each amount to a nearest multiple of the interval, with halves going away from zero |
| `Money.RoundExample` | lib/cashify.rb:88-90 | 10020 rounds to 10000 and 8075 to 8100 |
| `Arithmetic.Present` | lib/cashify/arithmetic.rb:42-44 | every operand that answers `zero?` is present, so only nil, `""` and `false` are absent |
| `Arithmetic.Merge` | lib/cashify/arithmetic.rb:50-52 | `merge` with a block covers the union of the keys, applies the block (`+`, `*` or `/`) to the two amounts under a shared key, passes a one-sided entry through unchanged, and merging with an empty map changes nothing |
| `Arithmetic.TransformValues` | lib/cashify/arithmetic.rb:46-48 | `transform_values` keeps the keys and turns each amount v into `v OP n`; adding or subtracting 0 and multiplying or dividing by 1 change nothing |
| `Arithmetic.SubtractUnion` | lib/cashify/arithmetic.rb:79-84 | the difference covers the union of the keys, adding back the subtrahend's amount (0 if missing) gives the minuend's (0 if missing), and from an empty minuend it is the negation |
| `Arithmetic.Negated` | lib/cashify/arithmetic.rb:77 | `transform_values { 0 - v }` keeps the keys and each amount cancels the original |
| `Arithmetic.SubtractCurrencies` | lib/cashify/arithmetic.rb:74-85 | a zero operand leaves self's amounts; for a non-zero Cash every amount is self's minus the other's (0 if missing), over the other's keys only when self is zero and over the union otherwise |
| `Arithmetic.FloorDiv` | lib/cashify/arithmetic.rb:54-60 | Ruby's Integer `/` is the quotient rounded toward minus infinity |
| `Arithmetic.Add` | lib/cashify/arithmetic.rb:7-16 | raises AdditionError exactly when the operand lacks `zero?`, even for nil, "" and false; returns self if the operand is zero; otherwise returns the operand itself if self is zero. Two non-zero values merge over the key union, adding shared amounts and keeping one-sided amounts. A non-zero Integer shifts every entry. Any other non-zero operand gives nil |
| `Arithmetic.Sub` | lib/cashify/arithmetic.rb:18-24 | raises SubtractionError exactly when the operand lacks `zero?`; returns self's map if the operand is zero. From a zero self, returns the other value negated, in the other's currencies only. Otherwise it covers the full key union, with a missing amount counting as 0. A non-zero Integer is subtracted from every entry, even when self is zero. Any other non-zero operand gives nil |
| `Arithmetic.Mul` | lib/cashify/arithmetic.rb:26-31 | raises MultiplicationError exactly for operands other than Integer and Cash. An Integer scales every entry. A Cash merges, multiplying shared amounts and passing one-sided ones through. There is no zero short-cut |
| `Arithmetic.Div` | lib/cashify/arithmetic.rb:33-38 | raises DivisionError exactly for operands other than Integer and Cash. An Integer floor-divides every entry. A Cash merges, floor-dividing shared amounts and passing one-sided ones through. There is no zero short-cut |
| `Arithmetic.OnlyOwnError` | lib/cashify/arithmetic.rb:7-38 | each operator raises only its own error kind, and only on the operands its guard rejects |
| `Arithmetic.AbsentOperandsRaise` | lib/cashify/arithmetic.rb:8-20 | nil, "" and false make `+` and `-` raise; `present?` never returns self |
| `Arithmetic.Reflected` | lib/cashify/arithmetic.rb:3-5 | `coerce` returns `[self, other]`, so Ruby evaluates `n OP cash` as `cash OP n` |
| `Arithmetic.ReflectedSubtraction` | lib/cashify/arithmetic.rb:3-5 | for every Integer n, `n - cash` is a Cash with the same currencies, each amount being the amount minus n (not n minus the amount) |
| `Arithmetic.AddCash` | lib/cashify/arithmetic.rb:13 | `+` between two Cash values always gives a Cash |
| `Arithmetic.SubCash` | lib/cashify/arithmetic.rb:21 | `-` between two Cash values always gives a Cash |
| `Arithmetic.AddCommutes` | lib/cashify/arithmetic.rb:10-13 | `a + b == b + a` under `==`. The maps are equal unless both sides are zero; then each order returns its own self |
| `Arithmetic.AddZeroIdentity` | lib/cashify/arithmetic.rb:10-11 | `x + Cash.zero` is x. `Cash.zero + x` is x when x is non-zero, and `==` to x otherwise |
| `Arithmetic.AddThenSubtractScalar` | lib/cashify/arithmetic.rb:66-72 | adding a non-zero Integer to a non-zero value and then subtracting it restores the value |
| `Arithmetic.SubtractThenAdd` | lib/cashify/arithmetic.rb:62-84 | (a - b) + b is a when b's currencies are among a's and none of a, b, a - b is zero |
| `Arithmetic.FloorDivOfMultiple` | lib/cashify/arithmetic.rb:54-56 | floor division by n undoes multiplication by n |
| `Arithmetic.MultiplyThenDivideScalar` | lib/cashify/arithmetic.rb:46-56 | multiplying by a non-zero Integer and then dividing by it restores the value |
| `Arithmetic.MultiplyCommutes` | lib/cashify/arithmetic.rb:50-52 | `*` between two Cash values is commutative |
| `Arithmetic.TotalMergeSum` | lib/cashify/arithmetic.rb:62-64 | the merged sum of two maps totals the sum of their totals |
| `Arithmetic.TotalSubtractUnion` | lib/cashify/arithmetic.rb:79-84 | the full-union difference totals the difference of the totals |
| `Arithmetic.TotalNegated` | lib/cashify/arithmetic.rb:77 | negating every entry negates the total |
| `Arithmetic.TotalsAdd` | lib/cashify/arithmetic.rb:7-24 | through every short-cut, `<=>`'s total of `a + b` is total(a) + total(b), and of `a - b` is total(a) - total(b) |
| `Arithmetic.SubtractExamples` | lib/cashify/arithmetic.rb:74-85 | {SEK:100} - {SEK:100} is {SEK:0}; {SEK:100} - {USD:100} is {SEK:100, USD:-100}; `Cash.zero` - {SEK:100} is {SEK:-100} |
| `Arithmetic.MergeExamples` | lib/cashify/arithmetic.rb:50-60 | {SEK:100, USD:100, NOK:100} times and divided by {SEK:2, USD:2, DKK:100} keep DKK and NOK unchanged |
| `Multicash.Fold` | lib/multicash.rb:17 | the total of `inject(acc, :+)` is the accumulator's total plus the elements' totals |
| `Multicash.Sum` | lib/multicash.rb:16-18 | the sum of no values is `Cash.zero`, and the total of a sum is the sum of the elements' totals, although `+` drops currencies |
| `Multicash.FoldSkipsLeadingZeros` | lib/multicash.rb:16-18 | a zero accumulator ignores zero elements and is replaced, as it is, by the first non-zero one |
| `Multicash.FoldOfZeros` | lib/multicash.rb:16-18 | folding only zero values onto a zero accumulator leaves the accumulator |
| `Multicash.FoldKeys` | lib/multicash.rb:16-18 | the fold names no currency outside the seed and the elements |
| `Multicash.SumDropsSeed` | lib/multicash.rb:16-18 | an all-zero list sums to `Cash.zero`; otherwise the USD seed is gone and only the elements' currencies remain |
| `Multicash.FirstNonZero` | lib/multicash.rb:16-18 | finds the first non-zero element, the one that replaces the seed |
| `Multicash.SumExample` | lib/multicash.rb:16-18 | the sum of {SEK:100}, {SEK:100} and {USD:100} is {SEK:200, USD:100} |
| `Multicash.PrefixStep` | lib/cashify.rb:28-33 | the first j+1 entries of a value are the first j with entry j added under a new key |
| `Multicash.AddNewCurrency` | lib/cashify/arithmetic.rb:62-64 | adding a non-zero single-currency value for a new currency to a non-zero value inserts that entry |
| `Multicash.AddZeroCases` | lib/cashify/arithmetic.rb:10-11 | a zero operand leaves `self`, and a zero `self` hands back a non-zero operand |
| `Multicash.PartsStep` | lib/multicash.rb:16-18 | adding the next part of `to_a` to the sum of the earlier parts gives the sum of the parts up to it |
| `Multicash.FoldParts` | lib/multicash.rb:16-18 | folding the rest of `to_a` onto the sum of the first parts gives `Cash.zero` if every amount is zero and the non-zero amounts otherwise |
| `Multicash.SumToAParts` | lib/multicash.rb:16-18 | `Cash.sum(m.to_a)` is exactly the non-zero amounts of m when some amount is non-zero, and `Cash.zero` otherwise |
| `Multicash.SumToARoundTrip` | lib/multicash.rb:16-18 | `Cash.sum(m.to_a) == m` holds exactly when no amount of m is zero or every amount is |
| `Multicash.SumToAOfNonZeros` | lib/multicash.rb:16-18 | `Cash.sum(m.to_a)` is m when m is non-empty and no amount of m is zero |
| `Multicash.SumToAOfZero` | lib/multicash.rb:16-18 | `Cash.sum(m.to_a)` is `Cash.zero`, which is `==` to m, when every amount of m is zero |
| `Multicash.SumToAMixedFails` | lib/multicash.rb:16-18 | `Cash.sum` of the parts of {SEK:0, USD:100} is {USD:100}, which is not `==` to it |
| `Multicash.MixedNonZeroPart` | lib/multicash.rb:16-18 | the non-zero part of {SEK:0, USD:100} is {USD:100} |

## Left out

- Floats are not modelled: Float scalars in `+`, `-`, `*` and `/`, the `to_i` truncation at construction, and the IEEE float division inside `round`. Scalars are Integers. `round` divides exactly over the rationals. The float quotient can land on a different side of a half only for amounts of magnitude 2^52 or more: below that, the exact quotient is at least 1/(2·|interval|) away from any half, which is more than the division's rounding error.
- `Money.Build`: the keys are given in their symbol form, so `to_sym` is the identity. The amounts are given as integers, so `to_i` is the identity.
- `Arithmetic.Div`: a zero divisor that meets an amount is excluded by a precondition: an Integer 0 on a non-empty value, or a zero amount of the other value under a key both share. Ruby raises ZeroDivisionError there, which is outside the error taxonomy. `/ 0` on an empty value is modelled, and gives an empty value.
- `Money.Round`: a zero interval on a non-empty value is excluded by a precondition. Ruby raises FloatDomainError there. `round(0)` on an empty value is modelled, and gives an empty value.
- `Money.Round`: the default argument of `round(interval = 100)` is not a separate member. `round` with no argument is `Round(c, 100)`, as in `Money.RoundExample`.
- `Multicash.Sum`: the list holds `Cash` values only. Ruby's `inject` would also take Integers, where `+` can hand back a bare Integer (`Cash.sum([5])` is 5); the method's parameter, `cashes`, names the domain modelled.
- Comparison operators built on `<=>` by `Comparable` (`<`, `>`, ...) are not modelled separately. They raise ArgumentError where `<=>` gives nil, and that is outside the error taxonomy.
- `to_s` and `to_delimited_s` are not modelled. They do float formatting and call ActiveSupport's `to_formatted_s`, which is not part of this model.
- The `currencies` setter from `attr_accessor` is not modelled; nothing in the core mutates a value.
- The Rails glue is not part of this model. That covers `lib/multicash/cashify.rb` (reading and writing an amount column and a currency column) and the Railtie at lib/cashify.rb:5-15.
- Custom objects whose `==` makes them look like nil, "" or false to `present?` are not modelled. Every operand that answers `zero?` counts as present.
