/** `Cash.sum` (lib/multicash.rb): a left fold of `+` seeded with
    `Cash.zero`. Because `+` hands back its other operand when one side is
    zero, the `USD: 0` seed vanishes at the first non-zero element, and zero
    elements vanish wherever they stand. */
module Multicash {
  import opened KeyOrder
  import opened Money
  import opened Arithmetic

  /** `xs.inject(acc, :+)` */
  function Fold(acc: Cash, xs: seq<Cash>): (r: Cash)
    ensures Total(r.m) == Total(acc.m) + TotalOf(xs)
    decreases |xs|
  {
    if xs == [] then acc
    else
      TotalsAdd(acc, xs[0]);
      Fold(AddCash(acc, xs[0]), xs[1..])
  }

  /** `Cash.sum` (multicash.rb:16-18). The total `<=>` compares is the sum
      of the elements' totals, although `+` drops currencies. */
  function Sum(xs: seq<Cash>): (r: Cash)
    ensures xs == [] ==> r == Zero()
    ensures Total(r.m) == TotalOf(xs)
  {
    Fold(Zero(), xs)
  }

  /** Every currency named by some element. */
  ghost function KeysOf(xs: seq<Cash>): set<string> {
    set i, k | 0 <= i < |xs| && k in xs[i].m :: k
  }

  /** The sum of the elements' totals. */
  function TotalOf(xs: seq<Cash>): int
    decreases |xs|
  {
    if xs == [] then 0 else Total(xs[0].m) + TotalOf(xs[1..])
  }

  /** A zero accumulator ignores zero elements and is replaced, as it is,
      by the first non-zero one. */
  lemma {:induction false} FoldSkipsLeadingZeros(acc: Cash, xs: seq<Cash>, j: int)
    requires IsZero(acc)
    requires 0 <= j < |xs| && !IsZero(xs[j])
    requires forall i :: 0 <= i < j ==> IsZero(xs[i])
    ensures Fold(acc, xs) == Fold(xs[j], xs[j + 1..])
  {
    if j > 0 {
      FoldSkipsLeadingZeros(acc, xs[1..], j - 1);
      assert xs[1..][j - 1 + 1..] == xs[j + 1..];
    }
  }

  /** With a zero accumulator and only zero elements, the fold is the
      accumulator. */
  lemma {:induction false} FoldOfZeros(acc: Cash, xs: seq<Cash>)
    requires IsZero(acc)
    requires forall i :: 0 <= i < |xs| ==> IsZero(xs[i])
    ensures Fold(acc, xs) == acc
    decreases |xs|
  {
    if xs != [] {
      FoldOfZeros(acc, xs[1..]);
    }
  }

  /** The fold names no currency outside the accumulator and the elements. */
  lemma {:induction false} FoldKeys(acc: Cash, xs: seq<Cash>)
    ensures Fold(acc, xs).m.Keys <= acc.m.Keys + KeysOf(xs)
    decreases |xs|
  {
    if xs != [] {
      var next := AddCash(acc, xs[0]);
      assert next.m.Keys <= acc.m.Keys + xs[0].m.Keys;
      FoldKeys(next, xs[1..]);
      forall k | k in KeysOf(xs[1..]) ensures k in KeysOf(xs) {
        var i :| 0 <= i < |xs[1..]| && k in xs[1..][i].m;
        assert xs[1..][i] == xs[i + 1];
      }
      forall k | k in xs[0].m ensures k in KeysOf(xs) {
        assert k in xs[0].m;
      }
    }
  }

  /** `Cash.sum` of a list that is all zeros is `Cash.zero`; otherwise the
      seed is dropped at the first non-zero element, and the result names
      only currencies some element names: `USD` appears only if an element
      has it. */
  lemma SumDropsSeed(xs: seq<Cash>)
    ensures (forall i :: 0 <= i < |xs| ==> IsZero(xs[i])) ==> Sum(xs) == Zero()
    ensures (exists i :: 0 <= i < |xs| && !IsZero(xs[i])) ==> Sum(xs).m.Keys <= KeysOf(xs)
  {
    if exists i :: 0 <= i < |xs| && !IsZero(xs[i]) {
      var j := FirstNonZero(xs);
      FoldSkipsLeadingZeros(Zero(), xs, j);
      FoldKeys(xs[j], xs[j + 1..]);
      forall k | k in KeysOf(xs[j + 1..]) ensures k in KeysOf(xs) {
        var i :| 0 <= i < |xs[j + 1..]| && k in xs[j + 1..][i].m;
        assert xs[j + 1..][i] == xs[j + 1 + i];
      }
      assert forall k :: k in xs[j].m ==> k in KeysOf(xs);
    } else {
      FoldOfZeros(Zero(), xs);
    }
  }

  /** The index of the first element that is not zero. */
  function FirstNonZero(xs: seq<Cash>): (j: int)
    requires exists i :: 0 <= i < |xs| && !IsZero(xs[i])
    ensures 0 <= j < |xs| && !IsZero(xs[j])
    ensures forall i :: 0 <= i < j ==> IsZero(xs[i])
    decreases |xs|
  {
    if !IsZero(xs[0]) then 0
    else
      var i :| 0 <= i < |xs| && !IsZero(xs[i]);
      assert i > 0 && xs[1..][i - 1] == xs[i];
      1 + FirstNonZero(xs[1..])
  }

  /** Two SEK amounts and a USD amount add up currency by currency. */
  lemma SumExample()
    ensures Sum([Cash(map["SEK" := 100]), Cash(map["SEK" := 100]), Cash(map["USD" := 100])])
      == Cash(map["SEK" := 200, "USD" := 100])
  {
    var a, c := Cash(map["SEK" := 100]), Cash(map["USD" := 100]);
    assert !IsZero(a) by { assert a.m["SEK"] != 0; }
    AddZeroCases(Zero(), a);
    var aa := AddCash(a, a);
    assert aa.m == map["SEK" := 200];
    assert !IsZero(aa) by { assert aa.m["SEK"] != 0; }
    AddNewCurrency(aa, "USD", 100);
    assert aa.m["USD" := 100] == map["SEK" := 200, "USD" := 100];
    var xs := [a, a, c];
    assert xs[1..] == [a, c] && [a, c][1..] == [c] && [c][1..] == [];
    calc {
      Sum(xs);
      Fold(a, [a, c]);
      Fold(aa, [c]);
      Fold(AddCash(aa, c), []);
    }
  }

  /** The amounts of the first `j` entries, as a value. */
  function PrefixCash(c: Cash, j: int): Cash
    requires 0 <= j <= |c.m|
  {
    Build(Entries(c)[..j])
  }

  lemma PrefixStep(c: Cash, j: int)
    requires 0 <= j < |c.m|
    ensures PrefixCash(c, j + 1).m == PrefixCash(c, j).m[Entries(c)[j].0 := Entries(c)[j].1]
    ensures Entries(c)[j].0 !in PrefixCash(c, j).m
    ensures Entries(c)[0].0 in PrefixCash(c, j + 1).m
    ensures PrefixCash(c, j + 1).m[Entries(c)[0].0] == Entries(c)[0].1
  {
    var es := Entries(c);
    assert es[..j + 1][..j] == es[..j];
    BuildSpec(es[..j]);
    BuildSpec(es[..j + 1]);
    forall i | 0 <= i < j ensures es[..j][i].0 != es[j].0 {
      LessIrreflexive(es[j].0);
    }
    var pre := es[..j + 1];
    forall i | 0 < i < |pre| ensures pre[i].0 != pre[0].0 {
      LessIrreflexive(pre[0].0);
    }
    assert LastFor(pre, 0);
  }

  /** Adding a non-zero single-currency value for a new currency to a
      non-zero value inserts that entry. */
  lemma AddNewCurrency(p: Cash, k: string, v: int)
    requires !IsZero(p) && v != 0 && k !in p.m
    ensures AddCash(p, Cash(map[k := v])) == Cash(p.m[k := v])
  {
    var single := Cash(map[k := v]);
    assert !IsZero(single) by { assert single.m[k] != 0; }
    assert AddCash(p, single).m == p.m[k := v];
  }

  /** The entries of `m` whose amount is not zero. */
  function NonZeroPart(m: map<string, int>): map<string, int> {
    map k | k in m && m[k] != 0 :: m[k]
  }

  /** What adding up single-currency parts gives: `Cash.zero` while every
      part so far was zero, the non-zero parts once one was not. */
  function PartsSum(m: map<string, int>): Cash {
    if NonZeroPart(m) == map[] then Zero() else Cash(NonZeroPart(m))
  }

  /** Adding an entry under a new key adds it to the non-zero part unless
      its amount is zero. */
  lemma NonZeroPartUpdate(p: map<string, int>, k: string, v: int)
    requires k !in p
    ensures NonZeroPart(p[k := v]) == if v == 0 then NonZeroPart(p) else NonZeroPart(p)[k := v]
  {
  }

  /** A zero operand leaves `self`; a zero `self` hands back a non-zero
      operand. */
  lemma AddZeroCases(acc: Cash, x: Cash)
    ensures IsZero(x) ==> AddCash(acc, x) == acc
    ensures IsZero(acc) && !IsZero(x) ==> AddCash(acc, x) == x
  {
  }

  /** One step of the fold over `to_a`: the next part joins the sum. */
  lemma PartsStep(c: Cash, j: int, acc: Cash)
    requires 0 <= j < |c.m|
    requires acc == PartsSum(PrefixCash(c, j).m)
    ensures AddCash(acc, ToA(c)[j]) == PartsSum(PrefixCash(c, j + 1).m)
  {
    PrefixStep(c, j);
    var p := PrefixCash(c, j).m;
    var k, v := Entries(c)[j].0, Entries(c)[j].1;
    var single := ToA(c)[j];
    assert single.m == map[k := v];
    assert PrefixCash(c, j + 1).m == p[k := v];
    NonZeroPartUpdate(p, k, v);
    AddZeroCases(acc, single);
    if v != 0 {
      assert !IsZero(single) by { assert single.m[k] != 0; }
      var n := NonZeroPart(p);
      if n != map[] {
        assert !IsZero(acc) by {
          var x :| x in n;
          assert acc.m[x] != 0;
        }
        AddNewCurrency(acc, k, v);
      }
    }
  }

  /** Folding the rest of `to_a` onto the sum of the first `j` parts adds
      every non-zero part as a new currency and skips every zero one. */
  lemma {:induction false} FoldParts(c: Cash, j: int, acc: Cash)
    requires 0 <= j <= |c.m|
    requires acc == PartsSum(PrefixCash(c, j).m)
    ensures Fold(acc, ToA(c)[j..]) == PartsSum(c.m)
    decreases |c.m| - j
  {
    var singles := ToA(c);
    if j == |c.m| {
      assert Entries(c)[..j] == Entries(c);
      BuildEntries(c);
      assert singles[j..] == [];
    } else {
      PartsStep(c, j, acc);
      assert singles[j..][0] == singles[j] && singles[j..][1..] == singles[j + 1..];
      FoldParts(c, j + 1, AddCash(acc, singles[j]));
    }
  }

  /** `Cash.sum(m.to_a)` keeps exactly the non-zero amounts of `m`, and is
      `Cash.zero` when there are none. */
  lemma SumToAParts(c: Cash)
    ensures !IsZero(c) ==> Sum(ToA(c)) == Cash(NonZeroPart(c.m))
    ensures IsZero(c) ==> Sum(ToA(c)) == Zero()
  {
    assert Entries(c)[..0] == [];
    assert ToA(c)[0..] == ToA(c);
    FoldParts(c, 0, Zero());
    if !IsZero(c) {
      var k :| k in c.m && c.m[k] != 0;
      assert k in NonZeroPart(c.m);
    }
  }

  /** The non-zero part of a non-zero value is non-zero, and it is the
      whole value exactly when no amount is zero. */
  lemma NonZeroPartOfNonZero(c: Cash)
    requires !IsZero(c)
    ensures !IsZero(Cash(NonZeroPart(c.m)))
    ensures NonZeroPart(c.m) == c.m <==> forall k :: k in c.m ==> c.m[k] != 0
  {
    var k :| k in c.m && c.m[k] != 0;
    assert NonZeroPart(c.m)[k] != 0;
    if z :| z in c.m && c.m[z] == 0 {
      assert z !in NonZeroPart(c.m);
    }
  }

  /** The round trip `Cash.sum(m.to_a) == m` holds exactly when no amount of
      `m` is zero or every amount is. */
  lemma SumToARoundTrip(c: Cash)
    ensures Equals(Sum(ToA(c)), CashOp(c)) <==>
      (forall k :: k in c.m ==> c.m[k] != 0) || IsZero(c)
  {
    SumToAParts(c);
    if !IsZero(c) {
      NonZeroPartOfNonZero(c);
    }
  }

  /** `Cash.sum(m.to_a) == m` when no amount of `m` is zero. */
  lemma SumToAOfNonZeros(c: Cash)
    requires forall k :: k in c.m ==> c.m[k] != 0
    requires !IsEmpty(c)
    ensures Sum(ToA(c)) == c
  {
    SumToAParts(c);
    var k :| k in c.m;
    assert !IsZero(c) by { assert c.m[k] != 0; }
    NonZeroPartOfNonZero(c);
  }

  /** `Cash.sum(m.to_a) == m` when every amount of `m` is zero (or there are
      none): the sum is `Cash.zero`, equal to `m` under the zero-aware `==`. */
  lemma SumToAOfZero(c: Cash)
    requires IsZero(c)
    ensures Sum(ToA(c)) == Zero()
    ensures Equals(Sum(ToA(c)), CashOp(c))
  {
    SumToAParts(c);
  }

  /** The non-zero part of {SEK: 0, USD: 100} is {USD: 100}. */
  lemma MixedNonZeroPart()
    ensures NonZeroPart(map["SEK" := 0, "USD" := 100]) == map["USD" := 100]
  {
    var m := map["SEK" := 0, "USD" := 100];
    forall k | k in NonZeroPart(m) ensures k == "USD" {
      assert k == "SEK" || k == "USD";
    }
  }

  /** The round trip fails when zero and non-zero amounts are mixed: `+`
      drops the zero entry. */
  lemma SumToAMixedFails()
    ensures var c := Cash(map["SEK" := 0, "USD" := 100]);
      Sum(ToA(c)) == Cash(map["USD" := 100]) && !Equals(Sum(ToA(c)), CashOp(c))
  {
    var c := Cash(map["SEK" := 0, "USD" := 100]);
    assert !IsZero(c) by { assert c.m["USD"] != 0; }
    SumToAParts(c);
    SumToARoundTrip(c);
    MixedNonZeroPart();
  }
}
