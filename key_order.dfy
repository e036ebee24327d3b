/** Ascending order of currency codes.

    Ruby sorts the symbol keys of a `Cash` by their names, character by
    character, with a proper prefix sorting first. `SortedKeys` lists a key
    set in that order; it fixes which entry `currency`, `value` and `to_a`
    see first. */
module KeyOrder {

  /** Strict lexicographic order on strings. */
  predicate Less(a: string, b: string) {
    if |a| == 0 then |b| > 0
    else if |b| == 0 then false
    else a[0] < b[0] || (a[0] == b[0] && Less(a[1..], b[1..]))
  }

  predicate LessEq(a: string, b: string) {
    a == b || Less(a, b)
  }

  lemma {:induction false} LessIrreflexive(a: string)
    ensures !Less(a, a)
  {
    if |a| > 0 {
      LessIrreflexive(a[1..]);
    }
  }

  lemma {:induction false} LessTransitive(a: string, b: string, c: string)
    requires Less(a, b) && Less(b, c)
    ensures Less(a, c)
  {
    if |a| > 0 && |b| > 0 && |c| > 0 && a[0] == b[0] && b[0] == c[0] {
      LessTransitive(a[1..], b[1..], c[1..]);
    }
  }

  lemma {:induction false} LessTotal(a: string, b: string)
    ensures a == b || Less(a, b) || Less(b, a)
  {
    if |a| > 0 && |b| > 0 && a[0] == b[0] {
      LessTotal(a[1..], b[1..]);
      if a[1..] == b[1..] {
        assert a == [a[0]] + a[1..] && b == [b[0]] + b[1..];
      }
    }
  }

  lemma LessAsymmetric(a: string, b: string)
    requires Less(a, b)
    ensures !Less(b, a)
  {
  }

  /** `k` is the smallest key of `ks`. */
  predicate IsLeast(k: string, ks: set<string>) {
    k in ks && forall j :: j in ks ==> LessEq(k, j)
  }

  lemma {:induction false} LeastExists(ks: set<string>)
    requires ks != {}
    ensures exists k :: IsLeast(k, ks)
    decreases |ks|
  {
    var x :| x in ks;
    var rest := ks - {x};
    if rest == {} {
      assert ks == {x};
      assert IsLeast(x, ks);
    } else {
      LeastExists(rest);
      var y :| IsLeast(y, rest);
      LessTotal(x, y);
      if Less(x, y) {
        forall j | j in ks ensures LessEq(x, j) {
          if j != x {
            assert LessEq(y, j);
            if Less(y, j) { LessTransitive(x, y, j); }
          }
        }
        assert IsLeast(x, ks);
      } else {
        assert IsLeast(y, ks);
      }
    }
  }

  lemma LeastUnique(ks: set<string>)
    ensures forall a, b :: IsLeast(a, ks) && IsLeast(b, ks) ==> a == b
  {
    forall a, b | IsLeast(a, ks) && IsLeast(b, ks) ensures a == b {
      if a != b {
        LessAsymmetric(a, b);
      }
    }
  }

  /** The smallest key of a non-empty key set. */
  function MinKey(ks: set<string>): (k: string)
    requires ks != {}
    ensures IsLeast(k, ks)
  {
    LeastExists(ks);
    LeastUnique(ks);
    var k :| IsLeast(k, ks); k
  }

  /** Strictly ascending, hence free of duplicates. */
  predicate StrictlySorted(s: seq<string>) {
    forall i, j :: 0 <= i < j < |s| ==> Less(s[i], s[j])
  }

  /** The keys of `ks`, each once, in ascending order. */
  function SortedKeys(ks: set<string>): (s: seq<string>)
    ensures |s| == |ks|
    ensures forall k :: k in s <==> k in ks
    ensures StrictlySorted(s)
    decreases |ks|
  {
    if ks == {} then []
    else
      var k := MinKey(ks);
      var rest := SortedKeys(ks - {k});
      assert forall j :: j in rest ==> Less(k, j);
      [k] + rest
  }

  /** Removing a key other than the smallest keeps the smallest. */
  lemma MinKeyRemove(ks: set<string>, x: string)
    requires ks != {} && x != MinKey(ks)
    ensures ks - {x} != {} && MinKey(ks - {x}) == MinKey(ks)
  {
    var k := MinKey(ks);
    assert k in ks - {x};
    assert IsLeast(k, ks - {x});
    LeastUnique(ks - {x});
  }

  /** The first sorted key is the smallest. */
  lemma SortedKeysHead(ks: set<string>)
    requires ks != {}
    ensures SortedKeys(ks)[0] == MinKey(ks)
  {
  }
}
