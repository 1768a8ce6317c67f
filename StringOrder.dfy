/**
 * The order `Array.prototype.sort` uses when given no comparator: strings are
 * compared character by character, and a proper prefix comes first. A sort is
 * any permutation that is ordered; for a list without repeats that result is
 * unique and strictly increasing.
 */
module StringOrder {

  /** `a` sorts strictly before `b`. */
  predicate Less(a: string, b: string)
  {
    |b| > 0 && (|a| == 0 || a[0] < b[0] || (a[0] == b[0] && Less(a[1..], b[1..])))
  }

  lemma {:induction false} LessIrreflexive(a: string)
    ensures !Less(a, a)
  {
    if |a| > 0 {
      LessIrreflexive(a[1..]);
    }
  }

  lemma {:induction false} LessTransitive(a: string, b: string, c: string)
    requires Less(a, b) && Less(b, c)
    ensures Less(a, c)
  {
    if |a| > 0 && a[0] == b[0] && b[0] == c[0] {
      LessTransitive(a[1..], b[1..], c[1..]);
    }
  }

  /** Any two different strings are ordered one way or the other. */
  lemma {:induction false} LessTotal(a: string, b: string)
    ensures a == b || Less(a, b) || Less(b, a)
  {
    if |a| > 0 && |b| > 0 && a[0] == b[0] {
      LessTotal(a[1..], b[1..]);
      if a[1..] == b[1..] {
        assert a == [a[0]] + a[1..] && b == [b[0]] + b[1..];
      }
    }
  }

  lemma LessAsymmetric(a: string, b: string)
    requires Less(a, b)
    ensures !Less(b, a)
  {
    if Less(b, a) {
      LessTransitive(a, b, a);
      LessIrreflexive(a);
    }
  }

  /** Ordered, allowing repeats. */
  predicate Sorted(xs: seq<string>) {
    forall i, j :: 0 <= i < j < |xs| ==> !Less(xs[j], xs[i])
  }

  /** Ordered without repeats. */
  predicate StrictlySorted(xs: seq<string>) {
    forall i, j :: 0 <= i < j < |xs| ==> Less(xs[i], xs[j])
  }

  /** No value occurs twice. */
  ghost predicate NoRepeats(xs: seq<string>) {
    forall v :: multiset(xs)[v] <= 1
  }

  /** Place `x` in front of the first element it does not follow. */
  function Insert(x: string, xs: seq<string>): (r: seq<string>)
    requires Sorted(xs)
    ensures Sorted(r)
    ensures multiset(r) == multiset(xs) + multiset{x}
  {
    if xs == [] then [x]
    else if Less(xs[0], x) then
      var rest := Insert(x, xs[1..]);
      assert xs == [xs[0]] + xs[1..];
      forall k | 0 <= k < |rest|
        ensures !Less(rest[k], xs[0])
      {
        assert rest[k] in multiset(xs[1..]) + multiset{x};
        if rest[k] == x {
          LessAsymmetric(xs[0], x);
        } else {
          assert rest[k] in xs[1..];
        }
      }
      [xs[0]] + rest
    else
      forall j | 0 <= j < |xs|
        ensures !Less(xs[j], x)
      {
        LessTotal(xs[0], x);
        if Less(xs[j], x) && x != xs[0] {
          LessTransitive(xs[j], x, xs[0]);
        }
      }
      [x] + xs
  }

  /** `sort()`: an ordered permutation. */
  function Sort(xs: seq<string>): (r: seq<string>)
    ensures Sorted(r)
    ensures multiset(r) == multiset(xs)
  {
    if xs == [] then []
    else
      assert xs == xs[..|xs| - 1] + [xs[|xs| - 1]];
      Insert(xs[|xs| - 1], Sort(xs[..|xs| - 1]))
  }

  /** Two equal entries make a value occur at least twice. */
  lemma RepeatCounted(xs: seq<string>, i: nat, j: nat)
    requires i < j < |xs| && xs[i] == xs[j]
    ensures multiset(xs)[xs[i]] >= 2
  {
    assert xs == xs[..j] + [xs[j]] + xs[j + 1..];
    assert xs[..j][i] == xs[i];
  }

  /** An ordered list without repeats is strictly increasing. */
  lemma SortedNoRepeatsStrict(xs: seq<string>)
    requires Sorted(xs) && NoRepeats(xs)
    ensures StrictlySorted(xs)
  {
    forall i, j | 0 <= i < j < |xs|
      ensures Less(xs[i], xs[j])
    {
      LessTotal(xs[i], xs[j]);
      if xs[i] == xs[j] {
        RepeatCounted(xs, i, j);
      }
    }
  }

  /** Sorting a list without repeats gives a strictly increasing list of the same values. */
  lemma SortStrict(xs: seq<string>)
    requires NoRepeats(xs)
    ensures StrictlySorted(Sort(xs))
    ensures forall v :: v in Sort(xs) <==> v in xs
  {
    var r := Sort(xs);
    assert forall v :: multiset(r)[v] == multiset(xs)[v];
    SortedNoRepeatsStrict(r);
    forall v
      ensures v in r <==> v in xs
    {
      assert v in r <==> v in multiset(r);
      assert v in xs <==> v in multiset(xs);
    }
  }

  /** The smallest element of a strictly increasing list comes first. */
  lemma StrictHeadIsLeast(xs: seq<string>, v: string)
    requires StrictlySorted(xs) && v in xs && v != xs[0]
    ensures Less(xs[0], v)
  {
  }

  /**
   * A strictly increasing list is determined by its values: two of them
   * holding the same values are equal.
   */
  lemma {:induction false} StrictlySortedUnique(a: seq<string>, b: seq<string>)
    requires StrictlySorted(a) && StrictlySorted(b)
    requires forall v :: v in a <==> v in b
    ensures a == b
  {
    assert a != [] ==> a[0] in b;
    assert b != [] ==> b[0] in a;
    if a != [] && b != [] {
      assert a[0] == b[0] by {
        if a[0] != b[0] {
          StrictHeadIsLeast(a, b[0]);
          StrictHeadIsLeast(b, a[0]);
          LessAsymmetric(a[0], b[0]);
        }
      }
      assert a == [a[0]] + a[1..] && b == [b[0]] + b[1..];
      LessIrreflexive(a[0]);
      forall v
        ensures v in a[1..] <==> v in b[1..]
      {
        if v in a[1..] {
          var k :| 0 <= k < |a[1..]| && a[1..][k] == v;
          assert Less(a[0], a[k + 1]) && a[k + 1] == v;
          assert v in a && v in b && v != b[0];
        }
        if v in b[1..] {
          var k :| 0 <= k < |b[1..]| && b[1..][k] == v;
          assert Less(b[0], b[k + 1]) && b[k + 1] == v;
          assert v in b && v in a && v != a[0];
        }
      }
      StrictlySortedUnique(a[1..], b[1..]);
    }
  }
}
