/** What a loop keeps that goes through a list and takes some of its items, in order. */
module Selection {

  /** How many of the first k flags are set. */
  function Count(keep: seq<bool>, k: nat): (n: nat)
    requires k <= |keep|
    ensures n <= k
  {
    if k == 0 then 0 else Count(keep, k - 1) + if keep[k - 1] then 1 else 0
  }

  /** out holds the items whose flag is set, each behind as many as are set before it, and nothing else. */
  ghost predicate IsSelection<T>(items: seq<T>, keep: seq<bool>, out: seq<T>) {
    && |items| == |keep| && |out| == Count(keep, |keep|)
    && forall k :: 0 <= k < |keep| && keep[k] ==> Count(keep, k) < |out| && out[Count(keep, k)] == items[k]
  }

  lemma {:induction false} CountPrefix(keep: seq<bool>, b: bool, k: nat)
    requires k <= |keep|
    ensures Count(keep + [b], k) == Count(keep, k)
    decreases k
  {
    if k > 0 {
      CountPrefix(keep, b, k - 1);
    }
  }

  lemma {:induction false} CountBelow(keep: seq<bool>, k: nat)
    requires k < |keep| && keep[k]
    ensures Count(keep, k) < Count(keep, |keep|)
  {
    if k < |keep| - 1 {
      var front := keep[..|keep| - 1];
      CountBelow(front, k);
      assert keep == front + [keep[|keep| - 1]];
      CountPrefix(front, keep[|keep| - 1], k);
      CountPrefix(front, keep[|keep| - 1], |front|);
    }
  }

  /** One item more. */
  lemma Extended<T>(items: seq<T>, keep: seq<bool>, out: seq<T>, x: T, b: bool)
    requires IsSelection(items, keep, out)
    ensures IsSelection(items + [x], keep + [b], if b then out + [x] else out)
  {
    var items', keep' := items + [x], keep + [b];
    var out' := if b then out + [x] else out;
    CountPrefix(keep, b, |keep|);
    assert Count(keep', |keep'|) == Count(keep, |keep|) + if b then 1 else 0;
    forall k | 0 <= k < |keep'| && keep'[k]
      ensures Count(keep', k) < |out'| && out'[Count(keep', k)] == items'[k]
    {
      CountPrefix(keep, b, k);
    }
  }

  lemma NoneSelected<T>()
    ensures IsSelection<T>([], [], [])
  {
  }

  /** A selection is all there is to say: items and flags determine it. */
  lemma {:induction false} OneSelection<T>(items: seq<T>, keep: seq<bool>, a: seq<T>, b: seq<T>)
    requires IsSelection(items, keep, a) && IsSelection(items, keep, b)
    ensures a == b
  {
    forall n | 0 <= n < |a|
      ensures a[n] == b[n]
    {
      var k := Position(keep, |keep|, n);
    }
  }

  lemma {:induction false} Position(keep: seq<bool>, top: nat, n: nat) returns (k: nat)
    requires top <= |keep| && n < Count(keep, top)
    ensures k < top && keep[k] && Count(keep, k) == n
    decreases top
  {
    if keep[top - 1] && Count(keep, top - 1) == n {
      k := top - 1;
    } else {
      k := Position(keep, top - 1, n);
    }
  }
}
