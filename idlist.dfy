/** The cart's reference list: an ordered list of product ids in which
    repetition stands for quantity. The functions here are the reference
    definitions (occurrence counts, first index, unique ids in order of first
    occurrence); the two methods are the in-place steps of the cart code that
    are specified by them. */
module IdList {

  /** How many times `x` occurs in `xs`. */
  function Occurrences<T(==)>(xs: seq<T>, x: T): nat {
    if xs == [] then 0
    else Occurrences(xs[..|xs| - 1], x) + (if xs[|xs| - 1] == x then 1 else 0)
  }

  /** Array.prototype.indexOf: the first index holding `x`, or -1. */
  function IndexOf<T(==)>(xs: seq<T>, x: T): (r: int)
    ensures -1 <= r < |xs|
    ensures r == -1 <==> x !in xs
    ensures r >= 0 ==> xs[r] == x && x !in xs[..r]
  {
    if xs == [] then -1
    else if xs[0] == x then 0
    else
      var j := IndexOf(xs[1..], x);
      if j == -1 then -1 else j + 1
  }

  /** The list without its element at index `i`. */
  function RemoveAt<T>(xs: seq<T>, i: nat): seq<T>
    requires i < |xs|
  {
    xs[..i] + xs[i + 1..]
  }

  /** The distinct elements of `xs` in order of first occurrence: the key
      order of a JavaScript Map filled by walking `xs`. */
  function Distinct<T(==)>(xs: seq<T>): seq<T> {
    if xs == [] then []
    else
      var prev := Distinct(xs[..|xs| - 1]);
      var y := xs[|xs| - 1];
      if y in prev then prev else prev + [y]
  }

  /** The occurrence count of every element of `xs`. */
  function CountMap<T(==)>(xs: seq<T>): (m: map<T, nat>)
  {
    map x | x in xs :: Occurrences(xs, x)
  }

  /** The sum of the counts `m` holds for `keys` (a key `m` lacks counts 0). */
  function SumOfCounts<T(==)>(keys: seq<T>, m: map<T, nat>): nat {
    if keys == [] then 0
    else
      var k := keys[|keys| - 1];
      SumOfCounts(keys[..|keys| - 1], m) + (if k in m then m[k] else 0)
  }

  // ------------------------------------------------------------------ counts

  lemma {:induction false} OccurrencesConcat<T>(a: seq<T>, b: seq<T>, x: T)
    ensures Occurrences(a + b, x) == Occurrences(a, x) + Occurrences(b, x)
  {
    if b != [] {
      assert (a + b)[..|a + b| - 1] == a + b[..|b| - 1];
      OccurrencesConcat(a, b[..|b| - 1], x);
    } else {
      assert a + b == a;
    }
  }

  lemma {:induction false} OccurrencesPositive<T>(xs: seq<T>, x: T)
    ensures Occurrences(xs, x) > 0 <==> x in xs
  {
    if xs != [] {
      var init := xs[..|xs| - 1];
      assert xs == init + [xs[|xs| - 1]];
      OccurrencesPositive(init, x);
    }
  }

  /** Appending `y` adds one occurrence of `y` and leaves every other count
      as it was. */
  lemma {:induction false} AppendCounts<T>(xs: seq<T>, y: T, x: T)
    ensures Occurrences(xs + [y], x) == Occurrences(xs, x) + (if x == y then 1 else 0)
  {
    assert (xs + [y])[..|xs|] == xs;
  }

  /** Removing the element at `i` takes one occurrence of that element away
      and leaves every other count as it was. */
  lemma {:induction false} RemoveAtCounts<T>(xs: seq<T>, i: nat, x: T)
    requires i < |xs|
    ensures Occurrences(RemoveAt(xs, i), x) == Occurrences(xs, x) - (if xs[i] == x then 1 else 0)
  {
    var a, b, c := xs[..i], [xs[i]], xs[i + 1..];
    assert Occurrences(xs, x) == Occurrences(a, x) + Occurrences(b, x) + Occurrences(c, x) by {
      assert xs[i..] == b + c;
      assert xs == a + xs[i..];
      assert xs == (a + b) + c;
      OccurrencesConcat(a + b, c, x);
      OccurrencesConcat(a, b, x);
    }
    assert Occurrences(RemoveAt(xs, i), x) == Occurrences(a, x) + Occurrences(c, x) by {
      OccurrencesConcat(a, c, x);
    }
    assert Occurrences(b, x) == (if xs[i] == x then 1 else 0) by {
      assert b[..0] == [];
    }
  }

  // ---------------------------------------------------------- distinct keys

  /** The distinct ids are exactly the ids of the list, each listed once. */
  lemma {:induction false} DistinctElements<T>(xs: seq<T>)
    ensures forall i | 0 <= i < |Distinct(xs)| :: Distinct(xs)[i] in xs
    ensures forall i | 0 <= i < |xs| :: xs[i] in Distinct(xs)
    ensures forall i, j | 0 <= i < j < |Distinct(xs)| :: Distinct(xs)[i] != Distinct(xs)[j]
  {
    if xs != [] {
      var init := xs[..|xs| - 1];
      assert xs == init + [xs[|xs| - 1]];
      DistinctElements(init);
    }
  }

  lemma {:induction false} IndexOfPrefix<T>(xs: seq<T>, ys: seq<T>, x: T)
    requires x in xs
    ensures IndexOf(xs + ys, x) == IndexOf(xs, x)
  {
    if xs[0] != x {
      assert (xs + ys)[1..] == xs[1..] + ys;
      IndexOfPrefix(xs[1..], ys, x);
    }
  }

  /** The distinct ids are listed in order of first occurrence. */
  lemma {:induction false} DistinctInFirstOccurrenceOrder<T>(xs: seq<T>)
    ensures forall i, j | 0 <= i < j < |Distinct(xs)| ::
      IndexOf(xs, Distinct(xs)[i]) < IndexOf(xs, Distinct(xs)[j])
  {
    if xs != [] {
      var init := xs[..|xs| - 1];
      var y := xs[|xs| - 1];
      var prev := Distinct(init);
      var d := Distinct(xs);
      assert xs == init + [y];
      DistinctInFirstOccurrenceOrder(init);
      DistinctElements(init);
      forall k | 0 <= k < |prev|
        ensures IndexOf(xs, prev[k]) == IndexOf(init, prev[k])
      {
        IndexOfPrefix(init, [y], prev[k]);
      }
      if y !in prev {
        forall k | 0 <= k < |prev|
          ensures IndexOf(xs, prev[k]) < IndexOf(xs, y)
        {
          assert IndexOf(xs, y) == |init| by {
            assert xs[..|init|] == init;
          }
        }
        assert d == prev + [y];
      }
    }
  }

  lemma {:induction false} SumOfCountsAppend<T>(keys: seq<T>, xs: seq<T>, y: T)
    requires forall i | 0 <= i < |keys| :: keys[i] in xs
    ensures SumOfCounts(keys, CountMap(xs + [y])) == SumOfCounts(keys, CountMap(xs)) + Occurrences(keys, y)
  {
    if keys != [] {
      var init := keys[..|keys| - 1];
      var k := keys[|keys| - 1];
      SumOfCountsAppend(init, xs, y);
      AppendCounts(xs, y, k);
    }
  }

  lemma {:induction false} DistinctCountsOnce<T>(d: seq<T>, y: T)
    requires forall i, j | 0 <= i < j < |d| :: d[i] != d[j]
    ensures Occurrences(d, y) == if y in d then 1 else 0
  {
    OccurrencesPositive(d, y);
    if y in d {
      var k := IndexOf(d, y);
      RemoveAtCounts(d, k, y);
      OccurrencesPositive(RemoveAt(d, k), y);
    }
  }

  /** The counts of the distinct ids add up to the length of the list. */
  lemma {:induction false} CountsSumToLength<T>(xs: seq<T>)
    ensures SumOfCounts(Distinct(xs), CountMap(xs)) == |xs|
  {
    if xs != [] {
      var init := xs[..|xs| - 1];
      var y := xs[|xs| - 1];
      var prev := Distinct(init);
      assert xs == init + [y];
      CountsSumToLength(init);
      DistinctElements(init);
      SumOfCountsAppend(prev, init, y);
      DistinctCountsOnce(prev, y);
      if y !in prev {
        assert CountMap(xs)[y] == 1 by {
          AppendCounts(init, y, y);
          OccurrencesPositive(init, y);
        }
        assert (prev + [y])[..|prev|] == prev;
      }
    }
  }

  /** One more id: the one-step unfolding of the multiplicity map and of the
      key order that the `reduce` loop follows. */
  lemma {:induction false} CountMapAppend<T>(xs: seq<T>, y: T)
    ensures CountMap(xs + [y]) == CountMap(xs)[y := (if y in CountMap(xs) then CountMap(xs)[y] else 0) + 1]
    ensures Distinct(xs + [y]) == if y in Distinct(xs) then Distinct(xs) else Distinct(xs) + [y]
  {
    assert (xs + [y])[..|xs|] == xs;
    forall x | x in xs + [y]
      ensures CountMap(xs + [y])[x] == Occurrences(xs, x) + (if x == y then 1 else 0)
    {
      AppendCounts(xs, y, x);
    }
    OccurrencesPositive(xs, y);
    DistinctElements(xs);
  }

  lemma {:induction false} RequestIdsStep<T>(ids: seq<T>, i: nat)
    requires i < |ids|
    ensures var m := CountMap(ids[..i]);
      CountMap(ids[..i + 1]) == m[ids[i] := (if ids[i] in m then m[ids[i]] else 0) + 1]
    ensures Distinct(ids[..i + 1]) ==
      if ids[i] in CountMap(ids[..i]) then Distinct(ids[..i]) else Distinct(ids[..i]) + [ids[i]]
  {
    assert ids[..i + 1] == ids[..i] + [ids[i]];
    CountMapAppend(ids[..i], ids[i]);
    DistinctElements(ids[..i]);
  }

  // ---------------------------------------------------------------- methods

  /** The multiplicity `reduce` of the reconciliation: walks the list once,
      setting each id's count in a Map to its previous count (or 0) plus one.
      The Map is an insertion-ordered dictionary, so its state is the key
      order `keys` and the counts `counts`. */
  method RequestIds<T(==)>(ids: seq<T>) returns (keys: seq<T>, counts: map<T, nat>)
    ensures keys == Distinct(ids)
    ensures counts == CountMap(ids)
  {
    keys, counts := [], map[];
    var i := 0;
    assert ids[..0] == [];
    while i < |ids|
      invariant 0 <= i <= |ids|
      invariant keys == Distinct(ids[..i])
      invariant counts == CountMap(ids[..i])
    {
      var cur := ids[i];
      var previous := if cur in counts then counts[cur] else 0;
      if cur !in counts {
        keys := keys + [cur];
      }
      counts := counts[cur := previous + 1];
      RequestIdsStep(ids, i);
      i := i + 1;
    }
    assert ids[..i] == ids;
  }

  /** `[...list]` followed by `splice(index, 1)`: copies the list into a fresh
      array and shifts the elements after `index` one place left. An index
      past the end removes nothing. */
  method SpliceOne<T>(xs: seq<T>, index: nat) returns (r: seq<T>)
    ensures index < |xs| ==> r == RemoveAt(xs, index)
    ensures index >= |xs| ==> r == xs
  {
    var n := |xs|;
    var a := new T[n](i requires 0 <= i < n => xs[i]);
    if index < n {
      var k := index;
      while k + 1 < n
        invariant index <= k < n
        invariant a[..index] == xs[..index]
        invariant forall j | index <= j < k :: a[j] == xs[j + 1]
        invariant forall j | k <= j < n :: a[j] == xs[j]
      {
        a[k] := a[k + 1];
        k := k + 1;
      }
      r := a[..n - 1];
      assert r == xs[..index] + xs[index + 1..];
    } else {
      r := a[..];
    }
  }
}
