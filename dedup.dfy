/**
 * `list(dict.fromkeys(xs))`: the distinct elements of `xs`, each kept at its
 * first occurrence, in the order of those first occurrences.
 */
module FromKeys {
  /** No element occurs twice. */
  predicate NoDup(xs: seq<string>)
  {
    forall i, j | 0 <= i < j < |xs| :: xs[i] != xs[j]
  }

  /** The position of the first occurrence of `x` in `xs`. */
  function FirstIndex(xs: seq<string>, x: string): (i: nat)
    requires x in xs
    ensures i < |xs| && xs[i] == x
    ensures forall j | 0 <= j < i :: xs[j] != x
  {
    if xs[0] == x then 0 else 1 + FirstIndex(xs[1..], x)
  }

  /** Inserting the keys of `xs` one by one into a fresh dict and listing them. */
  function Dedup(xs: seq<string>): (r: seq<string>)
    ensures NoDup(r)
    ensures forall x :: x in r <==> x in xs
    ensures |r| <= |xs|
  {
    if xs == [] then []
    else
      var front := Dedup(xs[..|xs| - 1]);
      var last := xs[|xs| - 1];
      assert forall x :: x in xs <==> x in xs[..|xs| - 1] || x == last by {
        assert xs == xs[..|xs| - 1] + [last];
      }
      if last in front then front else front + [last]
  }

  /** The first occurrence of an element of a prefix lies in the prefix. */
  lemma FirstIndexInPrefix(xs: seq<string>, n: nat, x: string)
    requires n <= |xs| && x in xs[..n]
    ensures x in xs && FirstIndex(xs, x) == FirstIndex(xs[..n], x)
  {
    var i := FirstIndex(xs[..n], x);
    assert xs[i] == x;
  }

  /** The kept elements appear in the order of their first occurrences in `xs`. */
  lemma {:induction false} DedupFirstOccurrenceOrder(xs: seq<string>, a: nat, b: nat)
    requires a < b < |Dedup(xs)|
    ensures FirstIndex(xs, Dedup(xs)[a]) < FirstIndex(xs, Dedup(xs)[b])
  {
    var n := |xs| - 1;
    var front, last := Dedup(xs[..n]), xs[n];
    assert xs[..n] + [last] == xs;
    var r := Dedup(xs);
    FirstIndexInPrefix(xs, n, r[a]);
    if b < |front| {
      assert r[a] == front[a] && r[b] == front[b];
      DedupFirstOccurrenceOrder(xs[..n], a, b);
      FirstIndexInPrefix(xs, n, r[b]);
    } else {
      assert r[b] == last && last !in front && last !in xs[..n];
      assert FirstIndex(xs, last) == n;
    }
  }

  /** A list without repeats is returned unchanged. */
  lemma {:induction false} DedupOfDistinct(xs: seq<string>)
    requires NoDup(xs)
    ensures Dedup(xs) == xs
  {
    if xs != [] {
      var n := |xs| - 1;
      assert NoDup(xs[..n]) by {
        forall i, j | 0 <= i < j < n ensures xs[..n][i] != xs[..n][j] {
          assert xs[i] != xs[j];
        }
      }
      DedupOfDistinct(xs[..n]);
      assert xs[n] !in xs[..n];
      assert xs[..n] + [xs[n]] == xs;
    }
  }

  /** Applying it twice is applying it once. */
  lemma DedupIdempotent(xs: seq<string>)
    ensures Dedup(Dedup(xs)) == Dedup(xs)
  {
    DedupOfDistinct(Dedup(xs));
  }
}
