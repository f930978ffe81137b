/**
 * How the `ovs` Python IDL hands out a set-of-strings column: whatever list
 * was assigned, the column holds a set, and reading it back gives that set's
 * elements in ascending order, each once. Strings compare as in Python:
 * code point by code point, a proper prefix before any longer string.
 */
module SortedSets {

  /** Python's `a < b` on strings. */
  predicate Below(a: string, b: string)
  {
    if a == [] then b != []
    else b != [] && (a[0] < b[0] || (a[0] == b[0] && Below(a[1..], b[1..])))
  }

  lemma {:induction false} BelowIrreflexive(a: string)
    ensures !Below(a, a)
    decreases |a|
  {
    if a != [] {
      BelowIrreflexive(a[1..]);
    }
  }

  lemma {:induction false} BelowTransitive(a: string, b: string, c: string)
    requires Below(a, b) && Below(b, c)
    ensures Below(a, c)
    decreases |a|
  {
    if a != [] && a[0] == b[0] && b[0] == c[0] {
      BelowTransitive(a[1..], b[1..], c[1..]);
    }
  }

  lemma {:induction false} BelowTotal(a: string, b: string)
    requires a != b
    ensures Below(a, b) || Below(b, a)
    decreases |a|
  {
    if a != [] && b != [] && a[0] == b[0] {
      assert a == [a[0]] + a[1..] && b == [b[0]] + b[1..];
      BelowTotal(a[1..], b[1..]);
    }
  }

  /** Strictly ascending: sorted, and no string occurs twice. */
  predicate Ascending(xs: seq<string>)
  {
    forall i, j :: 0 <= i < j < |xs| ==> Below(xs[i], xs[j])
  }

  /** Puts `x` in its place in an ascending list, unless it is already there. */
  function Insert(x: string, xs: seq<string>): (r: seq<string>)
    ensures forall y :: y in r <==> y == x || y in xs
    ensures Ascending(xs) ==> Ascending(r)
  {
    if xs == [] then [x]
    else if x == xs[0] then xs
    else if Below(x, xs[0]) then
      assert Ascending(xs) ==> Ascending([x] + xs) by {
        if Ascending(xs) {
          forall j | 0 < j < |xs| + 1 ensures Below(([x] + xs)[0], ([x] + xs)[j]) {
            if j > 1 {
              BelowTransitive(x, xs[0], xs[j - 1]);
            }
          }
        }
      }
      [x] + xs
    else
      var rest := Insert(x, xs[1..]);
      assert Ascending(xs) ==> Ascending([xs[0]] + rest) by {
        if Ascending(xs) {
          assert Ascending(xs[1..]);
          BelowTotal(x, xs[0]);
          forall j | 0 <= j < |rest| ensures Below(xs[0], rest[j]) {
            assert rest[j] in rest;
            if rest[j] != x {
              var k :| 0 <= k < |xs[1..]| && xs[1..][k] == rest[j];
              assert xs[k + 1] == rest[j];
            }
          }
        }
      }
      [xs[0]] + rest
  }

  /** The list read back from a set column assigned `xs`. */
  function Canonical(xs: seq<string>): (r: seq<string>)
    ensures forall y :: y in r <==> y in xs
    ensures Ascending(r)
  {
    if xs == [] then []
    else
      assert forall y :: y in xs <==> y == xs[0] || y in xs[1..] by {
        assert xs == [xs[0]] + xs[1..];
      }
      Insert(xs[0], Canonical(xs[1..]))
  }

  /** A list reads back as it was assigned exactly when it is already
      strictly ascending. */
  lemma {:induction false} CanonicalFixes(xs: seq<string>)
    ensures Canonical(xs) == xs <==> Ascending(xs)
    decreases |xs|
  {
    if xs != [] && Ascending(xs) {
      assert Ascending(xs[1..]);
      CanonicalFixes(xs[1..]);
      BelowIrreflexive(xs[0]);
      if |xs| > 1 {
        assert Below(xs[0], xs[1]);
      }
      assert [xs[0]] + xs[1..] == xs;
    }
  }
}
