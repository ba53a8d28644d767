/** Minterm names: Python's string order, `sorted(set(...))` and `"".join(...)`. */
module Names {

  /** Python's `a < b` on str: the first differing code point decides, and a proper prefix comes first. */
  predicate Below(a: string, b: string) {
    if |a| == 0 then |b| > 0
    else if |b| == 0 then false
    else if a[0] != b[0] then a[0] < b[0]
    else Below(a[1..], b[1..])
  }

  lemma {:induction false} BelowIrreflexive(a: string)
    ensures !Below(a, a)
  {
    if |a| > 0 {
      BelowIrreflexive(a[1..]);
    }
  }

  lemma {:induction false} BelowTransitive(a: string, b: string, c: string)
    requires Below(a, b) && Below(b, c)
    ensures Below(a, c)
  {
    if |a| > 0 && a[0] == b[0] && b[0] == c[0] {
      BelowTransitive(a[1..], b[1..], c[1..]);
    }
  }

  lemma {:induction false} BelowTotal(a: string, b: string)
    ensures a == b || Below(a, b) || Below(b, a)
  {
    if |a| > 0 && |b| > 0 && a[0] == b[0] {
      BelowTotal(a[1..], b[1..]);
      assert [a[0]] + a[1..] == a && [b[0]] + b[1..] == b;
    }
  }

  lemma {:induction false} BelowAsymmetric(a: string, b: string)
    requires Below(a, b)
    ensures !Below(b, a)
  {
    if |a| > 0 && a[0] == b[0] {
      BelowAsymmetric(a[1..], b[1..]);
    }
  }

  lemma BelowIsStrictTotalOrder()
    ensures forall a, b, c :: Below(a, b) && Below(b, c) ==> Below(a, c)
    ensures forall a, b :: a == b || Below(a, b) || Below(b, a)
    ensures forall a, b :: Below(a, b) ==> !Below(b, a)
  {
    forall a, b, c | Below(a, b) && Below(b, c) ensures Below(a, c) {
      BelowTransitive(a, b, c);
    }
    forall a, b ensures a == b || Below(a, b) || Below(b, a) {
      BelowTotal(a, b);
    }
    forall a, b | Below(a, b) ensures !Below(b, a) {
      BelowAsymmetric(a, b);
    }
  }

  /** Strictly ascending in Python's order, hence free of duplicates. */
  predicate StrictlySorted(s: seq<string>) {
    forall i, j :: 0 <= i < j < |s| ==> Below(s[i], s[j])
  }

  /** A strictly sorted list has no duplicates. */
  lemma StrictlySortedDistinct(s: seq<string>)
    requires StrictlySorted(s)
    ensures forall i, j :: 0 <= i < j < |s| ==> s[i] != s[j]
  {
    forall i, j | 0 <= i < j < |s| ensures s[i] != s[j] {
      BelowIrreflexive(s[i]);
    }
  }

  /** Puts `x` into its place in a strictly sorted list, unless it is already there. */
  function InsertName(x: string, s: seq<string>): (r: seq<string>)
    requires StrictlySorted(s)
    ensures StrictlySorted(r)
    ensures forall y :: y in r <==> y == x || y in s
  {
    BelowIsStrictTotalOrder();
    if s == [] then [x]
    else if x == s[0] then s
    else if Below(x, s[0]) then [x] + s
    else
      var rest := InsertName(x, s[1..]);
      assert forall y :: y in s[1..] ==> Below(s[0], y);
      assert forall j :: 0 <= j < |rest| ==> Below(s[0], rest[j]);
      [s[0]] + rest
  }

  /** The head of a strictly sorted list is below every other element. */
  lemma HeadIsLeast(s: seq<string>, y: string)
    requires StrictlySorted(s) && y in s
    ensures y == s[0] || Below(s[0], y)
  {
  }

  /** `sorted(set(names))`: the distinct names in ascending order. */
  function SortedNames(names: seq<string>): (r: seq<string>)
    ensures StrictlySorted(r)
    ensures forall y :: y in r <==> y in names
  {
    if names == [] then []
    else InsertName(names[|names| - 1], SortedNames(names[..|names| - 1]))
  }

  /** Two strictly sorted lists with the same elements are the same list. */
  lemma {:induction false} SortedUnique(a: seq<string>, b: seq<string>)
    requires StrictlySorted(a) && StrictlySorted(b)
    requires forall y :: y in a <==> y in b
    ensures a == b
  {
    if a != [] {
      assert a[0] in b;
    }
    if b != [] {
      assert b[0] in a;
    }
    if a != [] && b != [] {
      HeadIsLeast(a, b[0]);
      HeadIsLeast(b, a[0]);
      if a[0] != b[0] {
        BelowAsymmetric(b[0], a[0]);
      }
      BelowIrreflexive(a[0]);
      forall y ensures y in a[1..] <==> y in b[1..] {
        if y in a[1..] {
          assert y in a && y != a[0];
        }
        if y in b[1..] {
          assert y in b && y != b[0];
        }
      }
      SortedUnique(a[1..], b[1..]);
      assert a == [a[0]] + a[1..] && b == [b[0]] + b[1..];
    }
  }

  /** `sorted(set(names))` depends only on which names occur. */
  lemma SortedNamesOfSameNames(x: seq<string>, y: seq<string>)
    requires forall n :: n in x <==> n in y
    ensures SortedNames(x) == SortedNames(y)
  {
    SortedUnique(SortedNames(x), SortedNames(y));
  }

  /** A strictly sorted list is its own `sorted(set(...))`. */
  lemma SortedNamesOfSorted(s: seq<string>)
    requires StrictlySorted(s)
    ensures SortedNames(s) == s
  {
    SortedUnique(SortedNames(s), s);
  }

  /** `"".join(names)`. */
  function JoinNames(names: seq<string>): string {
    if names == [] then "" else names[0] + JoinNames(names[1..])
  }

  /**
   * Concatenated names do not identify the minterm set: {"1", "12"} and {"11", "2"}
   * both display as "112", so they share a key in the implicant pool.
   */
  lemma JoinedNamesCollide()
    ensures SortedNames(["1", "12"]) != SortedNames(["11", "2"])
    ensures JoinNames(SortedNames(["1", "12"])) == JoinNames(SortedNames(["11", "2"])) == "112"
  {
    assert Below("1", "12");
    assert Below("11", "2");
    SortedNamesOfSorted(["1", "12"]);
    SortedNamesOfSorted(["11", "2"]);
    assert JoinNames(["1", "12"]) == "1" + "12";
    assert JoinNames(["11", "2"]) == "11" + "2";
  }
}
