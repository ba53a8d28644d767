/**
 * The selection of implicants from the chart: the minterms in a stable ascending order of chart-list
 * length, and for every minterm not yet covered the first implicant of its list.
 */
module Cover {
  import opened Implicants
  import opened Chart

  /** Every element of `s` has a chart list. */
  predicate Listed(s: seq<string>, lists: map<string, seq<Implicant>>) {
    forall i :: 0 <= i < |s| ==> s[i] in lists
  }

  /** The sort key: the length of the chart list of `m`. */
  function Count(lists: map<string, seq<Implicant>>, m: string): nat
    requires m in lists
  {
    |lists[m]|
  }

  /** Ascending by chart-list length. */
  predicate ByCount(s: seq<string>, lists: map<string, seq<Implicant>>)
    requires Listed(s, lists)
  {
    forall i, j :: 0 <= i < j < |s| ==> Count(lists, s[i]) <= Count(lists, s[j])
  }

  /** The elements of `s` whose chart list has length `c`, in their order in `s`. */
  function WithCount(s: seq<string>, lists: map<string, seq<Implicant>>, c: nat): seq<string>
    requires Listed(s, lists)
  {
    if s == [] then []
    else (if Count(lists, s[0]) == c then [s[0]] else []) + WithCount(s[1..], lists, c)
  }

  /** Puts `x` in front of the first element whose list is at least as long as that of `x`. */
  function InsertByCount(x: string, s: seq<string>, lists: map<string, seq<Implicant>>): (r: seq<string>)
    requires x in lists && Listed(s, lists) && ByCount(s, lists)
    ensures Inserted(x, s, r, lists)
  {
    if s == [] || Count(lists, x) <= Count(lists, s[0]) then
      InsertFront(x, s, lists);
      [x] + s
    else
      var rest := InsertByCount(x, s[1..], lists);
      InsertBehind(x, s, rest, lists);
      [s[0]] + rest
  }

  /** `r` is the ascending list `s` with `x` added. */
  ghost predicate Inserted(x: string, s: seq<string>, r: seq<string>, lists: map<string, seq<Implicant>>) {
    && Listed(r, lists) && ByCount(r, lists)
    && (forall y :: y in r <==> y == x || y in s)
    && multiset(r) == multiset(s) + multiset{x}
  }

  /** `x` may go first when its list is no longer than that of the head. */
  lemma InsertFront(x: string, s: seq<string>, lists: map<string, seq<Implicant>>)
    requires x in lists && Listed(s, lists) && ByCount(s, lists)
    requires s == [] || Count(lists, x) <= Count(lists, s[0])
    ensures Inserted(x, s, [x] + s, lists)
  {
    var r := [x] + s;
    assert Listed(r, lists);
    forall i, j | 0 <= i < j < |r| ensures Count(lists, r[i]) <= Count(lists, r[j]) {
      if i == 0 {
        assert r[j] == s[j - 1];
        assert Count(lists, s[0]) <= Count(lists, s[j - 1]);
      } else {
        assert r[i] == s[i - 1] && r[j] == s[j - 1];
      }
    }
  }

  /** The head of `s` stays first when `x` has been inserted into the rest. */
  lemma InsertBehind(x: string, s: seq<string>, rest: seq<string>, lists: map<string, seq<Implicant>>)
    requires x in lists && s != [] && Listed(s, lists) && ByCount(s, lists) && Count(lists, s[0]) < Count(lists, x)
    requires Inserted(x, s[1..], rest, lists)
    ensures Inserted(x, s, [s[0]] + rest, lists)
  {
    var r := [s[0]] + rest;
    assert s == [s[0]] + s[1..];
    RestAbove(x, s, rest, lists);
    assert Listed(r, lists);
    forall i, j | 0 <= i < j < |r| ensures Count(lists, r[i]) <= Count(lists, r[j]) {
      if i == 0 {
        assert r[j] == rest[j - 1];
      } else {
        assert r[i] == rest[i - 1] && r[j] == rest[j - 1];
      }
    }
  }

  /** The head of an ascending list is no longer than anything inserted behind it. */
  lemma RestAbove(x: string, s: seq<string>, rest: seq<string>, lists: map<string, seq<Implicant>>)
    requires x in lists && s != [] && Listed(s, lists) && ByCount(s, lists) && Count(lists, s[0]) < Count(lists, x)
    requires Listed(rest, lists) && forall y :: y in rest <==> y == x || y in s[1..]
    ensures forall j :: 0 <= j < |rest| ==> Count(lists, s[0]) <= Count(lists, rest[j])
  {
    forall j | 0 <= j < |rest| ensures Count(lists, s[0]) <= Count(lists, rest[j]) {
      assert rest[j] in rest;
      if rest[j] != x {
        var i :| 0 <= i < |s[1..]| && s[1..][i] == rest[j];
        assert s[i + 1] == rest[j];
      }
    }
  }

  /** Inserting `x` changes only the minterms of its own list length, by putting `x` first among them. */
  lemma {:induction false} InsertWithCount(x: string, s: seq<string>, lists: map<string, seq<Implicant>>, c: nat)
    requires x in lists && Listed(s, lists) && ByCount(s, lists)
    ensures WithCount(InsertByCount(x, s, lists), lists, c) == (if Count(lists, x) == c then [x] else []) + WithCount(s, lists, c)
  {
    var r := InsertByCount(x, s, lists);
    var own: seq<string> := if Count(lists, x) == c then [x] else [];
    if s == [] || Count(lists, x) <= Count(lists, s[0]) {
      assert r[0] == x && r[1..] == s;
      assert WithCount(r, lists, c) == own + WithCount(s, lists, c);
    } else {
      var rest := InsertByCount(x, s[1..], lists);
      var head: seq<string> := if Count(lists, s[0]) == c then [s[0]] else [];
      assert own == [] || head == [];
      assert r[0] == s[0] && r[1..] == rest;
      InsertWithCount(x, s[1..], lists, c);
      var tail := WithCount(s[1..], lists, c);
      assert WithCount(r, lists, c) == head + WithCount(rest, lists, c);
      assert WithCount(s, lists, c) == head + tail;
      SwapEmpty(head, own, tail);
    }
  }

  lemma SwapEmpty(a: seq<string>, b: seq<string>, t: seq<string>)
    requires a == [] || b == []
    ensures a + (b + t) == b + (a + t)
  {
    if a == [] {
      assert a + (b + t) == b + t == b + (a + t);
    } else {
      assert a + (b + t) == a + t == b + (a + t);
    }
  }

  /**
   * `sorted(chart, key=lambda k: len(chart[k]))`: ascending by list length and, because the sort is
   * stable, equal lengths in their original order.
   */
  function SortByCount(s: seq<string>, lists: map<string, seq<Implicant>>): (r: seq<string>)
    requires Listed(s, lists)
    ensures Listed(r, lists) && ByCount(r, lists)
    ensures multiset(r) == multiset(s)
  {
    if s == [] then []
    else
      assert s == [s[0]] + s[1..];
      InsertByCount(s[0], SortByCount(s[1..], lists), lists)
  }

  /** Stability: the minterms of any one list length keep the order they had before the sort. */
  lemma {:induction false} SortByCountStable(s: seq<string>, lists: map<string, seq<Implicant>>, c: nat)
    requires Listed(s, lists)
    ensures WithCount(SortByCount(s, lists), lists, c) == WithCount(s, lists, c)
  {
    if s != [] {
      SortByCountStable(s[1..], lists, c);
      InsertWithCount(s[0], SortByCount(s[1..], lists), lists, c);
    }
  }

  /**
   * The outcome of the greedy loop: the implicants chosen and the minterms covered, or the minterm
   * whose empty list made `chart[minterm][0]` fail.
   */
  datatype Outcome = Selected(chosen: seq<Implicant>, covered: seq<string>) | EmptyEntry(minterm: string)

  /** The greedy loop from the state (`chosen`, `covered`) over the minterms `order` still to visit. */
  function GreedyFrom(lists: map<string, seq<Implicant>>, order: seq<string>, chosen: seq<Implicant>,
                      covered: seq<string>): Outcome
    requires Listed(order, lists)
  {
    if order == [] then Selected(chosen, covered)
    else if order[0] in covered then GreedyFrom(lists, order[1..], chosen, covered)
    else if lists[order[0]] == [] then EmptyEntry(order[0])
    else
      var o := lists[order[0]][0];
      GreedyFrom(lists, order[1..], chosen + [o], covered + o.names)
  }

  function Greedy(lists: map<string, seq<Implicant>>, order: seq<string>): Outcome
    requires Listed(order, lists)
  {
    GreedyFrom(lists, order, [], [])
  }

  /** The display names of the chosen implicants: the source's `used_implicants`. */
  function NamesOf(chosen: seq<Implicant>): (r: seq<string>)
    ensures |r| == |chosen| && forall i :: 0 <= i < |chosen| ==> r[i] == chosen[i].Name()
  {
    if chosen == [] then [] else NamesOf(chosen[..|chosen| - 1]) + [chosen[|chosen| - 1].Name()]
  }

  /** The greedy loop: skip covered minterms, otherwise take the first implicant of the list. */
  method GreedyCover(lists: map<string, seq<Implicant>>, order: seq<string>) returns (outcome: Outcome, used: seq<string>)
    requires Listed(order, lists)
    ensures outcome == Greedy(lists, order)
    ensures outcome.Selected? ==> used == NamesOf(outcome.chosen)
  {
    var chosen: seq<Implicant> := [];
    var covered: seq<string> := [];
    used := [];
    var t := 0;
    while t < |order|
      invariant 0 <= t <= |order|
      invariant GreedyFrom(lists, order[t..], chosen, covered) == Greedy(lists, order)
      invariant used == NamesOf(chosen)
    {
      var minterm := order[t];
      assert order[t..][1..] == order[t + 1..];
      if minterm !in covered {
        if lists[minterm] == [] {
          return EmptyEntry(minterm), used;
        }
        var o := lists[minterm][0];
        used := used + [o.Name()];
        var i := 0;
        ghost var before := covered;
        while i < |o.names|
          invariant 0 <= i <= |o.names|
          invariant covered == before + o.names[..i]
        {
          assert o.names[..i + 1] == o.names[..i] + [o.names[i]];
          covered := covered + [o.names[i]];
          i := i + 1;
        }
        assert o.names[..i] == o.names;
        assert (chosen + [o])[..|chosen|] == chosen;
        chosen := chosen + [o];
      }
      t := t + 1;
    }
    outcome := Selected(chosen, covered);
  }

  /** Every minterm that has a chart list is a name of some chosen implicant. */
  ghost predicate CoversAll(lists: map<string, seq<Implicant>>, chosen: seq<Implicant>) {
    forall m :: m in lists ==> exists i :: 0 <= i < |chosen| && m in chosen[i].names
  }

  /** No implicant is chosen twice. */
  predicate NoRepeats(chosen: seq<Implicant>) {
    forall i, j :: 0 <= i < j < |chosen| ==> chosen[i] != chosen[j]
  }

  /** Every chosen implicant stands on some chart list. */
  ghost predicate FromChart(lists: map<string, seq<Implicant>>, chosen: seq<Implicant>) {
    forall i :: 0 <= i < |chosen| ==> exists m :: m in lists && chosen[i] in lists[m]
  }

  /**
   * What a successful run promises: every minterm covered by a pick, no more picks than the minterms
   * `keys`, no pick twice, and every pick taken from the chart.
   */
  ghost predicate GoodCover(lists: map<string, seq<Implicant>>, keys: seq<string>, chosen: seq<Implicant>) {
    CoversAll(lists, chosen) && |chosen| <= |keys| && NoRepeats(chosen) && FromChart(lists, chosen)
  }

  /**
   * On a consistent chart the loop covers every minterm it visits, only ever adds to `covered`, and
   * picks at most one implicant per visited minterm.
   */
  lemma {:induction false} GreedyCovers(lists: map<string, seq<Implicant>>, order: seq<string>, chosen: seq<Implicant>,
                                        covered: seq<string>)
    requires Listed(order, lists) && Consistent(lists)
    ensures var r := GreedyFrom(lists, order, chosen, covered);
      r.Selected? ==>
        && (forall m :: m in order ==> m in r.covered)
        && (forall m :: m in covered ==> m in r.covered)
        && |chosen| <= |r.chosen| <= |chosen| + |order|
        && r.chosen[..|chosen|] == chosen
  {
    if order != [] {
      var m := order[0];
      if m in covered {
        GreedyCovers(lists, order[1..], chosen, covered);
      } else if lists[m] != [] {
        var o := lists[m][0];
        assert m in o.names;
        GreedyCovers(lists, order[1..], chosen + [o], covered + o.names);
        var r := GreedyFrom(lists, order, chosen, covered);
        if r.Selected? {
          assert r.chosen[..|chosen| + 1][..|chosen|] == r.chosen[..|chosen|];
        }
      }
      forall x | x in order ensures x == m || x in order[1..] {
        var i :| 0 <= i < |order| && order[i] == x;
        if i > 0 {
          assert order[1..][i - 1] == x;
        }
      }
    }
  }

  /** Every covered minterm is covered by a chosen implicant: `covered` only ever grows by the names of a pick. */
  lemma {:induction false} GreedyCoveredByChosen(lists: map<string, seq<Implicant>>, order: seq<string>,
                                                 chosen: seq<Implicant>, covered: seq<string>)
    requires Listed(order, lists)
    requires forall x :: x in covered ==> exists i :: 0 <= i < |chosen| && x in chosen[i].names
    ensures var r := GreedyFrom(lists, order, chosen, covered);
      r.Selected? ==> forall x :: x in r.covered ==> exists i :: 0 <= i < |r.chosen| && x in r.chosen[i].names
  {
    if order != [] && order[0] !in covered && lists[order[0]] != [] {
      var o := lists[order[0]][0];
      var chosen', covered' := chosen + [o], covered + o.names;
      forall x | x in covered' ensures exists i :: 0 <= i < |chosen'| && x in chosen'[i].names {
        if x in covered {
          var i :| 0 <= i < |chosen| && x in chosen[i].names;
          assert chosen'[i] == chosen[i];
        } else {
          assert chosen'[|chosen|] == o;
        }
      }
      GreedyCoveredByChosen(lists, order[1..], chosen', covered');
      assert GreedyFrom(lists, order, chosen, covered) == GreedyFrom(lists, order[1..], chosen', covered');
    } else if order != [] && order[0] in covered {
      GreedyCoveredByChosen(lists, order[1..], chosen, covered);
      assert GreedyFrom(lists, order, chosen, covered) == GreedyFrom(lists, order[1..], chosen, covered);
    }
  }

  /**
   * Each pick is the first implicant on the list of a minterm visited while still uncovered, so it
   * covers that minterm and, on a chart built from unused implicants, is unused itself.
   */
  lemma {:induction false} GreedyPicksFirst(lists: map<string, seq<Implicant>>, order: seq<string>, chosen: seq<Implicant>,
                                            covered: seq<string>)
    requires Listed(order, lists) && Consistent(lists)
    ensures var r := GreedyFrom(lists, order, chosen, covered);
      r.Selected? ==> |chosen| <= |r.chosen| && forall i :: |chosen| <= i < |r.chosen| ==>
        exists m :: m in order && m in lists && lists[m] != [] && r.chosen[i] == lists[m][0] && m in r.chosen[i].names
  {
    GreedyCovers(lists, order, chosen, covered);
    if order != [] {
      var m := order[0];
      var r := GreedyFrom(lists, order, chosen, covered);
      if m in covered {
        GreedyPicksFirst(lists, order[1..], chosen, covered);
      } else if lists[m] != [] {
        var o := lists[m][0];
        GreedyPicksFirst(lists, order[1..], chosen + [o], covered + o.names);
        GreedyCovers(lists, order[1..], chosen + [o], covered + o.names);
        if r.Selected? {
          forall i | |chosen| <= i < |r.chosen|
            ensures exists m' :: m' in order && m' in lists && lists[m'] != [] && r.chosen[i] == lists[m'][0] && m' in r.chosen[i].names
          {
            if i == |chosen| {
              assert r.chosen[..|chosen| + 1][i] == o;
              assert m in order && r.chosen[i] == lists[m][0];
            } else {
              var m' :| m' in order[1..] && m' in lists && lists[m'] != [] && r.chosen[i] == lists[m'][0] && m' in r.chosen[i].names;
              assert m' in order;
            }
          }
        }
      }
    }
  }

  /**
   * No implicant is picked twice: once picked, all its minterms are covered, so no later minterm
   * whose list starts with it is visited uncovered.
   */
  lemma {:induction false} GreedyPicksDistinct(lists: map<string, seq<Implicant>>, order: seq<string>,
                                               chosen: seq<Implicant>, covered: seq<string>)
    requires Listed(order, lists) && Consistent(lists)
    requires forall i, j :: 0 <= i < j < |chosen| ==> chosen[i] != chosen[j]
    requires forall i :: 0 <= i < |chosen| ==> forall x :: x in chosen[i].names ==> x in covered
    ensures var r := GreedyFrom(lists, order, chosen, covered);
      r.Selected? ==> forall i, j :: 0 <= i < j < |r.chosen| ==> r.chosen[i] != r.chosen[j]
  {
    if order != [] {
      var m := order[0];
      if m in covered {
        GreedyPicksDistinct(lists, order[1..], chosen, covered);
        var r := GreedyFrom(lists, order[1..], chosen, covered);
        assert r.Selected? ==> forall i, j :: 0 <= i < j < |r.chosen| ==> r.chosen[i] != r.chosen[j];
        assert GreedyFrom(lists, order, chosen, covered) == r;
      } else if lists[m] != [] {
        var o := lists[m][0];
        assert m in o.names;
        var chosen', covered' := chosen + [o], covered + o.names;
        forall i | 0 <= i < |chosen'| ensures forall x :: x in chosen'[i].names ==> x in covered' {
          if i < |chosen| {
            assert chosen'[i] == chosen[i];
          }
        }
        forall i, j | 0 <= i < j < |chosen'| ensures chosen'[i] != chosen'[j] {
          if j == |chosen| {
            assert chosen'[j] == o && chosen'[i] == chosen[i];
          }
        }
        GreedyPicksDistinct(lists, order[1..], chosen', covered');
        assert GreedyFrom(lists, order, chosen, covered) == GreedyFrom(lists, order[1..], chosen', covered');
      } else {
        assert GreedyFrom(lists, order, chosen, covered).EmptyEntry?;
      }
    }
  }

  /**
   * The loop fails exactly when a visited minterm has an empty list, and it fails at the first such
   * minterm in the visiting order: a minterm with an empty list is covered by no implicant, so it is
   * never skipped.
   */
  lemma {:induction false} GreedyFails(lists: map<string, seq<Implicant>>, order: seq<string>, chosen: seq<Implicant>,
                                       covered: seq<string>)
    requires Listed(order, lists) && Consistent(lists)
    requires forall x :: x in covered ==> x in lists && lists[x] != []
    ensures var r := GreedyFrom(lists, order, chosen, covered);
      && (r.EmptyEntry? <==> exists t :: 0 <= t < |order| && lists[order[t]] == [])
      && (r.EmptyEntry? ==> exists t :: 0 <= t < |order| && order[t] == r.minterm && lists[order[t]] == [] &&
                              forall u :: 0 <= u < t ==> lists[order[u]] != [])
  {
    if order != [] {
      var m := order[0];
      var r := GreedyFrom(lists, order, chosen, covered);
      if m in covered {
        GreedyFails(lists, order[1..], chosen, covered);
        ShiftFirstEmpty(lists, order, r);
      } else if lists[m] == [] {
      } else {
        var o := lists[m][0];
        forall x | x in covered + o.names ensures x in lists && lists[x] != [] {
          if x in o.names {
            assert o in lists[x];
          }
        }
        GreedyFails(lists, order[1..], chosen + [o], covered + o.names);
        ShiftFirstEmpty(lists, order, r);
      }
    }
  }

  /** Moving the statement of `GreedyFails` from `order[1..]` to `order` when `order[0]` has a non-empty list. */
  lemma ShiftFirstEmpty(lists: map<string, seq<Implicant>>, order: seq<string>, r: Outcome)
    requires order != [] && Listed(order, lists) && lists[order[0]] != []
    requires (r.EmptyEntry? <==> exists t :: 0 <= t < |order| - 1 && lists[order[1..][t]] == [])
    requires r.EmptyEntry? ==> exists t :: 0 <= t < |order| - 1 && order[1..][t] == r.minterm && lists[order[1..][t]] == [] &&
                                 forall u :: 0 <= u < t ==> lists[order[1..][u]] != []
    ensures r.EmptyEntry? <==> exists t :: 0 <= t < |order| && lists[order[t]] == []
    ensures r.EmptyEntry? ==> exists t :: 0 <= t < |order| && order[t] == r.minterm && lists[order[t]] == [] &&
                                forall u :: 0 <= u < t ==> lists[order[u]] != []
  {
    if t :| 0 <= t < |order| && lists[order[t]] == [] {
      assert order[1..][t - 1] == order[t];
    }
    if r.EmptyEntry? {
      var t :| 0 <= t < |order| - 1 && order[1..][t] == r.minterm && lists[order[1..][t]] == [] &&
               forall u :: 0 <= u < t ==> lists[order[1..][u]] != [];
      forall u | 0 <= u < t + 1 ensures lists[order[u]] != [] {
        if u > 0 {
          assert order[u] == order[1..][u - 1];
        }
      }
      assert order[t + 1] == r.minterm;
    }
  }
}
