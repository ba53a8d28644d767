/**
 * The main flow of the minimiser: load the rows into the pool, merge to a fixpoint, build the prime
 * implicant chart and pick a cover greedily.
 */
module Optimize {
  import opened Delays
  import opened Implicants
  import opened Pools
  import opened Evolution
  import opened Closure
  import opened Chart
  import opened Cover

  /** The pins of every row. */
  function AllPins(rows: seq<Row>): seq<seq<Input>>
    requires forall i :: 0 <= i < |rows| ==> ParseRow(rows[i].cells).Some?
  {
    seq(|rows|, i requires 0 <= i < |rows| => RowPins(rows[i]))
  }

  /** Smallest excitatory and largest inhibitory delay at position `i` over a non-empty list of pin lists. */
  function ColumnRange(pins: seq<seq<Input>>, i: nat): (r: Range)
    requires pins != [] && forall j :: 0 <= j < |pins| ==> i < |pins[j]|
    ensures forall j :: 0 <= j < |pins| ==> r.lo <= pins[j][i].de && pins[j][i].di <= r.hi
    ensures exists j :: 0 <= j < |pins| && r.lo == pins[j][i].de
    ensures exists j :: 0 <= j < |pins| && r.hi == pins[j][i].di
  {
    var last := pins[|pins| - 1][i];
    if |pins| == 1 then Range(last.de, last.di)
    else
      var r := ColumnRange(pins[..|pins| - 1], i);
      Range(Min(r.lo, last.de), Max(r.hi, last.di))
  }

  /**
   * The per-position hull of the raw pins: at each position, from the smallest raw excitatory to the
   * largest raw inhibitory delay. Its width bounds the spread of every implicant the closure can build.
   */
  function RawHull(pins: seq<seq<Input>>, n: nat): (hull: seq<Range>)
    requires forall j :: 0 <= j < |pins| ==> |pins[j]| == n
    ensures |hull| == n
    ensures forall j :: 0 <= j < |pins| ==> WithinHull(pins[j], hull)
  {
    if pins == [] then seq(n, i => Range(0, 0))
    else seq(n, i requires 0 <= i < n => ColumnRange(pins, i))
  }

  /** The loaded pool lies inside the raw hull. */
  lemma LoadedInHull(pool: Pool, rows: seq<Row>, n: nat)
    requires forall i :: 0 <= i < |rows| ==> ParseRow(rows[i].cells).Some? && |rows[i].cells| == n
    requires FromLastRows(rows, |rows|, pool)
    ensures InHull(pool, RawHull(AllPins(rows), n))
  {
    var pins := AllPins(rows);
    var hull := RawHull(pins, n);
    forall k, i | k in pool.groups && 0 <= i < |pool.groups[k]| ensures WithinHull(pool.groups[k][i].inputs, hull) {
      var j := LastRow(rows, KeyOf(pool.groups[k][i]), |rows|);
      assert pool.groups[k][i].inputs == pins[j];
    }
  }

  /** The entries of the pool whose flag is clear: the prime implicants once the closure is done. */
  ghost function Unused(q: Pool): set<Implicant>
    reads Objects(q)
  {
    set o | o in Objects(q) && !o.used
  }

  /** The list of every minterm `m` holds the unflagged entries covering `m`, in the order of the chart loop. */
  ghost predicate ChartLists(q: Pool, maxStep: nat, lists: map<string, seq<Implicant>>)
    reads Objects(q)
  {
    forall m :: m in lists ==> lists[m] == Covering(Visit(q, SortedKeys(q.excOrder), maxStep), m, Unused(q))
  }

  /**
   * The chart of the closed pool: one list per distinct minterm, keyed in the order of first occurrence,
   * each holding exactly the unflagged entries that cover it in the order of the chart loop
   * (`ChartLists`); so every listed entry is a prime implicant of a charted spread (`Charted`) and covers
   * every minterm it is listed under (`Consistent`).
   */
  ghost predicate ChartBuilt(q: Pool, maxStep: nat, allNames: seq<string>, chart: Chart)
    reads Objects(q)
  {
    && chart.order == FirstOccurrences(allNames) && (forall m :: m in chart.lists <==> m in allNames)
    && ChartLists(q, maxStep, chart.lists) && Charted(q, maxStep, chart.lists) && Consistent(chart.lists)
  }

  /**
   * The flags the closure leaves: an entry is flagged exactly when its group has a spread below
   * `maxStep` and it has an eligible partner in the group above or the group below.
   */
  ghost predicate PrimeFlags(q: Pool, maxStep: nat)
    reads Objects(q)
  {
    forall k, i :: k in q.groups && 0 <= i < |q.groups[k]| ==>
      (q.groups[k][i].used <==> 0 <= Spread(k) < maxStep && Partnered(q, k, q.groups[k][i]))
  }

  /** Flags in step with the operands of steps 1 to `maxStep` are the flags `PrimeFlags` describes. */
  lemma FlagsArePrime(q: Pool, maxStep: nat, n: nat, universe: set<string>, flagged: set<Implicant>)
    requires WellFormed(q, n, universe)
    requires Synced(Objects(q), flagged) && flagged == ClosureEffect(q, maxStep).ops
    ensures PrimeFlags(q, maxStep)
  {
    forall k, i | k in q.groups && 0 <= i < |q.groups[k]|
      ensures q.groups[k][i].used <==> 0 <= Spread(k) < maxStep && Partnered(q, k, q.groups[k][i])
    {
      assert q.groups[k][i] in Objects(q);
      ClosureOpsMeans(q, maxStep, n, universe, k, i);
    }
  }

  /**
   * The list of every minterm `m` holds exactly the entries of the pool of spread 0 to `maxStep - 1`
   * that cover `m` and were not used in a merge.
   */
  ghost predicate Charted(q: Pool, maxStep: nat, lists: map<string, seq<Implicant>>)
    reads Objects(q)
  {
    && (forall m, i :: m in lists && 0 <= i < |lists[m]| ==>
          && lists[m][i] in Objects(q)
          && 0 <= lists[m][i].inhSum - lists[m][i].excSum < maxStep
          && !lists[m][i].used && m in lists[m][i].names)
    && (forall m, k, j ::
          (m in lists && k in q.groups && 0 <= j < |q.groups[k]| && 0 <= Spread(k) < maxStep &&
           !q.groups[k][j].used && m in q.groups[k][j].names) ==> q.groups[k][j] in lists[m])
  }

  /** Every chosen implicant is an entry of the pool that was never used in a merge: a prime implicant. */
  ghost predicate Unconsumed(q: Pool, chosen: seq<Implicant>)
    reads Objects(q)
  {
    forall i :: 0 <= i < |chosen| ==> chosen[i] in Objects(q) && !chosen[i].used
  }

  /**
   * Lines 244-271 of the source: a list per distinct minterm name, then every implicant of group
   * (exc, exc + step) for step 0 to `maxStep - 1` and every outer key in ascending order, appended to the
   * lists of its minterms unless its flag is set.
   */
  method BuildChart(q: Pool, allNames: seq<string>, maxStep: nat, ghost n: nat, ghost universe: set<string>)
    returns (chart: Chart)
    requires WellFormed(q, n, universe) && universe == NameSet(allNames)
    ensures ChartBuilt(q, maxStep, allNames, chart)
  {
    var keys := SortedKeys(q.excOrder);
    var empty := NewChart(allNames);
    ghost var unused := Unused(q);
    forall k, i | k in q.groups && 0 <= i < |q.groups[k]| ensures q.groups[k][i] in unused <==> !q.groups[k][i].used {
      assert q.groups[k][i] in Objects(q);
    }
    PoolReady(q, n, universe, unused, empty.lists.Keys);
    chart := FillChart(empty, q, keys, maxStep, unused);
    ChartFacts(q, keys, maxStep, unused, empty.lists, chart.lists, n, universe);
  }

  /** What the filled chart holds, from the lists `FillChart` produces out of the empty ones. */
  lemma ChartFacts(q: Pool, keys: seq<int>, maxStep: nat, unused: set<Implicant>,
                   empty: map<string, seq<Implicant>>, lists: map<string, seq<Implicant>>, n: nat, universe: set<string>)
    requires WellFormed(q, n, universe) && forall x :: x in keys <==> x in q.excOrder
    requires unused == set o | o in Objects(q) && !o.used
    requires Ready(q, unused, empty.Keys) && lists.Keys == empty.Keys
    requires forall m :: m in empty ==> empty[m] == []
    requires forall m :: m in empty ==> lists[m] == empty[m] + Covering(Visit(q, keys, maxStep), m, unused)
    ensures Charted(q, maxStep, lists) && Consistent(lists)
    ensures forall m :: m in lists ==> lists[m] == Covering(Visit(q, keys, maxStep), m, unused)
  {
    var visit := Visit(q, keys, maxStep);
    forall m | m in lists ensures lists[m] == Covering(visit, m, unused) {
      assert [] + Covering(visit, m, unused) == Covering(visit, m, unused);
    }
    VisitReady(q, keys, maxStep, unused, lists.Keys);
    ChartConsistent(visit, unused, lists);
    forall m, i | m in lists && 0 <= i < |lists[m]|
      ensures && lists[m][i] in Objects(q)
              && 0 <= lists[m][i].inhSum - lists[m][i].excSum < maxStep
              && !lists[m][i].used && m in lists[m][i].names
    {
      ChartEntry(q, keys, maxStep, unused, lists, n, universe, m, lists[m][i]);
    }
    forall m, k, j | m in lists && k in q.groups && 0 <= j < |q.groups[k]| && 0 <= Spread(k) < maxStep &&
                     !q.groups[k][j].used && m in q.groups[k][j].names
      ensures q.groups[k][j] in lists[m]
    {
      var o := q.groups[k][j];
      assert o in Objects(q) && EntryOk(o, k, n, universe);
      ChartEntry(q, keys, maxStep, unused, lists, n, universe, m, o);
    }
  }

  /** Membership in one chart list, in terms of the pool's entries and flags. */
  lemma ChartEntry(q: Pool, keys: seq<int>, maxStep: nat, unused: set<Implicant>,
                   lists: map<string, seq<Implicant>>, n: nat, universe: set<string>, m: string, o: Implicant)
    requires WellFormed(q, n, universe) && forall x :: x in keys <==> x in q.excOrder
    requires unused == set o | o in Objects(q) && !o.used
    requires m in lists && lists[m] == Covering(Visit(q, keys, maxStep), m, unused)
    ensures o in lists[m] <==> o in Objects(q) && 0 <= o.inhSum - o.excSum < maxStep && !o.used && m in o.names
  {
    CoveringMeans(Visit(q, keys, maxStep), m, unused);
    if o in Objects(q) {
      VisitMeans(q, keys, maxStep, o);
      var k, i :| k in q.groups && 0 <= i < |q.groups[k]| && q.groups[k][i] == o;
      assert EntryOk(q.groups[k][i], k, n, universe);
      assert Spread(k) == o.inhSum - o.excSum;
      if k' :| k' in q.groups && 0 <= Spread(k') < maxStep && o in q.groups[k'] {
        var i' :| 0 <= i' < |q.groups[k']| && q.groups[k'][i'] == o;
        assert EntryOk(q.groups[k'][i'], k', n, universe);
      }
    }
  }

  /** `sorted` keeps the minterms: the visiting order is a rearrangement of the chart's key order. */
  lemma SortedSame(order: seq<string>, keys: seq<string>, lists: map<string, seq<Implicant>>)
    requires Listed(keys, lists) && order == SortByCount(keys, lists)
    ensures |order| == |keys| && forall m :: m in order <==> m in keys
  {
    assert multiset(order) == multiset(keys);
    assert |multiset(order)| == |multiset(keys)|;
    forall m ensures m in order <==> m in keys {
      assert m in order <==> m in multiset(order);
      assert m in keys <==> m in multiset(keys);
    }
  }

  /**
   * Lines 276-285 of the source: visit the minterms by ascending list length and pick greedily. On a
   * consistent chart every minterm ends up covered by a pick, the picks are distinct and come from the
   * chart, and there are at most as many as minterms; the loop fails exactly when a list is empty.
   */
  method SelectCover(chart: Chart) returns (outcome: Outcome, used: seq<string>)
    requires Consistent(chart.lists) && forall m :: m in chart.lists <==> m in chart.order
    ensures Listed(chart.order, chart.lists) && outcome == Greedy(chart.lists, SortByCount(chart.order, chart.lists))
    ensures outcome.Selected? ==> used == NamesOf(outcome.chosen)
    ensures CoverOk(chart.lists, chart.order, outcome)
  {
    assert Listed(chart.order, chart.lists);
    var order := SortByCount(chart.order, chart.lists);
    outcome, used := GreedyCover(chart.lists, order);
    SortedGreedy(chart.lists, chart.order);
  }

  /**
   * What a run of the greedy loop over the keys `keys` of the chart `lists` achieves: a successful run is
   * a good cover, and the run fails exactly when some minterm has an empty list.
   */
  ghost predicate CoverOk(lists: map<string, seq<Implicant>>, keys: seq<string>, outcome: Outcome) {
    && (outcome.Selected? ==> GoodCover(lists, keys, outcome.chosen))
    && (outcome.EmptyEntry? <==> exists m :: m in lists && lists[m] == [])
  }

  /** The greedy loop over the keys sorted by list length does what `CoverOk` promises. */
  lemma SortedGreedy(lists: map<string, seq<Implicant>>, keys: seq<string>)
    requires Consistent(lists) && forall m :: m in lists <==> m in keys
    ensures Listed(keys, lists) && CoverOk(lists, keys, Greedy(lists, SortByCount(keys, lists)))
  {
    assert Listed(keys, lists);
    var order := SortByCount(keys, lists);
    SortedSame(order, keys, lists);
    GreedySucceeds(lists, keys, order);
    GreedyFailsAt(lists, keys, order);
  }

  /** A successful run over a rearrangement of the chart's keys covers every minterm with few, distinct picks. */
  lemma GreedySucceeds(lists: map<string, seq<Implicant>>, keys: seq<string>, order: seq<string>)
    requires Consistent(lists) && Listed(order, lists)
    requires |order| == |keys| && forall m :: m in order <==> m in lists
    ensures var outcome := Greedy(lists, order);
      outcome.Selected? ==> GoodCover(lists, keys, outcome.chosen)
  {
    var outcome := Greedy(lists, order);
    GreedyCovers(lists, order, [], []);
    GreedyCoveredByChosen(lists, order, [], []);
    GreedyPicksDistinct(lists, order, [], []);
    if outcome.Selected? {
      PicksFromChart(lists, order, outcome.chosen);
    }
  }

  lemma PicksFromChart(lists: map<string, seq<Implicant>>, order: seq<string>, picks: seq<Implicant>)
    requires Consistent(lists) && Listed(order, lists)
    requires Greedy(lists, order).Selected? && Greedy(lists, order).chosen == picks
    ensures FromChart(lists, picks)
  {
    GreedyPicksFirst(lists, order, [], []);
    forall i | 0 <= i < |picks| ensures exists m :: m in lists && picks[i] in lists[m] {
      var m :| m in order && m in lists && lists[m] != [] && picks[i] == lists[m][0] && m in picks[i].names;
      assert lists[m][0] in lists[m];
    }
  }

  /** The run over a rearrangement of the chart's keys fails exactly when some chart list is empty. */
  lemma GreedyFailsAt(lists: map<string, seq<Implicant>>, keys: seq<string>, order: seq<string>)
    requires Consistent(lists) && Listed(order, lists)
    requires forall m :: m in order <==> m in lists
    ensures Greedy(lists, order).EmptyEntry? <==> exists m :: m in lists && lists[m] == []
  {
    GreedyFails(lists, order, [], []);
    if m :| m in lists && lists[m] == [] {
      var t :| 0 <= t < |order| && order[t] == m;
    }
  }

  /**
   * The state the merge loop leaves behind: a well-formed pool over the row names in which every
   * spread below `maxStep - 1` still had an eligible pair and spread `maxStep - 1` had none.
   */
  ghost predicate Closed(q: Pool, maxStep: nat, n: nat, universe: set<string>) {
    WellFormed(q, n, universe) && PairsBelow(q, maxStep - 1) && !HasPairAt(q, maxStep - 1)
  }

  /** Lines 195-241 of the source: load the rows into the pool and merge until a step merges nothing. */
  method LoadAndClose(rows: seq<Row>, ghost n: nat) returns (q: Pool, maxStep: nat, allNames: seq<string>)
    requires forall i :: 0 <= i < |rows| ==> ParseRow(rows[i].cells).Some? && |rows[i].cells| == n
    ensures allNames == RowNames(rows)
    ensures 1 <= maxStep <= Max(HullWidth(RawHull(AllPins(rows), n)), 0) + 2
    ensures Closed(q, maxStep, n, NameSet(allNames))
    ensures Keys(q) == RowKeys(rows) + KeysBelow(q, maxStep)
    ensures PrimeFlags(q, maxStep)
    ensures View(q) == ClosureView(LoadView(rows, |rows|), maxStep)
  {
    var pool;
    pool, allNames := LoadRows(rows, n);
    ghost var universe := NameSet(allNames);
    LoadedInHull(pool, rows, n);
    ghost var flagged;
    q, maxStep, flagged := MergeClosure(pool, n, universe, RawHull(AllPins(rows), n));
    ClosureKeysMeans(q, maxStep, n, universe);
    FlagsArePrime(q, maxStep, n, universe, flagged);
  }

  /** Lines 244-285 of the source: build the chart of the closed pool, then pick a cover from it. */
  method ChartAndCover(q: Pool, allNames: seq<string>, maxStep: nat, ghost n: nat)
    returns (chart: Chart, outcome: Outcome, used: seq<string>)
    requires WellFormed(q, n, NameSet(allNames))
    ensures ChartBuilt(q, maxStep, allNames, chart) && Listed(chart.order, chart.lists)
    ensures outcome == Greedy(chart.lists, SortByCount(chart.order, chart.lists))
    ensures outcome.Selected? ==> used == NamesOf(outcome.chosen)
    ensures CoverOk(chart.lists, chart.order, outcome)
    ensures outcome.Selected? ==> Unconsumed(q, outcome.chosen)
  {
    chart := BuildChart(q, allNames, maxStep, n, NameSet(allNames));
    outcome, used := SelectCover(chart);
    GreedyUnconsumed(q, maxStep, chart.lists, chart.order, outcome);
  }

  /** A successful greedy run on a chart of the pool picks only prime implicants of the pool. */
  lemma GreedyUnconsumed(q: Pool, maxStep: nat, lists: map<string, seq<Implicant>>, keys: seq<string>, outcome: Outcome)
    requires Charted(q, maxStep, lists) && Consistent(lists) && forall m :: m in lists <==> m in keys
    requires Listed(keys, lists) && outcome == Greedy(lists, SortByCount(keys, lists))
    ensures outcome.Selected? ==> Unconsumed(q, outcome.chosen)
  {
    SortedGreedy(lists, keys);
    if outcome.Selected? {
      ChosenUnconsumed(q, maxStep, lists, outcome.chosen);
    }
  }

  /**
   * The whole run on the rows after the header: `chart` is the prime implicant chart, `outcome` the
   * result of the greedy loop and `used` the display names of the chosen implicants.
   */
  method Optimize(rows: seq<Row>, ghost n: nat)
    returns (chart: Chart, outcome: Outcome, used: seq<string>, q: Pool, maxStep: nat)
    requires forall i :: 0 <= i < |rows| ==> ParseRow(rows[i].cells).Some? && |rows[i].cells| == n
    ensures 1 <= maxStep <= Max(HullWidth(RawHull(AllPins(rows), n)), 0) + 2
    ensures Closed(q, maxStep, n, NameSet(RowNames(rows)))
    ensures Keys(q) == RowKeys(rows) + KeysBelow(q, maxStep)
    ensures PrimeFlags(q, maxStep)
    ensures View(q) == ClosureView(LoadView(rows, |rows|), maxStep)
    ensures ChartBuilt(q, maxStep, RowNames(rows), chart) && Listed(chart.order, chart.lists)
    ensures outcome == Greedy(chart.lists, SortByCount(chart.order, chart.lists))
    ensures outcome.Selected? ==> used == NamesOf(outcome.chosen)
    ensures CoverOk(chart.lists, chart.order, outcome)
    ensures outcome.Selected? ==> Unconsumed(q, outcome.chosen)
  {
    var allNames;
    q, maxStep, allNames := LoadAndClose(rows, n);
    chart, outcome, used := ChartAndCover(q, allNames, maxStep, n);
  }

  /** Chosen implicants come from the chart, so they are unused entries of the pool. */
  lemma ChosenUnconsumed(q: Pool, maxStep: nat, lists: map<string, seq<Implicant>>, chosen: seq<Implicant>)
    requires Charted(q, maxStep, lists) && FromChart(lists, chosen)
    ensures Unconsumed(q, chosen)
  {
    forall i | 0 <= i < |chosen| ensures chosen[i] in Objects(q) && !chosen[i].used {
      var m :| m in lists && chosen[i] in lists[m];
      var j :| 0 <= j < |lists[m]| && lists[m][j] == chosen[i];
      assert lists[m][j] in Objects(q) && !lists[m][j].used;
    }
  }
}
