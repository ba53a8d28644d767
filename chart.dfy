/**
 * The primary implicant chart: for every minterm, the implicants that cover it and were not used in
 * a merge, collected over the groups of every step the closure ran, outer keys in ascending order.
 */
module Chart {
  import opened Names
  import opened Implicants
  import opened Pools
  import opened Evolution

  predicate Ascending(s: seq<int>) {
    forall i, j :: 0 <= i < j < |s| ==> s[i] < s[j]
  }

  /** Puts `x` into its place in an ascending list, unless it is already there. */
  function InsertKey(x: int, s: seq<int>): (r: seq<int>)
    requires Ascending(s)
    ensures Ascending(r)
    ensures forall y :: y in r <==> y == x || y in s
    ensures |r| == if x in s then |s| else |s| + 1
  {
    if s == [] then [x]
    else if x == s[0] then s
    else if x < s[0] then [x] + s
    else
      var rest := InsertKey(x, s[1..]);
      assert forall y :: y in s[1..] ==> s[0] < y;
      assert forall j :: 0 <= j < |rest| ==> s[0] < rest[j] by {
        forall j | 0 <= j < |rest| ensures s[0] < rest[j] {
          assert rest[j] in rest;
        }
      }
      [s[0]] + rest
  }

  /** `sorted(keys)` on the outer keys of the pool, which are distinct. */
  function SortedKeys(s: seq<int>): (r: seq<int>)
    ensures Ascending(r)
    ensures forall y :: y in r <==> y in s
    ensures Distinct(s) ==> |r| == |s|
  {
    if s == [] then []
    else InsertKey(s[|s| - 1], SortedKeys(s[..|s| - 1]))
  }

  /** The implicants of the groups of spread `s`, outer key by outer key for the first `t` of `keys`. */
  function SpreadVisit(p: Pool, keys: seq<int>, s: int, t: nat): seq<Implicant>
    requires t <= |keys|
  {
    if t == 0 then [] else SpreadVisit(p, keys, s, t - 1) + GroupOf(p, (keys[t - 1], keys[t - 1] + s))
  }

  /** The implicants visited by the chart build: spread 0, then 1, up to `steps - 1`. */
  function Visit(p: Pool, keys: seq<int>, steps: nat): seq<Implicant> {
    if steps == 0 then [] else Visit(p, keys, steps - 1) + SpreadVisit(p, keys, steps - 1, |keys|)
  }

  /**
   * The implicants of `v`, in order, that cover minterm `m` and were not used in a merge; `unused`
   * stands for the flags, which no longer change once the chart is built.
   */
  function Covering(v: seq<Implicant>, m: string, unused: set<Implicant>): seq<Implicant> {
    if v == [] then []
    else Covering(v[..|v| - 1], m, unused) + (if v[|v| - 1] in unused && m in v[|v| - 1].names then [v[|v| - 1]] else [])
  }

  /** Appending the covering implicants of `more` to a list that holds those of `done`. */
  lemma CoveringExtend(base: seq<Implicant>, done: seq<Implicant>, more: seq<Implicant>, m: string,
                       unused: set<Implicant>)
    ensures (base + Covering(done, m, unused)) + Covering(more, m, unused) == base + Covering(done + more, m, unused)
  {
    CoveringAppend(done, more, m, unused);
  }

  /** The list of a minterm holds exactly the implicants of `v` that were not used and cover it. */
  lemma {:induction false} CoveringMeans(v: seq<Implicant>, m: string, unused: set<Implicant>)
    ensures forall o :: o in Covering(v, m, unused) <==> o in v && o in unused && m in o.names
  {
    if v != [] {
      CoveringMeans(v[..|v| - 1], m, unused);
      forall o | o in v ensures o in v[..|v| - 1] || o == v[|v| - 1] {
        var i :| 0 <= i < |v| && v[i] == o;
        if i < |v| - 1 {
          assert v[..|v| - 1][i] == o;
        }
      }
    }
  }

  lemma {:induction false} CoveringAppend(u: seq<Implicant>, v: seq<Implicant>, m: string, unused: set<Implicant>)
    ensures Covering(u + v, m, unused) == Covering(u, m, unused) + Covering(v, m, unused)
  {
    if v == [] {
      assert u + v == u;
    } else {
      var w := v[..|v| - 1];
      assert (u + v)[..|u + v| - 1] == u + w && (u + v)[|u + v| - 1] == v[|v| - 1];
      CoveringAppend(u, w, m, unused);
    }
  }

  /** `unused` holds exactly the implicants of the pool whose "used in next step" flag is clear. */
  ghost predicate Flags(p: Pool, unused: set<Implicant>)
    reads Objects(p)
  {
    forall k, i :: k in p.groups && 0 <= i < |p.groups[k]| ==> (p.groups[k][i] in unused <==> !p.groups[k][i].used)
  }

  /**
   * What the chart build needs of the pool: every entry is well formed, sits in `unused` exactly when
   * its flag is clear, and names only minterms that have a list.
   */
  ghost predicate Ready(p: Pool, unused: set<Implicant>, minterms: set<string>)
    reads Objects(p)
  {
    forall k, i :: k in p.groups && 0 <= i < |p.groups[k]| ==>
      && p.groups[k][i].Valid()
      && (p.groups[k][i] in unused <==> !p.groups[k][i].used)
      && forall x :: x in p.groups[k][i].names ==> x in minterms
  }

  /** A well-formed pool over `universe` is ready for a chart whose lists include every minterm of `universe`. */
  lemma PoolReady(p: Pool, n: nat, universe: set<string>, unused: set<Implicant>, minterms: set<string>)
    requires WellFormed(p, n, universe) && Flags(p, unused)
    requires universe <= minterms
    ensures Ready(p, unused, minterms)
  {
    forall k, i | k in p.groups && 0 <= i < |p.groups[k]|
      ensures p.groups[k][i].Valid() && forall x :: x in p.groups[k][i].names ==> x in minterms
    {
      assert EntryOk(p.groups[k][i], k, n, universe);
    }
  }

  /**
   * The chart as the source's dictionary: `order` lists the minterms in insertion order, `lists[m]`
   * holds the implicants appended for minterm `m`.
   */
  datatype Chart = Chart(order: seq<string>, lists: map<string, seq<Implicant>>)

  /** The groups of spread `s` the first `t` outer keys select, and nothing else, make up `SpreadVisit`. */
  lemma {:induction false} SpreadVisitMeans(p: Pool, keys: seq<int>, s: int, t: nat, o: Implicant)
    requires t <= |keys|
    ensures o in SpreadVisit(p, keys, s, t) <==> exists j :: 0 <= j < t && o in GroupOf(p, (keys[j], keys[j] + s))
  {
    if t > 0 {
      SpreadVisitMeans(p, keys, s, t - 1, o);
    }
  }

  /**
   * With every outer key of the pool among `keys`, the chart build visits exactly the implicants of
   * the groups whose spread inh - exc is one of 0, 1, ..., steps - 1.
   */
  lemma VisitMeans(p: Pool, keys: seq<int>, steps: nat, o: Implicant)
    requires forall k :: k in p.groups ==> k.0 in keys
    ensures o in Visit(p, keys, steps) <==> exists k :: k in p.groups && 0 <= Spread(k) < steps && o in p.groups[k]
  {
    if o in Visit(p, keys, steps) {
      VisitInGroup(p, keys, steps, o);
    }
    if k :| k in p.groups && 0 <= Spread(k) < steps && o in p.groups[k] {
      GroupInVisit(p, keys, steps, k.0, k.1, o);
    }
  }

  lemma {:induction false} VisitInGroup(p: Pool, keys: seq<int>, steps: nat, o: Implicant)
    requires o in Visit(p, keys, steps)
    ensures exists k :: k in p.groups && 0 <= Spread(k) < steps && o in p.groups[k]
  {
    var s := steps - 1;
    VisitStep(p, keys, steps, o);
    if o in Visit(p, keys, s) {
      VisitInGroup(p, keys, s, o);
    } else {
      SpreadVisitMeans(p, keys, s, |keys|, o);
      var j :| 0 <= j < |keys| && o in GroupOf(p, (keys[j], keys[j] + s));
      var k := (keys[j], keys[j] + s);
      assert k in p.groups && Spread(k) == s && o in p.groups[k];
    }
  }

  lemma GroupInVisit(p: Pool, keys: seq<int>, steps: nat, exc: int, inh: int, o: Implicant)
    requires (exc, inh) in p.groups && 0 <= inh - exc < steps && o in p.groups[(exc, inh)] && exc in keys
    ensures o in Visit(p, keys, steps)
  {
    var j :| 0 <= j < |keys| && keys[j] == exc;
    GroupInSpread(p, keys, inh - exc, j, exc, inh, o);
    SpreadInVisited(p, keys, steps, inh - exc, o);
    VisitedIs(p, keys, steps, o);
  }

  /** The implicants of `Visit`, as a set. */
  ghost function Visited(p: Pool, keys: seq<int>, steps: nat): set<Implicant> {
    if steps == 0 then {} else Visited(p, keys, steps - 1) + Elems(SpreadVisit(p, keys, steps - 1, |keys|))
  }

  lemma {:induction false} VisitedIs(p: Pool, keys: seq<int>, steps: nat, o: Implicant)
    requires o in Visited(p, keys, steps)
    ensures o in Visit(p, keys, steps)
  {
    var prev := steps - 1;
    assert steps == prev + 1;
    if o in Visited(p, keys, prev) {
      VisitedIs(p, keys, prev, o);
    } else {
      ElemsMeans(SpreadVisit(p, keys, prev, |keys|), o);
    }
    VisitGrows(p, keys, prev, o);
  }

  lemma VisitGrows(p: Pool, keys: seq<int>, prev: nat, o: Implicant)
    requires o in Visit(p, keys, prev) || o in SpreadVisit(p, keys, prev, |keys|)
    ensures o in Visit(p, keys, prev + 1)
  {
  }

  lemma ElemsMeans(g: seq<Implicant>, o: Implicant)
    ensures o in Elems(g) <==> o in g
  {
    if o in g {
      var i :| 0 <= i < |g| && g[i] == o;
    }
  }

  /** What step `s + 1` visits is visited by any run of more than `s` steps. */
  lemma {:induction false} SpreadInVisited(p: Pool, keys: seq<int>, steps: nat, s: nat, o: Implicant)
    requires s < steps && o in SpreadVisit(p, keys, s, |keys|)
    ensures o in Visited(p, keys, steps)
  {
    if s < steps - 1 {
      SpreadInVisited(p, keys, steps - 1, s, o);
    } else {
      ElemsMeans(SpreadVisit(p, keys, s, |keys|), o);
    }
  }

  /** An implicant of the group of the `j`-th outer key and spread `s` is visited in step `s + 1`. */
  lemma GroupInSpread(p: Pool, keys: seq<int>, s: int, j: nat, exc: int, inh: int, o: Implicant)
    requires j < |keys| && keys[j] == exc && inh == exc + s
    requires (exc, inh) in p.groups && o in p.groups[(exc, inh)]
    ensures o in SpreadVisit(p, keys, s, |keys|)
  {
    assert o in GroupOf(p, (keys[j], keys[j] + s));
    SpreadVisitMeans(p, keys, s, |keys|, o);
  }

  lemma VisitStep(p: Pool, keys: seq<int>, steps: nat, o: Implicant)
    requires steps > 0
    ensures o in Visit(p, keys, steps) <==> o in Visit(p, keys, steps - 1) || o in SpreadVisit(p, keys, steps - 1, |keys|)
  {
  }

  /** Every visited implicant satisfies what `Ready` says of the pool's entries. */
  lemma {:induction false} VisitReady(p: Pool, keys: seq<int>, steps: nat, unused: set<Implicant>, minterms: set<string>)
    requires Ready(p, unused, minterms)
    ensures forall o :: o in Visit(p, keys, steps) ==>
      o.Valid() && (o in unused <==> !o.used) && forall x :: x in o.names ==> x in minterms
  {
    forall o | o in Visit(p, keys, steps)
      ensures o.Valid() && (o in unused <==> !o.used) && forall x :: x in o.names ==> x in minterms
    {
      var i :| 0 <= i < |Visit(p, keys, steps)| && Visit(p, keys, steps)[i] == o;
      VisitInPool(p, keys, steps, o);
      var k, j :| k in p.groups && 0 <= j < |p.groups[k]| && p.groups[k][j] == o;
    }
  }

  /** A visited implicant is an entry of the pool. */
  lemma {:induction false} VisitInPool(p: Pool, keys: seq<int>, steps: nat, o: Implicant)
    requires o in Visit(p, keys, steps)
    ensures exists k, j :: k in p.groups && 0 <= j < |p.groups[k]| && p.groups[k][j] == o
  {
    var s := steps - 1;
    if o in Visit(p, keys, s) {
      VisitInPool(p, keys, s, o);
    } else {
      SpreadVisitMeans(p, keys, s, |keys|, o);
      var j :| 0 <= j < |keys| && o in GroupOf(p, (keys[j], keys[j] + s));
      var k := (keys[j], keys[j] + s);
      var i :| 0 <= i < |p.groups[k]| && p.groups[k][i] == o;
    }
  }

  /**
   * A chart is consistent when every implicant on the list of `m` covers `m` and sits on the list
   * of every minterm it covers.
   */
  predicate Consistent(lists: map<string, seq<Implicant>>) {
    forall m, i :: m in lists && 0 <= i < |lists[m]| ==>
      && m in lists[m][i].names
      && forall x :: x in lists[m][i].names ==> x in lists && lists[m][i] in lists[x]
  }

  /** A chart whose every list is the `Covering` of the same visit is consistent. */
  lemma ChartConsistent(v: seq<Implicant>, unused: set<Implicant>, lists: map<string, seq<Implicant>>)
    requires forall m :: m in lists ==> lists[m] == Covering(v, m, unused)
    requires forall o :: o in v ==> forall x :: x in o.names ==> x in lists
    ensures Consistent(lists)
  {
    forall m, i | m in lists && 0 <= i < |lists[m]|
      ensures m in lists[m][i].names && forall x :: x in lists[m][i].names ==> x in lists && lists[m][i] in lists[x]
    {
      var o := lists[m][i];
      CoveringMeans(v, m, unused);
      assert o in Covering(v, m, unused);
      forall x | x in o.names ensures x in lists && o in lists[x] {
        CoveringMeans(v, x, unused);
      }
    }
  }

  /** The distinct elements of `s` in order of their first occurrence. */
  function FirstOccurrences(s: seq<string>): (r: seq<string>)
    ensures forall m :: m in r <==> m in s
    ensures forall i, j :: 0 <= i < j < |r| ==> r[i] != r[j]
    ensures |r| <= |s|
  {
    if s == [] then []
    else
      var d := FirstOccurrences(s[..|s| - 1]);
      if s[|s| - 1] in d then d else d + [s[|s| - 1]]
  }

  /** The position of the first occurrence of `m` in `s`. */
  function FirstIndex(s: seq<string>, m: string): (i: nat)
    requires m in s
    ensures i < |s| && s[i] == m && forall j :: 0 <= j < i ==> s[j] != m
  {
    if s[0] == m then 0 else 1 + FirstIndex(s[1..], m)
  }

  /** The elements of `r` come in the order of their first occurrences in `s`. */
  ghost predicate InFirstOrder(s: seq<string>, r: seq<string>)
    requires forall m :: m in r ==> m in s
  {
    forall i, j :: 0 <= i < j < |r| ==> FirstIndex(s, r[i]) < FirstIndex(s, r[j])
  }

  /** The distinct elements come in the order of their first occurrences in `s`. */
  lemma {:induction false} FirstOccurrencesOrder(s: seq<string>)
    ensures InFirstOrder(s, FirstOccurrences(s))
  {
    if s != [] {
      var s', x := s[..|s| - 1], s[|s| - 1];
      var d, r := FirstOccurrences(s'), FirstOccurrences(s);
      assert r == if x in d then d else d + [x];
      FirstOccurrencesOrder(s');
      forall i, j | 0 <= i < j < |r| ensures FirstIndex(s, r[i]) < FirstIndex(s, r[j]) {
        assert r[i] == d[i] && d[i] in s';
        FirstIndexPrefix(s, d[i]);
        if j < |d| {
          assert r[j] == d[j] && d[j] in s';
          FirstIndexPrefix(s, d[j]);
          assert FirstIndex(s', d[i]) < FirstIndex(s', d[j]);
        } else {
          assert r[j] == x && x !in s';
          assert FirstIndex(s', d[i]) < |s'|;
        }
      }
    }
  }

  /** An element of the prefix `s` minus its last element first occurs where it first occurs in `s`. */
  lemma FirstIndexPrefix(s: seq<string>, m: string)
    requires s != [] && m in s[..|s| - 1]
    ensures m in s && FirstIndex(s, m) == FirstIndex(s[..|s| - 1], m)
  {
    var s' := s[..|s| - 1];
    var i, i' := FirstIndex(s, m), FirstIndex(s', m);
    assert s[i'] == s'[i'] == m;
    assert i <= i';
    assert s'[i] == m;
  }

  /** `chart[minterm] = []` for every minterm name, in order: one key per distinct name. */
  method NewChart(allNames: seq<string>) returns (chart: Chart)
    ensures chart.order == FirstOccurrences(allNames)
    ensures forall m :: m in chart.lists <==> m in allNames
    ensures forall m :: m in chart.lists ==> chart.lists[m] == []
  {
    var order: seq<string> := [];
    var lists: map<string, seq<Implicant>> := map[];
    var i := 0;
    while i < |allNames|
      invariant 0 <= i <= |allNames|
      invariant order == FirstOccurrences(allNames[..i])
      invariant forall m :: m in lists <==> m in allNames[..i]
      invariant forall m :: m in lists ==> lists[m] == []
    {
      var m := allNames[i];
      assert allNames[..i + 1][..i] == allNames[..i] && allNames[..i + 1][i] == m;
      if m !in lists {
        order := order + [m];
      }
      lists := lists[m := []];
      i := i + 1;
    }
    assert allNames[..i] == allNames;
    chart := Chart(order, lists);
  }

  /**
   * The body of the chart build for one implicant: unless it was used in a merge, append it to the
   * list of every minterm it covers. Afterwards each list has grown by exactly `Covering([o], m)`.
   */
  method AddImplicant(lists: map<string, seq<Implicant>>, o: Implicant, ghost unused: set<Implicant>)
    returns (lists': map<string, seq<Implicant>>)
    requires o.Valid() && (o in unused <==> !o.used)
    requires forall x :: x in o.names ==> x in lists
    ensures lists'.Keys == lists.Keys
    ensures forall m :: m in lists ==> lists'[m] == lists[m] + Covering([o], m, unused)
  {
    lists' := lists;
    assert [o][..0] == [];
    if !o.used {
      StrictlySortedDistinct(o.names);
      var i := 0;
      while i < |o.names|
        invariant 0 <= i <= |o.names|
        invariant lists'.Keys == lists.Keys
        invariant forall m :: m in lists ==> lists'[m] == lists[m] + (if m in o.names[..i] then [o] else [])
      {
        var m := o.names[i];
        assert forall x :: x in o.names[..i + 1] <==> x in o.names[..i] || x == m;
        assert m !in o.names[..i];
        lists' := lists'[m := lists'[m] + [o]];
        i := i + 1;
      }
      assert o.names[..i] == o.names;
    }
  }

  /**
   * `cur` is `lists` after walking `vis`: every minterm's list is extended by the implicants of
   * `vis` that cover it and were not used in a merge, in the order of `vis`.
   */
  ghost predicate Extended(lists: map<string, seq<Implicant>>, cur: map<string, seq<Implicant>>,
                           vis: seq<Implicant>, unused: set<Implicant>)
  {
    cur.Keys == lists.Keys && forall m :: m in lists ==> cur[m] == lists[m] + Covering(vis, m, unused)
  }

  /** `for name in group`: every implicant of the group, in the group's order. */
  method AddGroup(lists: map<string, seq<Implicant>>, g: seq<Implicant>, ghost unused: set<Implicant>)
    returns (lists': map<string, seq<Implicant>>)
    requires forall i :: 0 <= i < |g| ==> g[i].Valid() && (g[i] in unused <==> !g[i].used)
    requires forall i :: 0 <= i < |g| ==> forall x :: x in g[i].names ==> x in lists
    ensures Extended(lists, lists', g, unused)
  {
    lists' := lists;
    var i := 0;
    while i < |g|
      invariant 0 <= i <= |g|
      invariant lists'.Keys == lists.Keys
      invariant forall m :: m in lists ==> lists'[m] == lists[m] + Covering(g[..i], m, unused)
    {
      ghost var prev := lists';
      ghost var done := g[..i];
      lists' := AddImplicant(lists', g[i], unused);
      assert g[..i + 1] == done + [g[i]];
      forall m | m in lists ensures lists'[m] == lists[m] + Covering(done + [g[i]], m, unused) {
        assert prev[m] == lists[m] + Covering(done, m, unused);
        CoveringExtend(lists[m], done, [g[i]], m, unused);
      }
      i := i + 1;
    }
    assert g[..i] == g;
  }

  /** `if inh in d[exc]`: the implicants of group `k`, when the pool has that group. */
  method AddKey(lists: map<string, seq<Implicant>>, p: Pool, k: (int, int), ghost unused: set<Implicant>) returns (lists': map<string, seq<Implicant>>)
    requires Ready(p, unused, lists.Keys)
    ensures Extended(lists, lists', GroupOf(p, k), unused)
  {
    lists' := lists;
    if k in p.groups {
      lists' := AddGroup(lists, p.groups[k], unused);
    }
  }

  /** One outer key of a step: the lists so far cover the first `t` keys, afterwards the first `t + 1`. */
  method AddSpreadAt(lists: map<string, seq<Implicant>>, cur: map<string, seq<Implicant>>, p: Pool, keys: seq<int>,
                     s: int, t: nat, ghost unused: set<Implicant>)
    returns (next: map<string, seq<Implicant>>)
    requires t < |keys|
    requires Ready(p, unused, lists.Keys)
    requires Extended(lists, cur, SpreadVisit(p, keys, s, t), unused)
    ensures Extended(lists, next, SpreadVisit(p, keys, s, t + 1), unused)
  {
    var exc := keys[t];
    var k := (exc, exc + s);
    next := AddKey(cur, p, k, unused);
    ghost var done := SpreadVisit(p, keys, s, t);
    ghost var more := GroupOf(p, k);
    assert SpreadVisit(p, keys, s, t + 1) == done + more;
    forall m | m in lists ensures next[m] == lists[m] + Covering(done + more, m, unused) {
      CoveringExtend(lists[m], done, more, m, unused);
    }
  }

  /** One step of the chart build: every outer key `exc`, in order, contributes group (exc, exc + s). */
  method AddSpread(lists: map<string, seq<Implicant>>, p: Pool, keys: seq<int>, s: int,
                   ghost unused: set<Implicant>) returns (lists': map<string, seq<Implicant>>)
    requires Ready(p, unused, lists.Keys)
    ensures Extended(lists, lists', SpreadVisit(p, keys, s, |keys|), unused)
  {
    lists' := lists;
    var t := 0;
    while t < |keys|
      invariant 0 <= t <= |keys|
      invariant Extended(lists, lists', SpreadVisit(p, keys, s, t), unused)
    {
      lists' := AddSpreadAt(lists, lists', p, keys, s, t, unused);
      t := t + 1;
    }
  }

  /**
   * The chart build: for steps 1 to `maxStep`, for every outer key in ascending order, append every
   * implicant of group (exc, exc + step - 1) that was not used in a merge to the lists of its minterms.
   */
  method FillChart(chart: Chart, p: Pool, keys: seq<int>, maxStep: nat,
                   ghost unused: set<Implicant>) returns (filled: Chart)
    requires Ready(p, unused, chart.lists.Keys)
    ensures filled.order == chart.order && filled.lists.Keys == chart.lists.Keys
    ensures forall m :: m in chart.lists ==>
      filled.lists[m] == chart.lists[m] + Covering(Visit(p, keys, maxStep), m, unused)
  {
    var lists := chart.lists;
    var s := 0;
    while s < maxStep
      invariant 0 <= s <= maxStep
      invariant lists.Keys == chart.lists.Keys
      invariant forall m :: m in chart.lists ==> lists[m] == chart.lists[m] + Covering(Visit(p, keys, s), m, unused)
    {
      ghost var before := lists;
      lists := AddSpread(lists, p, keys, s, unused);
      forall m | m in chart.lists ensures lists[m] == chart.lists[m] + Covering(Visit(p, keys, s + 1), m, unused) {
        CoveringExtend(chart.lists[m], Visit(p, keys, s), SpreadVisit(p, keys, s, |keys|), m, unused);
      }
      s := s + 1;
    }
    filled := Chart(chart.order, lists);
  }
}
