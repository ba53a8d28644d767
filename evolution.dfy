/**
 * The state of the merge-closure loop as the proofs see it: the hull that bounds every pin, the
 * group keys a step compares, the eligible pairs a step finds, and how one group's merges change the pool.
 */
module Evolution {
  import opened Delays
  import opened Names
  import opened Implicants
  import opened Pools

  /** Bounds on the delays of one pin position: `lo` for the excitatory, `hi` for the inhibitory delay. */
  datatype Range = Range(lo: int, hi: int)

  /** Every pin lies inside the per-position range of the hull. */
  ghost predicate WithinHull(pins: seq<Input>, hull: seq<Range>) {
    && |pins| == |hull|
    && forall i :: 0 <= i < |pins| ==> hull[i].lo <= pins[i].de && pins[i].di <= hull[i].hi
  }

  /** Sum over the positions of `hi - lo`. */
  function HullWidth(hull: seq<Range>): int {
    if hull == [] then 0 else HullWidth(hull[..|hull| - 1]) + hull[|hull| - 1].hi - hull[|hull| - 1].lo
  }

  /** The spread of a pin list inside a hull is at most the width of the hull. */
  lemma {:induction false} SpreadWithinHull(pins: seq<Input>, hull: seq<Range>)
    requires WithinHull(pins, hull)
    ensures SumInh(pins) - SumExc(pins) <= HullWidth(hull)
  {
    if pins != [] {
      var n := |pins|;
      SpreadWithinHull(pins[..n - 1], hull[..n - 1]);
    }
  }

  /** Taking minima and maxima never leaves the hull of the operands. */
  lemma MergeWithinHull(a: seq<Input>, b: seq<Input>, hull: seq<Range>)
    requires WithinHull(a, hull) && WithinHull(b, hull)
    ensures WithinHull(MergePins(a, b), hull)
  {
  }

  ghost predicate GroupInHull(g: seq<Implicant>, hull: seq<Range>) {
    forall i :: 0 <= i < |g| ==> WithinHull(g[i].inputs, hull)
  }

  ghost predicate InHull(p: Pool, hull: seq<Range>) {
    forall k :: k in p.groups ==> GroupInHull(p.groups[k], hull)
  }

  /** inh - exc of a group key. */
  function Spread(k: (int, int)): int {
    k.1 - k.0
  }

  /** The group whose implicants a group is paired with: (exc + 1, inh + 1). */
  function Upper(k: (int, int)): (int, int) {
    (k.0 + 1, k.1 + 1)
  }

  /** The group that merges of `k` with `Upper(k)` land in: (exc, inh + 1). */
  function Widen(k: (int, int)): (int, int) {
    (k.0, k.1 + 1)
  }

  ghost function Elems(g: seq<Implicant>): set<Implicant> {
    set i | 0 <= i < |g| :: g[i]
  }

  /** The implicants of all groups of spread `s`. */
  ghost function ObjectsAt(p: Pool, s: int): set<Implicant> {
    set k, i | k in p.groups && Spread(k) == s && 0 <= i < |p.groups[k]| :: p.groups[k][i]
  }

  lemma GroupInObjectsAt(p: Pool, k: (int, int))
    requires k in p.groups
    ensures Elems(p.groups[k]) <= ObjectsAt(p, Spread(k))
  {
    forall o | o in Elems(p.groups[k]) ensures o in ObjectsAt(p, Spread(k)) {
      var i :| 0 <= i < |p.groups[k]| && o == p.groups[k][i];
    }
  }

  /** Some implicant among the first `j` of `g` is eligible to merge with pins `a`. */
  ghost predicate EligibleAmong(a: seq<Input>, g: seq<Implicant>, j: nat)
    requires j <= |g|
  {
    j > 0 && (EligibleAmong(a, g, j - 1) || MergeableSpec(a, g[j - 1].inputs))
  }

  lemma {:induction false} EligibleAmongMeans(a: seq<Input>, g: seq<Implicant>, j: nat)
    requires j <= |g|
    ensures EligibleAmong(a, g, j) <==> exists j' :: 0 <= j' < j && MergeableSpec(a, g[j'].inputs)
  {
    if j > 0 {
      EligibleAmongMeans(a, g, j - 1);
    }
  }

  /** Some implicant of `g1` is eligible to merge with some implicant of `g2`. */
  ghost predicate HasPair(g1: seq<Implicant>, g2: seq<Implicant>) {
    exists i, j :: 0 <= i < |g1| && 0 <= j < |g2| && MergeableSpec(g1[i].inputs, g2[j].inputs)
  }

  /** Some implicant among the first `i` of `g1` is eligible to merge with some implicant of `g2`. */
  ghost predicate PairAmong(g1: seq<Implicant>, g2: seq<Implicant>, i: nat)
    requires i <= |g1|
  {
    i > 0 && (PairAmong(g1, g2, i - 1) || EligibleAmong(g1[i - 1].inputs, g2, |g2|))
  }

  lemma {:induction false} PairAmongMeans(g1: seq<Implicant>, g2: seq<Implicant>, i: nat)
    requires i <= |g1|
    ensures PairAmong(g1, g2, i) <==>
      exists i', j :: 0 <= i' < i && 0 <= j < |g2| && MergeableSpec(g1[i'].inputs, g2[j].inputs)
  {
    if i > 0 {
      PairAmongMeans(g1, g2, i - 1);
      EligibleAmongMeans(g1[i - 1].inputs, g2, |g2|);
    }
  }

  /** Over all of `g1`, PairAmong is HasPair. */
  lemma PairAmongAll(g1: seq<Implicant>, g2: seq<Implicant>)
    ensures PairAmong(g1, g2, |g1|) <==> HasPair(g1, g2)
  {
    PairAmongMeans(g1, g2, |g1|);
  }

  /** Step `s + 1` found an eligible pair: some group of spread `s` has one with its upper neighbour. */
  ghost predicate HasPairAt(p: Pool, s: int) {
    exists k :: k in p.groups && Spread(k) == s && Upper(k) in p.groups && HasPair(p.groups[k], p.groups[Upper(k)])
  }

  /** Every implicant of `g` is an entry of group `k` and lies inside the hull. */
  ghost predicate GroupOk(g: seq<Implicant>, k: (int, int), n: nat, universe: set<string>, hull: seq<Range>) {
    forall i :: 0 <= i < |g| ==> EntryOk(g[i], k, n, universe) && WithinHull(g[i].inputs, hull)
  }

  lemma GroupOkOf(p: Pool, k: (int, int), n: nat, universe: set<string>, hull: seq<Range>)
    requires k in p.groups && WellFormed(p, n, universe) && InHull(p, hull)
    ensures GroupOk(p.groups[k], k, n, universe, hull)
  {
  }

  /**
   * `h` is group `g` after some puts: every old position keeps its name, and every entry is either one
   * of the `created` implicants or the old entry at the same position.
   */
  ghost predicate Grown(g: seq<Implicant>, h: seq<Implicant>, created: set<Implicant>) {
    && |g| <= |h|
    && (forall i :: 0 <= i < |g| ==> h[i].Name() == g[i].Name())
    && (forall i :: 0 <= i < |h| ==> h[i] in created || (i < |g| && h[i] == g[i]))
  }

  /** The group under key `k` of `p`, or the empty group. */
  function GroupOf(p: Pool, k: (int, int)): seq<Implicant> {
    if k in p.groups then p.groups[k] else []
  }

  /**
   * `q` is `p` after storing merges of group `k` with its upper neighbour: only group Widen(k)
   * changed, only by storing implicants of `created`, and it is still a group of Widen(k) inside the hull.
   */
  ghost predicate Evolves(p: Pool, q: Pool, k: (int, int), created: set<Implicant>, n: nat, universe: set<string>,
                          hull: seq<Range>) {
    && q.excOrder == p.excOrder
    && k.0 in q.excOrder
    && p.groups.Keys <= q.groups.Keys
    && (forall k' :: k' in q.groups ==> k' in p.groups || k' == Widen(k))
    && (forall k' :: k' in p.groups && k' != Widen(k) ==> q.groups[k'] == p.groups[k'])
    && Grown(GroupOf(p, Widen(k)), GroupOf(q, Widen(k)), created)
    && (Widen(k) in q.groups ==>
          GroupFits(q.groups[Widen(k)], Widen(k), n, universe) && GroupInHull(q.groups[Widen(k)], hull))
  }

  /** Before any merge, a well-formed pool is an evolution of itself. */
  lemma EvolvesStart(p: Pool, k: (int, int), created: set<Implicant>, n: nat, universe: set<string>, hull: seq<Range>)
    requires k in p.groups && WellFormed(p, n, universe) && InHull(p, hull)
    ensures Evolves(p, p, k, created, n, universe, hull)
  {
  }

  /** An evolution of a well-formed pool inside the hull is again well formed and inside the hull. */
  lemma EvolvesWellFormed(p: Pool, q: Pool, k: (int, int), created: set<Implicant>, n: nat, universe: set<string>,
                          hull: seq<Range>)
    requires WellFormed(p, n, universe) && InHull(p, hull)
    requires Evolves(p, q, k, created, n, universe, hull)
    ensures WellFormed(q, n, universe) && InHull(q, hull)
  {
    forall k' | k' in q.groups
      ensures k'.0 in q.excOrder && GroupFits(q.groups[k'], k', n, universe) && GroupInHull(q.groups[k'], hull)
    {
      if k' != Widen(k) {
        assert q.groups[k'] == p.groups[k'];
      }
    }
  }

  lemma EvolvesTrans(p: Pool, q: Pool, r: Pool, k: (int, int), c1: set<Implicant>, c2: set<Implicant>, n: nat,
                     universe: set<string>, hull: seq<Range>)
    requires Evolves(p, q, k, c1, n, universe, hull) && Evolves(q, r, k, c2, n, universe, hull)
    ensures Evolves(p, r, k, c1 + c2, n, universe, hull)
  {
  }

  /** An evolution only adds keys, and every implicant it holds is an old one or a created one. */
  lemma EvolvesKeys(p: Pool, q: Pool, k: (int, int), created: set<Implicant>, n: nat, universe: set<string>,
                    hull: seq<Range>)
    requires Evolves(p, q, k, created, n, universe, hull)
    ensures Keys(p) <= Keys(q)
    ensures Objects(q) <= Objects(p) + created
  {
    var w := Widen(k);
    forall t | t in Keys(p) ensures t in Keys(q) {
      var k', i :| k' in p.groups && 0 <= i < |p.groups[k']| && t == (k'.0, k'.1, p.groups[k'][i].Name());
      assert GroupOf(p, k') == p.groups[k'];
      assert q.groups[k'][i].Name() == p.groups[k'][i].Name();
    }
    forall o | o in Objects(q) ensures o in Objects(p) + created {
      var k', i :| k' in q.groups && 0 <= i < |q.groups[k']| && o == q.groups[k'][i];
      if k' == w {
        assert GroupOf(q, w) == q.groups[w];
        if o !in created {
          assert k' in p.groups && p.groups[k'][i] == o;
        }
      } else {
        assert p.groups[k'][i] == o;
      }
    }
  }

  /** Storing a created merge that belongs in group Widen(k) keeps `q` an evolution of `p`. */
  lemma EvolvesByInsert(p: Pool, q: Pool, m: Implicant, k: (int, int), created: set<Implicant>, n: nat,
                        universe: set<string>, hull: seq<Range>)
    requires Evolves(p, q, k, created, n, universe, hull)
    requires EntryOk(m, Widen(k), n, universe) && WithinHull(m.inputs, hull)
    ensures Evolves(p, Insert(q, m), k, created + {m}, n, universe, hull)
  {
    var w := Widen(k);
    var r := Insert(q, m);
    if w in q.groups {
      PutFits(q.groups[w], m, w, n, universe);
      PutEntries(q.groups[w], m);
      assert r.groups[w] == Put(q.groups[w], m);
    } else {
      assert r.groups[w] == [m];
    }
  }

  /** Growing twice is growing once, by the implicants created in either. */
  lemma GrownTrans(f: seq<Implicant>, g: seq<Implicant>, h: seq<Implicant>, c1: set<Implicant>, c2: set<Implicant>)
    requires Grown(f, g, c1) && Grown(g, h, c2)
    ensures Grown(f, h, c1 + c2)
  {
  }

  /**
   * `q` is `p` after the step that compares the groups of spread `s`: only groups of spread `s + 1`
   * changed or appeared, each only by storing implicants of `created`.
   */
  ghost predicate StepEvolves(p: Pool, q: Pool, s: int, created: set<Implicant>) {
    && q.excOrder == p.excOrder
    && p.groups.Keys <= q.groups.Keys
    && (forall k :: k in q.groups && k !in p.groups ==> Spread(k) == s + 1)
    && (forall k :: k in p.groups && Spread(k) != s + 1 ==> q.groups[k] == p.groups[k])
    && (forall k :: Spread(k) == s + 1 ==> Grown(GroupOf(p, k), GroupOf(q, k), created))
  }

  lemma StepStart(p: Pool, s: int)
    ensures StepEvolves(p, p, s, {})
  {
  }

  /** Merging one group of spread `s` with its upper neighbour extends a step's evolution. */
  lemma StepByGroup(p: Pool, q: Pool, r: Pool, k: (int, int), s: int, c1: set<Implicant>, c2: set<Implicant>,
                    n: nat, universe: set<string>, hull: seq<Range>)
    requires Spread(k) == s
    requires StepEvolves(p, q, s, c1) && Evolves(q, r, k, c2, n, universe, hull)
    ensures StepEvolves(p, r, s, c1 + c2)
  {
    var w := Widen(k);
    forall k' | Spread(k') == s + 1 ensures Grown(GroupOf(p, k'), GroupOf(r, k'), c1 + c2) {
      if k' == w {
        GrownTrans(GroupOf(p, k'), GroupOf(q, k'), GroupOf(r, k'), c1, c2);
      } else {
        assert GroupOf(r, k') == GroupOf(q, k');
      }
    }
  }

  /** A step only adds keys, and every implicant it holds is an old one or a created one. */
  lemma StepKeys(p: Pool, q: Pool, s: int, created: set<Implicant>)
    requires StepEvolves(p, q, s, created)
    ensures Keys(p) <= Keys(q)
    ensures Objects(q) <= Objects(p) + created
  {
    forall t | t in Keys(p) ensures t in Keys(q) {
      var k, i :| k in p.groups && 0 <= i < |p.groups[k]| && t == (k.0, k.1, p.groups[k][i].Name());
      assert GroupOf(p, k) == p.groups[k];
      assert q.groups[k][i].Name() == p.groups[k][i].Name();
    }
    forall o | o in Objects(q) ensures o in Objects(p) + created {
      var k, i :| k in q.groups && 0 <= i < |q.groups[k]| && o == q.groups[k][i];
      if Spread(k) == s + 1 {
        assert GroupOf(q, k) == q.groups[k];
        if o !in created {
          assert k in p.groups && p.groups[k][i] == o;
        }
      } else {
        assert p.groups[k][i] == o;
      }
    }
  }

  /** The key of spread `s` whose excitatory sum is the `t`-th outer key. */
  function KeyAt(p: Pool, s: int, t: nat): (int, int)
    requires t < |p.excOrder|
  {
    (p.excOrder[t], p.excOrder[t] + s)
  }

  /** Group `k` and its upper neighbour are both present and hold an eligible pair. */
  ghost predicate PairAtKey(p: Pool, k: (int, int)) {
    k in p.groups && Upper(k) in p.groups && HasPair(p.groups[k], p.groups[Upper(k)])
  }

  /** One of the first `t` outer keys gives a group of spread `s` with an eligible pair. */
  ghost predicate PairAtAmong(p: Pool, s: int, t: nat)
    requires t <= |p.excOrder|
  {
    t > 0 && (PairAtAmong(p, s, t - 1) || PairAtKey(p, KeyAt(p, s, t - 1)))
  }

  /** Over all outer keys, the prefix predicates of a step are the statements about every group of spread `s`. */
  lemma StepMeans(p: Pool, s: int, n: nat, universe: set<string>)
    requires WellFormed(p, n, universe)
    ensures PairAtAmong(p, s, |p.excOrder|) <==> HasPairAt(p, s)
  {
    AmongMeans(p, s, |p.excOrder|);
    PairAtMeans(p, s, n, universe);
  }

  /** The outer key of a group of spread `s` gives that group back. */
  lemma KeyAtIs(p: Pool, s: int, t: nat, k: (int, int))
    requires t < |p.excOrder| && p.excOrder[t] == k.0 && Spread(k) == s
    ensures KeyAt(p, s, t) == k
  {
  }

  lemma PairAtMeans(p: Pool, s: int, n: nat, universe: set<string>)
    requires WellFormed(p, n, universe)
    ensures HasPairAt(p, s) ==> exists t :: 0 <= t < |p.excOrder| && PairAtKey(p, KeyAt(p, s, t))
  {
    if HasPairAt(p, s) {
      var k :| k in p.groups && Spread(k) == s && Upper(k) in p.groups && HasPair(p.groups[k], p.groups[Upper(k)]);
      assert k.0 in p.excOrder;
      var t :| 0 <= t < |p.excOrder| && p.excOrder[t] == k.0;
      KeyAtIs(p, s, t, k);
      assert PairAtKey(p, KeyAt(p, s, t));
    }
  }

  lemma {:induction false} AmongMeans(p: Pool, s: int, t: nat)
    requires t <= |p.excOrder|
    ensures PairAtAmong(p, s, t) <==> exists t' :: 0 <= t' < t && PairAtKey(p, KeyAt(p, s, t'))
  {
    if t > 0 {
      AmongMeans(p, s, t - 1);
    }
  }

  /** Every group of spread `s` holds only implicants of the pool. */
  lemma ObjectsAtInPool(p: Pool, s: int)
    ensures ObjectsAt(p, s) <= Objects(p)
  {
  }

  /** A step that grows spread `s + 1` leaves the groups of every spread up to `s` as they were. */
  lemma StepKeepsSpread(p: Pool, q: Pool, s: int, created: set<Implicant>, s': int)
    requires StepEvolves(p, q, s, created) && s' <= s
    ensures HasPairAt(p, s') <==> HasPairAt(q, s')
  {
    forall k | Spread(k) == s'
      ensures (k in p.groups <==> k in q.groups) && (Upper(k) in p.groups <==> Upper(k) in q.groups)
      ensures k in p.groups ==> q.groups[k] == p.groups[k]
      ensures Upper(k) in p.groups ==> q.groups[Upper(k)] == p.groups[Upper(k)]
    {
      assert Spread(Upper(k)) == s';
    }
    if HasPairAt(p, s') {
      var k :| k in p.groups && Spread(k) == s' && Upper(k) in p.groups && HasPair(p.groups[k], p.groups[Upper(k)]);
      assert Spread(Upper(k)) == s';
    }
    if HasPairAt(q, s') {
      var k :| k in q.groups && Spread(k) == s' && Upper(k) in q.groups && HasPair(q.groups[k], q.groups[Upper(k)]);
      assert Spread(Upper(k)) == s';
    }
  }

  /** Steps 1 to `m` each found an eligible pair: for every spread below `m` some group has one. */
  ghost predicate PairsBelow(p: Pool, m: int) {
    m > 0 ==> PairsBelow(p, m - 1) && HasPairAt(p, m - 1)
  }

  /** What earlier steps established about spreads up to `s` survives the step of spread `s`. */
  lemma {:induction false} BelowKept(p: Pool, q: Pool, s: int, created: set<Implicant>, m: int)
    requires StepEvolves(p, q, s, created) && m <= s + 1
    ensures PairsBelow(p, m) ==> PairsBelow(q, m)
  {
    if m > 0 {
      BelowKept(p, q, s, created, m - 1);
      StepKeepsSpread(p, q, s, created, m - 1);
    }
  }

  lemma {:induction false} BelowMeans(p: Pool, m: int)
    ensures PairsBelow(p, m) <==> forall s :: 0 <= s < m ==> HasPairAt(p, s)
  {
    if m > 0 {
      BelowMeans(p, m - 1);
    }
  }

  /** An eligible pair between groups of spread `s` inside the hull needs `s` to be at most the hull's width. */
  lemma PairAtWithinHull(p: Pool, s: int, n: nat, universe: set<string>, hull: seq<Range>)
    requires WellFormed(p, n, universe) && InHull(p, hull) && HasPairAt(p, s)
    ensures s <= HullWidth(hull)
  {
    var k :| k in p.groups && Spread(k) == s && Upper(k) in p.groups && HasPair(p.groups[k], p.groups[Upper(k)]);
    var g := p.groups[k];
    var i, j :| 0 <= i < |g| && 0 <= j < |p.groups[Upper(k)]| && MergeableSpec(g[i].inputs, p.groups[Upper(k)][j].inputs);
    assert EntryOk(g[i], k, n, universe) && WithinHull(g[i].inputs, hull);
    SpreadWithinHull(g[i].inputs, hull);
  }
  /** The group whose implicants are paired with those of `k` from below: (exc - 1, inh - 1). */
  function Lower(k: (int, int)): (int, int) {
    (k.0 - 1, k.1 - 1)
  }

  /**
   * What comparing pairs of implicants leaves behind: `ops` are the operands `merge_implicants` flagged,
   * `keys` the keys under which the merges were stored.
   */
  datatype Effect = Effect(ops: set<Implicant>, keys: set<(int, int, string)>)

  function Join(e: Effect, f: Effect): Effect {
    Effect(e.ops + f.ops, e.keys + f.keys)
  }

  /** The key under which the merge of `a` with `b`, of the group above, is stored. */
  function MergeKey(a: Implicant, b: Implicant): (int, int, string) {
    (a.excSum, b.inhSum, JoinNames(SortedNames(a.names + b.names)))
  }

  /** Joining is associative. */
  lemma JoinAssoc(e1: Effect, e2: Effect, e3: Effect)
    ensures Join(Join(e1, e2), e3) == Join(e1, Join(e2, e3))
  {
    assert (e1.ops + e2.ops) + e3.ops == e1.ops + (e2.ops + e3.ops);
    assert (e1.keys + e2.keys) + e3.keys == e1.keys + (e2.keys + e3.keys);
  }

  /** Joining nothing changes nothing. */
  lemma JoinNone(e: Effect)
    ensures Join(e, Effect({}, {})) == e
  {
    assert e.ops + {} == e.ops && e.keys + {} == e.keys;
  }

  /** `flagged` and the keys of `q` are `flagged0` and `keys0` plus the operands and the keys of `e`. */
  ghost predicate Counted(flagged0: set<Implicant>, flagged: set<Implicant>, keys0: set<(int, int, string)>, q: Pool,
                          e: Effect) {
    flagged == flagged0 + e.ops && Keys(q) == keys0 + e.keys
  }

  /** Comparing `a` with `b`: when eligible, both are flagged and their merge is stored; otherwise nothing. */
  ghost function PairEffect(a: Implicant, b: Implicant): Effect {
    if MergeableSpec(a.inputs, b.inputs) then Effect({a, b}, {MergeKey(a, b)}) else Effect({}, {})
  }

  /** Comparing `a` with the first `j` implicants of `g2`. */
  ghost function AgainstEffect(a: Implicant, g2: seq<Implicant>, j: nat): Effect
    requires j <= |g2|
  {
    if j == 0 then Effect({}, {}) else Join(AgainstEffect(a, g2, j - 1), PairEffect(a, g2[j - 1]))
  }

  /** Comparing each of the first `i` implicants of `g1` with all of `g2`. */
  ghost function RowsEffect(g1: seq<Implicant>, g2: seq<Implicant>, i: nat): Effect
    requires i <= |g1|
  {
    if i == 0 then Effect({}, {}) else Join(RowsEffect(g1, g2, i - 1), AgainstEffect(g1[i - 1], g2, |g2|))
  }

  /** Comparing group `k` with its upper neighbour, when both are present. */
  ghost function KeyEffect(p: Pool, k: (int, int)): Effect {
    if k in p.groups && Upper(k) in p.groups then RowsEffect(p.groups[k], p.groups[Upper(k)], |p.groups[k]|)
    else Effect({}, {})
  }

  /** Step `s + 1` over the groups of spread `s` of the first `t` outer keys. */
  ghost function StepEffect(p: Pool, s: int, t: nat): Effect
    requires t <= |p.excOrder|
  {
    if t == 0 then Effect({}, {}) else Join(StepEffect(p, s, t - 1), KeyEffect(p, KeyAt(p, s, t - 1)))
  }

  /** Steps 1 to `m`: the comparisons of the groups of every spread from 0 to `m - 1`. */
  ghost function ClosureEffect(p: Pool, m: int): Effect
    decreases m
  {
    if m <= 0 then Effect({}, {}) else Join(ClosureEffect(p, m - 1), StepEffect(p, m - 1, |p.excOrder|))
  }

  /** A step that grows spread `s + 1` does not change what comparing the groups of a spread up to `s` amounts to. */
  lemma {:induction false} StepEffectKept(p: Pool, q: Pool, s: int, created: set<Implicant>, s': int, t: nat)
    requires StepEvolves(p, q, s, created) && s' <= s && t <= |p.excOrder|
    ensures StepEffect(p, s', t) == StepEffect(q, s', t)
  {
    if t > 0 {
      StepEffectKept(p, q, s, created, s', t - 1);
      var k := KeyAt(p, s', t - 1);
      assert Spread(Upper(k)) == s';
    }
  }

  lemma {:induction false} ClosureKept(p: Pool, q: Pool, s: int, created: set<Implicant>, m: int)
    requires StepEvolves(p, q, s, created) && m <= s + 1
    ensures ClosureEffect(p, m) == ClosureEffect(q, m)
    decreases m
  {
    if m > 0 {
      ClosureKept(p, q, s, created, m - 1);
      StepEffectKept(p, q, s, created, m - 1, |p.excOrder|);
    }
  }

  lemma {:induction false} AgainstEffectMeans(a: Implicant, g2: seq<Implicant>, j: nat)
    requires j <= |g2|
    ensures forall o :: o in AgainstEffect(a, g2, j).ops <==>
      exists j' :: 0 <= j' < j && MergeableSpec(a.inputs, g2[j'].inputs) && (o == a || o == g2[j'])
    ensures forall t :: t in AgainstEffect(a, g2, j).keys <==>
      exists j' :: 0 <= j' < j && MergeableSpec(a.inputs, g2[j'].inputs) && t == MergeKey(a, g2[j'])
  {
    if j > 0 {
      AgainstEffectMeans(a, g2, j - 1);
    }
  }

  lemma {:induction false} RowsEffectMeans(g1: seq<Implicant>, g2: seq<Implicant>, i: nat)
    requires i <= |g1|
    ensures forall o :: o in RowsEffect(g1, g2, i).ops <==>
      exists i', j :: 0 <= i' < i && 0 <= j < |g2| && MergeableSpec(g1[i'].inputs, g2[j].inputs) && (o == g1[i'] || o == g2[j])
    ensures forall t :: t in RowsEffect(g1, g2, i).keys <==>
      exists i', j :: 0 <= i' < i && 0 <= j < |g2| && MergeableSpec(g1[i'].inputs, g2[j].inputs) && t == MergeKey(g1[i'], g2[j])
  {
    if i > 0 {
      RowsEffectMeans(g1, g2, i - 1);
      AgainstEffectMeans(g1[i - 1], g2, |g2|);
    }
  }

  lemma {:induction false} StepEffectAmong(p: Pool, s: int, t: nat)
    requires t <= |p.excOrder|
    ensures forall o :: o in StepEffect(p, s, t).ops <==> exists t' :: 0 <= t' < t && o in KeyEffect(p, KeyAt(p, s, t')).ops
    ensures forall x :: x in StepEffect(p, s, t).keys <==> exists t' :: 0 <= t' < t && x in KeyEffect(p, KeyAt(p, s, t')).keys
  {
    if t > 0 {
      StepEffectAmong(p, s, t - 1);
    }
  }

  /** Over all outer keys, a step's effect is that of every group of spread `s`. */
  lemma StepEffectMeans(p: Pool, s: int, n: nat, universe: set<string>)
    requires WellFormed(p, n, universe)
    ensures forall o :: o in StepEffect(p, s, |p.excOrder|).ops <==>
      exists k :: k in p.groups && Spread(k) == s && o in KeyEffect(p, k).ops
    ensures forall x :: x in StepEffect(p, s, |p.excOrder|).keys <==>
      exists k :: k in p.groups && Spread(k) == s && x in KeyEffect(p, k).keys
  {
    StepEffectAmong(p, s, |p.excOrder|);
    forall k | k in p.groups && Spread(k) == s
      ensures exists t :: 0 <= t < |p.excOrder| && KeyAt(p, s, t) == k
    {
      assert k.0 in p.excOrder;
      var t :| 0 <= t < |p.excOrder| && p.excOrder[t] == k.0;
      KeyAtIs(p, s, t, k);
    }
  }

  lemma {:induction false} ClosureEffectMeans(p: Pool, m: int, n: nat, universe: set<string>)
    requires WellFormed(p, n, universe)
    ensures forall o :: o in ClosureEffect(p, m).ops <==>
      exists k :: k in p.groups && 0 <= Spread(k) < m && o in KeyEffect(p, k).ops
    ensures forall x :: x in ClosureEffect(p, m).keys <==>
      exists k :: k in p.groups && 0 <= Spread(k) < m && x in KeyEffect(p, k).keys
    decreases m
  {
    if m > 0 {
      ClosureEffectMeans(p, m - 1, n, universe);
      StepEffectMeans(p, m - 1, n, universe);
    }
  }

  /** Entry `o` of group `k` has an eligible partner in the group above or the group below. */
  ghost predicate Partnered(p: Pool, k: (int, int), o: Implicant) {
    || (Upper(k) in p.groups &&
        exists j :: 0 <= j < |p.groups[Upper(k)]| && MergeableSpec(o.inputs, p.groups[Upper(k)][j].inputs))
    || (Lower(k) in p.groups &&
        exists i :: 0 <= i < |p.groups[Lower(k)]| && MergeableSpec(p.groups[Lower(k)][i].inputs, o.inputs))
  }

  /** An entry that comparing group `k'` with its upper neighbour flags lies in `k'` or its upper neighbour and has a partner. */
  lemma KeyOpsPartnered(p: Pool, n: nat, universe: set<string>, k': (int, int), k: (int, int), i: nat)
    requires WellFormed(p, n, universe) && k in p.groups && i < |p.groups[k]|
    requires p.groups[k][i] in KeyEffect(p, k').ops
    ensures Spread(k') == Spread(k) && Partnered(p, k, p.groups[k][i])
  {
    var o := p.groups[k][i];
    assert EntryOk(o, k, n, universe);
    var g1, g2 := p.groups[k'], p.groups[Upper(k')];
    RowsEffectMeans(g1, g2, |g1|);
    var i', j :| 0 <= i' < |g1| && 0 <= j < |g2| && MergeableSpec(g1[i'].inputs, g2[j].inputs) && (o == g1[i'] || o == g2[j]);
    if o == g1[i'] {
      assert EntryOk(g1[i'], k', n, universe);
      assert k' == k;
    } else {
      assert EntryOk(g2[j], Upper(k'), n, universe);
      assert Lower(k) == k';
    }
  }

  /** An entry with a partner is flagged by comparing its own group with the one above, or the one below with its own. */
  lemma PartneredKeyOps(p: Pool, k: (int, int), i: nat)
    requires k in p.groups && i < |p.groups[k]| && Partnered(p, k, p.groups[k][i])
    ensures || p.groups[k][i] in KeyEffect(p, k).ops
            || (Lower(k) in p.groups && p.groups[k][i] in KeyEffect(p, Lower(k)).ops)
  {
    var o := p.groups[k][i];
    if Upper(k) in p.groups && exists j :: 0 <= j < |p.groups[Upper(k)]| && MergeableSpec(o.inputs, p.groups[Upper(k)][j].inputs) {
      RowsEffectMeans(p.groups[k], p.groups[Upper(k)], |p.groups[k]|);
    } else {
      var l := Lower(k);
      assert Upper(l) == k;
      RowsEffectMeans(p.groups[l], p.groups[k], |p.groups[l]|);
    }
  }

  /**
   * Steps 1 to `m` flag an entry of a well-formed pool exactly when its group has a spread below `m`
   * and it has an eligible partner in the group above or below.
   */
  lemma ClosureOpsMeans(p: Pool, m: int, n: nat, universe: set<string>, k: (int, int), i: nat)
    requires WellFormed(p, n, universe) && k in p.groups && i < |p.groups[k]|
    ensures p.groups[k][i] in ClosureEffect(p, m).ops <==> 0 <= Spread(k) < m && Partnered(p, k, p.groups[k][i])
  {
    var o := p.groups[k][i];
    ClosureEffectMeans(p, m, n, universe);
    if o in ClosureEffect(p, m).ops {
      var k' :| k' in p.groups && 0 <= Spread(k') < m && o in KeyEffect(p, k').ops;
      KeyOpsPartnered(p, n, universe, k', k, i);
    }
    if 0 <= Spread(k) < m && Partnered(p, k, o) {
      PartneredKeyOps(p, k, i);
      assert Spread(Lower(k)) == Spread(k);
    }
  }

  /** The keys of the merges of every eligible pair between a group of spread below `m` and its upper neighbour. */
  ghost function KeysBelow(p: Pool, m: int): set<(int, int, string)> {
    set k, i, j | k in p.groups && Upper(k) in p.groups && 0 <= Spread(k) < m && 0 <= i < |p.groups[k]| &&
                  0 <= j < |p.groups[Upper(k)]| && MergeableSpec(p.groups[k][i].inputs, p.groups[Upper(k)][j].inputs)
      :: MergeKey(p.groups[k][i], p.groups[Upper(k)][j])
  }

  /** Steps 1 to `m` store exactly the merges of the eligible pairs of every spread below `m`. */
  lemma ClosureKeysMeans(p: Pool, m: int, n: nat, universe: set<string>)
    requires WellFormed(p, n, universe)
    ensures ClosureEffect(p, m).keys == KeysBelow(p, m)
  {
    ClosureEffectMeans(p, m, n, universe);
    forall x | x in ClosureEffect(p, m).keys ensures x in KeysBelow(p, m) {
      var k :| k in p.groups && 0 <= Spread(k) < m && x in KeyEffect(p, k).keys;
      RowsEffectMeans(p.groups[k], p.groups[Upper(k)], |p.groups[k]|);
    }
    forall x | x in KeysBelow(p, m) ensures x in ClosureEffect(p, m).keys {
      var k, i, j :| k in p.groups && Upper(k) in p.groups && 0 <= Spread(k) < m && 0 <= i < |p.groups[k]| &&
                     0 <= j < |p.groups[Upper(k)]| && MergeableSpec(p.groups[k][i].inputs, p.groups[Upper(k)][j].inputs) &&
                     x == MergeKey(p.groups[k][i], p.groups[Upper(k)][j]);
      RowsEffectMeans(p.groups[k], p.groups[Upper(k)], |p.groups[k]|);
      assert x in KeyEffect(p, k).keys;
    }
  }

  /*
   * The dictionary without its flags, as a function of the dictionary the closure loop starts from:
   * the same comparisons as the Effect functions above, in the loop's order, each eligible pair storing
   * its merge with `Store`. A step of spread `s` stores only into groups of spread `s + 1`, so the groups
   * it compares are those it started with.
   */

  /** The entry `merge_implicants` builds from `a` and `b`: the merged pins and the sorted union of the names. */
  function MergeEntry(a: Entry, b: Entry): Entry
    requires |a.inputs| == |b.inputs|
  {
    Entry(MergePins(a.inputs, b.inputs), SortedNames(a.names + b.names))
  }

  /** Comparing `a` with `b` of the group above: when eligible, their merge is stored; otherwise nothing changes. */
  ghost function PairView(v: PoolView, a: Entry, b: Entry): PoolView {
    if MergeableSpec(a.inputs, b.inputs) then Store(v, MergeEntry(a, b)) else v
  }

  /** Comparing `a` with the first `j` entries of `g2`, in order. */
  ghost function AgainstView(v: PoolView, a: Entry, g2: seq<Entry>, j: nat): PoolView
    requires j <= |g2|
  {
    if j == 0 then v else PairView(AgainstView(v, a, g2, j - 1), a, g2[j - 1])
  }

  /** Comparing each of the first `i` entries of `g1`, in order, with all of `g2`. */
  ghost function RowsView(v: PoolView, g1: seq<Entry>, g2: seq<Entry>, i: nat): PoolView
    requires i <= |g1|
  {
    if i == 0 then v else AgainstView(RowsView(v, g1, g2, i - 1), g1[i - 1], g2, |g2|)
  }

  /** Comparing group `k` of `p` with its upper neighbour, when the group, the outer key above and that group exist. */
  ghost function KeyView(v: PoolView, p: PoolView, k: (int, int)): PoolView {
    if k in p.groups && k.0 + 1 in p.excOrder && Upper(k) in p.groups then
      RowsView(v, p.groups[k], p.groups[Upper(k)], |p.groups[k]|)
    else v
  }

  /** Step `s + 1` from `p` over the groups of spread `s` of its first `t` outer keys, in insertion order. */
  ghost function StepView(p: PoolView, s: int, t: nat): PoolView
    requires t <= |p.excOrder|
  {
    if t == 0 then p else KeyView(StepView(p, s, t - 1), p, (p.excOrder[t - 1], p.excOrder[t - 1] + s))
  }

  /** Steps 1 to `m` from `p`, step `s + 1` comparing the groups of spread `s` of the dictionary left before it. */
  ghost function ClosureView(p: PoolView, m: nat): PoolView {
    if m == 0 then p else var c := ClosureView(p, m - 1); StepView(c, m - 1, |c.excOrder|)
  }
}
