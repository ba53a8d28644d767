/**
 * The merge-closure loop: step after step, merge every eligible pair of implicants from a group
 * (e, e + k - 1) and its upper neighbour (e + 1, e + k), until a step produces no merge.
 *
 * Besides the pool, the methods below return a ghost set `flagged` of the implicants whose flag has
 * been set. Its contents are given exactly by the `Effect` functions, and `Synced` ties it to the flags:
 * an implicant of the pool has its flag set exactly when it is in `flagged`.
 */
module Closure {
  import opened Delays
  import opened Names
  import opened Implicants
  import opened Pools
  import opened Evolution

  /** Every implicant of `S` has its flag set exactly when it is in `flagged`. */
  ghost predicate Synced(S: set<Implicant>, flagged: set<Implicant>)
    reads S
  {
    forall o :: o in S ==> (o.used <==> o in flagged)
  }

  /** The flags agree with `flagged` on `S`, and the implicants `created` lie outside `S`, unflagged. */
  ghost predicate Tracked(S: set<Implicant>, flagged: set<Implicant>, created: set<Implicant>)
    reads S, created
  {
    && Synced(S, flagged)
    && (forall o :: o in created ==> !o.used)
    && S !! created
  }

  /**
   * `merge_implicants` on an implicant `a` of group `k` and an implicant `b` of the upper group:
   * null when the pair is not eligible, otherwise both are flagged and the merge, unflagged, belongs
   * in Widen(k) under the key `MergeKey(a, b)`.
   */
  method MergePair(a: Implicant, b: Implicant, k: (int, int), ghost n: nat, ghost universe: set<string>,
                   ghost hull: seq<Range>, ghost S: set<Implicant>, ghost flagged: set<Implicant>,
                   ghost created: set<Implicant>) returns (m: Implicant?)
    requires EntryOk(a, k, n, universe) && EntryOk(b, Upper(k), n, universe)
    requires WithinHull(a.inputs, hull) && WithinHull(b.inputs, hull)
    requires a in S && b in S && Tracked(S, flagged, created)
    modifies a, b
    ensures m == null <==> !MergeableSpec(a.inputs, b.inputs)
    ensures a.used == (old(a.used) || m != null) && b.used == (old(b.used) || m != null)
    ensures m != null ==> fresh(m) && !m.used && EntryOk(m, Widen(k), n, universe) && WithinHull(m.inputs, hull)
    ensures m != null ==> m.inputs == MergePins(a.inputs, b.inputs) && m.names == SortedNames(a.names + b.names)
    ensures m != null ==> KeyOf(m) == MergeKey(a, b)
    ensures m != null ==> Tracked(S, flagged + {a, b}, created + {m})
  {
    m := a.MergeWith(b);
    if m != null {
      MergeShiftsGroup(a.inputs, b.inputs);
      MergeWithinHull(a.inputs, b.inputs, hull);
      assert forall x :: x in m.names ==> x in universe;
    }
  }

  /**
   * The body of the innermost loop, on the `j`-th implicant `b` of the upper group: when `a` (of group
   * `k`) and `b` are eligible, merge them, which flags both, and store the merge under its own key.
   * Flags and keys grow from those of the comparisons `e` by what comparing `a` with `b` amounts to.
   */
  method TryMerge(pool: Pool, q: Pool, a: Implicant, k: (int, int), j: nat, ghost n: nat,
                  ghost universe: set<string>, ghost hull: seq<Range>, merged: bool, ghost S: set<Implicant>,
                  ghost flagged0: set<Implicant>, ghost keys0: set<(int, int, string)>, ghost e: Effect,
                  ghost flagged: set<Implicant>, ghost created: set<Implicant>)
    returns (q': Pool, merged': bool, ghost flagged': set<Implicant>, ghost created': set<Implicant>)
    requires k in pool.groups && Upper(k) in pool.groups && j < |pool.groups[Upper(k)]|
    requires EntryOk(a, k, n, universe) && WithinHull(a.inputs, hull)
    requires GroupOk(pool.groups[Upper(k)], Upper(k), n, universe, hull)
    requires Evolves(pool, q, k, created, n, universe, hull)
    requires a in S && pool.groups[Upper(k)][j] in S
    requires Counted(flagged0, flagged, keys0, q, e) && Tracked(S, flagged, created)
    requires merged <==> EligibleAmong(a.inputs, pool.groups[Upper(k)], j)
    modifies a, pool.groups[Upper(k)][j]
    ensures Evolves(pool, q', k, created', n, universe, hull) && created <= created' && (forall o :: o in created' ==> o in created || fresh(o))
    ensures Counted(flagged0, flagged', keys0, q', Join(e, PairEffect(a, pool.groups[Upper(k)][j])))
    ensures Tracked(S, flagged', created')
    ensures merged' <==> EligibleAmong(a.inputs, pool.groups[Upper(k)], j + 1)
    ensures View(q') == PairView(View(q), EntryOf(a), EntryOf(pool.groups[Upper(k)][j]))
  {
    var b := pool.groups[Upper(k)][j];
    var ok := a.CheckIfMergeable(b);
    if ok {
      var m;
      q', flagged', created', m := MergeAndStore(pool, q, a, k, j, n, universe, hull, S, flagged0, keys0, e, flagged, created);
      AddedOne(created, created', m);
    } else {
      q', flagged', created' := q, flagged, created;
      JoinNone(e);
    }
    merged' := merged || ok;
  }

  /** Every member of `created + {m}` is `m` or a member of `created`. */
  lemma AddedOne(created: set<Implicant>, created': set<Implicant>, m: Implicant)
    requires created' == created + {m}
    ensures created <= created' && forall o :: o in created' ==> o in created || o == m
  {
  }

  /** The eligible case of `TryMerge`: merge `a` with the `j`-th implicant of the upper group and store the merge. */
  method MergeAndStore(pool: Pool, q: Pool, a: Implicant, k: (int, int), j: nat, ghost n: nat,
                       ghost universe: set<string>, ghost hull: seq<Range>, ghost S: set<Implicant>,
                       ghost flagged0: set<Implicant>, ghost keys0: set<(int, int, string)>, ghost e: Effect,
                       ghost flagged: set<Implicant>, ghost created: set<Implicant>)
    returns (q': Pool, ghost flagged': set<Implicant>, ghost created': set<Implicant>, m: Implicant)
    requires k in pool.groups && Upper(k) in pool.groups && j < |pool.groups[Upper(k)]|
    requires EntryOk(a, k, n, universe) && WithinHull(a.inputs, hull)
    requires GroupOk(pool.groups[Upper(k)], Upper(k), n, universe, hull)
    requires Evolves(pool, q, k, created, n, universe, hull)
    requires a in S && pool.groups[Upper(k)][j] in S
    requires Counted(flagged0, flagged, keys0, q, e) && Tracked(S, flagged, created)
    requires MergeableSpec(a.inputs, pool.groups[Upper(k)][j].inputs)
    modifies a, pool.groups[Upper(k)][j]
    ensures Evolves(pool, q', k, created', n, universe, hull) && created' == created + {m} && fresh(m)
    ensures Counted(flagged0, flagged', keys0, q', Join(e, PairEffect(a, pool.groups[Upper(k)][j])))
    ensures Tracked(S, flagged', created')
    ensures View(q') == PairView(View(q), EntryOf(a), EntryOf(pool.groups[Upper(k)][j]))
  {
    var b := pool.groups[Upper(k)][j];
    m := MergePair(a, b, k, n, universe, hull, S, flagged, created);
    MergeStored(pool, q, a, b, m, k, n, universe, hull, flagged0, keys0, e, flagged, created);
    created' := created + {m};
    q' := Insert(q, m);
    flagged' := flagged + {a, b};
  }

  /** The heap-free facts about storing the merge `m` of the eligible pair `a`, `b`. */
  lemma MergeStored(pool: Pool, q: Pool, a: Implicant, b: Implicant, m: Implicant, k: (int, int), n: nat,
                    universe: set<string>, hull: seq<Range>, flagged0: set<Implicant>, keys0: set<(int, int, string)>,
                    e: Effect, flagged: set<Implicant>, created: set<Implicant>)
    requires Evolves(pool, q, k, created, n, universe, hull) && Counted(flagged0, flagged, keys0, q, e)
    requires MergeableSpec(a.inputs, b.inputs) && KeyOf(m) == MergeKey(a, b)
    requires m.inputs == MergePins(a.inputs, b.inputs) && m.names == SortedNames(a.names + b.names)
    requires EntryOk(m, Widen(k), n, universe) && WithinHull(m.inputs, hull)
    ensures Evolves(pool, Insert(q, m), k, created + {m}, n, universe, hull)
    ensures Counted(flagged0, flagged + {a, b}, keys0, Insert(q, m), Join(e, PairEffect(a, b)))
    ensures View(Insert(q, m)) == PairView(View(q), EntryOf(a), EntryOf(b))
  {
    EvolvesByInsert(pool, q, m, k, created, n, universe, hull);
    InsertKeys(q, m);
    ViewInsert(q, m);
  }

  /**
   * One turn of the middle loop: compare `a`, the `i`-th implicant of group `k`, with every implicant
   * of the upper group, merging and storing each eligible pair.
   */
  method MergeAgainst(pool: Pool, q: Pool, k: (int, int), i: nat, ghost g1: seq<Implicant>, ghost g2: seq<Implicant>,
                      ghost n: nat, ghost universe: set<string>, ghost hull: seq<Range>, merged: bool,
                      ghost S: set<Implicant>, ghost flagged0: set<Implicant>, ghost keys0: set<(int, int, string)>,
                      ghost e: Effect, ghost flagged: set<Implicant>, ghost created: set<Implicant>)
    returns (q': Pool, merged': bool, ghost flagged': set<Implicant>, ghost created': set<Implicant>)
    requires k in pool.groups && Upper(k) in pool.groups && pool.groups[k] == g1 && pool.groups[Upper(k)] == g2
    requires i < |g1|
    requires GroupOk(g1, k, n, universe, hull) && GroupOk(g2, Upper(k), n, universe, hull)
    requires Evolves(pool, q, k, created, n, universe, hull)
    requires {g1[i]} + Elems(g2) <= S
    requires Counted(flagged0, flagged, keys0, q, Join(e, RowsEffect(g1, g2, i))) && Tracked(S, flagged, created)
    requires merged <==> PairAmong(g1, g2, i)
    modifies {g1[i]} + Elems(g2)
    ensures Evolves(pool, q', k, created', n, universe, hull) && created <= created' && (forall o :: o in created' ==> o in created || fresh(o))
    ensures Counted(flagged0, flagged', keys0, q', Join(e, RowsEffect(g1, g2, i + 1)))
    ensures Tracked(S, flagged', created')
    ensures merged' <==> PairAmong(g1, g2, i + 1)
    ensures View(q') == AgainstView(View(q), EntryOf(g1[i]), ViewGroup(g2), |g2|)
  {
    var a := pool.groups[k][i];
    var size := |pool.groups[Upper(k)]|;
    var found := false;
    q', flagged', created' := q, flagged, created;
    ghost var e1 := Join(e, RowsEffect(g1, g2, i));
    JoinNone(e1);
    var j := 0;
    while j < size
      invariant 0 <= j <= size
      invariant Evolves(pool, q', k, created', n, universe, hull) && created <= created' && (forall o :: o in created' ==> o in created || fresh(o))
      invariant Counted(flagged0, flagged', keys0, q', Join(e1, AgainstEffect(a, g2, j)))
      invariant Tracked(S, flagged', created')
      invariant found <==> EligibleAmong(a.inputs, g2, j)
      invariant View(q') == AgainstView(View(q), EntryOf(a), ViewGroup(g2), j)
    {
      assert g2[j] in Elems(g2);
      q', found, flagged', created' :=
        TryMerge(pool, q', a, k, j, n, universe, hull, found, S, flagged0, keys0, Join(e1, AgainstEffect(a, g2, j)),
                 flagged', created');
      JoinAssoc(e1, AgainstEffect(a, g2, j), PairEffect(a, g2[j]));
      j := j + 1;
    }
    merged' := merged || found;
    JoinAssoc(e, RowsEffect(g1, g2, i), AgainstEffect(a, g2, |g2|));
  }

  /**
   * The two inner loops for one group `k`: compare every implicant of `k` with every implicant of
   * Upper(k), merging and storing each eligible pair.
   */
  method MergeGroups(pool: Pool, k: (int, int), ghost n: nat, ghost universe: set<string>, ghost hull: seq<Range>,
                     ghost S: set<Implicant>, ghost flagged0: set<Implicant>, ghost keys0: set<(int, int, string)>,
                     ghost e: Effect, ghost flagged: set<Implicant>, ghost created: set<Implicant>)
    returns (q: Pool, merged: bool, ghost flagged': set<Implicant>, ghost created': set<Implicant>)
    requires k in pool.groups && Upper(k) in pool.groups
    requires WellFormed(pool, n, universe) && InHull(pool, hull)
    requires Elems(pool.groups[k]) + Elems(pool.groups[Upper(k)]) <= S
    requires Counted(flagged0, flagged, keys0, pool, e) && Tracked(S, flagged, created)
    modifies Elems(pool.groups[k]) + Elems(pool.groups[Upper(k)])
    ensures Evolves(pool, q, k, created', n, universe, hull) && created <= created' && fresh(created' - created)
    ensures WellFormed(q, n, universe) && InHull(q, hull)
    ensures Counted(flagged0, flagged', keys0, q, Join(e, KeyEffect(pool, k)))
    ensures Tracked(S, flagged', created')
    ensures merged <==> HasPair(pool.groups[k], pool.groups[Upper(k)])
    ensures View(q) == RowsView(View(pool), ViewGroup(pool.groups[k]), ViewGroup(pool.groups[Upper(k)]), |pool.groups[k]|)
  {
    var g1 := pool.groups[k];
    ghost var g2 := pool.groups[Upper(k)];
    GroupOkOf(pool, k, n, universe, hull);
    GroupOkOf(pool, Upper(k), n, universe, hull);
    EvolvesStart(pool, k, created, n, universe, hull);
    q, merged, flagged', created' := MergeRows(pool, k, g1, g2, n, universe, hull, S, flagged0, keys0, e, flagged, created);
    PairAmongAll(g1, g2);
    EvolvesWellFormed(pool, q, k, created', n, universe, hull);
  }

  /** The middle loop over the implicants `g1` of group `k`, each compared with all of `g2`, the upper group. */
  method MergeRows(pool: Pool, k: (int, int), g1: seq<Implicant>, ghost g2: seq<Implicant>, ghost n: nat,
                   ghost universe: set<string>, ghost hull: seq<Range>, ghost S: set<Implicant>,
                   ghost flagged0: set<Implicant>, ghost keys0: set<(int, int, string)>, ghost e: Effect,
                   ghost flagged: set<Implicant>, ghost created: set<Implicant>)
    returns (q: Pool, merged: bool, ghost flagged': set<Implicant>, ghost created': set<Implicant>)
    requires k in pool.groups && Upper(k) in pool.groups && pool.groups[k] == g1 && pool.groups[Upper(k)] == g2
    requires GroupOk(g1, k, n, universe, hull) && GroupOk(g2, Upper(k), n, universe, hull)
    requires Evolves(pool, pool, k, created, n, universe, hull)
    requires Elems(g1) + Elems(g2) <= S
    requires Counted(flagged0, flagged, keys0, pool, e) && Tracked(S, flagged, created)
    modifies Elems(g1) + Elems(g2)
    ensures Evolves(pool, q, k, created', n, universe, hull) && created <= created' && (forall o :: o in created' ==> o in created || fresh(o))
    ensures Counted(flagged0, flagged', keys0, q, Join(e, RowsEffect(g1, g2, |g1|)))
    ensures Tracked(S, flagged', created')
    ensures merged <==> PairAmong(g1, g2, |g1|)
    ensures View(q) == RowsView(View(pool), ViewGroup(g1), ViewGroup(g2), |g1|)
  {
    q := pool;
    merged := false;
    flagged' := flagged;
    created' := created;
    JoinNone(e);
    var i := 0;
    while i < |g1|
      invariant 0 <= i <= |g1|
      invariant Evolves(pool, q, k, created', n, universe, hull) && created <= created' && (forall o :: o in created' ==> o in created || fresh(o))
      invariant Counted(flagged0, flagged', keys0, q, Join(e, RowsEffect(g1, g2, i)))
      invariant Tracked(S, flagged', created')
      invariant merged <==> PairAmong(g1, g2, i)
      invariant View(q) == RowsView(View(pool), ViewGroup(g1), ViewGroup(g2), i)
    {
      assert g1[i] in Elems(g1);
      ghost var before := q;
      q, merged, flagged', created' :=
        MergeAgainst(pool, q, k, i, g1, g2, n, universe, hull, merged, S, flagged0, keys0, e, flagged', created');
      RowsViewNext(pool, before, q, g1, g2, i);
      i := i + 1;
    }
  }

  /** Comparing the `i`-th implicant of `g1` with all of `g2` carries the view of the middle loop from `i` to `i + 1`. */
  lemma RowsViewNext(pool: Pool, q: Pool, q': Pool, g1: seq<Implicant>, g2: seq<Implicant>, i: nat)
    requires i < |g1| && View(q) == RowsView(View(pool), ViewGroup(g1), ViewGroup(g2), i)
    requires View(q') == AgainstView(View(q), EntryOf(g1[i]), ViewGroup(g2), |g2|)
    ensures View(q') == RowsView(View(pool), ViewGroup(g1), ViewGroup(g2), i + 1)
  {
  }

  /**
   * The state of a step's loop over the outer keys after the first `t` of them: the pool stays
   * well-formed and inside the hull and evolves only in groups of spread `s + 1`; the flags and the
   * keys are those of `pool` grown by the comparisons of the first `t` groups of spread `s`; and
   * `merged` tells whether one of those groups held an eligible pair.
   */
  ghost predicate StepState(pool: Pool, q: Pool, s: int, t: nat, n: nat, universe: set<string>, hull: seq<Range>,
                            merged: bool, S: set<Implicant>, flagged0: set<Implicant>, flagged: set<Implicant>,
                            created: set<Implicant>)
    reads S, created
  {
    && t <= |pool.excOrder|
    && WellFormed(q, n, universe) && InHull(q, hull)
    && StepEvolves(pool, q, s, created)
    && Counted(flagged0, flagged, Keys(pool), q, StepEffect(pool, s, t))
    && Tracked(S, flagged, created)
    && (merged <==> PairAtAmong(pool, s, t))
  }

  /**
   * One turn of a step's loop over the outer keys: with `exc` the `t`-th outer key, merge group
   * (exc, exc + s) with (exc + 1, exc + s + 1) when the group, the outer key exc + 1 and the upper group
   * all exist. The contract carries the loop's state from `t` to `t + 1`.
   */
  method StepAt(pool: Pool, q: Pool, s: int, t: nat, ghost n: nat, ghost universe: set<string>,
                ghost hull: seq<Range>, merged: bool, ghost S: set<Implicant>, ghost flagged0: set<Implicant>,
                ghost flagged: set<Implicant>, ghost created: set<Implicant>)
    returns (q': Pool, merged': bool, ghost flagged': set<Implicant>, ghost created': set<Implicant>)
    requires t < |pool.excOrder| && ObjectsAt(pool, s) <= S
    requires StepState(pool, q, s, t, n, universe, hull, merged, S, flagged0, flagged, created)
    requires View(q) == StepView(View(pool), s, t)
    modifies ObjectsAt(pool, s)
    ensures StepState(pool, q', s, t + 1, n, universe, hull, merged', S, flagged0, flagged', created')
    ensures created <= created' && fresh(created' - created)
    ensures View(q') == StepView(View(pool), s, t + 1)
  {
    var exc := q.excOrder[t];
    var k := (exc, exc + s);
    if k in q.groups && exc + 1 in q.excOrder && Upper(k) in q.groups {
      EnterGroup(pool, q, s, t, k, n, universe, created);
      var found;
      q', found, flagged', created' :=
        MergeGroups(q, k, n, universe, hull, S, flagged0, Keys(pool), StepEffect(pool, s, t), flagged, created);
      merged' := merged || found;
      LeaveGroup(pool, q, q', s, t, k, n, universe, hull, merged, found, flagged0, flagged', created, created');
      ViewAfterGroup(pool, q, q', s, t, k);
    } else {
      SkipGroup(pool, q, s, t, k, n, universe, created);
      ViewSkipsGroup(pool, q, s, t, k, created);
      q', merged', flagged', created' := q, merged, flagged, created;
    }
  }

  /** Group `k` of spread `s`, met at the `t`-th outer key, is untouched so far in the step, and lies in its objects. */
  lemma EnterGroup(pool: Pool, q: Pool, s: int, t: nat, k: (int, int), n: nat, universe: set<string>,
                   created: set<Implicant>)
    requires t < |pool.excOrder| && StepEvolves(pool, q, s, created)
    requires k == (q.excOrder[t], q.excOrder[t] + s) && k in q.groups && Upper(k) in q.groups
    ensures k == KeyAt(pool, s, t) && k in pool.groups && Upper(k) in pool.groups
    ensures q.groups[k] == pool.groups[k] && q.groups[Upper(k)] == pool.groups[Upper(k)]
    ensures KeyEffect(q, k) == KeyEffect(pool, k)
    ensures Elems(q.groups[k]) + Elems(q.groups[Upper(k)]) <= ObjectsAt(pool, s)
  {
    GroupInObjectsAt(pool, k);
    GroupInObjectsAt(pool, Upper(k));
  }

  /** Merging group `k`, met at the `t`-th outer key, carries the state of the step to `t + 1`. */
  lemma LeaveGroup(pool: Pool, q: Pool, q': Pool, s: int, t: nat, k: (int, int), n: nat, universe: set<string>,
                   hull: seq<Range>, merged: bool, found: bool, flagged0: set<Implicant>, flagged': set<Implicant>,
                   created: set<Implicant>, created': set<Implicant>)
    requires t < |pool.excOrder| && k == KeyAt(pool, s, t) && k in pool.groups && Upper(k) in pool.groups
    requires k in q.groups && Upper(k) in q.groups
    requires q.groups[k] == pool.groups[k] && q.groups[Upper(k)] == pool.groups[Upper(k)]
    requires StepEvolves(pool, q, s, created) && Evolves(q, q', k, created', n, universe, hull) && created <= created'
    requires Counted(flagged0, flagged', Keys(pool), q', Join(StepEffect(pool, s, t), KeyEffect(pool, k)))
    requires merged <==> PairAtAmong(pool, s, t)
    requires found <==> HasPair(q.groups[k], q.groups[Upper(k)])
    ensures StepEvolves(pool, q', s, created')
    ensures Counted(flagged0, flagged', Keys(pool), q', StepEffect(pool, s, t + 1))
    ensures merged || found <==> PairAtAmong(pool, s, t + 1)
  {
    StepByGroup(pool, q, q', k, s, created, created', n, universe, hull);
    assert created + created' == created';
  }

  /** Merging group `k`, met at the `t`-th outer key, carries the view of the step to `t + 1`. */
  lemma ViewAfterGroup(pool: Pool, q: Pool, q': Pool, s: int, t: nat, k: (int, int))
    requires t < |pool.excOrder| && k == KeyAt(pool, s, t) && k in pool.groups && Upper(k) in pool.groups
    requires k.0 + 1 in pool.excOrder && k in q.groups && Upper(k) in q.groups
    requires q.groups[k] == pool.groups[k] && q.groups[Upper(k)] == pool.groups[Upper(k)]
    requires View(q) == StepView(View(pool), s, t)
    requires View(q') == RowsView(View(q), ViewGroup(q.groups[k]), ViewGroup(q.groups[Upper(k)]), |q.groups[k]|)
    ensures View(q') == StepView(View(pool), s, t + 1)
  {
    var v := View(pool);
    assert v.groups[k] == ViewGroup(pool.groups[k]) && v.groups[Upper(k)] == ViewGroup(pool.groups[Upper(k)]);
  }

  /** Where the step skips the `t`-th outer key, its view stays as it was. */
  lemma ViewSkipsGroup(pool: Pool, q: Pool, s: int, t: nat, k: (int, int), created: set<Implicant>)
    requires t < |pool.excOrder| && StepEvolves(pool, q, s, created)
    requires k == (q.excOrder[t], q.excOrder[t] + s) && !(k in q.groups && k.0 + 1 in q.excOrder && Upper(k) in q.groups)
    requires View(q) == StepView(View(pool), s, t)
    ensures View(q) == StepView(View(pool), s, t + 1)
  {
  }

  /** A missing group, outer key or upper group at the `t`-th outer key adds nothing to the step. */
  lemma SkipGroup(pool: Pool, q: Pool, s: int, t: nat, k: (int, int), n: nat, universe: set<string>,
                  created: set<Implicant>)
    requires t < |pool.excOrder| && StepEvolves(pool, q, s, created) && WellFormed(q, n, universe)
    requires k == (q.excOrder[t], q.excOrder[t] + s) && !(k in q.groups && k.0 + 1 in q.excOrder && Upper(k) in q.groups)
    ensures StepEffect(pool, s, t + 1) == StepEffect(pool, s, t)
    ensures PairAtAmong(pool, s, t + 1) <==> PairAtAmong(pool, s, t)
  {
    assert !(k in pool.groups && Upper(k) in pool.groups);
    JoinNone(StepEffect(pool, s, t));
  }

  /**
   * Step `s + 1` of the closure loop: for every outer key exc, in insertion order, merge group
   * (exc, exc + s) with (exc + 1, exc + s + 1). Only groups of spread `s + 1` grow; the operands flagged
   * and the keys added are exactly those of the eligible pairs of spread `s`; and the step reports a
   * merge exactly when it found an eligible pair.
   */
  method Step(pool: Pool, s: int, ghost n: nat, ghost universe: set<string>, ghost hull: seq<Range>,
              ghost flagged: set<Implicant>)
    returns (q: Pool, merged: bool, ghost flagged': set<Implicant>, ghost created: set<Implicant>)
    requires WellFormed(pool, n, universe) && InHull(pool, hull)
    requires Synced(Objects(pool), flagged)
    modifies ObjectsAt(pool, s)
    ensures WellFormed(q, n, universe) && InHull(q, hull)
    ensures StepEvolves(pool, q, s, created) && fresh(created)
    ensures Counted(flagged, flagged', Keys(pool), q, StepEffect(pool, s, |pool.excOrder|))
    ensures Tracked(Objects(pool), flagged', created)
    ensures merged <==> HasPairAt(pool, s)
    ensures View(q) == StepView(View(pool), s, |pool.excOrder|)
  {
    StepStart(pool, s);
    ObjectsAtInPool(pool, s);
    q := pool;
    merged := false;
    flagged' := flagged;
    created := {};
    var t := 0;
    while t < |pool.excOrder|
      invariant StepState(pool, q, s, t, n, universe, hull, merged, Objects(pool), flagged, flagged', created)
      invariant fresh(created)
      invariant View(q) == StepView(View(pool), s, t)
    {
      q, merged, flagged', created := StepAt(pool, q, s, t, n, universe, hull, merged, Objects(pool), flagged, flagged', created);
      t := t + 1;
    }
    StepMeans(pool, s, n, universe);
  }

  /**
   * The state of the closure loop after `step - 1` steps, `goOn` telling whether the last one merged:
   * the bookkeeping of `Advanced`, and the flags set are exactly those of the operands of eligible pairs.
   */
  ghost predicate Progress(pool: Pool, q: Pool, step: nat, goOn: bool, flagged: set<Implicant>, n: nat,
                           universe: set<string>, hull: seq<Range>)
    reads Objects(q)
  {
    Advanced(pool, q, step, goOn, flagged, n, universe, hull) && Synced(Objects(q), flagged)
  }

  /**
   * The heap-free part of `Progress`: every step before the last found an eligible pair and, once the
   * loop stops, the last found none; the pool is well-formed and inside the hull; and the keys and the
   * flagged implicants are those of the loaded pool grown by the comparisons made; and the dictionary,
   * flags aside, is the loaded one after the steps run so far.
   */
  ghost predicate Advanced(pool: Pool, q: Pool, step: nat, goOn: bool, flagged: set<Implicant>, n: nat,
                           universe: set<string>, hull: seq<Range>)
  {
    && 1 <= step
    && (goOn ==> step <= Max(HullWidth(hull), 0) + 2 && PairsBelow(q, step - 1))
    && (!goOn ==> 2 <= step <= Max(HullWidth(hull), 0) + 3 && PairsBelow(q, step - 2) && !HasPairAt(q, step - 2))
    && WellFormed(q, n, universe) && InHull(q, hull)
    && Keys(q) == Keys(pool) + ClosureEffect(q, step - 1).keys
    && flagged == ClosureEffect(q, step - 1).ops
    && View(q) == ClosureView(View(pool), step - 1)
  }

  /**
   * The closure loop: run step after step, step `s + 1` merging the groups of spread `s`, until a
   * step merges nothing; `maxStep` is the number of steps run. Every step but the last found an
   * eligible pair and the last found none; the keys added are exactly the merges of the eligible pairs
   * of the spreads compared; an implicant of the pool has its flag set exactly when it is an operand of
   * such a pair; and the hull bounds the number of steps.
   */
  method MergeClosure(pool: Pool, ghost n: nat, ghost universe: set<string>, ghost hull: seq<Range>)
    returns (q: Pool, maxStep: nat, ghost flagged: set<Implicant>)
    requires WellFormed(pool, n, universe) && InHull(pool, hull)
    requires forall o :: o in Objects(pool) ==> !o.used
    modifies Objects(pool)
    ensures WellFormed(q, n, universe) && InHull(q, hull)
    ensures forall o :: o in Objects(q) && o !in Objects(pool) ==> fresh(o)
    ensures 1 <= maxStep <= Max(HullWidth(hull), 0) + 2
    ensures PairsBelow(q, maxStep - 1) && !HasPairAt(q, maxStep - 1)
    ensures Keys(q) == Keys(pool) + ClosureEffect(q, maxStep).keys
    ensures Synced(Objects(q), flagged) && flagged == ClosureEffect(q, maxStep).ops
    ensures View(q) == ClosureView(View(pool), maxStep)
  {
    q := pool;
    flagged := {};
    var goOn := true;
    var step := 1;
    while goOn
      invariant Progress(pool, q, step, goOn, flagged, n, universe, hull)
      invariant forall o :: o in Objects(q) && o !in Objects(pool) ==> fresh(o)
      decreases Max(HullWidth(hull), 0) + 2 - step
    {
      ghost var c;
      q, goOn, flagged, c := CloseStep(pool, q, step, n, universe, hull, flagged);
      step := step + 1;
    }
    maxStep := step - 1;
  }

  /**
   * One turn of the closure loop: step `step` on the pool `p` that the earlier steps left. It carries
   * the state of the loop from `step` to `step + 1`; `c` are the implicants it creates.
   */
  method CloseStep(pool: Pool, p: Pool, step: nat, ghost n: nat, ghost universe: set<string>, ghost hull: seq<Range>,
                   ghost flagged: set<Implicant>)
    returns (q: Pool, merged: bool, ghost flagged': set<Implicant>, ghost c: set<Implicant>)
    requires Progress(pool, p, step, true, flagged, n, universe, hull)
    modifies ObjectsAt(p, step - 1)
    ensures Progress(pool, q, step + 1, merged, flagged', n, universe, hull)
    ensures Objects(q) <= Objects(p) + c && fresh(c)
  {
    q, merged, flagged', c := Step(p, step - 1, n, universe, hull, flagged);
    StepAdvances(pool, p, q, step, c, merged, n, universe, hull, flagged, flagged');
    forall o | o in Objects(q) ensures o.used <==> o in flagged' {
      if o !in Objects(p) {
        assert o in c;
      }
    }
  }

  /** The heap-free part of one turn of the closure loop. */
  lemma StepAdvances(pool: Pool, p: Pool, q: Pool, step: nat, c: set<Implicant>, merged: bool, n: nat,
                     universe: set<string>, hull: seq<Range>, flagged: set<Implicant>, flagged': set<Implicant>)
    requires Advanced(pool, p, step, true, flagged, n, universe, hull)
    requires WellFormed(q, n, universe) && InHull(q, hull)
    requires StepEvolves(p, q, step - 1, c)
    requires Counted(flagged, flagged', Keys(p), q, StepEffect(p, step - 1, |p.excOrder|))
    requires merged <==> HasPairAt(p, step - 1)
    requires View(q) == StepView(View(p), step - 1, |p.excOrder|)
    ensures Advanced(pool, q, step + 1, merged, flagged', n, universe, hull)
    ensures Objects(q) <= Objects(p) + c && flagged' <= Objects(p)
  {
    ClosureFacts(p, q, step, c, n, universe, flagged, flagged', Keys(pool));
    PairsKept(p, q, step, c);
    if merged {
      PairAtWithinHull(p, step - 1, n, universe, hull);
    }
  }

  /** The heap-free facts about the sets of one step of the closure loop. */
  lemma ClosureFacts(p: Pool, q: Pool, step: nat, c: set<Implicant>, n: nat, universe: set<string>,
                     flagged: set<Implicant>, flagged': set<Implicant>, keys0: set<(int, int, string)>)
    requires 1 <= step && StepEvolves(p, q, step - 1, c) && WellFormed(p, n, universe)
    requires Keys(p) == keys0 + ClosureEffect(p, step - 1).keys && flagged == ClosureEffect(p, step - 1).ops
    requires Counted(flagged, flagged', Keys(p), q, StepEffect(p, step - 1, |p.excOrder|))
    ensures Objects(q) <= Objects(p) + c
    ensures flagged' <= Objects(p)
    ensures Keys(q) == keys0 + ClosureEffect(q, step).keys && flagged' == ClosureEffect(q, step).ops
  {
    StepKeys(p, q, step - 1, c);
    EffectAfterStep(p, q, step, c);
    ClosureOpsInPool(p, step, n, universe);
    AddEffects(keys0, Keys(p), Keys(q), flagged, flagged', ClosureEffect(p, step - 1),
               StepEffect(p, step - 1, |p.excOrder|), ClosureEffect(q, step));
  }

  /** What the closure loop has compared after step `step` is what it had compared before, and that step. */
  lemma EffectAfterStep(p: Pool, q: Pool, step: nat, c: set<Implicant>)
    requires 1 <= step && StepEvolves(p, q, step - 1, c)
    ensures ClosureEffect(q, step) == ClosureEffect(p, step)
    ensures ClosureEffect(p, step) == Join(ClosureEffect(p, step - 1), StepEffect(p, step - 1, |p.excOrder|))
  {
    ClosureKept(p, q, step - 1, c, step - 1);
    StepEffectKept(p, q, step - 1, c, step - 1, |p.excOrder|);
  }

  /** One step of the closure loop leaves the pairs of the spreads it does not create alone. */
  lemma PairsKept(p: Pool, q: Pool, step: nat, c: set<Implicant>)
    requires 1 <= step && StepEvolves(p, q, step - 1, c)
    ensures PairsBelow(p, step - 1) ==> PairsBelow(q, step - 1)
    ensures HasPairAt(p, step - 1) <==> HasPairAt(q, step - 1)
  {
    BelowKept(p, q, step - 1, c, step - 1);
    StepKeepsSpread(p, q, step - 1, c, step - 1);
  }

  /** Adding the effects of two stretches of comparisons one after the other adds their join. */
  lemma AddEffects(keys0: set<(int, int, string)>, keys1: set<(int, int, string)>, keys2: set<(int, int, string)>,
                   flagged1: set<Implicant>, flagged2: set<Implicant>, e1: Effect, e2: Effect, e: Effect)
    requires keys1 == keys0 + e1.keys && flagged1 == e1.ops
    requires keys2 == keys1 + e2.keys && flagged2 == flagged1 + e2.ops
    requires e == Join(e1, e2)
    ensures keys2 == keys0 + e.keys && flagged2 == e.ops
  {
  }

  /** A flagged implicant comes from the comparison of some group below step `m`. */
  lemma OpsKey(p: Pool, m: int, n: nat, universe: set<string>, o: Implicant)
    requires WellFormed(p, n, universe) && o in ClosureEffect(p, m).ops
    ensures exists k :: k in p.groups && 0 <= Spread(k) < m && o in KeyEffect(p, k).ops
  {
    ClosureEffectMeans(p, m, n, universe);
  }

  /** Only implicants of the pool are flagged by comparing its groups. */
  lemma ClosureOpsInPool(p: Pool, m: int, n: nat, universe: set<string>)
    requires WellFormed(p, n, universe)
    ensures ClosureEffect(p, m).ops <= Objects(p)
  {
    forall o | o in ClosureEffect(p, m).ops ensures o in Objects(p) {
      OpsKey(p, m, n, universe, o);
      var k :| k in p.groups && 0 <= Spread(k) < m && o in KeyEffect(p, k).ops;
      KeyOpsInPool(p, k, o);
    }
  }

  /** Comparing group `k` with the group above flags only entries of the two. */
  lemma KeyOpsInPool(p: Pool, k: (int, int), o: Implicant)
    requires k in p.groups && o in KeyEffect(p, k).ops
    ensures o in Objects(p)
  {
    assert Upper(k) in p.groups;
    var g1, g2 := p.groups[k], p.groups[Upper(k)];
    RowsEffectMeans(g1, g2, |g1|);
    var i, j :| 0 <= i < |g1| && 0 <= j < |g2| && MergeableSpec(g1[i].inputs, g2[j].inputs) && (o == g1[i] || o == g2[j]);
    if o == g1[i] {
      assert p.groups[k][i] in Objects(p);
    } else {
      assert p.groups[Upper(k)][j] in Objects(p);
    }
  }

}
