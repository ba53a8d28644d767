/**
 * The implicant pool: the source's nested dictionary exc -> inh -> name -> implicant, and the
 * loading of the raw minterms into it.
 */
module Pools {
  import opened Delays
  import opened Names
  import opened Implicants

  /**
   * `excOrder` lists the outer keys (excitatory sums) in insertion order. `groups[(exc, inh)]` lists the
   * implicants of one group in the insertion order of their names; an inner dictionary is never left empty.
   */
  datatype Pool = Pool(excOrder: seq<int>, groups: map<(int, int), seq<Implicant>>)

  /** An input row after the header: the minterm name and one delay cell per input pin. */
  datatype Row = Row(name: string, cells: seq<string>)

  /** Every implicant object the pool holds. */
  ghost function Objects(p: Pool): set<Implicant> {
    set k, i | k in p.groups && 0 <= i < |p.groups[k]| :: p.groups[k][i]
  }

  /** The (exc, inh, name) keys of the nested dictionary. */
  ghost function Keys(p: Pool): set<(int, int, string)> {
    set k, i | k in p.groups && 0 <= i < |p.groups[k]| :: (k.0, k.1, p.groups[k][i].Name())
  }

  function KeyOf(imp: Implicant): (int, int, string) {
    (imp.excSum, imp.inhSum, imp.Name())
  }

  predicate Distinct(s: seq<int>) {
    forall i, j :: 0 <= i < j < |s| ==> s[i] != s[j]
  }

  /** An entry stored under group `k`: consistent, of arity `n`, with names from `universe`. */
  ghost predicate EntryOk(imp: Implicant, k: (int, int), n: nat, universe: set<string>) {
    && imp.Valid()
    && |imp.inputs| == n
    && imp.excSum == k.0 && imp.inhSum == k.1
    && forall m :: m in imp.names ==> m in universe
  }

  /** No two entries of a group share a name: the group is the inner dictionary name -> implicant. */
  ghost predicate DistinctNames(g: seq<Implicant>) {
    forall i, j :: 0 <= i < j < |g| ==> g[i].Name() != g[j].Name()
  }

  /** A non-empty inner dictionary whose entries all belong under key `k`. */
  ghost predicate GroupFits(g: seq<Implicant>, k: (int, int), n: nat, universe: set<string>) {
    && g != []
    && (forall i :: 0 <= i < |g| ==> EntryOk(g[i], k, n, universe))
    && DistinctNames(g)
  }

  /** The shape the source's dictionary keeps: every entry sits under its own sums and name. */
  ghost predicate WellFormed(p: Pool, n: nat, universe: set<string>) {
    && Distinct(p.excOrder)
    && forall k :: k in p.groups ==> k.0 in p.excOrder && GroupFits(p.groups[k], k, n, universe)
  }

  /** Index of the entry called `name` in a group, or -1. */
  function IndexOfName(g: seq<Implicant>, name: string): (i: int)
    ensures -1 <= i < |g|
    ensures i >= 0 ==> g[i].Name() == name
    ensures i < 0 ==> forall j :: 0 <= j < |g| ==> g[j].Name() != name
  {
    if g == [] then -1
    else if g[|g| - 1].Name() == name then |g| - 1
    else IndexOfName(g[..|g| - 1], name)
  }

  /** `group[name] = imp`: overwrite in place when the name is present, append otherwise. */
  function Put(g: seq<Implicant>, imp: Implicant): seq<Implicant> {
    var i := IndexOfName(g, imp.Name());
    if i >= 0 then g[i := imp] else g + [imp]
  }

  /**
   * `d[exc][inh][name] = imp`, creating the outer and inner dictionaries when missing.
   * Nothing is removed: the only entry that can be replaced is the one under imp's own key.
   */
  function Insert(p: Pool, imp: Implicant): (q: Pool)
    ensures q.excOrder == if imp.excSum in p.excOrder then p.excOrder else p.excOrder + [imp.excSum]
    ensures q.groups.Keys == p.groups.Keys + {(imp.excSum, imp.inhSum)}
    ensures forall k :: k in p.groups && k != (imp.excSum, imp.inhSum) ==> q.groups[k] == p.groups[k]
    ensures var k := (imp.excSum, imp.inhSum);
      k in p.groups ==>
        && |p.groups[k]| <= |q.groups[k]| <= |p.groups[k]| + 1
        && forall i :: 0 <= i < |p.groups[k]| && p.groups[k][i].Name() != imp.Name() ==>
             q.groups[k][i] == p.groups[k][i]
  {
    var key := (imp.excSum, imp.inhSum);
    var order := if imp.excSum in p.excOrder then p.excOrder else p.excOrder + [imp.excSum];
    var group := if key in p.groups then Put(p.groups[key], imp) else [imp];
    Pool(order, p.groups[key := group])
  }

  /** Inserting adds exactly the key of the new entry, and the new entry is the only new object. */
  lemma InsertKeys(p: Pool, imp: Implicant)
    ensures var q := Insert(p, imp);
      && Keys(q) == Keys(p) + {KeyOf(imp)}
      && imp in Objects(q) && Objects(q) <= Objects(p) + {imp}
  {
    var q := Insert(p, imp);
    var key := (imp.excSum, imp.inhSum);
    var g := q.groups[key];
    var at := if key in p.groups then IndexOfName(p.groups[key], imp.Name()) else -1;
    var idx := if at >= 0 then at else |g| - 1;
    assert g[idx] == imp;
    assert KeyOf(imp) in Keys(q) by {
      assert (key.0, key.1, g[idx].Name()) in Keys(q);
    }
    assert imp in Objects(q) by {
      assert q.groups[key][idx] == imp;
    }
    InsertNewKeys(p, imp);
    InsertOldKeys(p, imp, at);
    InsertObjects(p, imp);
  }

  /** An entry of the new pool other than `imp` sits where it sat in the old one. */
  lemma InsertEntry(p: Pool, imp: Implicant, k: (int, int), i: int)
    requires k in Insert(p, imp).groups && 0 <= i < |Insert(p, imp).groups[k]|
    requires Insert(p, imp).groups[k][i] != imp
    ensures k in p.groups && i < |p.groups[k]| && Insert(p, imp).groups[k][i] == p.groups[k][i]
  {
    var key := (imp.excSum, imp.inhSum);
    if k == key {
      assert Insert(p, imp).groups[key] == if key in p.groups then Put(p.groups[key], imp) else [imp];
      if key in p.groups {
        PutEntries(p.groups[key], imp);
      }
    }
  }

  lemma InsertNewKeys(p: Pool, imp: Implicant)
    ensures Keys(Insert(p, imp)) <= Keys(p) + {KeyOf(imp)}
  {
    var q := Insert(p, imp);
    forall t | t in Keys(q) ensures t in Keys(p) + {KeyOf(imp)} {
      var k, i :| k in q.groups && 0 <= i < |q.groups[k]| && t == (k.0, k.1, q.groups[k][i].Name());
      if q.groups[k][i] != imp {
        InsertEntry(p, imp, k, i);
        assert t == (k.0, k.1, p.groups[k][i].Name());
      }
    }
  }

  lemma InsertOldKeys(p: Pool, imp: Implicant, at: int)
    requires at == if (imp.excSum, imp.inhSum) in p.groups then IndexOfName(p.groups[(imp.excSum, imp.inhSum)], imp.Name()) else -1
    ensures Keys(p) <= Keys(Insert(p, imp)) + {KeyOf(imp)}
  {
    var q := Insert(p, imp);
    var key := (imp.excSum, imp.inhSum);
    forall t | t in Keys(p) ensures t in Keys(q) + {KeyOf(imp)} {
      var k, i :| k in p.groups && 0 <= i < |p.groups[k]| && t == (k.0, k.1, p.groups[k][i].Name());
      if k == key && i == at {
        assert t == KeyOf(imp);
      } else {
        assert q.groups[k][i] == p.groups[k][i];
        assert t == (k.0, k.1, q.groups[k][i].Name());
      }
    }
  }

  lemma InsertObjects(p: Pool, imp: Implicant)
    ensures Objects(Insert(p, imp)) <= Objects(p) + {imp}
  {
    var q := Insert(p, imp);
    forall o | o in Objects(q) ensures o in Objects(p) + {imp} {
      var k, i :| k in q.groups && 0 <= i < |q.groups[k]| && o == q.groups[k][i];
      if o != imp {
        InsertEntry(p, imp, k, i);
      }
    }
  }

  /**
   * In a group with distinct names, each entry of `Put(g, imp)` other than `imp` is the entry `g` had at
   * the same index, under another name: the entry named like `imp` is replaced.
   */
  lemma PutOthers(g: seq<Implicant>, imp: Implicant)
    requires DistinctNames(g)
    ensures var r := Put(g, imp);
      forall i :: 0 <= i < |r| && r[i] != imp ==> i < |g| && r[i] == g[i] && g[i].Name() != imp.Name()
  {
  }

  /** An entry of the new pool other than `imp` is an old entry, stored under another key than imp's. */
  lemma InsertOthers(p: Pool, imp: Implicant, n: nat, universe: set<string>, k: (int, int), i: int)
    requires WellFormed(p, n, universe)
    requires k in Insert(p, imp).groups && 0 <= i < |Insert(p, imp).groups[k]|
    requires Insert(p, imp).groups[k][i] != imp
    ensures k in p.groups && i < |p.groups[k]| && Insert(p, imp).groups[k][i] == p.groups[k][i]
    ensures KeyOf(p.groups[k][i]) != KeyOf(imp)
  {
    InsertEntry(p, imp, k, i);
    assert EntryOk(p.groups[k][i], k, n, universe);
    var key := (imp.excSum, imp.inhSum);
    if k == key {
      PutOthers(p.groups[key], imp);
      assert Insert(p, imp).groups[key] == Put(p.groups[key], imp);
    }
  }

  /** Each entry of `Put(g, imp)` is `imp` or the entry `g` had at the same index. */
  lemma PutEntries(g: seq<Implicant>, imp: Implicant)
    ensures var r := Put(g, imp);
      && |g| <= |r| <= |g| + 1
      && (forall i :: 0 <= i < |r| ==> r[i] == imp || (i < |g| && r[i] == g[i]))
      && (forall i :: 0 <= i < |g| && g[i].Name() != imp.Name() ==> r[i] == g[i])
  {
  }

  /** Putting keeps the names of a group distinct. */
  lemma PutDistinctNames(g: seq<Implicant>, imp: Implicant)
    requires DistinctNames(g)
    ensures DistinctNames(Put(g, imp))
  {
    var r := Put(g, imp);
    var at := IndexOfName(g, imp.Name());
    forall i, j | 0 <= i < j < |r| ensures r[i].Name() != r[j].Name() {
      if at >= 0 {
        if i == at {
          assert r[j] == g[j];
        } else if j == at {
          assert r[i] == g[i];
        } else {
          assert r[i] == g[i] && r[j] == g[j];
        }
      } else if j == |g| {
        assert r[i] == g[i] && r[j] == imp;
      } else {
        assert r[i] == g[i] && r[j] == g[j];
      }
    }
  }

  /** Putting an entry that belongs under key `k` into a group of `k` keeps it a group of `k`. */
  lemma PutFits(g: seq<Implicant>, imp: Implicant, k: (int, int), n: nat, universe: set<string>)
    requires GroupFits(g, k, n, universe) && EntryOk(imp, k, n, universe)
    ensures GroupFits(Put(g, imp), k, n, universe)
  {
    PutEntries(g, imp);
    PutDistinctNames(g, imp);
  }

  /** Inserting an entry that fits its own key keeps the dictionary's shape. */
  lemma InsertWellFormed(p: Pool, imp: Implicant, n: nat, universe: set<string>)
    requires WellFormed(p, n, universe)
    requires EntryOk(imp, (imp.excSum, imp.inhSum), n, universe)
    ensures WellFormed(Insert(p, imp), n, universe)
  {
    var q := Insert(p, imp);
    var key := (imp.excSum, imp.inhSum);
    if key in p.groups {
      PutFits(p.groups[key], imp, key, n, universe);
      assert q.groups[key] == Put(p.groups[key], imp);
    } else {
      assert q.groups[key] == [imp];
    }
    forall k | k in q.groups ensures k.0 in q.excOrder && GroupFits(q.groups[k], k, n, universe) {
      if k != key {
        assert q.groups[k] == p.groups[k];
      }
    }
  }

  /** What the dictionary holds of an implicant apart from its flag: its pins and its sorted names. */
  datatype Entry = Entry(inputs: seq<Input>, names: seq<string>)

  /** The dictionary without the flags: the outer keys in insertion order, each group's entries in order. */
  datatype PoolView = PoolView(excOrder: seq<int>, groups: map<(int, int), seq<Entry>>)

  function EntryOf(imp: Implicant): Entry {
    Entry(imp.inputs, imp.names)
  }

  function ViewGroup(g: seq<Implicant>): seq<Entry> {
    seq(|g|, i requires 0 <= i < |g| => EntryOf(g[i]))
  }

  function View(p: Pool): PoolView {
    PoolView(p.excOrder, map k | k in p.groups :: ViewGroup(p.groups[k]))
  }

  /** Index of the entry called `name` in a group of entries, or -1. */
  function EntryIndex(g: seq<Entry>, name: string): (i: int)
    ensures -1 <= i < |g|
    ensures i >= 0 ==> JoinNames(g[i].names) == name
    ensures i < 0 ==> forall j :: 0 <= j < |g| ==> JoinNames(g[j].names) != name
  {
    if g == [] then -1
    else if JoinNames(g[|g| - 1].names) == name then |g| - 1
    else EntryIndex(g[..|g| - 1], name)
  }

  /** `group[name] = e` on entries: overwrite in place when the name is present, append otherwise. */
  function PutEntry(g: seq<Entry>, e: Entry): seq<Entry> {
    var i := EntryIndex(g, JoinNames(e.names));
    if i >= 0 then g[i := e] else g + [e]
  }

  /**
   * `d[exc][inh][name] = e` on entries: the entry lands under the sums of its pins and its joined
   * names, and a new outer key goes last.
   */
  function Store(v: PoolView, e: Entry): (w: PoolView)
    ensures w.groups.Keys == v.groups.Keys + {(SumExc(e.inputs), SumInh(e.inputs))}
  {
    var key := (SumExc(e.inputs), SumInh(e.inputs));
    var order := if key.0 in v.excOrder then v.excOrder else v.excOrder + [key.0];
    var group := if key in v.groups then PutEntry(v.groups[key], e) else [e];
    PoolView(order, v.groups[key := group])
  }

  lemma {:induction false} EntryIndexOf(g: seq<Implicant>, name: string)
    ensures EntryIndex(ViewGroup(g), name) == IndexOfName(g, name)
  {
    if g != [] {
      EntryIndexOf(g[..|g| - 1], name);
      assert ViewGroup(g)[..|g| - 1] == ViewGroup(g[..|g| - 1]);
    }
  }

  /** Putting an implicant into a group and then viewing it is putting its entry into the viewed group. */
  lemma ViewPut(g: seq<Implicant>, imp: Implicant)
    ensures ViewGroup(Put(g, imp)) == PutEntry(ViewGroup(g), EntryOf(imp))
  {
    EntryIndexOf(g, imp.Name());
    var i := IndexOfName(g, imp.Name());
    if i >= 0 {
      assert ViewGroup(g[i := imp]) == ViewGroup(g)[i := EntryOf(imp)];
    } else {
      assert ViewGroup(g + [imp]) == ViewGroup(g) + [EntryOf(imp)];
    }
  }

  /** The view of the pool after `d[exc][inh][name] = imp` is the view before with imp's entry stored. */
  lemma ViewInsert(p: Pool, imp: Implicant)
    requires imp.Valid()
    ensures View(Insert(p, imp)) == Store(View(p), EntryOf(imp))
  {
    var key := (imp.excSum, imp.inhSum);
    var q := Insert(p, imp);
    var w := Store(View(p), EntryOf(imp));
    if key in p.groups {
      ViewPut(p.groups[key], imp);
      assert q.groups[key] == Put(p.groups[key], imp);
    } else {
      assert ViewGroup([imp]) == [EntryOf(imp)];
    }
    assert View(q).groups[key] == w.groups[key];
    assert View(q).groups == w.groups;
  }

  /** Pins of a row whose cells all parse. */
  function RowPins(r: Row): seq<Input>
    requires ParseRow(r.cells).Some?
  {
    ParseRow(r.cells).value
  }

  /** The dictionary key a raw row is stored under. */
  function RowKey(r: Row): (int, int, string)
    requires ParseRow(r.cells).Some?
  {
    (SumExc(RowPins(r)), SumInh(RowPins(r)), r.name)
  }

  /** The entry a raw row is stored as: its pins and its name alone. */
  function RowEntry(r: Row): Entry
    requires ParseRow(r.cells).Some?
  {
    Entry(RowPins(r), [r.name])
  }

  /** The dictionary the reader builds from the first `r` rows, one `d[exc][inh][name] = ...` per row. */
  function LoadView(rows: seq<Row>, r: nat): PoolView
    requires r <= |rows| && forall i :: 0 <= i < |rows| ==> ParseRow(rows[i].cells).Some?
  {
    if r == 0 then PoolView([], map[]) else Store(LoadView(rows, r - 1), RowEntry(rows[r - 1]))
  }

  /** The name column of the rows, in order. */
  function RowNames(rows: seq<Row>): (names: seq<string>)
    ensures |names| == |rows| && forall i :: 0 <= i < |rows| ==> names[i] == rows[i].name
  {
    if rows == [] then [] else RowNames(rows[..|rows| - 1]) + [rows[|rows| - 1].name]
  }

  /** The distinct names of a list of names. */
  ghost function NameSet(names: seq<string>): set<string> {
    set m | m in names
  }

  /** The dictionary keys of all rows. */
  ghost function RowKeys(rows: seq<Row>): set<(int, int, string)>
    requires forall i :: 0 <= i < |rows| ==> ParseRow(rows[i].cells).Some?
  {
    set i | 0 <= i < |rows| :: RowKey(rows[i])
  }

  /** The cell loop of the CSV reader: every delay cell of a row becomes one input pin. */
  method ParsePins(cells: seq<string>) returns (pins: seq<Input>)
    requires ParseRow(cells).Some?
    ensures pins == ParseRow(cells).value
  {
    ghost var want := ParseRow(cells).value;
    ParseRowMeans(cells);
    pins := [];
    var j := 0;
    while j < |cells|
      invariant 0 <= j <= |cells|
      invariant |pins| == j && forall i :: 0 <= i < j ==> pins[i] == want[i]
    {
      pins := pins + [ParseCell(cells[j]).value];
      j := j + 1;
    }
  }

  /** One row of the CSV reader: parse its delay cells and build the one-name implicant. */
  method LoadRow(row: Row) returns (imp: Implicant)
    requires ParseRow(row.cells).Some?
    ensures fresh(imp) && !imp.used && imp.Valid()
    ensures imp.inputs == RowPins(row) && imp.names == [row.name]
    ensures KeyOf(imp) == RowKey(row)
  {
    var pins := ParsePins(row.cells);
    imp := new Implicant(pins, [row.name]);
    assert SortedNames([row.name]) == [row.name];
    assert JoinNames([row.name]) == row.name + "" == row.name;
  }

  lemma RowKeysStep(rows: seq<Row>, r: nat)
    requires r < |rows| && forall x :: x in rows ==> ParseRow(x.cells).Some?
    ensures (set i | 0 <= i < r + 1 :: RowKey(rows[i])) == (set i | 0 <= i < r :: RowKey(rows[i])) + {RowKey(rows[r])}
  {
  }

  lemma NamesAsSet(rows: seq<Row>, allNames: seq<string>)
    requires |allNames| == |rows| && forall i :: 0 <= i < |rows| ==> allNames[i] == rows[i].name
    ensures (set m | m in allNames) == set i | 0 <= i < |rows| :: rows[i].name
  {
    forall m ensures m in allNames <==> exists i :: 0 <= i < |rows| && rows[i].name == m {
      if m in allNames {
        var i :| 0 <= i < |allNames| && allNames[i] == m;
        assert m == rows[i].name;
      }
      if exists i :: 0 <= i < |rows| && rows[i].name == m {
        var i :| 0 <= i < |rows| && rows[i].name == m;
        assert allNames[i] == m;
      }
    }
  }

  /** Loads one row and stores its implicant in the pool (the body of the reader's row loop). */
  method AddRow(pool: Pool, row: Row, ghost n: nat, ghost universe: set<string>) returns (q: Pool, imp: Implicant)
    requires WellFormed(pool, n, universe)
    requires ParseRow(row.cells).Some? && |row.cells| == n && row.name in universe
    ensures q == Insert(pool, imp)
    ensures fresh(imp) && !imp.used && imp.Valid() && imp.inputs == RowPins(row) && imp.names == [row.name]
    ensures KeyOf(imp) == RowKey(row)
    ensures WellFormed(q, n, universe)
    ensures Keys(q) == Keys(pool) + {RowKey(row)}
    ensures imp in Objects(q) && Objects(q) <= Objects(pool) + {imp}
    ensures (forall o :: o in Objects(pool) ==> !o.used) ==> forall o :: o in Objects(q) ==> !o.used
    ensures forall o :: o in Objects(q) ==> o in Objects(pool) || fresh(o)
  {
    imp := LoadRow(row);
    InsertWellFormed(pool, imp, n, universe);
    InsertKeys(pool, imp);
    q := Insert(pool, imp);
  }

  /** After `r` rows: their names in order, a well-formed pool holding exactly their keys, each the entry of the last row with that key. */
  ghost predicate Loaded(rows: seq<Row>, r: nat, pool: Pool, allNames: seq<string>, n: nat, universe: set<string>)
    requires r <= |rows| && forall i :: 0 <= i < |rows| ==> ParseRow(rows[i].cells).Some?
  {
    && |allNames| == r && (forall i :: 0 <= i < r ==> allNames[i] == rows[i].name)
    && WellFormed(pool, n, universe)
    && Keys(pool) == (set i | 0 <= i < r :: RowKey(rows[i]))
    && FromLastRows(rows, r, pool)
  }

  /** The index of the last of the first `r` rows stored under key `x`, or -1 when there is none. */
  ghost function LastRow(rows: seq<Row>, x: (int, int, string), r: nat): (l: int)
    requires r <= |rows| && forall i :: 0 <= i < |rows| ==> ParseRow(rows[i].cells).Some?
    ensures -1 <= l < r
    ensures l >= 0 ==> RowKey(rows[l]) == x && forall i :: l < i < r ==> RowKey(rows[i]) != x
    ensures l < 0 ==> forall i :: 0 <= i < r ==> RowKey(rows[i]) != x
  {
    if r == 0 then -1 else if RowKey(rows[r - 1]) == x then r - 1 else LastRow(rows, x, r - 1)
  }

  /**
   * Every entry of the pool is the implicant of the last of the first `r` rows stored under its key:
   * that row's pins and its name alone.
   */
  ghost predicate FromLastRows(rows: seq<Row>, r: nat, pool: Pool)
    requires r <= |rows| && forall i :: 0 <= i < |rows| ==> ParseRow(rows[i].cells).Some?
  {
    forall k, i :: k in pool.groups && 0 <= i < |pool.groups[k]| ==>
      var l := LastRow(rows, KeyOf(pool.groups[k][i]), r);
      0 <= l && pool.groups[k][i].inputs == RowPins(rows[l]) && pool.groups[k][i].names == [rows[l].name]
  }

  /** Storing the implicant of row `r` under its key makes it the entry of the last row with that key. */
  lemma InsertFromRows(rows: seq<Row>, r: nat, pool: Pool, imp: Implicant, n: nat, universe: set<string>)
    requires r < |rows| && forall i :: 0 <= i < |rows| ==> ParseRow(rows[i].cells).Some?
    requires WellFormed(pool, n, universe) && FromLastRows(rows, r, pool)
    requires KeyOf(imp) == RowKey(rows[r]) && imp.inputs == RowPins(rows[r]) && imp.names == [rows[r].name]
    ensures FromLastRows(rows, r + 1, Insert(pool, imp))
  {
    var q := Insert(pool, imp);
    forall k, i | k in q.groups && 0 <= i < |q.groups[k]|
      ensures var l := LastRow(rows, KeyOf(q.groups[k][i]), r + 1);
        0 <= l && q.groups[k][i].inputs == RowPins(rows[l]) && q.groups[k][i].names == [rows[l].name]
    {
      if q.groups[k][i] != imp {
        InsertOthers(pool, imp, n, universe, k, i);
      }
    }
  }

  /** One iteration of the row loop: record the name of row `r` and insert its implicant. */
  method LoadNext(rows: seq<Row>, r: nat, pool: Pool, allNames: seq<string>, ghost n: nat, ghost universe: set<string>)
    returns (pool': Pool, allNames': seq<string>)
    requires r < |rows| && forall i :: 0 <= i < |rows| ==> ParseRow(rows[i].cells).Some? && |rows[i].cells| == n
    requires universe == set i | 0 <= i < |rows| :: rows[i].name
    requires Loaded(rows, r, pool, allNames, n, universe)
    requires forall o :: o in Objects(pool) ==> !o.used
    ensures Loaded(rows, r + 1, pool', allNames', n, universe)
    ensures View(pool') == Store(View(pool), RowEntry(rows[r]))
    ensures forall o :: o in Objects(pool') ==> o in Objects(pool) || fresh(o)
    ensures forall o :: o in Objects(pool') ==> !o.used
  {
    var row := rows[r];
    var imp;
    pool', imp := AddRow(pool, row, n, universe);
    allNames' := allNames + [row.name];
    LoadStep(rows, r, pool, allNames, imp, n, universe);
    ViewInsert(pool, imp);
  }

  /** Storing the implicant of row `r` under its key carries the loaded state from `r` rows to `r + 1`. */
  lemma LoadStep(rows: seq<Row>, r: nat, pool: Pool, allNames: seq<string>, imp: Implicant, n: nat,
                 universe: set<string>)
    requires r < |rows| && forall i :: 0 <= i < |rows| ==> ParseRow(rows[i].cells).Some?
    requires Loaded(rows, r, pool, allNames, n, universe)
    requires KeyOf(imp) == RowKey(rows[r]) && imp.inputs == RowPins(rows[r]) && imp.names == [rows[r].name]
    requires WellFormed(Insert(pool, imp), n, universe) && Keys(Insert(pool, imp)) == Keys(pool) + {RowKey(rows[r])}
    ensures Loaded(rows, r + 1, Insert(pool, imp), allNames + [rows[r].name], n, universe)
  {
    assert forall x :: x in rows ==> ParseRow(x.cells).Some?;
    var names := allNames + [rows[r].name];
    assert forall i :: 0 <= i < r + 1 ==> names[i] == rows[i].name;
    RowKeysStep(rows, r);
    InsertFromRows(rows, r, pool, imp, n, universe);
  }

  /**
   * The rows of the CSV reader after the header: every row becomes a one-name implicant stored under
   * (exc, inh, name); a later row with the same key overwrites an earlier one.
   */
  method LoadRows(rows: seq<Row>, ghost n: nat) returns (pool: Pool, allNames: seq<string>)
    requires forall i :: 0 <= i < |rows| ==> ParseRow(rows[i].cells).Some? && |rows[i].cells| == n
    ensures allNames == RowNames(rows)
    ensures WellFormed(pool, n, NameSet(allNames))
    ensures Keys(pool) == RowKeys(rows)
    ensures FromLastRows(rows, |rows|, pool)
    ensures View(pool) == LoadView(rows, |rows|)
    ensures forall o :: o in Objects(pool) ==> fresh(o) && !o.used
  {
    ghost var universe := set i | 0 <= i < |rows| :: rows[i].name;
    assert forall x :: x in rows ==> ParseRow(x.cells).Some?;
    pool := Pool([], map[]);
    allNames := [];
    var r := 0;
    while r < |rows|
      invariant 0 <= r <= |rows|
      invariant Loaded(rows, r, pool, allNames, n, universe)
      invariant View(pool) == LoadView(rows, r)
      invariant forall o :: o in Objects(pool) ==> fresh(o) && !o.used
    {
      pool, allNames := LoadNext(rows, r, pool, allNames, n, universe);
      r := r + 1;
    }
    AllLoaded(rows, pool, allNames, n, universe);
  }

  /** Once every row is loaded, the loop's state is what `LoadRows` promises. */
  lemma AllLoaded(rows: seq<Row>, pool: Pool, allNames: seq<string>, n: nat, universe: set<string>)
    requires forall i :: 0 <= i < |rows| ==> ParseRow(rows[i].cells).Some?
    requires universe == set i | 0 <= i < |rows| :: rows[i].name
    requires Loaded(rows, |rows|, pool, allNames, n, universe)
    ensures allNames == RowNames(rows)
    ensures WellFormed(pool, n, NameSet(allNames))
    ensures Keys(pool) == RowKeys(rows)
    ensures FromLastRows(rows, |rows|, pool)
  {
    assert allNames == RowNames(rows);
    NamesAsSet(rows, allNames);
  }
}
