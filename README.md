# ST_Optimize in Dafny

A model of the core of `ST_Optimize.py`, a Quine–McCluskey-style minimiser. Its terms carry a pair of
delays per input pin (excitatory `d_e`, inhibitory `d_i`) instead of a 0/1/don't-care bit. The model
covers:

- the pin and implicant classes: cached delay sums, sorted duplicate-free minterm names, the
  merge-eligibility loop, the merge with its side effect on the "used in next step" flags, and the
  group and name labels;
- the delay-cell parse of the CSV reader (`"d"` is `(d, d)`, `"de..di"` is `(de, di)`) and the
  insertion of every row into the nested dictionary `exc -> inh -> name -> implicant`;
- the merge-closure loop: step `k` pairs group `(e, e + k - 1)` with `(e + 1, e + k)`, and the loop
  stops after the first step that merges nothing;
- the prime implicant chart and the greedy cover.

Modules, one file each:

| module | file | what it holds |
|---|---|---|
| `Delays` | `delays.dfy` | `Input`, Python's `str`/`int` on integers, `split("..")`, the cell and row parse |
| `Names` | `names.dfy` | Python's string order, `sorted(set(...))`, `"".join(...)` |
| `Implicants` | `implicants.dfy` | `class Implicant` (pins, names and sums are constants; the flag `used` is a field) |
| `Pools` | `pools.dfy` | the nested dictionary as `Pool`, key-preserving insertion, the row loop of the reader |
| `Evolution` | `evolution.dfy` | predicates and lemmas about how steps change the pool; the hull bound |
| `Closure` | `closure.dfy` | the closure loop as methods, one per loop level of the source |
| `Chart` | `chart.dfy` | `sorted_keys`, the chart dictionary and its build |
| `Cover` | `cover.dfy` | the stable sort by list length and the greedy loop |
| `Optimize` | `optimize.dfy` | the main flow from the rows after the header to the chosen implicants |

How the model represents the source:

- **Pool.** The dictionary is a `Pool`:
  - `excOrder` holds the outer keys in insertion order;
  - `groups[(exc, inh)]` holds the entries of one inner dictionary, in the insertion order of their
    names.
- **View.** `View(pool)` is the dictionary with the flags stripped: the outer keys in insertion order,
  and per group the pins and sorted names of each entry, in order. `Store(v, e)` is
  `d[exc][inh][name] = e` on such a view. The reader's loop and every level of the closure loop are
  specified by a function on views:
  - `LoadView(rows, r)` stores the entries of the first `r` rows in order;
  - `PairView`, `AgainstView` and `RowsView` follow the innermost, middle and outer comparison loops;
  - `KeyView` and `StepView` follow one outer key and one step;
  - `ClosureView(p, m)` is steps 1 to `m`.

  These functions fix the contents and the order of every group and of the outer keys.
- **Insertion.** Storing an implicant under an existing `(exc, inh, name)` key overwrites the old
  entry in place, as Python's `d[k] = v` does.
- **Termination.** Every pin of every implicant stays inside the per-position range of the raw pins,
  the "hull". An eligible pair between groups of spread `s` needs `s <= HullWidth(hull)`, so the
  closure loop runs at most `HullWidth + 2` steps.
- **Flags.** The closure methods carry a ghost set of the implicants whose flag they set. This set
  always equals the set of implicants whose `used` field is true. After the loop it is exactly the
  operands of the eligible pairs between adjacent groups of the compared spreads (`PrimeFlags`). The
  chart build is specified against `Unused`, the entries whose flag is clear.
- **Chart spreads.** The chart build reads only the groups of spread `0 .. max_step - 1`, as the source
  does. An input implicant whose raw spread is never reached therefore stays off the chart.
- **Empty chart list.** If some chart list is empty, line 282 of the source raises `IndexError`. The
  model returns the outcome `EmptyEntry(minterm)` instead, and proves that the greedy loop fails
  exactly when some minterm has an empty list.

## Model

| member | source | states |
|---|---|---|
| Delays.NatToString | ST_Optimize.py:65-67 | `str` of a natural: at least one decimal digit, a single digit exactly below 10, a leading `0` only for zero |
| Delays.IntToString | ST_Optimize.py:65-67 | `str` of an int contains no dot, and starts with `-` exactly when the int is negative |
| Delays.ParseInt | ST_Optimize.py:193 | `int(...)` succeeds only on non-empty text without dots |
| Delays.ParseIntToString | ST_Optimize.py:65-67 | `int(str(n)) == n` for every integer `n` |
| Delays.Split | ST_Optimize.py:189 | `split("..")` always yields at least one piece |
| Delays.SplitRoundTrip | ST_Optimize.py:189 | joining the pieces of `split("..")` with `".."` gives the cell back, for every text |
| Delays.SplitPieces | ST_Optimize.py:189 | no piece of `split("..")` holds `".."`, and the first piece is a prefix of the cell |
| Delays.SplitNoDots | ST_Optimize.py:189-191 | text without dots splits into itself alone, so the reader duplicates it into a pair |
| Delays.SplitJoined | ST_Optimize.py:189 | `(a + ".." + b).split("..") == [a, b]` for dot-free `a`, `b` |
| Delays.ParseAll | ST_Optimize.py:192-193 | converting the pieces gives one int per piece |
| Delays.ParseRow | ST_Optimize.py:188-194 | a parsed row has one pin per delay cell |
| Delays.ParseRowMeans | ST_Optimize.py:188-194 | a row parses exactly when each of its cells does, and pin `j` is the parse of cell `j` |
| Delays.ParseAllTwo | ST_Optimize.py:192-193 | two numeric pieces convert to the pair of their values |
| Delays.ParseCellForms | ST_Optimize.py:189-193 | the cell `"a"` parses to `(a, a)` and the cell `"a..b"` to `(a, b)`, for all integers |
| Delays.ParseRender | ST_Optimize.py:63-67 | parsing `str(Input(e, i))` as a delay cell gives back `(e, i)` |
| Delays.ParseAllMeans | ST_Optimize.py:192-193 | converting the pieces succeeds exactly when `int` accepts each piece, and value `i` is that of piece `i` |
| Delays.ParseCellMeans | ST_Optimize.py:189-193 | a delay cell parses exactly when `int` accepts every piece of its split, so an empty or non-numeric piece rejects it. The pin is the first piece and the second, or the first twice |
| Names.BelowIrreflexive | ST_Optimize.py:76 | no string is below itself in Python's order |
| Names.BelowTransitive | ST_Optimize.py:76 | Python's string order is transitive |
| Names.BelowTotal | ST_Optimize.py:76 | any two distinct strings are ordered one way or the other |
| Names.BelowAsymmetric | ST_Optimize.py:76 | no two strings are each below the other |
| Names.BelowIsStrictTotalOrder | ST_Optimize.py:76 | the order `sorted` uses on names is a strict total order |
| Names.StrictlySortedDistinct | ST_Optimize.py:76 | a strictly ascending name list has no duplicates |
| Names.InsertName | ST_Optimize.py:76 | inserting into an ascending list keeps it strictly ascending, with exactly the old names plus the new one |
| Names.HeadIsLeast | ST_Optimize.py:76 | the head of an ascending list is below every other element |
| Names.SortedNames | ST_Optimize.py:76 | `sorted(set(names))` is strictly ascending and has exactly the names of the input |
| Names.SortedUnique | ST_Optimize.py:76 | two strictly ascending lists with the same names are equal |
| Names.SortedNamesOfSameNames | ST_Optimize.py:76 | `sorted(set(x))` depends only on which names occur in `x` |
| Names.SortedNamesOfSorted | ST_Optimize.py:76 | a strictly ascending list is its own `sorted(set(...))` |
| Names.JoinedNamesCollide | ST_Optimize.py:121-122 | two different name sets, {"1","12"} and {"11","2"}, share the display name "112" and so the pool key |
| Implicants.Implicant.constructor | ST_Optimize.py:75-84 | the pins are kept as given, the sums are the sums of the delays, the names are `sorted(set(names))`, the flag is clear |
| Implicants.Implicant.UseInNextStep | ST_Optimize.py:86-87 | sets the "used in next step" flag |
| Implicants.Implicant.CheckIfMergeable | ST_Optimize.py:95-107 | true exactly when the arities agree, one position differs by the same +1 or -1 in both delays, and every other position is identical |
| Implicants.Implicant.MergeWith | ST_Optimize.py:130-146 | not eligible: returns null (the source's `False`) and leaves both flags alone. Eligible: sets both flags and returns a fresh, unflagged implicant with pins `(min de, max di)` at every position and names `sorted(set(a + b))` |
| Implicants.MergeableSymmetric | ST_Optimize.py:95-107 | eligibility does not depend on the order of the operands |
| Implicants.MergeableIrreflexive | ST_Optimize.py:98-107 | identical pin lists, including an implicant with itself, are never eligible |
| Implicants.MergeCommutes | ST_Optimize.py:130-146 | the merge gives the same pins and the same names whichever operand comes first |
| Implicants.SumsAgreeExcept | ST_Optimize.py:81-84 | pin lists that agree except at `k` have sums that differ by the difference at `k` |
| Implicants.MergeShiftsGroup | ST_Optimize.py:99-104 | eligible operands lie in groups `(e, i)` and `(e ± 1, i ± 1)`. Merging with the upper one gives group `(e, i + 1)` |
| Implicants.GroupLabelParses | ST_Optimize.py:109-113 | the group label, read back as a delay cell, is the pair (excitatory sum, inhibitory sum) |
| Pools.IndexOfName | ST_Optimize.py:202 | finds the entry of an inner dictionary with a given name, or reports that there is none |
| Pools.Insert | ST_Optimize.py:198-202 | `d[exc][inh][name] = imp` creates missing dictionaries, overwrites only the entry with imp's own name, and changes no other group |
| Pools.InsertKeys | ST_Optimize.py:198-202 | after an insertion the keys are the old keys plus imp's own key, and imp is the only new object |
| Pools.PutEntries | ST_Optimize.py:202 | every entry of the updated inner dictionary is imp or the old entry at the same position |
| Pools.PutDistinctNames | ST_Optimize.py:202 | an inner dictionary keeps one entry per name |
| Pools.PutFits | ST_Optimize.py:202 | storing an entry of group `k` keeps group `k` well formed |
| Pools.InsertWellFormed | ST_Optimize.py:198-202 | storing an entry under its own sums keeps every entry under its own sums and name |
| Pools.PutOthers | ST_Optimize.py:202 | every entry of an updated inner dictionary other than the stored one is the old entry at the same place, under another name |
| Pools.InsertOthers | ST_Optimize.py:198-202 | every entry other than the stored one is an old entry, under another key |
| Pools.RowNames | ST_Optimize.py:185-186 | `all_minterm_names` lists the name column of the rows in order |
| Pools.ParsePins | ST_Optimize.py:187-194 | the cell loop turns every delay cell of a row into one pin |
| Pools.LoadRow | ST_Optimize.py:185-195 | a row becomes a fresh unflagged implicant with the row's pins, its single name, and the key (Σ de, Σ di, name) |
| Pools.AddRow | ST_Optimize.py:195-202 | storing a row's implicant (the row's pins, its name alone, clear flag) adds exactly the row's key, keeps the dictionary well formed, and adds no other object |
| Pools.EntryIndex | ST_Optimize.py:202 | on the view, finds the entry with a given joined name, or reports that there is none |
| Pools.EntryIndexOf | ST_Optimize.py:202 | looking a name up in a viewed group finds the same index as looking it up in the group |
| Pools.Store | ST_Optimize.py:198-202 | `d[exc][inh][name] = e` on the view adds exactly the key `(Σ de, Σ di)` to the groups |
| Pools.ViewPut | ST_Optimize.py:202 | viewing a group after `group[name] = imp` is storing imp's entry into the viewed group: in place when the name is present, last otherwise |
| Pools.ViewInsert | ST_Optimize.py:198-202 | viewing the dictionary after `d[exc][inh][name] = imp` is `Store` of imp's entry into the view: the outer key goes last when new, and the entry lands in place or last |
| Pools.LastRow | ST_Optimize.py:195-202 | the index of the last row stored under a key, or none when no row has that key |
| Pools.InsertFromRows | ST_Optimize.py:195-202 | storing row `r` keeps every entry the implicant of the last row with its key |
| Pools.LoadStep | ST_Optimize.py:185-202 | storing row `r` carries the names, the keys and the last-row entries from `r` rows to `r + 1` |
| Pools.LoadNext | ST_Optimize.py:185-202 | one row of the reader's loop extends the names and the keys from `r` rows to `r + 1`. Every entry holds the pins and name of the last row stored under its key. The new view is the old one with the row's entry stored (`Store`) |
| Pools.LoadRows | ST_Optimize.py:178-203 | the reader's loop yields the names in order and a well-formed dictionary whose keys are exactly the rows' keys. Each entry is the implicant of the last row with its key (a later row overwrites), fresh and unflagged. The view is `LoadView` over all rows: the rows' entries stored one by one, which fixes the order of the outer keys and of every group |
| Evolution.SpreadWithinHull | ST_Optimize.py:81-84 | inside the hull, inh - exc is at most the hull's width |
| Evolution.MergeWithinHull | ST_Optimize.py:139-145 | a merge of two implicants inside the hull stays inside the hull |
| Evolution.EligibleAmongMeans | ST_Optimize.py:227-230 | the innermost loop's running flag means "some implicant compared so far is eligible" |
| Evolution.PairAmongMeans | ST_Optimize.py:226-230 | the middle loop's running flag means "some pair compared so far is eligible" |
| Evolution.PairAmongAll | ST_Optimize.py:226-230 | over the whole group the middle loop's running flag means "the two groups hold an eligible pair" |
| Evolution.EvolvesWellFormed | ST_Optimize.py:235-239 | storing the merges of one group keeps the dictionary well formed and inside the hull |
| Evolution.EvolvesByInsert | ST_Optimize.py:231-239 | storing one more merge of group `(e, i)` changes only group `(e, i + 1)` |
| Evolution.StepMeans | ST_Optimize.py:218-225 | running over all outer keys, step `s + 1` examines every group of spread `s` that has an upper neighbour |
| Evolution.AmongMeans | ST_Optimize.py:218-225 | the running flags over the first `t` outer keys speak about exactly those keys |
| Evolution.StepKeepsSpread | ST_Optimize.py:219-239 | step `s + 1` leaves every group of spread at most `s` as it was |
| Evolution.BelowKept | ST_Optimize.py:216-241 | what the earlier steps established about smaller spreads survives a step |
| Evolution.BelowMeans | ST_Optimize.py:216-241 | "steps 1..m each merged" means an eligible pair exists at every spread below `m` |
| Evolution.PairAtWithinHull | ST_Optimize.py:216-241 | an eligible pair at spread `s` inside the hull needs `s <= HullWidth`, which bounds the loop |
| Evolution.StepEffectKept | ST_Optimize.py:216-241 | a step that grows spread `s + 1` does not change what comparing the groups of a spread up to `s` flags and stores |
| Evolution.ClosureKept | ST_Optimize.py:216-241 | such a step does not change what steps 1 to `s + 1` flag and store |
| Evolution.AgainstEffectMeans | ST_Optimize.py:227-231 | comparing `a` with the first `j` of the upper group flags exactly `a` and its eligible partners, and stores exactly their merge keys |
| Evolution.RowsEffectMeans | ST_Optimize.py:226-231 | comparing two groups flags exactly the operands of their eligible pairs and stores exactly the merge keys of those pairs |
| Evolution.StepEffectAmong | ST_Optimize.py:218-225 | the first `t` outer keys of a step flag and store exactly what their groups do |
| Evolution.StepEffectMeans | ST_Optimize.py:218-225 | a whole step flags and stores exactly what comparing every group of its spread does |
| Evolution.ClosureEffectMeans | ST_Optimize.py:216-241 | steps 1 to `m` flag and store exactly what comparing every group of spread below `m` does |
| Evolution.KeyOpsPartnered | ST_Optimize.py:226-231 | an entry flagged by comparing a group lies in that group or the one above, and has an eligible partner |
| Evolution.PartneredKeyOps | ST_Optimize.py:226-231 | an entry with an eligible partner is flagged by comparing its own group or the one below |
| Evolution.ClosureOpsMeans | ST_Optimize.py:213-241 | steps 1 to `m` flag an entry exactly when its spread is below `m` and it has an eligible partner in the group above or below |
| Evolution.ClosureKeysMeans | ST_Optimize.py:213-241 | steps 1 to `m` store exactly the merge keys of the eligible pairs of every spread below `m` |
| Closure.MergePair | ST_Optimize.py:230-231 | returns null exactly when `a` from group `k` and `b` from the group above are not eligible, leaving the flags alone. Otherwise it sets both flags and returns a fresh unflagged implicant with pins `(min de, max di)` per position and names `sorted(set(a + b))`. It belongs in group `(e, i + 1)` under the key `MergeKey(a, b)`, inside the hull |
| Closure.TryMerge | ST_Optimize.py:228-240 | one comparison. For an eligible pair, both operands are flagged and the merge is stored under its key. Otherwise nothing changes. The flags and keys grow by exactly this pair's `PairEffect`, the running flag is set exactly when the pair is eligible, and the new view is `PairView`: the merge's pins and names stored into the old view when eligible, the old view otherwise |
| Closure.MergeAndStore | ST_Optimize.py:230-239 | the eligible case: both operands are flagged and the merge is stored, which adds exactly this pair's effect. The new view is the old one with `MergeEntry(a, b)` stored, and the merge is the only new implicant |
| Closure.MergeStored | ST_Optimize.py:235-239 | storing the merge under its own key adds exactly `MergeKey(a, b)` to the keys and changes only group `(e, i + 1)`. Its view is `PairView` of the old view |
| Closure.MergeAgainst | ST_Optimize.py:227-240 | comparing one implicant with the whole upper group flags exactly it and its eligible partners, and adds exactly their merge keys (`AgainstEffect`). The view becomes `AgainstView`: the merges stored in the order of the upper group |
| Closure.MergeRows | ST_Optimize.py:226-240 | the two inner loops flag exactly the operands of the eligible pairs across the two groups and add exactly their merge keys (`RowsEffect`). They report a merge exactly when there is such a pair. The view becomes `RowsView`: the merges stored row by row, in loop order |
| Closure.RowsViewNext | ST_Optimize.py:226-240 | comparing the `i`-th implicant with the upper group carries the middle loop's view from `RowsView(..., i)` to `RowsView(..., i + 1)` |
| Closure.MergeGroups | ST_Optimize.py:226-240 | merging one group with its upper neighbour keeps the dictionary well formed and inside the hull. It adds exactly `KeyEffect` of that group, and reports a merge exactly when the groups hold an eligible pair. The view becomes `RowsView` over the two groups |
| Closure.StepAt | ST_Optimize.py:218-240 | one outer key. Groups are compared only when `(exc, inh)`, `exc + 1` and `(exc + 1, inh + 1)` all exist. The step's flags and keys grow by exactly that group's effect, and its view moves from `StepView(..., t)` to `StepView(..., t + 1)` |
| Closure.EnterGroup | ST_Optimize.py:219-225 | the groups an outer key compares are not yet changed by the step |
| Closure.ViewAfterGroup | ST_Optimize.py:219-240 | merging the group met at the `t`-th outer key, which the step has not changed yet, carries the view to `StepView(..., t + 1)` |
| Closure.ViewSkipsGroup | ST_Optimize.py:220-225 | an outer key whose groups are missing leaves the view at `StepView(..., t + 1)` unchanged |
| Closure.SkipGroup | ST_Optimize.py:220-225 | a missing group `(exc, inh)`, outer key `exc + 1` or group `(exc + 1, inh + 1)` adds nothing to the step |
| Closure.Step | ST_Optimize.py:217-240 | step `s + 1` changes only groups of spread `s + 1`. It flags exactly the operands of the eligible pairs of spread `s` and stores exactly their merges (`StepEffect`). It merges exactly when such a pair exists. The new view is `StepView` over all outer keys |
| Closure.CloseStep | ST_Optimize.py:216-241 | one turn of the `while`. Afterwards the keys, the `used` flags and the view are exactly those that steps 1 to `step` produce (`ClosureView`). If the step merged, the loop bound still holds. If it did not, no eligible pair exists at its spread |
| Closure.StepAdvances | ST_Optimize.py:216-241 | after a step the keys, flags and view are those of steps 1 to `step + 1`, and the loop bound still holds |
| Closure.ClosureFacts | ST_Optimize.py:216-241 | a step adds its own flags and keys to those of the earlier steps, and flags only entries of the dictionary |
| Closure.ClosureOpsInPool | ST_Optimize.py:226-231 | only entries of the dictionary are flagged |
| Closure.MergeClosure | ST_Optimize.py:213-243 | terminates within `HullWidth + 2` steps. Every step but the last merged, and the last did not. The keys are the loaded keys plus exactly the merges of the eligible pairs of every compared spread. The flagged entries are exactly the operands of those pairs. The view is `ClosureView(View(pool), max_step)`, which fixes every group's contents and order |
| Chart.InsertKey | ST_Optimize.py:244 | inserting into an ascending key list keeps it ascending, with exactly the old keys plus the new one |
| Chart.SortedKeys | ST_Optimize.py:244 | `sorted(keys)` is ascending, has the same keys, and as many as there are distinct keys |
| Chart.CoveringExtend | ST_Optimize.py:260-271 | appending the covering implicants of more groups gives those of the joined visit |
| Chart.CoveringMeans | ST_Optimize.py:268-271 | a minterm's list holds exactly the visited implicants that are unflagged and cover it |
| Chart.CoveringAppend | ST_Optimize.py:260-271 | collecting over two visits in a row is collecting over the first, then over the second |
| Chart.PoolReady | ST_Optimize.py:268-271 | every stored implicant names only minterms that have a chart list |
| Chart.SpreadVisitMeans | ST_Optimize.py:260-264 | one step of the build visits exactly the groups `(exc, exc + step)` of the ascending outer keys |
| Chart.VisitMeans | ST_Optimize.py:251-264 | the build visits exactly the entries of the groups with spread `0 .. max_step - 1` |
| Chart.VisitReady | ST_Optimize.py:264-271 | every visited implicant is consistent and names only minterms that have a list |
| Chart.VisitInPool | ST_Optimize.py:264-266 | every visited implicant is an entry of the dictionary |
| Chart.ChartConsistent | ST_Optimize.py:268-271 | each implicant on a minterm's list covers that minterm and stands on the list of every minterm it covers |
| Chart.FirstOccurrences | ST_Optimize.py:246-247 | the distinct names, each once, in the order they first occur |
| Chart.FirstIndex | ST_Optimize.py:246-247 | the index of the first occurrence of a name |
| Chart.FirstOccurrencesOrder | ST_Optimize.py:246-247 | the distinct names come in the order of their first occurrences |
| Chart.NewChart | ST_Optimize.py:245-247 | one empty list per distinct minterm name, the keys in first-occurrence order |
| Chart.AddImplicant | ST_Optimize.py:268-271 | an unflagged implicant is appended to the list of each of its minterms once, a flagged one nowhere |
| Chart.AddGroup | ST_Optimize.py:264-271 | every implicant of a group, in the group's order |
| Chart.AddKey | ST_Optimize.py:261-271 | a missing group `(exc, exc + step)` adds nothing |
| Chart.AddSpreadAt | ST_Optimize.py:260-271 | one outer key extends the lists by the covering implicants of its group |
| Chart.AddSpread | ST_Optimize.py:260-272 | one step of the build extends every list by the covering implicants of all groups of that spread, outer keys ascending |
| Chart.FillChart | ST_Optimize.py:251-272 | the build extends every list by the covering implicants of the whole visit |
| Cover.InsertByCount | ST_Optimize.py:279 | inserting keeps the list ascending by list length, and adds exactly the new minterm (as a multiset) |
| Cover.InsertFront | ST_Optimize.py:279 | a minterm with a list no longer than the head's may go first |
| Cover.InsertBehind | ST_Optimize.py:279 | the head stays first when the new minterm's list is longer |
| Cover.InsertWithCount | ST_Optimize.py:279 | inserting puts the new minterm first among those of its own list length and leaves the others in order |
| Cover.SortByCount | ST_Optimize.py:279 | the sort is ascending by list length and a permutation of its input |
| Cover.SortByCountStable | ST_Optimize.py:279 | the sort is stable: the minterms of any one list length keep their order |
| Cover.NamesOf | ST_Optimize.py:283 | `used_implicants` holds the display names of the chosen implicants, in order |
| Cover.GreedyCover | ST_Optimize.py:276-285 | the loop computes the greedy outcome, and `used_implicants` names the chosen implicants |
| Cover.GreedyCovers | ST_Optimize.py:279-285 | a successful run covers every visited minterm, never drops a covered one, and picks at most one implicant per visited minterm |
| Cover.GreedyCoveredByChosen | ST_Optimize.py:280-285 | every covered minterm is a name of some chosen implicant |
| Cover.GreedyPicksFirst | ST_Optimize.py:280-285 | each pick is the first implicant on the list of a visited minterm, and covers that minterm |
| Cover.GreedyPicksDistinct | ST_Optimize.py:280-285 | no implicant is picked twice |
| Cover.GreedyFails | ST_Optimize.py:280-282 | the loop fails exactly when a visited minterm has an empty list, at the first such minterm |
| Cover.ShiftFirstEmpty | ST_Optimize.py:280-282 | a visited minterm with a non-empty list does not change where the loop fails |
| Optimize.ColumnRange | ST_Optimize.py:187-194 | smallest excitatory and largest inhibitory raw delay at one position, both attained |
| Optimize.RawHull | ST_Optimize.py:187-194 | every raw pin list lies inside the hull of the raw pins |
| Optimize.LoadedInHull | ST_Optimize.py:195-202 | the loaded dictionary lies inside the hull of the raw pins |
| Optimize.FlagsArePrime | ST_Optimize.py:213-241 | after steps 1 to `max_step` an entry is flagged exactly when its spread is below `max_step` and it has an eligible partner in the group above or below |
| Optimize.BuildChart | ST_Optimize.py:244-271 | the chart has one list per minterm name, keyed in first-occurrence order. Each list is exactly the unflagged entries of spread `0 .. max_step - 1` that cover the minterm, in the order the loops visit them. The chart is consistent |
| Optimize.ChartFacts | ST_Optimize.py:260-271 | the filled lists are the chart described by `Charted`, and consistent |
| Optimize.ChartEntry | ST_Optimize.py:260-271 | an implicant is on a minterm's list exactly when it is an unflagged entry of spread below `max_step` that covers the minterm |
| Optimize.SortedSame | ST_Optimize.py:279 | the sort keeps exactly the minterms, as many as before |
| Optimize.SelectCover | ST_Optimize.py:276-285 | the greedy loop over the minterms sorted by list length. Success covers every minterm with distinct picks from the chart, no more picks than minterms. Failure happens exactly when some list is empty |
| Optimize.SortedGreedy | ST_Optimize.py:276-285 | the greedy loop over the sorted minterms does what `SelectCover` promises |
| Optimize.GreedySucceeds | ST_Optimize.py:279-285 | a successful run covers every minterm, with distinct picks from the chart, at most one per minterm |
| Optimize.PicksFromChart | ST_Optimize.py:282 | every pick stands on some chart list |
| Optimize.GreedyFailsAt | ST_Optimize.py:279-282 | the run fails exactly when some chart list is empty |
| Optimize.LoadAndClose | ST_Optimize.py:195-243 | loading and merging stop within the hull bound, and every step but the last merged. The keys are the rows' keys plus exactly the merges of the eligible pairs below `max_step`. An entry is flagged exactly when its spread is below `max_step` and it has an eligible partner in an adjacent group. The view is `ClosureView` of the loaded view over `max_step` steps |
| Optimize.ChartAndCover | ST_Optimize.py:244-285 | the chart of the closed dictionary, as `BuildChart` states, and the greedy cover over it. The chosen implicants are unflagged entries of it: prime implicants |
| Optimize.Optimize | ST_Optimize.py:195-285 | the whole run, from the rows after the header to the chosen implicants. It carries the exact keys, flags and view of the closure, the exact chart and the cover properties |
| Optimize.ChosenUnconsumed | ST_Optimize.py:282 | a pick taken from the chart is an unflagged entry of the dictionary |
| Optimize.GreedyUnconsumed | ST_Optimize.py:279-285 | every implicant the greedy loop picks from the chart is an unflagged entry of the dictionary |

## Left out

- XLSX output is not modelled: the workbook, formats, worksheets and `write_into_worksheet`
  (`ST_Optimize.py:13-38`, `151-159`, `248-258`, `265-267`, `286-328`). It only renders through a
  library that is not part of this model.
- File I/O is not modelled: opening and reading the CSV file and keeping the header row
  (`ST_Optimize.py:177-184`). The model starts from the rows after the header, each a name and its
  delay cells.
- The file-name constants and the final `print` (`ST_Optimize.py:6-8`, `329`) are not modelled.
- `Implicant.__str__` (`ST_Optimize.py:164-172`) is not modelled. The main flow never calls it.
- The getters and setters of `Input` are not modelled: the setters are never called, and the
  getters become the fields `de` and `di`.
- Ill-formed rows are preconditions, not error paths:
  - every cell must parse with `int()`;
  - all rows must have the same number of pins, `n`.

  On such rows the source raises `ValueError` at line 193. Rows of different widths are not rejected
  consistently. If `other` has fewer pins than `self`, line 99 raises `IndexError`. If `self` has
  fewer, the loop at line 98 compares only the common prefix, and the pair may merge.
- Delays.ParseInt: only an optional sign followed by ASCII digits is accepted. The other inputs that
  Python's `int()` takes are rejected: surrounding whitespace, underscores between digits, non-ASCII
  digits.
- Dictionary iteration order is modelled only as insertion order. The pool's outer key
  set never changes during a step, because a merge keeps its lower operand's excitatory sum. So the
  source's iteration over the dictionary it modifies stays valid, and the model iterates over a
  snapshot of the outer keys.
- The dictionary keeps the source's keying by display name: two different minterm sets with the same
  joined name overwrite each other (see `Names.JoinedNamesCollide`).
