/** The migration that folds the four hook phases of a suite into one setup and one teardown item
    (b1c2d3e4f5a6_2026052811_qsm_047_test_suites_foundation.py), as a change of two tables. */
module HookCollapse {
  import opened PyText
  import opened PyList

  datatype Phase = BeforeAll | BeforeEach | AfterEach | AfterAll

  datatype Group = Setup | Teardown

  datatype Role = TestRole | SetupRole | TeardownRole

  /** A row of `suite_items`; `phase` is `None` for a null or unknown hook phase. */
  datatype Item = Item(suite: string, isHook: bool, phase: Option<Phase>, position: real, role: Role)

  /** A row of `suite_item_commands`; `content` stands for its other columns. */
  datatype Command = Command(item: string, order: real, content: string)

  /** The two tables, by primary key. */
  datatype Tables = Tables(items: map<string, Item>, commands: map<string, Command>)

  function GroupOf(p: Phase): Group { if p.BeforeAll? || p.BeforeEach? then Setup else Teardown }

  /** `HOOK_PRIORITY_SQL`. */
  function Priority(p: Option<Phase>): nat {
    match p
    case Some(BeforeAll) => 0
    case Some(BeforeEach) => 1
    case Some(AfterEach) => 2
    case Some(AfterAll) => 3
    case None => 99
  }

  /** The item is selected by the phase list of the group. */
  predicate Matches(t: Tables, s: string, g: Group, i: string) {
    i in t.items && t.items[i].suite == s && t.items[i].phase.Some? && GroupOf(t.items[i].phase.value) == g
  }

  predicate MatchesCommand(t: Tables, s: string, g: Group, c: string) {
    c in t.commands && Matches(t, s, g, t.commands[c].item)
  }

  /** The order of items: by phase priority, then position. */
  predicate ItemLeq(a: Item, b: Item) {
    Priority(a.phase) < Priority(b.phase) || (Priority(a.phase) == Priority(b.phase) && a.position <= b.position)
  }

  predicate ItemLess(a: Item, b: Item) { !ItemLeq(b, a) }

  predicate Placed(t: Tables, c: string) { c in t.commands && t.commands[c].item in t.items }

  /** The order of commands: by the phase and position of their item, then their own order. */
  predicate CommandLeq(t: Tables, c: string, d: string) {
    if Placed(t, c) && Placed(t, d) then
      var a, b := t.items[t.commands[c].item], t.items[t.commands[d].item];
      ItemLess(a, b) || (ItemLeq(a, b) && t.commands[c].order <= t.commands[d].order)
    else Placed(t, c) || !Placed(t, d)
  }

  predicate IdLeq(t: Tables, i: string, j: string) {
    if i in t.items && j in t.items then ItemLeq(t.items[i], t.items[j]) else i in t.items || j !in t.items
  }

  function Where(scan: seq<string>, p: string -> bool): (r: seq<string>)
    ensures forall x :: x in r <==> x in scan && p(x)
  {
    if scan == [] then [] else (if p(scan[0]) then [scan[0]] else []) + Where(scan[1..], p)
  }

  /** `SELECT id ... ORDER BY` priority and position: rows that tie come in the order of the scan. */
  function SelectItems(t: Tables, s: string, g: Group, scan: seq<string>): seq<string> {
    SortBy(Where(scan, i => Matches(t, s, g, i)), (i, j) => IdLeq(t, i, j))
  }

  function SelectCommands(t: Tables, s: string, g: Group, scan: seq<string>): seq<string> {
    SortBy(Where(scan, c => MatchesCommand(t, s, g, c)), (c, d) => CommandLeq(t, c, d))
  }

  function IndexOf(xs: seq<string>, x: string): (k: nat)
    requires x in xs
    ensures k < |xs| && xs[k] == x
  {
    if xs[0] == x then 0 else 1 + IndexOf(xs[1..], x)
  }

  /** The UPDATE: every listed command goes to the target, numbered by its place in the list. */
  function Renumbered(t: Tables, ordered: seq<string>, target: string): Tables {
    t.(commands := map c | c in t.commands ::
         if c in ordered then t.commands[c].(item := target, order := IndexOf(ordered, c) as real) else t.commands[c])
  }

  /** The DELETE, with the cascade to the commands of the deleted items. */
  function Deleted(t: Tables, ids: seq<string>): Tables {
    Tables(map i | i in t.items && i !in ids :: t.items[i],
           map c | c in t.commands && t.commands[c].item !in ids :: t.commands[c])
  }

  /** The physical order in which the database scans the two tables. */
  datatype Scan = Scan(items: seq<string>, commands: seq<string>)

  ghost predicate Unique(xs: seq<string>) { forall j, k | 0 <= j < k < |xs| :: xs[j] != xs[k] }

  ghost predicate Enumerates(xs: seq<string>, keys: set<string>) { Unique(xs) && forall x | x in keys :: x in xs }

  ghost predicate Scans(scan: Scan, t: Tables) {
    Enumerates(scan.items, t.items.Keys) && Enumerates(scan.commands, t.commands.Keys)
  }

  /** `_collapse_phase`. */
  function Collapsed(t: Tables, s: string, g: Group, scan: Scan): Tables {
    var items := SelectItems(t, s, g, scan.items);
    if |items| < 2 then t
    else Deleted(Renumbered(t, SelectCommands(t, s, g, scan.commands), items[0]), items[1..])
  }

  function CollapsedBoth(t: Tables, s: string, scans: (string, Group) -> Scan): Tables {
    Collapsed(Collapsed(t, s, Setup, scans(s, Setup)), s, Teardown, scans(s, Teardown))
  }

  function CollapsedAll(t: Tables, suites: seq<string>, scans: (string, Group) -> Scan): Tables
    decreases |suites|
  {
    if suites == [] then t else CollapsedAll(CollapsedBoth(t, suites[0], scans), suites[1..], scans)
  }

  /** `_backfill_role`. */
  function RoleOf(i: Item): Role {
    if !i.isHook || i.phase.None? then TestRole
    else if GroupOf(i.phase.value) == Setup then SetupRole else TeardownRole
  }

  function Backfilled(t: Tables): Tables {
    t.(items := map i | i in t.items :: t.items[i].(role := RoleOf(t.items[i])))
  }

  /** The database while the migration runs. */
  class Migration {
    var tables: Tables

    constructor (t: Tables)
      ensures tables == t
    {
      tables := t;
    }

    method BackfillRole()
      modifies this
      ensures tables == Backfilled(old(tables))
    {
      tables := tables.(items := map i | i in tables.items :: tables.items[i].(role := RoleOf(tables.items[i])));
    }

    method CollapsePhase(s: string, g: Group, scan: Scan)
      modifies this
      ensures tables == Collapsed(old(tables), s, g, scan)
    {
      var items := SelectItems(tables, s, g, scan.items);
      if |items| < 2 {
        return;
      }
      var target, donors := items[0], items[1..];
      var ordered := SelectCommands(tables, s, g, scan.commands);
      tables := Renumbered(tables, ordered, target);
      tables := Deleted(tables, donors);
    }

    /** `suites` is the answer of `SELECT DISTINCT test_suite_id`, in any order. */
    method CollapseHooksFourToTwo(suites: seq<string>, scans: (string, Group) -> Scan)
      modifies this
      ensures tables == CollapsedAll(old(tables), suites, scans)
    {
      hide Collapsed;
      for k := 0 to |suites|
        invariant CollapsedAll(old(tables), suites, scans) == CollapsedAll(tables, suites[k..], scans)
      {
        assert suites[k..][0] == suites[k] && suites[k..][1..] == suites[k + 1..];
        CollapsePhase(suites[k], Setup, scans(suites[k], Setup));
        CollapsePhase(suites[k], Teardown, scans(suites[k], Teardown));
      }
    }
  }

  // ---- the listings -----------------------------------------------------------------------------

  lemma {:induction false} WhereIsUnique(scan: seq<string>, p: string -> bool)
    requires Unique(scan)
    ensures Unique(Where(scan, p))
  {
    if scan == [] {
    } else {
      var tail, rest := scan[1..], Where(scan[1..], p);
      forall j, k | 0 <= j < k < |tail|
        ensures tail[j] != tail[k]
      {
        assert scan[j + 1] != scan[k + 1];
      }
      WhereIsUnique(tail, p);
      forall k | 0 <= k < |rest|
        ensures rest[k] != scan[0]
      {
        assert rest[k] in tail;
      }
      if p(scan[0]) {
        var r := [scan[0]] + rest;
        forall j, k | 0 <= j < k < |r|
          ensures r[j] != r[k]
        {
          assert r[k] == rest[k - 1] && (j > 0 ==> r[j] == rest[j - 1]);
        }
      } else {
        assert [] + rest == rest;
      }
    }
  }

  lemma {:induction false} UniqueCount(xs: seq<string>, x: string)
    requires Unique(xs)
    ensures multiset(xs)[x] <= 1
  {
    if xs == [] {
    } else {
      var tail := xs[1..];
      forall j, k | 0 <= j < k < |tail|
        ensures tail[j] != tail[k]
      {
        assert xs[j + 1] != xs[k + 1];
      }
      UniqueCount(tail, x);
      assert xs == [xs[0]] + tail;
      if x == xs[0] {
        forall k | 0 <= k < |tail|
          ensures tail[k] != x
        {
          assert tail[k] == xs[k + 1];
        }
        assert x !in tail;
        assert x !in multiset(tail);
      }
    }
  }

  lemma TwicePresent(xs: seq<string>, j: nat, k: nat)
    requires j < k < |xs| && xs[j] == xs[k]
    ensures multiset(xs)[xs[j]] >= 2
  {
    assert xs == xs[..j] + [xs[j]] + xs[j + 1..k] + [xs[k]] + xs[k + 1..];
  }

  lemma SortIsUnique(xs: seq<string>, leq: (string, string) -> bool)
    requires Unique(xs)
    ensures Unique(SortBy(xs, leq))
    ensures forall x :: x in SortBy(xs, leq) <==> x in xs
  {
    var r := SortBy(xs, leq);
    MultisetMembers(r, xs);
    forall j, k | 0 <= j < k < |r|
      ensures r[j] != r[k]
    {
      if r[j] == r[k] {
        TwicePresent(r, j, k);
        UniqueCount(xs, r[j]);
      }
    }
  }

  lemma ItemsAreOrdered(t: Tables)
    ensures TotalPreorder((i, j) => IdLeq(t, i, j))
  {
  }

  lemma CommandsAreOrdered(t: Tables)
    ensures TotalPreorder((c, d) => CommandLeq(t, c, d))
  {
    var leq := (c, d) => CommandLeq(t, c, d);
    forall a, b, c | leq(a, b) && leq(b, c)
      ensures leq(a, c)
    {
      CommandTransitive(t, a, b, c);
    }
  }

  lemma CommandTransitive(t: Tables, a: string, b: string, c: string)
    requires CommandLeq(t, a, b) && CommandLeq(t, b, c)
    ensures CommandLeq(t, a, c)
  {
  }

  /** The listing of a group: its items, each once, in order. */
  lemma ItemListing(t: Tables, s: string, g: Group, scan: seq<string>)
    requires Enumerates(scan, t.items.Keys)
    ensures var r := SelectItems(t, s, g, scan);
            && Unique(r) && (forall i :: i in r <==> Matches(t, s, g, i))
            && forall j, k | 0 <= j < k < |r| :: IdLeq(t, r[j], r[k])
  {
    hide Matches, IdLeq;
    var leq := (i, j) => IdLeq(t, i, j);
    var rows := Where(scan, i => Matches(t, s, g, i));
    WhereIsUnique(scan, i => Matches(t, s, g, i));
    SortIsUnique(rows, leq);
    ItemsAreOrdered(t);
    SortByIsSorted(rows, leq);
    forall i | Matches(t, s, g, i)
      ensures i in scan
    {
      MatchesIsRow(t, s, g, i);
    }
  }

  lemma MatchesIsRow(t: Tables, s: string, g: Group, i: string)
    requires Matches(t, s, g, i)
    ensures i in t.items.Keys
  {
  }

  lemma CommandListing(t: Tables, s: string, g: Group, scan: seq<string>)
    requires Enumerates(scan, t.commands.Keys)
    ensures var r := SelectCommands(t, s, g, scan);
            && Unique(r) && (forall c :: c in r <==> MatchesCommand(t, s, g, c))
            && forall j, k | 0 <= j < k < |r| :: CommandLeq(t, r[j], r[k])
  {
    hide Matches, CommandLeq;
    var leq := (c, d) => CommandLeq(t, c, d);
    var rows := Where(scan, c => MatchesCommand(t, s, g, c));
    WhereIsUnique(scan, c => MatchesCommand(t, s, g, c));
    SortIsUnique(rows, leq);
    CommandsAreOrdered(t);
    SortByIsSorted(rows, leq);
  }

  // ---- one group --------------------------------------------------------------------------------

  /** Every command belongs to an item, as the foreign key demands. */
  ghost predicate Consistent(t: Tables) { forall c | c in t.commands :: t.commands[c].item in t.items }

  /** At most one item of the group is left, and it was the first. */
  ghost predicate MergedItems(t: Tables, t': Tables, s: string, g: Group) {
    && (forall i, j | Matches(t', s, g, i) && Matches(t', s, g, j) :: i == j)
    && (forall i | Matches(t', s, g, i) ::
          && Matches(t, s, g, i) && t'.items[i] == t.items[i]
          && forall j | Matches(t, s, g, j) :: ItemLeq(t.items[i], t.items[j]))
    && (forall i | Matches(t, s, g, i) :: exists j :: Matches(t', s, g, j))
  }

  /** All commands of the group are there, in an order that follows the phases and positions of their
      items and then their own order. */
  ghost predicate MergedCommands(t: Tables, t': Tables, s: string, g: Group) {
    && (forall c :: MatchesCommand(t', s, g, c) <==> MatchesCommand(t, s, g, c))
    && (forall c | MatchesCommand(t, s, g, c) :: t'.commands[c].content == t.commands[c].content)
    && (forall c, d | MatchesCommand(t, s, g, c) && MatchesCommand(t, s, g, d) && !CommandLeq(t, d, c) ::
          t'.commands[c].order < t'.commands[d].order)
  }

  ghost predicate Merged(t: Tables, t': Tables, s: string, g: Group) {
    MergedItems(t, t', s, g) && MergedCommands(t, t', s, g)
  }

  /** The group has two items or more. */
  ghost predicate Crowded(t: Tables, s: string, g: Group) {
    exists i, j :: i != j && Matches(t, s, g, i) && Matches(t, s, g, j)
  }

  ghost predicate SameGroup(t: Tables, t': Tables, s: string, g: Group) {
    && (forall i :: Matches(t', s, g, i) <==> Matches(t, s, g, i))
    && (forall i | Matches(t, s, g, i) :: t'.items[i] == t.items[i])
    && (forall c :: MatchesCommand(t', s, g, c) <==> MatchesCommand(t, s, g, c))
    && (forall c | MatchesCommand(t, s, g, c) :: t'.commands[c] == t.commands[c])
  }

  /** The commands of the group are numbered 0, 1, ..., n - 1: `place` lists them. */
  ghost predicate NumberedBy(t: Tables, s: string, g: Group, place: seq<string>) {
    && Unique(place) && (forall c :: c in place <==> MatchesCommand(t, s, g, c))
    && forall k | 0 <= k < |place| :: place[k] in t.commands && t.commands[place[k]].order == k as real
  }

  lemma {:induction false} IndexOfUnique(xs: seq<string>, k: nat)
    requires Unique(xs) && k < |xs|
    ensures IndexOf(xs, xs[k]) == k
  {
  }

  lemma FewItems(t: Tables, s: string, g: Group, scan: Scan)
    requires Scans(scan, t)
    ensures |SelectItems(t, s, g, scan.items)| >= 2 <==> Crowded(t, s, g)
  {
    hide SelectItems, Matches;
    var r := SelectItems(t, s, g, scan.items);
    ItemListing(t, s, g, scan.items);
    if |r| >= 2 {
      assert r[0] in r && r[1] in r && r[0] != r[1];
    }
    if Crowded(t, s, g) {
      var i, j :| i != j && Matches(t, s, g, i) && Matches(t, s, g, j);
      assert i in r && j in r;
    }
  }

  /** The rows after a collapse of a crowded group onto `target`. */
  ghost predicate Rows(t: Tables, t': Tables, s: string, g: Group, target: string, ordered: seq<string>) {
    && (forall i :: i in t'.items <==> i in t.items && (Matches(t, s, g, i) ==> i == target))
    && (forall i | i in t'.items :: t'.items[i] == t.items[i])
    && t'.commands.Keys == t.commands.Keys
    && forall c | c in t.commands :: t'.commands[c] ==
         if c in ordered then t.commands[c].(item := target, order := IndexOf(ordered, c) as real) else t.commands[c]
  }

  lemma CollapsedRows(t: Tables, s: string, g: Group, scan: Scan)
    requires Consistent(t) && Scans(scan, t) && Crowded(t, s, g)
    ensures |SelectItems(t, s, g, scan.items)| >= 2
    ensures Rows(t, Collapsed(t, s, g, scan), s, g, SelectItems(t, s, g, scan.items)[0], SelectCommands(t, s, g, scan.commands))
  {
    hide SelectItems, SelectCommands, Matches, Renumbered, Deleted, IdLeq, CommandLeq, Crowded, Rows;
    FewItems(t, s, g, scan);
    ItemListing(t, s, g, scan.items);
    CommandListing(t, s, g, scan.commands);
    var items, ordered := SelectItems(t, s, g, scan.items), SelectCommands(t, s, g, scan.commands);
    var donors := items[1..];
    forall i
      ensures i in donors <==> Matches(t, s, g, i) && i != items[0]
    {
      FirstOrRest(items, i);
    }
    forall c | c in t.commands && c !in ordered
      ensures t.commands[c].item !in donors
    {
      assert !MatchesCommand(t, s, g, c);
    }
    RenumberThenDelete(t, s, g, ordered, items[0], donors);
  }

  /** When every command of a deleted item was moved first, the cascade deletes no command. */
  lemma RenumberThenDelete(t: Tables, s: string, g: Group, ordered: seq<string>, target: string, donors: seq<string>)
    requires forall i :: i in donors <==> Matches(t, s, g, i) && i != target
    requires forall c | c in t.commands && c !in ordered :: t.commands[c].item !in donors
    ensures Rows(t, Deleted(Renumbered(t, ordered, target), donors), s, g, target, ordered)
  {
    hide IndexOf, Matches;
    var r := Renumbered(t, ordered, target);
    assert r.commands.Keys == t.commands.Keys;
    forall c | c in t.commands
      ensures r.commands[c].item !in donors
    {
    }
    assert Deleted(r, donors).commands.Keys == t.commands.Keys;
  }

  lemma FirstOrRest(xs: seq<string>, x: string)
    requires Unique(xs) && xs != []
    ensures x in xs[1..] <==> x in xs && x != xs[0]
  {
    if x in xs[1..] {
      var k :| 0 <= k < |xs[1..]| && xs[1..][k] == x;
      assert xs[k + 1] == x;
    }
    assert xs == [xs[0]] + xs[1..];
  }

  lemma RowsMergeItems(t: Tables, t': Tables, s: string, g: Group, target: string, ordered: seq<string>)
    requires Rows(t, t', s, g, target, ordered) && Matches(t, s, g, target)
    requires forall j | Matches(t, s, g, j) :: ItemLeq(t.items[target], t.items[j])
    ensures MergedItems(t, t', s, g)
  {
    hide ItemLeq;
    assert Matches(t', s, g, target);
  }

  lemma RowsMembers(t: Tables, t': Tables, s: string, g: Group, target: string, ordered: seq<string>, c: string)
    requires Rows(t, t', s, g, target, ordered) && Matches(t, s, g, target)
    requires forall c :: c in ordered <==> MatchesCommand(t, s, g, c)
    ensures MatchesCommand(t', s, g, c) <==> MatchesCommand(t, s, g, c)
  {
  }

  lemma EarlierIndex(t: Tables, ordered: seq<string>, c: string, d: string)
    requires c in ordered && d in ordered && CommandLeq(t, c, c)
    requires forall j, k | 0 <= j < k < |ordered| :: CommandLeq(t, ordered[j], ordered[k])
    ensures CommandLeq(t, d, c) || IndexOf(ordered, c) < IndexOf(ordered, d)
  {
    hide CommandLeq;
    var j, k := IndexOf(ordered, c), IndexOf(ordered, d);
    if k < j {
      assert CommandLeq(t, ordered[k], ordered[j]);
    }
  }

  lemma RowsMergeCommands(t: Tables, t': Tables, s: string, g: Group, target: string, ordered: seq<string>)
    requires Rows(t, t', s, g, target, ordered) && Matches(t, s, g, target) && Unique(ordered)
    requires forall c :: c in ordered <==> MatchesCommand(t, s, g, c)
    requires forall j, k | 0 <= j < k < |ordered| :: CommandLeq(t, ordered[j], ordered[k])
    ensures MergedCommands(t, t', s, g) && NumberedBy(t', s, g, ordered)
  {
    hide CommandLeq, Matches;
    forall c
      ensures MatchesCommand(t', s, g, c) <==> MatchesCommand(t, s, g, c)
    {
      RowsMembers(t, t', s, g, target, ordered, c);
    }
    forall c, d | MatchesCommand(t, s, g, c) && MatchesCommand(t, s, g, d) && !CommandLeq(t, d, c)
      ensures t'.commands[c].order < t'.commands[d].order
    {
      SelfLeq(t, c);
      EarlierIndex(t, ordered, c, d);
    }
    forall k | 0 <= k < |ordered|
      ensures ordered[k] in t'.commands && t'.commands[ordered[k]].order == k as real
    {
      assert ordered[k] in ordered;
      assert MatchesCommand(t, s, g, ordered[k]);
      IndexOfUnique(ordered, k);
    }
  }

  lemma SelfLeq(t: Tables, c: string)
    ensures CommandLeq(t, c, c)
  {
  }

  lemma FirstIsLeast(t: Tables, s: string, g: Group, items: seq<string>)
    requires items != [] && (forall i :: i in items <==> Matches(t, s, g, i))
    requires forall j, k | 0 <= j < k < |items| :: IdLeq(t, items[j], items[k])
    ensures Matches(t, s, g, items[0])
    ensures forall j | Matches(t, s, g, j) :: ItemLeq(t.items[items[0]], t.items[j])
  {
    hide ItemLeq;
    assert items[0] in items;
    forall j | Matches(t, s, g, j)
      ensures ItemLeq(t.items[items[0]], t.items[j])
    {
      assert j in items;
      var k :| 0 <= k < |items| && items[k] == j;
      ItemSelfLeq(t.items[j]);
    }
  }

  lemma ItemSelfLeq(i: Item)
    ensures ItemLeq(i, i)
  {
  }

  /** Collapsing a group of two items or more, whatever the order in which the database breaks ties. */
  lemma CollapseMerges(t: Tables, s: string, g: Group, scan: Scan)
    requires Consistent(t) && Scans(scan, t) && Crowded(t, s, g)
    ensures Merged(t, Collapsed(t, s, g, scan), s, g)
    ensures NumberedBy(Collapsed(t, s, g, scan), s, g, SelectCommands(t, s, g, scan.commands))
  {
    hide SelectItems, SelectCommands, Collapsed, CommandLeq, Matches, MergedItems, MergedCommands, NumberedBy, Rows, IdLeq;
    CollapsedRows(t, s, g, scan);
    ItemListing(t, s, g, scan.items);
    CommandListing(t, s, g, scan.commands);
    var items, ordered := SelectItems(t, s, g, scan.items), SelectCommands(t, s, g, scan.commands);
    FirstIsLeast(t, s, g, items);
    RowsMergeItems(t, Collapsed(t, s, g, scan), s, g, items[0], ordered);
    RowsMergeCommands(t, Collapsed(t, s, g, scan), s, g, items[0], ordered);
  }
}
