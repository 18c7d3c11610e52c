/** The whole hook migration, over every suite: what it conserves, what it leaves alone, and that
    running it again changes nothing. */
module HookMigration {
  import opened PyText
  import opened HookCollapse

  /** The other groups, and everything outside the groups, keep their rows. */
  lemma CollapseFrame(t: Tables, s: string, g: Group, scan: Scan, s': string, g': Group)
    requires Consistent(t) && Scans(scan, t) && (s', g') != (s, g)
    ensures SameGroup(t, Collapsed(t, s, g, scan), s', g')
  {
    hide SelectItems, SelectCommands, Collapsed, CommandLeq, IdLeq, IndexOf;
    if Crowded(t, s, g) {
      CollapsedRows(t, s, g, scan);
      ItemListing(t, s, g, scan.items);
      CommandListing(t, s, g, scan.commands);
      var items := SelectItems(t, s, g, scan.items);
      assert items[0] in items;
      RowsFrame(t, Collapsed(t, s, g, scan), s, g, items[0], SelectCommands(t, s, g, scan.commands), s', g');
    } else {
      UncrowdedIsKept(t, s, g, scan);
    }
  }

  lemma UncrowdedIsKept(t: Tables, s: string, g: Group, scan: Scan)
    requires Scans(scan, t) && !Crowded(t, s, g)
    ensures Collapsed(t, s, g, scan) == t
  {
    hide SelectItems, Crowded;
    FewItems(t, s, g, scan);
  }

  lemma RowsFrame(t: Tables, t': Tables, s: string, g: Group, target: string, ordered: seq<string>, s': string, g': Group)
    requires Rows(t, t', s, g, target, ordered) && Matches(t, s, g, target) && (s', g') != (s, g)
    requires forall c :: c in ordered <==> MatchesCommand(t, s, g, c)
    ensures SameGroup(t, t', s', g')
  {
    hide IndexOf;
    forall i
      ensures Matches(t', s', g', i) <==> Matches(t, s', g', i)
    {
    }
    forall c
      ensures MatchesCommand(t', s', g', c) <==> MatchesCommand(t, s', g', c)
      ensures MatchesCommand(t, s', g', c) ==> t'.commands[c] == t.commands[c]
    {
      if c in t.commands {
        assert c in ordered <==> MatchesCommand(t, s, g, c);
      }
    }
  }

  /** What every collapse keeps of the tables as a whole. */
  ghost predicate Conserved(t: Tables, t': Tables) {
    && t'.commands.Keys == t.commands.Keys && Consistent(t')
    && (forall i | i in t'.items :: i in t.items && t'.items[i] == t.items[i])
    && (forall i | i in t.items && t.items[i].phase == None :: i in t'.items)
    && (forall c | c in t.commands :: t'.commands[c].content == t.commands[c].content)
    && (forall c | c in t.commands && t.commands[c].item in t.items && t.items[t.commands[c].item].phase == None ::
          t'.commands[c] == t.commands[c])
  }

  lemma CollapseConserves(t: Tables, s: string, g: Group, scan: Scan)
    requires Consistent(t) && Scans(scan, t)
    ensures Conserved(t, Collapsed(t, s, g, scan))
  {
    hide SelectItems, SelectCommands, Collapsed, CommandLeq, IdLeq;
    if Crowded(t, s, g) {
      CollapsedRows(t, s, g, scan);
      ItemListing(t, s, g, scan.items);
      CommandListing(t, s, g, scan.commands);
      var items := SelectItems(t, s, g, scan.items);
      assert items[0] in items;
      RowsConserve(t, Collapsed(t, s, g, scan), s, g, items[0], SelectCommands(t, s, g, scan.commands));
    } else {
      UncrowdedIsKept(t, s, g, scan);
    }
  }

  lemma RowsConserve(t: Tables, t': Tables, s: string, g: Group, target: string, ordered: seq<string>)
    requires Rows(t, t', s, g, target, ordered) && Matches(t, s, g, target) && Consistent(t)
    requires forall c :: c in ordered <==> MatchesCommand(t, s, g, c)
    ensures Conserved(t, t')
  {
    hide IndexOf;
    forall c | c in t.commands
      ensures t'.commands[c].item in t'.items && t'.commands[c].content == t.commands[c].content
      ensures c !in ordered ==> t'.commands[c] == t.commands[c]
      ensures t.items[t.commands[c].item].phase == None ==> c !in ordered
    {
      assert c in ordered <==> MatchesCommand(t, s, g, c);
    }
  }

  // ---- one group of the run ---------------------------------------------------------------------

  /** The group as it must come out: merged and numbered when it was crowded, as it was otherwise. */
  ghost predicate Settled(t: Tables, t': Tables, s: string, g: Group) {
    if Crowded(t, s, g) then Merged(t, t', s, g) && exists place :: NumberedBy(t', s, g, place)
    else SameGroup(t, t', s, g)
  }

  lemma CollapseSettles(t: Tables, s: string, g: Group, scan: Scan)
    requires Consistent(t) && Scans(scan, t)
    ensures Settled(t, Collapsed(t, s, g, scan), s, g)
  {
    hide Collapsed, Merged, NumberedBy, Crowded;
    if Crowded(t, s, g) {
      CollapseMerges(t, s, g, scan);
    } else {
      UncrowdedIsKept(t, s, g, scan);
    }
  }

  lemma SettledOver(t: Tables, t1: Tables, t2: Tables, s: string, g: Group)
    requires SameGroup(t, t1, s, g) && Settled(t1, t2, s, g) && Consistent(t) && Consistent(t1)
    ensures Settled(t, t2, s, g)
  {
    hide NumberedBy, Matches, MergedItems, MergedCommands;
    assert Crowded(t, s, g) <==> Crowded(t1, s, g);
    if Crowded(t, s, g) {
      MergedItemsOver(t, t1, t2, s, g);
      MergedCommandsOver(t, t1, t2, s, g);
    } else {
      hide SameGroup, Crowded;
      SameGroupTransitive(t, t1, t2, s, g);
    }
  }

  lemma MergedItemsOver(t: Tables, t1: Tables, t2: Tables, s: string, g: Group)
    requires SameGroup(t, t1, s, g) && MergedItems(t1, t2, s, g)
    ensures MergedItems(t, t2, s, g)
  {
    hide ItemLeq, Matches, MatchesCommand;
  }

  lemma MergedCommandsOver(t: Tables, t1: Tables, t2: Tables, s: string, g: Group)
    requires SameGroup(t, t1, s, g) && MergedCommands(t1, t2, s, g)
    ensures MergedCommands(t, t2, s, g)
  {
    hide CommandLeq, Matches;
    forall c, d | MatchesCommand(t, s, g, c) && MatchesCommand(t, s, g, d)
      ensures CommandLeq(t, d, c) <==> CommandLeq(t1, d, c)
    {
      SameLeq(t, t1, s, g, d, c);
    }
  }

  lemma SameLeq(t: Tables, t1: Tables, s: string, g: Group, d: string, c: string)
    requires SameGroup(t, t1, s, g) && MatchesCommand(t, s, g, c) && MatchesCommand(t, s, g, d)
    ensures CommandLeq(t, d, c) <==> CommandLeq(t1, d, c)
  {
    hide ItemLeq;
    assert Matches(t, s, g, t.commands[c].item) && Matches(t, s, g, t.commands[d].item);
    assert MatchesCommand(t1, s, g, c) && MatchesCommand(t1, s, g, d);
  }

  lemma SettledThen(t: Tables, t1: Tables, t2: Tables, s: string, g: Group)
    requires Settled(t, t1, s, g) && SameGroup(t1, t2, s, g)
    ensures Settled(t, t2, s, g)
  {
    hide CommandLeq, ItemLeq, Matches;
    if Crowded(t, s, g) {
      var place :| NumberedBy(t1, s, g, place);
      SameNumbers(t1, t2, s, g, place);
    }
  }

  lemma SameNumbers(t1: Tables, t2: Tables, s: string, g: Group, place: seq<string>)
    requires NumberedBy(t1, s, g, place) && SameGroup(t1, t2, s, g)
    ensures NumberedBy(t2, s, g, place)
  {
    hide Matches;
    forall k | 0 <= k < |place|
      ensures place[k] in t2.commands && t2.commands[place[k]].order == k as real
    {
      assert place[k] in place;
      assert MatchesCommand(t1, s, g, place[k]);
      assert MatchesCommand(t2, s, g, place[k]);
    }
  }

  lemma SameGroupTransitive(t: Tables, t1: Tables, t2: Tables, s: string, g: Group)
    requires SameGroup(t, t1, s, g) && SameGroup(t1, t2, s, g)
    ensures SameGroup(t, t2, s, g)
  {
    hide Matches, MatchesCommand;
    assert forall i :: Matches(t, s, g, i) ==> Matches(t1, s, g, i);
    assert forall c :: MatchesCommand(t, s, g, c) ==> MatchesCommand(t1, s, g, c);
  }

  lemma ConservedTransitive(t: Tables, t1: Tables, t2: Tables)
    requires Conserved(t, t1) && Conserved(t1, t2) && Consistent(t)
    ensures Conserved(t, t2)
  {
    forall c | c in t.commands && t.items[t.commands[c].item].phase == None
      ensures t2.commands[c] == t.commands[c]
    {
      assert t1.commands[c] == t.commands[c] && t1.commands[c].item in t1.items;
    }
  }

  lemma ScansLater(scan: Scan, t: Tables, t': Tables)
    requires Scans(scan, t) && Conserved(t, t')
    ensures Scans(scan, t')
  {
  }

  // ---- the run ----------------------------------------------------------------------------------

  /** The scans enumerate the tables, whatever the order. */
  ghost predicate AllScans(scans: (string, Group) -> Scan, t: Tables) { forall s, g :: Scans(scans(s, g), t) }

  lemma AllScansLater(scans: (string, Group) -> Scan, t: Tables, t': Tables)
    requires AllScans(scans, t) && Conserved(t, t')
    ensures AllScans(scans, t')
  {
    hide Scans, Conserved;
    forall s, g
      ensures Scans(scans(s, g), t')
    {
      ScansLater(scans(s, g), t, t');
    }
  }

  lemma BothSettle(t: Tables, s: string, scans: (string, Group) -> Scan, s': string, g': Group)
    requires Consistent(t) && AllScans(scans, t)
    ensures var t' := CollapsedBoth(t, s, scans);
            && Conserved(t, t')
            && (s' == s ==> Settled(t, t', s', g')) && (s' != s ==> SameGroup(t, t', s', g'))
  {
    hide Collapsed, SameGroup, Settled, Scans, Conserved;
    var t1 := Collapsed(t, s, Setup, scans(s, Setup));
    CollapseConserves(t, s, Setup, scans(s, Setup));
    AllScansLater(scans, t, t1);
    ConservedIsConsistent(t, t1);
    var t2 := Collapsed(t1, s, Teardown, scans(s, Teardown));
    CollapseConserves(t1, s, Teardown, scans(s, Teardown));
    ConservedTransitive(t, t1, t2);
    if (s', g') == (s, Setup) {
      CollapseSettles(t, s, Setup, scans(s, Setup));
      CollapseFrame(t1, s, Teardown, scans(s, Teardown), s', g');
      SettledThen(t, t1, t2, s', g');
    } else {
      CollapseFrame(t, s, Setup, scans(s, Setup), s', g');
      if s' == s {
        CollapseSettles(t1, s, Teardown, scans(s, Teardown));
        SettledOver(t, t1, t2, s', g');
      } else {
        CollapseFrame(t1, s, Teardown, scans(s, Teardown), s', g');
        SameGroupTransitive(t, t1, t2, s', g');
      }
    }
  }

  lemma ConservedIsConsistent(t: Tables, t': Tables)
    requires Conserved(t, t')
    ensures Consistent(t')
  {
  }

  /** The migration settles every group of the listed suites, once each, and no other group. */
  lemma {:induction false} AllSettle(t: Tables, suites: seq<string>, scans: (string, Group) -> Scan, s: string, g: Group)
    requires Consistent(t) && AllScans(scans, t) && Unique(suites)
    ensures var t' := CollapsedAll(t, suites, scans);
            && Conserved(t, t')
            && (s in suites ==> Settled(t, t', s, g)) && (s !in suites ==> SameGroup(t, t', s, g))
    decreases |suites|
  {
    hide CollapsedBoth, SameGroup, Settled, AllScans, Conserved;
    if suites == [] {
      NothingChanges(t, s, g);
    } else {
      var rest := suites[1..];
      var t1 := CollapsedBoth(t, suites[0], scans);
      BothSettle(t, suites[0], scans, s, g);
      AllScansLater(scans, t, t1);
      ConservedIsConsistent(t, t1);
      UniqueTail(suites);
      AllSettle(t1, rest, scans, s, g);
      var t2 := CollapsedAll(t1, rest, scans);
      ConservedTransitive(t, t1, t2);
      if s == suites[0] {
        SettledThen(t, t1, t2, s, g);
      } else if s in suites {
        SettledOver(t, t1, t2, s, g);
      } else {
        SameGroupTransitive(t, t1, t2, s, g);
      }
    }
  }

  lemma UniqueTail(xs: seq<string>)
    requires Unique(xs) && xs != []
    ensures Unique(xs[1..]) && forall x :: x in xs <==> x == xs[0] || x in xs[1..]
    ensures xs[0] !in xs[1..]
  {
    assert xs == [xs[0]] + xs[1..];
    forall k | 0 <= k < |xs[1..]|
      ensures xs[1..][k] != xs[0]
    {
      assert xs[1..][k] == xs[k + 1];
    }
  }

  lemma NothingChanges(t: Tables, s: string, g: Group)
    requires Consistent(t)
    ensures SameGroup(t, t, s, g) && Conserved(t, t)
  {
  }

  /** `SELECT DISTINCT test_suite_id ... WHERE hook_phase IN (all four)`, in any order. */
  ghost predicate ListsSuites(suites: seq<string>, t: Tables) {
    Unique(suites) && forall s :: s in suites <==> exists i :: i in t.items && t.items[i].suite == s && t.items[i].phase.Some?
  }

  /** The migration, from backfill to collapse. */
  function Migrated(t: Tables, suites: seq<string>, scans: (string, Group) -> Scan): Tables {
    CollapsedAll(Backfilled(t), suites, scans)
  }

  /** After the migration each suite has at most one item per side, no command is lost or changed in
      content, each side's commands follow the old order, and rows outside the hooks are as before. */
  lemma MigrationIsSound(t: Tables, suites: seq<string>, scans: (string, Group) -> Scan, s: string, g: Group)
    requires Consistent(t) && AllScans(scans, t) && ListsSuites(suites, t)
    ensures var t' := CollapsedAll(t, suites, scans);
            && Conserved(t, t') && Settled(t, t', s, g) && !Crowded(t', s, g)
  {
    hide Settled, Conserved, SameGroup, AllScans;
    AllSettle(t, suites, scans, s, g);
    var t' := CollapsedAll(t, suites, scans);
    if s !in suites {
      NoItems(t, suites, s, g);
      EmptySettles(t, t', s, g);
    }
    SettledIsNotCrowded(t, t', s, g);
  }

  lemma NoItems(t: Tables, suites: seq<string>, s: string, g: Group)
    requires ListsSuites(suites, t) && s !in suites
    ensures forall i :: !Matches(t, s, g, i)
  {
  }

  lemma EmptySettles(t: Tables, t': Tables, s: string, g: Group)
    requires SameGroup(t, t', s, g) && forall i :: !Matches(t, s, g, i)
    ensures Settled(t, t', s, g)
  {
  }

  lemma SettledIsNotCrowded(t: Tables, t': Tables, s: string, g: Group)
    requires Settled(t, t', s, g)
    ensures !Crowded(t', s, g)
  {
    hide Matches, MergedCommands, NumberedBy;
  }

  /** A second run, with any tie breaking and any listing of suites, changes nothing. */
  lemma SecondRunIsIdle(t: Tables, suites: seq<string>, scans: (string, Group) -> Scan,
                        again: seq<string>, scans': (string, Group) -> Scan)
    requires Consistent(t) && AllScans(scans, t) && ListsSuites(suites, t)
    requires AllScans(scans', CollapsedAll(t, suites, scans))
    ensures CollapsedAll(CollapsedAll(t, suites, scans), again, scans') == CollapsedAll(t, suites, scans)
  {
    hide Settled, Conserved, AllScans, Crowded;
    var t' := CollapsedAll(t, suites, scans);
    forall s, g
      ensures !Crowded(t', s, g)
    {
      MigrationIsSound(t, suites, scans, s, g);
    }
    Idle(t', again, scans');
  }

  lemma {:induction false} Idle(t: Tables, suites: seq<string>, scans: (string, Group) -> Scan)
    requires AllScans(scans, t) && forall s, g :: !Crowded(t, s, g)
    ensures CollapsedAll(t, suites, scans) == t
    decreases |suites|
  {
    hide Collapsed, Crowded;
    if suites == [] {
    } else {
      UncrowdedIsKept(t, suites[0], Setup, scans(suites[0], Setup));
      UncrowdedIsKept(t, suites[0], Teardown, scans(suites[0], Teardown));
      Idle(t, suites[1..], scans);
    }
  }

  // ---- the roles --------------------------------------------------------------------------------

  /** The two steps of the upgrade, on the tables in place: no suite is left with two items of one hook
      role. */
  method Upgrade(m: Migration, suites: seq<string>, scans: (string, Group) -> Scan)
    requires Consistent(m.tables) && AllScans(scans, Backfilled(m.tables)) && ListsSuites(suites, Backfilled(m.tables))
    modifies m
    ensures m.tables == Migrated(old(m.tables), suites, scans)
    ensures forall i, j | i in m.tables.items && j in m.tables.items ::
              m.tables.items[i].suite == m.tables.items[j].suite && m.tables.items[i].role == m.tables.items[j].role != TestRole ==>
                i == j
  {
    hide CollapsedAll, Backfilled, AllScans, ListsSuites, Consistent;
    ghost var before := m.tables;
    m.BackfillRole();
    m.CollapseHooksFourToTwo(suites, scans);
    forall i, j | i in m.tables.items && j in m.tables.items
      ensures m.tables.items[i].suite == m.tables.items[j].suite && m.tables.items[i].role == m.tables.items[j].role != TestRole ==>
                i == j
    {
      RolesAfterMigration(before, suites, scans, i, j);
    }
  }

  /** At most one item of a suite has the setup role, and at most one the teardown role. An item that a
      hook command ends in has that role exactly when it is of kind hook. */
  lemma RolesAfterMigration(t: Tables, suites: seq<string>, scans: (string, Group) -> Scan, i: string, j: string)
    requires Consistent(t) && AllScans(scans, Backfilled(t)) && ListsSuites(suites, Backfilled(t))
    requires i in Migrated(t, suites, scans).items && j in Migrated(t, suites, scans).items
    ensures var items := Migrated(t, suites, scans).items;
            && (items[i].suite == items[j].suite && items[i].role == items[j].role != TestRole ==> i == j)
            && items[i].role == RoleOf(items[i])
            && (forall g | Matches(Migrated(t, suites, scans), items[i].suite, g, i) :: items[i].role != TestRole <==> items[i].isHook)
  {
    hide CollapsedAll, Settled, AllScans, ListsSuites;
    var b := Backfilled(t);
    assert Consistent(b);
    var t' := CollapsedAll(b, suites, scans);
    var s, g := t'.items[i].suite, if t'.items[i].role == SetupRole then Setup else Teardown;
    MigrationIsSound(b, suites, scans, s, g);
    assert t'.items[i] == b.items[i] && t'.items[j] == b.items[j];
    if t'.items[i].suite == t'.items[j].suite && t'.items[i].role == t'.items[j].role != TestRole {
      assert Matches(t', s, g, i) && Matches(t', s, g, j);
    }
  }
}
