/** The order of the phases in the hook migration, phase by phase: before-all comes before before-each,
    after-each before after-all. */
module HookPhases {
  import opened PyText
  import opened HookCollapse
  import opened HookMigration

  predicate OfSuite(t: Tables, s: string, c: string) {
    c in t.commands && t.commands[c].item in t.items && t.items[t.commands[c].item].suite == s
  }

  function ItemOf(t: Tables, c: string): Item
    requires c in t.commands && t.commands[c].item in t.items
  {
    t.items[t.commands[c].item]
  }

  /** `p` comes before `q` on the same side. */
  predicate Precedes(p: Phase, q: Phase) { (p.BeforeAll? && q.BeforeEach?) || (p.AfterEach? && q.AfterAll?) }

  predicate SameSide(p: Phase, q: Phase) {
    ((p.BeforeAll? || p.BeforeEach?) && (q.BeforeAll? || q.BeforeEach?)) ||
    ((p.AfterEach? || p.AfterAll?) && (q.AfterEach? || q.AfterAll?))
  }

  /** In the listing of its side, the command of the first item comes first: by phase, then position, then
      the command's own order. */
  predicate ComesFirst(a: Item, x: Command, b: Item, y: Command) {
    && a.phase.Some? && b.phase.Some?
    && (|| Precedes(a.phase.value, b.phase.value)
        || (a.phase == b.phase && a.position < b.position)
        || (a.phase == b.phase && a.position == b.position && x.order < y.order))
  }

  lemma SideIsGroup(t: Tables, i: string, s: string)
    requires i in t.items && t.items[i].suite == s && t.items[i].phase.Some?
    ensures Matches(t, s, GroupOf(t.items[i].phase.value), i)
    ensures forall j | j in t.items && t.items[j].suite == s && t.items[j].phase.Some? ::
              Matches(t, s, GroupOf(t.items[i].phase.value), j) <==> SameSide(t.items[i].phase.value, t.items[j].phase.value)
  {
  }

  lemma FirstIsNotAfter(t: Tables, c: string, d: string)
    requires Placed(t, c) && Placed(t, d) && ComesFirst(ItemOf(t, c), t.commands[c], ItemOf(t, d), t.commands[d])
    ensures !CommandLeq(t, d, c)
  {
  }

  /** After the migration, a command that came first on its side has the smaller number, and both belong
      to one item when they did or when the side was merged. */
  lemma PhasesDecide(t: Tables, suites: seq<string>, scans: (string, Group) -> Scan, s: string, c: string, d: string)
    requires Consistent(t) && AllScans(scans, t) && ListsSuites(suites, t)
    requires OfSuite(t, s, c) && OfSuite(t, s, d) && ItemOf(t, c).phase.Some? && ItemOf(t, d).phase.Some?
    requires SameSide(ItemOf(t, c).phase.value, ItemOf(t, d).phase.value)
    ensures var t' := CollapsedAll(t, suites, scans);
            && c in t'.commands && d in t'.commands && t'.commands[c].item == t'.commands[d].item
            && (ComesFirst(ItemOf(t, c), t.commands[c], ItemOf(t, d), t.commands[d]) ==>
                  t'.commands[c].order < t'.commands[d].order)
  {
    hide CollapsedAll, AllScans, ListsSuites, CommandLeq, ComesFirst, NumberedBy, Conserved;
    var g := GroupOf(ItemOf(t, c).phase.value);
    SideIsGroup(t, t.commands[c].item, s);
    assert MatchesCommand(t, s, g, c) && MatchesCommand(t, s, g, d);
    MigrationIsSound(t, suites, scans, s, g);
    var t' := CollapsedAll(t, suites, scans);
    SettledMembers(t, t', s, g, c);
    SettledMembers(t, t', s, g, d);
    if ComesFirst(ItemOf(t, c), t.commands[c], ItemOf(t, d), t.commands[d]) {
      FirstIsNotAfter(t, c, d);
      if Crowded(t, s, g) {
      } else {
        UncrowdedOrder(t, s, g, c, d);
      }
    }
  }

  lemma SettledMembers(t: Tables, t': Tables, s: string, g: Group, c: string)
    requires Settled(t, t', s, g) && MatchesCommand(t, s, g, c)
    ensures MatchesCommand(t', s, g, c)
  {
    hide Matches;
  }

  /** In a side with one item, only the commands' own orders decide. */
  lemma UncrowdedOrder(t: Tables, s: string, g: Group, c: string, d: string)
    requires !Crowded(t, s, g) && MatchesCommand(t, s, g, c) && MatchesCommand(t, s, g, d)
    requires !CommandLeq(t, d, c)
    ensures t.commands[c].order < t.commands[d].order
  {
    assert t.commands[c].item == t.commands[d].item;
  }

  /** One item is left on each side that had any, and it is the first: a before-all one when there was one,
      an after-each one when there was one, and of its phase one with the least position. */
  lemma FirstSurvives(t: Tables, suites: seq<string>, scans: (string, Group) -> Scan, i: string)
    requires Consistent(t) && AllScans(scans, t) && ListsSuites(suites, t)
    requires i in t.items && t.items[i].phase.Some?
    ensures var t' := CollapsedAll(t, suites, scans);
            exists j :: IsSurvivor(t, t', t.items[i], j)
  {
    hide CollapsedAll, AllScans, ListsSuites, MergedCommands, NumberedBy, Conserved;
    var s, g := t.items[i].suite, GroupOf(t.items[i].phase.value);
    SideIsGroup(t, i, s);
    MigrationIsSound(t, suites, scans, s, g);
    var t' := CollapsedAll(t, suites, scans);
    assert Conserved(t, t');
    assert Matches(t, s, g, i);
    var j := if Crowded(t, s, g) then SurvivorOf(t, t', s, g, i) else i;
    if !Crowded(t, s, g) {
      assert Matches(t', s, g, i);
      AloneIsFirst(t, t', s, g, i);
    } else {
      MergedIsFirst(t, t', s, g, i, j);
    }
    assert IsSurvivor(t, t', t.items[i], j);
  }

  ghost function SurvivorOf(t: Tables, t': Tables, s: string, g: Group, i: string): (j: string)
    requires MergedItems(t, t', s, g) && Matches(t, s, g, i)
    ensures Matches(t', s, g, j)
  {
    var j :| Matches(t', s, g, j);
    j
  }

  /** `j` is the one item left on the side of `a` in its suite, and it was its first. */
  ghost predicate IsSurvivor(t: Tables, t': Tables, a: Item, j: string) {
    && a.phase.Some? && j in t'.items && OnSide(t'.items[j], a) && j in t.items && t'.items[j] == t.items[j]
    && (forall k | k in t'.items && OnSide(t'.items[k], a) :: k == j)
    && forall k | k in t.items && OnSide(t.items[k], a) ::
         && !Precedes(t.items[k].phase.value, t.items[j].phase.value)
         && (t.items[k].phase == t.items[j].phase ==> t.items[j].position <= t.items[k].position)
  }

  predicate OnSide(b: Item, a: Item) {
    b.suite == a.suite && a.phase.Some? && b.phase.Some? && SameSide(a.phase.value, b.phase.value)
  }

  lemma OnSideMatches(t: Tables, a: Item, k: string)
    requires a.phase.Some?
    ensures k in t.items && OnSide(t.items[k], a) <==> Matches(t, a.suite, GroupOf(a.phase.value), k)
  {
  }

  lemma MergedIsFirst(t: Tables, t': Tables, s: string, g: Group, i: string, j: string)
    requires i in t.items && t.items[i].phase.Some? && s == t.items[i].suite && g == GroupOf(t.items[i].phase.value)
    requires MergedItems(t, t', s, g) && Matches(t', s, g, j)
    ensures IsSurvivor(t, t', t.items[i], j)
  {
    hide Matches, OnSide, Precedes;
    var a := t.items[i];
    OnSideMatches(t', a, j);
    MatchesIsRow(t', s, g, j);
    MatchesIsRow(t, s, g, j);
    forall k | k in t'.items && OnSide(t'.items[k], a)
      ensures k == j
    {
      OnSideMatches(t', a, k);
    }
    forall k | k in t.items && OnSide(t.items[k], a)
      ensures && t.items[k].phase.Some? && t.items[j].phase.Some?
              && !Precedes(t.items[k].phase.value, t.items[j].phase.value)
              && (t.items[k].phase == t.items[j].phase ==> t.items[j].position <= t.items[k].position)
    {
      OnSideMatches(t, a, k);
      OnSideMatches(t, a, j);
      LeqIsFirst(a, t.items[j], t.items[k]);
    }
  }

  lemma LeqIsFirst(a: Item, b: Item, c: Item)
    requires OnSide(b, a) && OnSide(c, a) && ItemLeq(b, c)
    ensures b.phase.Some? && c.phase.Some? && !Precedes(c.phase.value, b.phase.value) && (c.phase == b.phase ==> b.position <= c.position)
  {
  }

  lemma AloneIsFirst(t: Tables, t': Tables, s: string, g: Group, i: string)
    requires i in t.items && t.items[i].phase.Some? && s == t.items[i].suite && g == GroupOf(t.items[i].phase.value)
    requires !Crowded(t, s, g) && SameGroup(t, t', s, g)
    ensures IsSurvivor(t, t', t.items[i], i)
  {
    hide Matches, OnSide, Precedes;
    var a := t.items[i];
    SideIsGroup(t, i, s);
    forall k
      ensures k in t.items && OnSide(t.items[k], a) ==> k == i
      ensures k in t'.items && OnSide(t'.items[k], a) ==> k == i
    {
      OnSideMatches(t, a, k);
      OnSideMatches(t', a, k);
    }
    OnSideMatches(t', a, i);
    OnSideMatches(t, a, i);
    NotBeforeItself(a.phase.value);
    MatchesIsRow(t', s, g, i);
  }

  lemma NotBeforeItself(p: Phase)
    ensures !Precedes(p, p)
  {
  }

  /** The roles: a hook of the before phases has the setup role, a hook of the after phases the teardown
      role, and everything else the test role. */
  lemma RolesByPhase(t: Tables, suites: seq<string>, scans: (string, Group) -> Scan, i: string)
    requires Consistent(t) && AllScans(scans, Backfilled(t)) && ListsSuites(suites, Backfilled(t))
    requires i in Migrated(t, suites, scans).items
    ensures var a := Migrated(t, suites, scans).items[i];
            && (a.role.SetupRole? <==> a.isHook && (a.phase == Some(BeforeAll) || a.phase == Some(BeforeEach)))
            && (a.role.TeardownRole? <==> a.isHook && (a.phase == Some(AfterEach) || a.phase == Some(AfterAll)))
  {
    hide Migrated, AllScans, ListsSuites, Backfilled;
    RolesAfterMigration(t, suites, scans, i, i);
  }
}
