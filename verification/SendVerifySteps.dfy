/** The commands of a send-and-verify item, step by step, and which configurations have any. */
module SendVerifySteps {
  import opened PyText
  import opened ConstantStore
  import opened ConstantPlanner
  import opened SendVerify

  lemma TokenSpells(text: string, word: string)
    requires forall i | 0 <= i < |word| :: !('A' <= word[i] <= 'Z')
    ensures Token(text) == word <==> Spells(text, word)
  {
    hide Strip, Lower, Spells;
    LowerSpells(text, word);
  }

  lemma WordsOfAssert(a: AssertSpec)
    ensures (Token(a.target) == "none" <==> Spells(a.target, "none")) && (Token(a.target) == "queue" <==> Spells(a.target, "queue"))
    ensures Token(a.target) == "database" <==> Spells(a.target, "database")
    ensures Token(a.operator) == "equals" <==> Spells(a.operator, "equals")
    ensures Token(a.operator) == "exists" <==> Spells(a.operator, "exists")
  {
    hide Token, Spells;
    TokenSpells(a.target, "none");
    TokenSpells(a.target, "queue");
    TokenSpells(a.target, "database");
    TokenSpells(a.operator, "equals");
    TokenSpells(a.operator, "exists");
  }

  /** How many of the first `i` entries generate commands. */
  function KeptBefore(asserts: seq<AssertSpec>, i: nat): nat
    requires i <= |asserts|
  {
    if i == 0 then 0 else KeptBefore(asserts, i - 1) + if Spells(asserts[i - 1].target, "none") then 0 else 1
  }

  /** The read step of entry `i`: from the queue or the database, into the target. */
  ghost predicate IsReadStep(cmd: Command, a: AssertSpec, i: nat) {
    && cmd.cfg.Action? && cmd.cfg.refs == []
    && (Spells(a.target, "queue") ==> cmd.cfg.code.ReceiveQueue?) && (Spells(a.target, "database") ==> cmd.cfg.code.QueryDatabase?)
    && cmd.cfg.result == Some(ResultConstant("tpl_sv_actual_" + Dec(i), "actual_" + Dec(i), JsonValue))
    && cmd.cfg.targetPath == Some("$.local.constants." + "actual_" + Dec(i))
  }

  /** The assert step of entry `i`, on the constant that the read step declares. */
  ghost predicate IsAssertStep(cmd: Command, a: AssertSpec, i: nat) {
    && cmd.cfg.Action? && cmd.cfg.refs == ["tpl_sv_actual_" + Dec(i)] && cmd.cfg.result.None?
    && (Spells(a.operator, "equals") ==> cmd.cfg.code.JsonEquals?) && (Spells(a.operator, "exists") ==> cmd.cfg.code.JsonNotEmpty?)
  }

  lemma PairIsRead(a: AssertSpec, i: nat, order: nat)
    ensures var p := AssertPair(a, i, order);
            |p| == 2 && (AssertError(a, i).None? && !Skipped(a) ==> IsReadStep(p[0], a, i) && IsAssertStep(p[1], a, i))
  {
    hide Token, Spells, Dec;
    WordsOfAssert(a);
    ActualTarget(i);
  }

  lemma ActualTarget(i: nat)
    ensures ConstantPath(LocalScope, ActualName(i)) == "$.local.constants." + "actual_" + Dec(i)
  {
    hide Dec;
    assert "$." + "local" + ".constants." == "$.local.constants.";
    assert "$." + "local" + ".constants." + ("actual_" + Dec(i)) == "$.local.constants." + "actual_" + Dec(i);
  }

  /** The two steps of entry `i` at place `p`. */
  ghost predicate HasSteps(cmds: seq<Command>, p: nat, a: AssertSpec, i: nat) {
    p + 1 < |cmds| && IsReadStep(cmds[p], a, i) && IsAssertStep(cmds[p + 1], a, i)
  }

  lemma {:induction false} KeptGrows(all: seq<AssertSpec>, i: nat, j: nat)
    requires i <= j <= |all|
    ensures KeptBefore(all, i) <= KeptBefore(all, j)
    decreases j - i
  {
    hide Spells;
    if i == j {
    } else {
      KeptGrows(all, i, j - 1);
    }
  }

  lemma KeptNext(all: seq<AssertSpec>, i: nat)
    requires i < |all|
    ensures KeptBefore(all, i + 1) == KeptBefore(all, i) + if Spells(all[i].target, "none") then 0 else 1
  {
  }

  /** How many entries from `i` on generate commands before entry `j`. */
  function KeptBetween(all: seq<AssertSpec>, i: nat, j: nat): nat
    requires i <= j <= |all|
  {
    KeptGrows(all, i, j);
    KeptBefore(all, j) - KeptBefore(all, i)
  }

  lemma StepsMove(pair: seq<Command>, rest: seq<Command>, p: nat, a: AssertSpec, j: nat)
    requires HasSteps(rest, p, a, j)
    ensures HasSteps(pair + rest, |pair| + p, a, j)
  {
    hide IsReadStep, IsAssertStep;
    assert (pair + rest)[|pair| + p] == rest[p] && (pair + rest)[|pair| + p + 1] == rest[p + 1];
  }

  lemma {:induction false} AssertsAreRead(all: seq<AssertSpec>, i: nat, order: nat)
    requires i <= |all| && GenerateAsserts(all[i..], i, order).Chain?
    ensures var cmds := GenerateAsserts(all[i..], i, order).commands;
            && |cmds| == 2 * KeptBetween(all, i, |all|)
            && forall j | i <= j < |all| && !Spells(all[j].target, "none") :: HasSteps(cmds, 2 * KeptBetween(all, i, j), all[j], j)
    decreases |all| - i
  {
    hide AssertError, AssertPair, Skipped, Spells, IsReadStep, IsAssertStep, KeptBefore, HasSteps;
    if i == |all| {
    } else {
      var a := all[i];
      assert all[i..][0] == a && all[i..][1..] == all[i + 1..];
      SkippedSpells(a);
      KeptNext(all, i);
      if Skipped(a) {
        AssertsAreRead(all, i + 1, order);
      } else {
        AssertsAreRead(all, i + 1, order + 2);
        PairIsRead(a, i, order);
        var pair, rest := AssertPair(a, i, order), GenerateAsserts(all[i + 1..], i + 1, order + 2).commands;
        assert GenerateAsserts(all[i..], i, order).commands == pair + rest;
        forall j | i <= j < |all| && !Spells(all[j].target, "none")
          ensures HasSteps(pair + rest, 2 * KeptBetween(all, i, j), all[j], j)
        {
          if j > i {
            StepsMove(pair, rest, 2 * KeptBetween(all, i + 1, j), all[j], j);
          } else {
            PairHasSteps(pair, rest, a, i);
          }
        }
      }
    }
  }

  lemma PairHasSteps(pair: seq<Command>, rest: seq<Command>, a: AssertSpec, i: nat)
    requires |pair| == 2 && IsReadStep(pair[0], a, i) && IsAssertStep(pair[1], a, i)
    ensures HasSteps(pair + rest, 0, a, i)
  {
    hide IsReadStep, IsAssertStep;
  }

  lemma SkippedSpells(a: AssertSpec)
    ensures Skipped(a) <==> Spells(a.target, "none")
  {
    hide Token, Spells;
    WordsOfAssert(a);
  }

  /** The whole chain: the payload is set and sent, then a wait unless it is of no length, and for each
      entry that has a target a read step and an assert step, in the order of the entries. */
  lemma ChainIsRead(c: Config)
    requires Generate(c).Chain?
    ensures var cmds := Generate(c).commands;
            var first := if c.wait == WaitMs(0) then 2 else 3;
            && |cmds| == first + 2 * KeptBefore(c.asserts, |c.asserts|)
            && cmds[0].cfg == SetVariable("tpl_sv_payload", "payload", LocalScope, JsonValue)
            && cmds[1].cfg == Action(SendMessageQueue, ["tpl_sv_payload"], [], None, None)
            && (first == 3 ==> cmds[2].cfg == Action(Sleep, [], [], None, None))
            && forall i | 0 <= i < |c.asserts| && !Spells(c.asserts[i].target, "none") ::
                 HasSteps(cmds, first + 2 * KeptBefore(c.asserts, i), c.asserts[i], i)
  {
    hide GenerateAsserts, Spells, Strip, Token, IsReadStep, IsAssertStep, KeptBefore, Dec, HasSteps;
    var first := |Prelude(c.wait)|;
    assert c.asserts[0..] == c.asserts;
    AssertsAreRead(c.asserts, 0, first);
    NoneKept(c.asserts);
    var rest := GenerateAsserts(c.asserts, 0, first).commands;
    var cmds := Generate(c).commands;
    assert cmds == Prelude(c.wait) + rest;
    forall i | 0 <= i < |c.asserts| && !Spells(c.asserts[i].target, "none")
      ensures HasSteps(cmds, first + 2 * KeptBefore(c.asserts, i), c.asserts[i], i)
    {
      StepsMove(Prelude(c.wait), rest, 2 * KeptBetween(c.asserts, 0, i), c.asserts[i], i);
    }
  }

  lemma NoneKept(asserts: seq<AssertSpec>)
    ensures KeptBefore(asserts, 0) == 0
  {
  }

  // ---- which configurations are accepted --------------------------------------------------------

  /** An entry without target, or with a target, an operator and what they need. */
  predicate EntryFits(a: AssertSpec) {
    || Spells(a.target, "none")
    || (&& (Spells(a.operator, "exists") || (Spells(a.operator, "equals") && a.hasExpected))
        && (|| (Spells(a.target, "queue") && Strip(a.queueId) != [])
            || (Spells(a.target, "database") && Strip(a.connectionId) != [] && Strip(a.query) != [])))
  }

  lemma EntryIsChecked(a: AssertSpec, i: nat)
    ensures AssertError(a, i).None? <==> EntryFits(a)
  {
    hide Token, Spells, Strip;
    WordsOfAssert(a);
  }

  lemma {:induction false} EntriesAreChecked(asserts: seq<AssertSpec>, i: nat, order: nat)
    ensures GenerateAsserts(asserts, i, order).Chain? <==> forall j | 0 <= j < |asserts| :: EntryFits(asserts[j])
    decreases |asserts|
  {
    hide AssertError, AssertPair, Skipped, EntryFits;
    if asserts == [] {
    } else {
      EntryIsChecked(asserts[0], i);
      EntriesAreChecked(asserts[1..], i + 1, order);
      EntriesAreChecked(asserts[1..], i + 1, order + 2);
      assert forall j | 0 < j < |asserts| :: asserts[j] == asserts[1..][j - 1];
      assert forall j | 0 <= j < |asserts[1..]| :: asserts[1..][j] == asserts[j + 1];
    }
  }

  /** Commands are generated exactly for a configuration with a queue, an inline payload, a wait that is no
      negative number, and entries that fit. */
  lemma AcceptedExactly(c: Config)
    ensures Generate(c).Chain? <==>
            && Strip(c.queueId) != [] && Spells(c.payloadKind, "json_inline") && (c.wait.WaitMs? ==> c.wait.ms >= 0) && !c.wait.NotANumber?
            && forall i | 0 <= i < |c.asserts| :: EntryFits(c.asserts[i])
  {
    hide GenerateAsserts, Spells, Strip, Token, EntryFits;
    TokenSpells(c.payloadKind, "json_inline");
    EntriesAreChecked(c.asserts, 0, |Prelude(c.wait)|);
  }
}
