/**
 * Properties of the transition step and of runs over the event queue,
 * proved about the specification functions of module Machine.
 */
module MachineProperties {
  import opened Wrappers
  import opened Machine

  /** The program's own table has at most one rule per `(state, event)` pair. */
  lemma CanonicalTableIsDeterministic()
    ensures UniqueKeys(Transitions)
  {
  }

  /**
   * With unique keys the order of the rules does not matter: every rule is
   * the one the first-match scan selects for its own pair.
   */
  lemma UniqueKeysSelectEveryRule(table: seq<Rule>, i: int)
    requires UniqueKeys(table) && 0 <= i < |table|
    ensures Lookup(table, Some(table[i].from), table[i].on) == Some(table[i].to)
  {
    assert FirstMatch(table, Some(table[i].from), table[i].on, i);
    LookupSelectsFirstMatch(table, Some(table[i].from), table[i].on, i);
  }

  /** Every rule of the program's table is documented: as '-' when it is a self-transition, as its target otherwise. */
  lemma EveryRuleIsDocumented()
    ensures forall i :: 0 <= i < |Transitions| ==>
      Documented(Transitions[i].from, Transitions[i].on) ==
        (if Transitions[i].to == Transitions[i].from then Ignored else Goes(Transitions[i].to))
  {
  }

  /** Every cell the documentation fills in has a rule in the program's table. */
  lemma DocumentedCellHasRule(s: State, e: Event)
    requires Documented(s, e) != Invalid
    ensures exists i :: 0 <= i < |Transitions| && Matches(Transitions[i], Some(s), e)
  {
    var i :=
      match (s, e)
      case (Idle, Add) => 0
      case (Idle, Button) => 1
      case (Ready, Remove) => 2
      case (Ready, Button) => 3
      case (Erasing, Remove) => 4
      case (Erasing, Button) => 5
      case (Erasing, DdOk) => 6
      case (Erasing, DdFail) => 7
      case (IoError, Remove) => 8
      case (IoError, Button) => 9
      case (Wiped, Remove) => 10
      case (Wiped, Button) => 11
      case (Yanked, Add) => 12
      case (Yanked, Button) => 13
      case (_, _) => 0;
    assert Matches(Transitions[i], Some(s), e);
  }

  /**
   * The program's table agrees with the documented one: a documented target
   * is the table's target, an ignored cell ('-') is a self-transition, and an
   * invalid cell (blank) has no rule at all.
   */
  lemma TableMatchesDocumentation(s: State, e: Event)
    ensures Documented(s, e).Goes? ==> Lookup(Transitions, Some(s), e) == Some(Documented(s, e).to)
    ensures Documented(s, e).Ignored? ==> Lookup(Transitions, Some(s), e) == Some(s)
    ensures Documented(s, e).Invalid? ==> Lookup(Transitions, Some(s), e) == None
  {
    EveryRuleIsDocumented();
    LookupIsFirstMatch(Transitions, Some(s), e);
    var r := Lookup(Transitions, Some(s), e);
    if Documented(s, e) != Invalid {
      DocumentedCellHasRule(s, e);
      var k :| FirstMatch(Transitions, Some(s), e, k) && r.value == Transitions[k].to;
    }
  }

  /** An event that no rule accepts in the current state changes neither the state nor the commands. */
  lemma UnmatchedEventChangesNothing(table: seq<Rule>, s: Option<State>, e: Event)
    requires forall i :: 0 <= i < |table| ==> !Matches(table[i], s, e)
    ensures Effect(table, s, e) == Reaction(s, [])
  {
    LookupIsFirstMatch(table, s, e);
  }

  /** In particular every invalid cell of the documented table leaves the machine as it was. */
  lemma InvalidCellsChangeNothing(s: State, e: Event)
    requires Documented(s, e) == Invalid
    ensures Effect(Transitions, Some(s), e) == Reaction(Some(s), [])
  {
    TableMatchesDocumentation(s, e);
  }

  /** A rule whose target is the current state repeats no leave or entry action. */
  lemma SelfTransitionIsNoOp(table: seq<Rule>, s: State, e: Event)
    requires Lookup(table, Some(s), e) == Some(s)
    ensures Effect(table, Some(s), e) == Reaction(Some(s), [])
  {
  }

  /**
   * Pressing the button in IDLE, ERASING, IOERROR or WIPED does nothing; in
   * particular a second press while erasing requests no second wipe and changes
   * no pattern.
   */
  lemma ButtonIgnoredWhereDocumented(s: State)
    requires Documented(s, Button) == Ignored
    ensures Effect(Transitions, Some(s), Button) == Reaction(Some(s), [])
    ensures Occurrences(Effect(Transitions, Some(s), Button).issued, Wipe) == 0
  {
    TableMatchesDocumentation(s, Button);
  }

  /** A real change of state issues exactly the new state's entry action and nothing else. */
  lemma RealTransitionRunsEntryAction(table: seq<Rule>, s: Option<State>, e: Event, t: State)
    requires Lookup(table, s, e) == Some(t) && s != Some(t)
    ensures Effect(table, s, e) == Reaction(Some(t), EntryActions(t))
  {
  }

  /** Every documented move leaves the state and issues exactly the entry action of its target. */
  lemma DocumentedMoveRunsEntryAction(s: State, e: Event)
    requires Documented(s, e).Goes?
    ensures Documented(s, e).to != s
    ensures Effect(Transitions, Some(s), e) == Reaction(Some(Documented(s, e).to), EntryActions(Documented(s, e).to))
  {
    var t := Documented(s, e).to;
    assert t != s;
    TableMatchesDocumentation(s, e);
    RealTransitionRunsEntryAction(Transitions, Some(s), e, t);
  }

  /** One step either keeps the state and issues nothing, or moves to a new state and issues its entry action. */
  lemma StepShape(table: seq<Rule>, s: Option<State>, e: Event)
    ensures var r := Effect(table, s, e);
      (r.state == s && r.issued == []) ||
      (r.state.Some? && r.state != s && r.issued == EntryActions(r.state.value))
  {
  }

  /** Counting is additive over concatenation. */
  lemma OccurrencesAppend(a: seq<Command>, b: seq<Command>, c: Command)
    ensures Occurrences(a + b, c) == Occurrences(a, c) + Occurrences(b, c)
    decreases |b|
  {
    if b == [] {
      assert a + b == a;
    } else {
      assert (a + b)[..|a + b| - 1] == a + b[..|b| - 1];
      OccurrencesAppend(a, b[..|b| - 1], c);
    }
  }

  /** Regrouping a concatenation, stated on its own so that callers prove it in a small context. */
  lemma AppendIsAssociative(x: seq<Command>, y: seq<Command>, z: seq<Command>)
    ensures (x + y) + z == x + (y + z)
  {
  }

  /** Processing one more event extends the run by that event's step. */
  lemma RunSnoc(table: seq<Rule>, s: Option<State>, evs: seq<Event>, e: Event)
    ensures var before := Run(table, s, evs);
      var last := Effect(table, before.state, e);
      Run(table, s, evs + [e]) == Reaction(last.state, before.issued + last.issued)
  {
    assert (evs + [e])[..|evs + [e]| - 1] == evs;
  }

  /** Two events processed one after the other. */
  lemma RunPair(table: seq<Rule>, s: Option<State>, e1: Event, e2: Event)
    ensures var r1 := Effect(table, s, e1);
      var r2 := Effect(table, r1.state, e2);
      Run(table, s, [e1, e2]) == Reaction(r2.state, r1.issued + r2.issued)
  {
    RunSnoc(table, s, [], e1);
    assert [e1] == [] + [e1];
    RunSnoc(table, s, [e1], e2);
    assert [e1, e2] == [e1] + [e2];
  }

  /** Processing `a` and then `b` is processing `a + b`: the queue may be drained in any number of batches. */
  lemma {:induction false} RunAppend(table: seq<Rule>, s: Option<State>, a: seq<Event>, b: seq<Event>)
    ensures var ra := Run(table, s, a);
      var rb := Run(table, ra.state, b);
      Run(table, s, a + b) == Reaction(rb.state, ra.issued + rb.issued)
    decreases |b|
  {
    if b == [] {
      assert a + b == a;
    } else {
      var b', e := b[..|b| - 1], b[|b| - 1];
      assert b == b' + [e];
      assert a + b == (a + b') + [e];
      RunAppend(table, s, a, b');
      RunSnoc(table, s, a + b', e);
      var ra := Run(table, s, a);
      RunSnoc(table, ra.state, b', e);
      var rb' := Run(table, ra.state, b');
      var last := Effect(table, rb'.state, e);
      AppendIsAssociative(ra.issued, rb'.issued, last.issued);
    }
  }

  /**
   * Closure: whatever the events, the state is the one the run started in or
   * the target of some rule of the table.
   */
  lemma {:induction false} RunStaysInTable(table: seq<Rule>, s: Option<State>, evs: seq<Event>)
    ensures var r := Run(table, s, evs).state;
      r == s || exists i :: 0 <= i < |table| && r == Some(table[i].to)
    decreases |evs|
  {
    if evs != [] {
      var before := Run(table, s, evs[..|evs| - 1]).state;
      RunStaysInTable(table, s, evs[..|evs| - 1]);
      LookupIsFirstMatch(table, before, evs[|evs| - 1]);
      var t := Lookup(table, before, evs[|evs| - 1]);
      if t.Some? {
        var k :| FirstMatch(table, before, evs[|evs| - 1], k) && t.value == table[k].to;
      }
    }
  }

  /** Once the machine has entered its initial state it never again has no state. */
  lemma {:induction false} StartedMachineStaysStarted(table: seq<Rule>, initial: State, evs: seq<Event>)
    ensures Run(table, Enter(None, initial).state, evs).state.Some?
  {
    RunStaysInTable(table, Some(initial), evs);
  }

  /** One step issues a command that only `t`'s entry action issues, once, exactly when it really enters `t`. */
  lemma StepOccurrences(table: seq<Rule>, x: Option<State>, e: Event, c: Command, t: State)
    requires forall u :: Occurrences(EntryActions(u), c) == (if u == t then 1 else 0)
    ensures var r := Effect(table, x, e);
      Occurrences(r.issued, c) == (if r.state == Some(t) && x != Some(t) then 1 else 0)
  {
    StepShape(table, x, e);
  }

  /**
   * Over any run, a command that exactly one state's entry action issues,
   * once, is issued exactly as many times as that state is really entered.
   */
  lemma {:induction false} CommandPerEntry(table: seq<Rule>, s: Option<State>, evs: seq<Event>, c: Command, t: State)
    requires forall u :: Occurrences(EntryActions(u), c) == (if u == t then 1 else 0)
    ensures Occurrences(Run(table, s, evs).issued, c) == Entries(table, s, evs, t)
    decreases |evs|
  {
    if evs != [] {
      var before := Run(table, s, evs[..|evs| - 1]);
      var last := Effect(table, before.state, evs[|evs| - 1]);
      CommandPerEntry(table, s, evs[..|evs| - 1], c, t);
      OccurrencesAppend(before.issued, last.issued, c);
      StepOccurrences(table, before.state, evs[|evs| - 1], c, t);
    }
  }

  /** A wipe is requested exactly once per real entry into ERASING. */
  lemma WipeOncePerErasingEntry(table: seq<Rule>, s: Option<State>, evs: seq<Event>)
    ensures Occurrences(Run(table, s, evs).issued, Wipe) == Entries(table, s, evs, Erasing)
  {
    forall u: State ensures Occurrences(EntryActions(u), Wipe) == (if u == Erasing then 1 else 0) {
      EntryActionsShape(u);
    }
    CommandPerEntry(table, s, evs, Wipe, Erasing);
  }

  /** Abort is called exactly once per real entry into YANKED. */
  lemma AbortOncePerYankedEntry(table: seq<Rule>, s: Option<State>, evs: seq<Event>)
    ensures Occurrences(Run(table, s, evs).issued, Abort) == Entries(table, s, evs, Yanked)
  {
    forall u: State ensures Occurrences(EntryActions(u), Abort) == (if u == Yanked then 1 else 0) {
      EntryActionsShape(u);
    }
    CommandPerEntry(table, s, evs, Abort, Yanked);
  }
}
