/**
 * The runs the program's transition table implies for everyday situations:
 * a complete erase, a disk yanked mid-erase, a re-inserted disk, repeated
 * insertions, and a machine object driven through its queue.
 */
module Scenarios {
  import opened Wrappers
  import opened Machine
  import opened MachineProperties
  import opened DiskWiper
  import Controller

  /** Starting the machine in IDLE blanks the LEDs. */
  lemma StartInIdle()
    ensures Enter(None, Idle) == Reaction(Some(Idle), [Display("blank")])
  {
  }

  /** Insert, then press: a wipe is requested and the LEDs blink. */
  lemma InsertThenPress()
    ensures Run(Transitions, Some(Idle), [Add, Button]) ==
      Reaction(Some(Erasing), EntryActions(Ready) + EntryActions(Erasing))
  {
    assert Documented(Idle, Add) == Goes(Ready) && Documented(Ready, Button) == Goes(Erasing);
    DocumentedMoveRunsEntryAction(Idle, Add);
    DocumentedMoveRunsEntryAction(Ready, Button);
    RunPair(Transitions, Some(Idle), Add, Button);
  }

  /** dd succeeds, then the disk is removed: WIPED shows green, then IDLE blanks the LEDs. */
  lemma WipedThenRemoved()
    ensures Run(Transitions, Some(Erasing), [DdOk, Remove]) ==
      Reaction(Some(Idle), EntryActions(Wiped) + EntryActions(Idle))
  {
    assert Documented(Erasing, DdOk) == Goes(Wiped) && Documented(Wiped, Remove) == Goes(Idle);
    DocumentedMoveRunsEntryAction(Erasing, DdOk);
    DocumentedMoveRunsEntryAction(Wiped, Remove);
    RunPair(Transitions, Some(Erasing), DdOk, Remove);
  }

  /**
   * Insert, press, dd succeeds, remove: the machine is back in IDLE, having
   * issued the entry actions of READY, ERASING, WIPED and IDLE in turn, so
   * that the LEDs end blank.
   */
  lemma EraseThenRemove()
    ensures Run(Transitions, Some(Idle), [Add, Button, DdOk, Remove]) ==
      Reaction(Some(Idle), EntryActions(Ready) + EntryActions(Erasing) + EntryActions(Wiped) + EntryActions(Idle))
  {
    InsertThenPress();
    WipedThenRemoved();
    assert [Add, Button] + [DdOk, Remove] == [Add, Button, DdOk, Remove];
    RunAppend(Transitions, Some(Idle), [Add, Button], [DdOk, Remove]);
    AppendIsAssociative(EntryActions(Ready) + EntryActions(Erasing), EntryActions(Wiped), EntryActions(Idle));
  }

  /** In that run a wipe is requested exactly once and the last pattern requested is "blank". */
  lemma EraseThenRemoveStartsDdOnce()
    ensures var log := Run(Transitions, Some(Idle), [Add, Button, DdOk, Remove]).issued;
      Occurrences(log, Wipe) == 1 && log[|log| - 1] == Display("blank")
    ensures Entries(Transitions, Some(Idle), [Add, Button, DdOk, Remove], Erasing) == 1
  {
    EraseThenRemove();
    EntryActionsShape(Ready);
    EntryActionsShape(Erasing);
    EntryActionsShape(Wiped);
    EntryActionsShape(Idle);
    OccurrencesAppend(EntryActions(Ready), EntryActions(Erasing), Wipe);
    OccurrencesAppend(EntryActions(Ready) + EntryActions(Erasing), EntryActions(Wiped), Wipe);
    OccurrencesAppend(EntryActions(Ready) + EntryActions(Erasing) + EntryActions(Wiped), EntryActions(Idle), Wipe);
    WipeOncePerErasingEntry(Transitions, Some(Idle), [Add, Button, DdOk, Remove]);
  }

  /**
   * Press, then the disk is pulled: a wipe is requested and then abort called, the LEDs
   * go red, and whatever dd's exit code the machine stays YANKED.
   */
  lemma YankWhileErasing(code: int)
    ensures Run(Transitions, Some(Ready), [Button, Remove]) ==
      Reaction(Some(Yanked), EntryActions(Erasing) + EntryActions(Yanked))
    ensures Deliver(Transitions, Some(Yanked), ExitEvent(code, Some(Yanked))) == Reaction(Some(Yanked), [])
  {
    assert Documented(Ready, Button) == Goes(Erasing) && Documented(Erasing, Remove) == Goes(Yanked);
    DocumentedMoveRunsEntryAction(Ready, Button);
    DocumentedMoveRunsEntryAction(Erasing, Remove);
    RunPair(Transitions, Some(Ready), Button, Remove);
    ExitWhileYankedChangesNothing(code);
  }

  /** Re-inserting a yanked disk and pulling it again returns to IDLE without requesting a wipe. */
  lemma YankedRoundTrip()
    ensures Run(Transitions, Some(Yanked), [Add, Remove]) ==
      Reaction(Some(Idle), EntryActions(Ready) + EntryActions(Idle))
  {
    assert Documented(Yanked, Add) == Goes(Ready) && Documented(Ready, Remove) == Goes(Idle);
    DocumentedMoveRunsEntryAction(Yanked, Add);
    DocumentedMoveRunsEntryAction(Ready, Remove);
    RunPair(Transitions, Some(Yanked), Add, Remove);
  }

  /** However many insertions arrive while READY, none has any effect. */
  lemma {:induction false} RepeatedAddInReady(n: nat)
    ensures Run(Transitions, Some(Ready), seq(n, _ => Add)) == Reaction(Some(Ready), [])
  {
    if n > 0 {
      var evs := seq(n, _ => Add);
      assert evs == seq(n - 1, _ => Add) + [Add];
      RepeatedAddInReady(n - 1);
      RunSnoc(Transitions, Some(Ready), seq(n - 1, _ => Add), Add);
      assert Documented(Ready, Add) == Invalid;
      InvalidCellsChangeNothing(Ready, Add);
    }
  }

  /** A second press while erasing adds nothing to insert-then-press. */
  lemma InsertPressPress()
    ensures Run(Transitions, Some(Idle), [Add, Button, Button]) ==
      Reaction(Some(Erasing), EntryActions(Ready) + EntryActions(Erasing))
  {
    assert Documented(Erasing, Button) == Ignored;
    InsertThenPress();
    ButtonIgnoredWhereDocumented(Erasing);
    assert [Add, Button, Button] == [Add, Button] + [Button];
    RunSnoc(Transitions, Some(Idle), [Add, Button], Button);
    assert EntryActions(Ready) + EntryActions(Erasing) + [] == EntryActions(Ready) + EntryActions(Erasing);
  }

  /**
   * The program's machine object driven through its queue: it is started in
   * IDLE, the events are posted in order, and the queue is drained. It ends
   * where Run says and has issued IDLE's entry action followed by the
   * commands of the run.
   */
  method StartAndProcess(evs: seq<Event>) returns (s: Option<State>, ghost log: seq<Command>)
    ensures s == Run(Transitions, Some(Idle), evs).state
    ensures log == EntryActions(Idle) + Run(Transitions, Some(Idle), evs).issued
  {
    var m := new Controller.StateMachine(Transitions, Idle);
    m.Start();
    for i := 0 to |evs|
      invariant m.Valid() && m.transitions == Transitions
      invariant m.state == Some(Idle) && m.issued == EntryActions(Idle)
      invariant m.queue == evs[..i]
    {
      m.Post(evs[i]);
      assert evs[..i + 1] == evs[..i] + [evs[i]];
    }
    assert evs[..|evs|] == evs;
    m.RunAll();
    s := m.state;
    log := m.issued;
  }
}
