/**
 * The dd supervisor's decision when dd exits: which event, if any, it posts
 * to the state machine. The state it consults is read without a lock, so the
 * model takes it as a value read at the moment dd exits.
 */
module DiskWiper {
  import opened Wrappers
  import opened Machine
  import opened MachineProperties

  /**
   * The event posted when dd exits with `code` while the state machine's
   * state reads `snapshot`: dd_ok on success; on failure dd_fail, unless the
   * disk was already yanked, whose entry action asked for dd to be killed.
   */
  function ExitEvent(code: int, snapshot: Option<State>): (r: Option<Event>)
    ensures r == Some(DdOk) <==> code == 0
    ensures r == Some(DdFail) <==> code != 0 && snapshot != Some(Yanked)
    ensures r == None <==> code != 0 && snapshot == Some(Yanked)
  {
    if code == 0 then Some(DdOk)
    else if snapshot != Some(Yanked) then Some(DdFail)
    else None
  }

  /** The machine's reaction to at most one posted event. */
  function Deliver(table: seq<Rule>, s: Option<State>, posted: Option<Event>): Reaction {
    match posted
    case None => Reaction(s, [])
    case Some(e) => Effect(table, s, e)
  }

  /** dd exiting while erasing ends in WIPED on success and in IOERROR on any failure. */
  lemma ExitWhileErasing(code: int)
    ensures Deliver(Transitions, Some(Erasing), ExitEvent(code, Some(Erasing))) ==
      if code == 0 then Reaction(Some(Wiped), EntryActions(Wiped))
      else Reaction(Some(IoError), EntryActions(IoError))
  {
    var e := if code == 0 then DdOk else DdFail;
    assert Documented(Erasing, DdOk) == Goes(Wiped) && Documented(Erasing, DdFail) == Goes(IoError);
    TableMatchesDocumentation(Erasing, e);
    RealTransitionRunsEntryAction(Transitions, Some(Erasing), e, if code == 0 then Wiped else IoError);
  }

  /**
   * A dd killed because the disk was yanked never drives the machine
   * anywhere: whatever its exit code, the machine stays YANKED and issues
   * nothing.
   */
  lemma ExitWhileYankedChangesNothing(code: int)
    ensures Deliver(Transitions, Some(Yanked), ExitEvent(code, Some(Yanked))) == Reaction(Some(Yanked), [])
  {
    if code == 0 {
      InvalidCellsChangeNothing(Yanked, DdOk);
    }
  }
}
