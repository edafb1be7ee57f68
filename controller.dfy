/**
 * The state machine object: it owns the current state, the event queue the
 * helper threads post to, and the LED thread its entry actions command.
 * Requests to start dd and to kill it are recorded in the ghost command log `issued`,
 * together with every display request.
 */
module Controller {
  import opened Wrappers
  import opened Machine
  import opened MachineProperties
  import Leds

  /** Every pattern an entry action asks for is a name the LED thread knows. */
  lemma EntryPatternsAreKnown(s: State)
    ensures DisplayName(s) in Leds.Patterns()
    ensures forall c :: c in EntryActions(s) && c.Display? ==> c.pattern in Leds.Patterns()
  {
    EntryActionsShape(s);
  }

  /** Taking the head off the queue moves it to the end of what has been taken. */
  lemma TakeHead(taken: seq<Event>, queue: seq<Event>)
    requires queue != []
    ensures taken + queue == (taken + [queue[0]]) + queue[1..]
  {
  }

  class StateMachine {
    /** The transition list the machine was created with. */
    const transitions: seq<Rule>
    /** The state entered when the machine starts. */
    const initial: State
    /** The LED thread. */
    const ui: Leds.UserInterface
    /** The current state; None until the machine has started. */
    var state: Option<State>
    /** Events posted and not yet processed, oldest first. */
    var queue: seq<Event>
    /** Every command the entry actions have issued so far, in order. */
    ghost var issued: seq<Command>

    /**
     * The LED thread holds the program's pattern table, and once the machine
     * has started the LEDs show the current state's pattern.
     */
    ghost predicate Valid()
      reads this, ui
    {
      ui.patterns == Leds.Patterns() &&
      (state.Some? ==> ui.pattern == Leds.Patterns()[DisplayName(state.value)])
    }

    /** A new machine has no state, an empty queue and has issued nothing. */
    constructor (transitions: seq<Rule>, initial: State)
      ensures Valid() && fresh(ui)
      ensures this.transitions == transitions && this.initial == initial
      ensures state == None && queue == [] && issued == []
    {
      this.transitions := transitions;
      this.initial := initial;
      ui := new Leds.UserInterface();
      state := None;
      queue := [];
      issued := [];
    }

    /** Issues a display request to the LED thread. */
    method Show(p: string)
      requires ui.patterns == Leds.Patterns() && p in Leds.Patterns()
      modifies this`issued, ui
      ensures ui.pattern == Leds.Patterns()[p] && ui.update
      ensures issued == old(issued) + [Display(p)]
    {
      ui.Display(p);
      issued := issued + [Display(p)];
    }

    /** `enter_<s>`: the entry action of state `s`. */
    method RunEntryAction(s: State)
      requires ui.patterns == Leds.Patterns()
      modifies this`issued, ui
      ensures ui.pattern == Leds.Patterns()[DisplayName(s)] && ui.update
      ensures issued == old(issued) + EntryActions(s)
    {
      EntryPatternsAreKnown(s);
      match s
      case Idle => Show("blank");
      case Ready => Show("yellow");
      case Erasing =>
        issued := issued + [Wipe];
        Show("blink");
      case IoError => Show("red");
      case Wiped => Show("green");
      case Yanked =>
        issued := issued + [Abort];
        Show("red");
    }

    /**
     * `enter(target)`: a transition to the current state does nothing;
     * otherwise the leave hook runs, the state changes and the entry action
     * of the new state runs.
     */
    method Enter(target: State)
      requires Valid()
      modifies this, ui
      ensures Valid()
      ensures var r := Machine.Enter(old(state), target);
        state == r.state && issued == old(issued) + r.issued
      ensures queue == old(queue)
      ensures old(state) != Some(target) ==> ui.pattern == Leds.Patterns()[DisplayName(target)] && ui.update
      ensures old(state) == Some(target) ==> ui.pattern == old(ui.pattern) && ui.update == old(ui.update)
    {
      if state != Some(target) {
        issued := issued + LeaveActions(state);
        state := Some(target);
        RunEntryAction(target);
      }
    }

    /** Starts the machine by entering its initial state. */
    method Start()
      requires Valid()
      modifies this, ui
      ensures Valid()
      ensures var r := Machine.Enter(old(state), initial);
        state == r.state && issued == old(issued) + r.issued
      ensures queue == old(queue)
    {
      Enter(initial);
    }

    /** `event(e)`: a helper thread posts an event; it is processed after every event posted before it. */
    method Post(e: Event)
      modifies this`queue
      ensures queue == old(queue) + [e]
    {
      queue := queue + [e];
    }

    /**
     * Processes one event: scans the transition list for the first rule for
     * the current state and `e` and enters its target; when no rule matches
     * only the error is logged and nothing changes.
     */
    method Step(e: Event)
      requires Valid()
      modifies this, ui
      ensures Valid()
      ensures var r := Effect(transitions, old(state), e);
        state == r.state && issued == old(issued) + r.issued
      ensures queue == old(queue)
      ensures state != old(state) ==> ui.update
      ensures state == old(state) ==> ui.pattern == old(ui.pattern) && ui.update == old(ui.update)
    {
      var i := 0;
      while i < |transitions|
        invariant 0 <= i <= |transitions|
        invariant forall j :: 0 <= j < i ==> !Matches(transitions[j], state, e)
      {
        var rule := transitions[i];
        if Some(rule.from) == state && rule.on == e {
          assert FirstMatch(transitions, state, e, i);
          LookupSelectsFirstMatch(transitions, state, e, i);
          Enter(rule.to);
          return;
        }
        i := i + 1;
      }
      LookupIsFirstMatch(transitions, state, e);
    }

    /** The consumer loop: takes the queued events off the queue one at a time, oldest first, and processes each. */
    method RunAll()
      requires Valid()
      modifies this, ui
      ensures Valid()
      ensures var r := Run(transitions, old(state), old(queue));
        state == r.state && issued == old(issued) + r.issued
      ensures queue == []
    {
      ghost var taken: seq<Event> := [];
      while queue != []
        invariant Valid()
        invariant old(queue) == taken + queue
        invariant var r := Run(transitions, old(state), taken);
          state == r.state && issued == old(issued) + r.issued
        decreases |queue|
      {
        var e := queue[0];
        TakeHead(taken, queue);
        ghost var done := Run(transitions, old(state), taken);
        queue := queue[1..];
        Step(e);
        assert state == Effect(transitions, done.state, e).state &&
          issued == old(issued) + (done.issued + Effect(transitions, done.state, e).issued) by {
          AppendIsAssociative(old(issued), done.issued, Effect(transitions, done.state, e).issued);
        }
        RunSnoc(transitions, old(state), taken, e);
        taken := taken + [e];
      }
      assert taken == old(queue);
    }
  }
}
