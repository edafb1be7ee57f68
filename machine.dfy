/**
 * The controller's state machine as values: the six states, the five events,
 * the commands an entry action issues, the transition table of
 * diskrasper.py and the first-match scan over it, and the effect of one event
 * and of a sequence of events on the state and on the commands issued.
 *
 * The class in controller.dfy performs these steps in place; the functions
 * here are its specification, and the lemmas below are the properties of the
 * controller proved once for all inputs.
 */
module Machine {
  import opened Wrappers

  /** The states of the controller (IDLE, READY, ERASING, IOERROR, WIPED, YANKED). */
  datatype State = Idle | Ready | Erasing | IoError | Wiped | Yanked

  /** The events the helper threads post: add, remove, button, dd_ok, dd_fail. */
  datatype Event = Add | Remove | Button | DdOk | DdFail

  /** What an entry action asks of the other components. */
  datatype Command =
    | Display(pattern: string)  // userinterface.display(pattern)
    | Wipe                      // diskwiper.wipe(): a request to start dd
    | Abort                     // diskwiper.abort(): kill the current dd process

  /** One row `(state, event, newstate)` of the transition list. */
  datatype Rule = Rule(from: State, on: Event, to: State)

  /** The transition list the program is started with, in its order. */
  const Transitions: seq<Rule> := [
    Rule(Idle,    Add,    Ready),
    Rule(Idle,    Button, Idle),
    Rule(Ready,   Remove, Idle),
    Rule(Ready,   Button, Erasing),
    Rule(Erasing, Remove, Yanked),
    Rule(Erasing, Button, Erasing),
    Rule(Erasing, DdOk,   Wiped),
    Rule(Erasing, DdFail, IoError),
    Rule(IoError, Remove, Idle),
    Rule(IoError, Button, IoError),
    Rule(Wiped,   Remove, Idle),
    Rule(Wiped,   Button, Wiped),
    Rule(Yanked,  Add,    Ready),
    Rule(Yanked,  Button, Idle)
  ]

  /** The rule applies to the current state `s` (None before the first `enter`) and event `e`. */
  predicate Matches(rule: Rule, s: Option<State>, e: Event) {
    s == Some(rule.from) && rule.on == e
  }

  /** Rule `i` is the first rule of `table` that applies to `(s, e)`. */
  predicate FirstMatch(table: seq<Rule>, s: Option<State>, e: Event, i: int) {
    0 <= i < |table| && Matches(table[i], s, e) &&
    forall j :: 0 <= j < i ==> !Matches(table[j], s, e)
  }

  /** No two rules of the table share their `(state, event)` pair. */
  predicate UniqueKeys(table: seq<Rule>) {
    forall i, j :: 0 <= i < j < |table| ==>
      table[i].from != table[j].from || table[i].on != table[j].on
  }

  /**
   * The target of the first rule that applies to `(s, e)`, or None when no
   * rule applies (the `for ... else` branch that only logs). Lemma
   * LookupIsFirstMatch states what it computes.
   */
  function Lookup(table: seq<Rule>, s: Option<State>, e: Event): (r: Option<State>) {
    if table == [] then None
    else if Matches(table[0], s, e) then Some(table[0].to)
    else Lookup(table[1..], s, e)
  }

  /** Lookup answers None exactly when no rule applies, and otherwise the target of the first rule that does. */
  lemma {:induction false} LookupIsFirstMatch(table: seq<Rule>, s: Option<State>, e: Event)
    ensures Lookup(table, s, e).None? <==> forall i :: 0 <= i < |table| ==> !Matches(table[i], s, e)
    ensures Lookup(table, s, e).Some? ==>
      exists i :: FirstMatch(table, s, e, i) && Lookup(table, s, e).value == table[i].to
  {
    if table != [] {
      assert forall i :: 1 <= i < |table| ==> table[i] == table[1..][i - 1];
      if Matches(table[0], s, e) {
        assert FirstMatch(table, s, e, 0);
      } else {
        LookupIsFirstMatch(table[1..], s, e);
        var r := Lookup(table[1..], s, e);
        if r.Some? {
          var k :| FirstMatch(table[1..], s, e, k) && r.value == table[1..][k].to;
          assert FirstMatch(table, s, e, k + 1);
        }
      }
    }
  }

  /** The rule that is first for `(s, e)` is the one Lookup selects. */
  lemma LookupSelectsFirstMatch(table: seq<Rule>, s: Option<State>, e: Event, i: int)
    requires FirstMatch(table, s, e, i)
    ensures Lookup(table, s, e) == Some(table[i].to)
  {
    LookupIsFirstMatch(table, s, e);
    var k :| FirstMatch(table, s, e, k) && Lookup(table, s, e).value == table[k].to;
    assert k == i;
  }

  /** The pattern name each state's entry action displays last. */
  function DisplayName(s: State): string {
    match s
    case Idle => "blank"
    case Ready => "yellow"
    case Erasing => "blink"
    case IoError => "red"
    case Wiped => "green"
    case Yanked => "red"
  }

  /** How many times command `c` occurs in `cmds`. */
  function Occurrences(cmds: seq<Command>, c: Command): nat {
    if cmds == [] then 0
    else Occurrences(cmds[..|cmds| - 1], c) + (if cmds[|cmds| - 1] == c then 1 else 0)
  }

  /** The commands of `enter_<state>`, in the order the entry method issues them. */
  function EntryActions(s: State): (r: seq<Command>)
    ensures 1 <= |r| <= 2 && r[|r| - 1] == Display(DisplayName(s))
  {
    match s
    case Idle => [Display("blank")]
    case Ready => [Display("yellow")]
    case Erasing => [Wipe, Display("blink")]
    case IoError => [Display("red")]
    case Wiped => [Display("green")]
    case Yanked => [Abort, Display("red")]
  }

  /**
   * Every entry action ends by displaying the state's pattern and displays
   * nothing before it; ERASING alone requests a wipe, once, and YANKED alone
   * calls abort, once.
   */
  lemma EntryActionsShape(s: State)
    ensures var cmds := EntryActions(s);
      |cmds| > 0 && cmds[|cmds| - 1] == Display(DisplayName(s)) &&
      (forall i :: 0 <= i < |cmds| - 1 ==> !cmds[i].Display?) &&
      Occurrences(cmds, Wipe) == (if s == Erasing then 1 else 0) &&
      Occurrences(cmds, Abort) == (if s == Yanked then 1 else 0)
  {
    var cmds := EntryActions(s);
    if |cmds| == 2 {
      assert cmds[..1][..0] == [];
      assert Occurrences(cmds[..1], Wipe) == (if s == Erasing then 1 else 0);
      assert Occurrences(cmds[..1], Abort) == (if s == Yanked then 1 else 0);
    }
  }

  /** The commands of `leave_<state>`: the program defines no leave hook for any state. */
  function LeaveActions(s: Option<State>): seq<Command> {
    []
  }

  /** The state after a step and the commands the step issued, in order. */
  datatype Reaction = Reaction(state: Option<State>, issued: seq<Command>)

  /**
   * `enter(target)`: nothing happens when the target is the current state;
   * otherwise the old state's leave hook runs, the state changes and the new
   * state's entry action runs.
   */
  function Enter(s: Option<State>, target: State): (r: Reaction)
    ensures r.state == Some(target)
    ensures r.issued == [] <==> s == Some(target)
  {
    if s == Some(target) then Reaction(s, [])
    else Reaction(Some(target), LeaveActions(s) + EntryActions(target))
  }

  /** One event taken off the queue: scan the table, enter the target of the first match, or change nothing. */
  function Effect(table: seq<Rule>, s: Option<State>, e: Event): (r: Reaction)
    ensures r.state == s <==> r.issued == []
  {
    match Lookup(table, s, e)
    case None => Reaction(s, [])
    case Some(t) => Enter(s, t)
  }

  /** The events of `evs` processed one after another, in queue order. */
  function Run(table: seq<Rule>, s: Option<State>, evs: seq<Event>): Reaction
    decreases |evs|
  {
    if evs == [] then Reaction(s, [])
    else
      var before := Run(table, s, evs[..|evs| - 1]);
      var last := Effect(table, before.state, evs[|evs| - 1]);
      Reaction(last.state, before.issued + last.issued)
  }

  /** How many times processing `evs` from `s` really enters state `t` (self-transitions excluded). */
  function Entries(table: seq<Rule>, s: Option<State>, evs: seq<Event>, t: State): nat
    decreases |evs|
  {
    if evs == [] then 0
    else
      var before := Run(table, s, evs[..|evs| - 1]).state;
      var after := Effect(table, before, evs[|evs| - 1]).state;
      Entries(table, s, evs[..|evs| - 1], t) + (if after == Some(t) && before != Some(t) then 1 else 0)
  }

  /** The cells of the table in the module's documentation: a target, '-' (ignored) or blank (invalid). */
  datatype Cell = Goes(to: State) | Ignored | Invalid

  /** The state transition table as documented at the top of diskrasper.py. */
  function Documented(s: State, e: Event): (c: Cell) {
    match (s, e)
    case (Idle, Add) => Goes(Ready)
    case (Idle, Button) => Ignored
    case (Ready, Remove) => Goes(Idle)
    case (Ready, Button) => Goes(Erasing)
    case (Erasing, Remove) => Goes(Yanked)
    case (Erasing, Button) => Ignored
    case (Erasing, DdOk) => Goes(Wiped)
    case (Erasing, DdFail) => Goes(IoError)
    case (IoError, Remove) => Goes(Idle)
    case (IoError, Button) => Ignored
    case (Wiped, Remove) => Goes(Idle)
    case (Wiped, Button) => Ignored
    case (Yanked, Add) => Goes(Ready)
    case (Yanked, Button) => Goes(Idle)
    case (_, _) => Invalid
  }
}
