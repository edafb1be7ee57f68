/**
 * The LED side of the controller: the named light patterns and the
 * `display` request that swaps the pattern the LED thread cycles through.
 */
module Leds {

  /**
   * A pattern is the sequence of LED sets ("R", "G", "B" combined) the LED
   * thread shows one after another; the step durations are not modelled.
   */
  type Pattern = seq<string>

  /** Four repetitions of `pattern`, the `[...] * 4` of the rhythmic blink. */
  function Repeat4(pattern: Pattern): Pattern {
    pattern + pattern + pattern + pattern
  }

  /** The pattern table of the LED thread: static colours and the rhythmic blink. */
  function Patterns(): (table: map<string, Pattern>) {
    map[
      "red" := ["R"],
      "yellow" := ["RG"],
      "green" := ["G"],
      "blue" := ["B"],
      "blank" := [""],
      "blink" := Repeat4(["RG", ""]) + [""]
    ]
  }

  /** The thread that drives the LEDs; only the state `display` changes is modelled. */
  class UserInterface {
    /** The named patterns, fixed when the thread is created. */
    const patterns: map<string, Pattern>
    /** The pattern the LED loop is cycling through. */
    var pattern: Pattern
    /** The `update` event: set when a new pattern was requested, so that the current wait ends at once. */
    var update: bool

    /** A fresh LED thread shows the blank pattern and has no request pending. */
    constructor ()
      ensures patterns == Patterns()
      ensures pattern == Patterns()["blank"] && !update
    {
      patterns := Patterns();
      pattern := Patterns()["blank"];
      update := false;
    }

    /**
     * `display(p)`: a known name replaces the pattern and wakes the LED
     * loop; an unknown name changes nothing.
     */
    method Display(p: string)
      modifies this
      ensures p in patterns ==> pattern == patterns[p] && update
      ensures p !in patterns ==> pattern == old(pattern) && update == old(update)
    {
      if p in patterns {
        pattern := patterns[p];
        update := true;
      }
    }
  }
}
