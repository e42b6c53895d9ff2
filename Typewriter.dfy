/** The hero title's typing animation `typeWriter`: the title is cleared and
    then `type()` runs once at once and again on every timer tick, each run
    appending the next character of the original text, until a run finds
    nothing left to append and schedules no further tick. */
module Typewriter {

  class HeroTitle {
    /** The original title text, captured once. */
    const text: string
    /** The counter `i`: how many characters have been appended. */
    var i: nat
    /** The element's textContent. */
    var shown: string
    /** Whether a `type()` tick is scheduled. */
    var scheduled: bool

    /** What is shown is always the first `i` characters of the text, and the
        timer chain only stops once the whole text is shown. */
    ghost predicate Valid()
      reads this
    {
      && i <= |text|
      && shown == text[..i]
      && (!scheduled ==> i == |text|)
    }

    /** typeWriter(element, text): clear the element, then run `type()` once. */
    constructor Start(text: string)
      ensures Valid() && this.text == text
      ensures i == (if text == [] then 0 else 1)
      ensures scheduled <==> text != []
    {
      this.text := text;
      i := 0;
      shown := [];
      scheduled := false;
      new;
      var _ := Type();
    }

    /** One run of `type()`: append `text[i]` and schedule the next tick, or,
        when every character is shown, do nothing and schedule none. */
    method Type() returns (appended: bool)
      requires i <= |text| && shown == text[..i]
      modifies this
      ensures Valid()
      ensures appended <==> old(i) < |text|
      ensures i == (if appended then old(i) + 1 else old(i))
      ensures scheduled == appended
    {
      if i < |text| {
        shown := shown + [text[i]];
        assert shown == text[..i + 1];
        i := i + 1;
        scheduled := true;
        appended := true;
      } else {
        scheduled := false;
        appended := false;
      }
    }

    /** Let the scheduled ticks fire until the chain stops. Returns how many
        ticks fired: one per character still to show, plus the last one that
        finds nothing left. */
    method Play() returns (ticks: nat)
      requires Valid()
      modifies this
      ensures Valid() && !scheduled
      ensures shown == text && i == |text|
      ensures ticks == if old(scheduled) then |text| - old(i) + 1 else 0
    {
      ticks := 0;
      while scheduled
        invariant Valid() && old(i) <= i
        invariant scheduled ==> ticks == i - old(i) && old(scheduled)
        invariant !scheduled ==> ticks == (if old(scheduled) then |text| - old(i) + 1 else 0)
        decreases |text| - i, scheduled
      {
        var _ := Type();
        ticks := ticks + 1;
      }
    }
  }
}
