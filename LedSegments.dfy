/** `Segments` (lib/adafruit_featherwing/led_segments.py): the marquee of the segment
    display FeatherWings. `_scroll_marquee` prints the text one character at a time,
    pausing after each character except a '.' that directly follows a character other
    than '.', which the display folds into the previous digit.

    The segment driver is not part of this model: what the class asks of it, and its
    pauses, are recorded in order as the effect trace `trace`. */
module LedSegments {
  import opened Values

  /** One call on the driver, or one pause. */
  datatype Effect = Print(c: char) | Sleep(seconds: real) | Show | FillAll(level: int)

  /** Whether a pause follows the character at `i`: always, except for a '.' whose
      previous character (if any) is not a '.'. */
  predicate PausesAfter(text: string, i: int)
    requires 0 <= i < |text|
    ensures text[i] != '.' ==> PausesAfter(text, i)
    ensures i == 0 ==> (PausesAfter(text, i) <==> text[0] != '.')
    ensures i > 0 && text[i - 1] == '.' ==> PausesAfter(text, i)
  {
    text[i] != '.' || (i > 0 && text[i - 1] == '.')
  }

  /** The effects of one character of the marquee. */
  function CharEffects(text: string, i: int, delay: real): (effects: seq<Effect>)
    requires 0 <= i < |text|
    ensures |effects| == (if PausesAfter(text, i) then 3 else 2)
    ensures effects[0] == Print(text[i]) && effects[|effects| - 1] == Show
    ensures PausesAfter(text, i) ==> effects[1] == Sleep(delay)
  {
    [Print(text[i])] + (if PausesAfter(text, i) then [Sleep(delay)] else []) + [Show]
  }

  /** The effects of scrolling `text` once. */
  function ScrollTrace(text: string, delay: real): (trace: seq<Effect>)
    ensures trace == [] <==> text == []
    ensures text != [] ==> trace[|trace| - 1] == Show
    decreases |text|
  {
    if text == [] then [] else ScrollTrace(text[..|text| - 1], delay) + CharEffects(text, |text| - 1, delay)
  }

  /** `n` copies of `trace`, one after the other. */
  function Repeat(trace: seq<Effect>, n: nat): seq<Effect> {
    if n == 0 then [] else Repeat(trace, n - 1) + trace
  }

  // ---------------------------------------------------------------------------
  // Reading a trace back

  /** The characters a trace prints, in order. */
  function Printed(trace: seq<Effect>): string
    decreases |trace|
  {
    if trace == [] then "" else (if trace[0].Print? then [trace[0].c] else "") + Printed(trace[1..])
  }

  function CountShows(trace: seq<Effect>): nat
    decreases |trace|
  {
    if trace == [] then 0 else (if trace[0].Show? then 1 else 0) + CountShows(trace[1..])
  }

  function CountSleeps(trace: seq<Effect>): nat
    decreases |trace|
  {
    if trace == [] then 0 else (if trace[0].Sleep? then 1 else 0) + CountSleeps(trace[1..])
  }

  /** How many runs of dots the text holds: the dots not preceded by a dot. */
  function DotRuns(text: string): nat
    decreases |text|
  {
    if text == [] then 0
    else DotRuns(text[..|text| - 1]) +
         (if text[|text| - 1] == '.' && (|text| == 1 || text[|text| - 2] != '.') then 1 else 0)
  }

  lemma {:induction false} PrintedAppend(a: seq<Effect>, b: seq<Effect>)
    ensures Printed(a + b) == Printed(a) + Printed(b)
    decreases |a|
  {
    if a == [] {
      assert a + b == b;
    } else {
      PrintedAppend(a[1..], b);
      var head: string := if a[0].Print? then [a[0].c] else "";
      assert (a + b)[0] == a[0] && (a + b)[1..] == a[1..] + b;
      assert Printed(a + b) == head + Printed(a[1..] + b);
      assert Printed(a) == head + Printed(a[1..]);
    }
  }

  lemma {:induction false} ShowsAppend(a: seq<Effect>, b: seq<Effect>)
    ensures CountShows(a + b) == CountShows(a) + CountShows(b)
    decreases |a|
  {
    if a == [] {
      assert a + b == b;
    } else {
      ShowsAppend(a[1..], b);
      var head := if a[0].Show? then 1 else 0;
      assert (a + b)[0] == a[0] && (a + b)[1..] == a[1..] + b;
      assert CountShows(a + b) == head + CountShows(a[1..] + b);
      assert CountShows(a) == head + CountShows(a[1..]);
    }
  }

  lemma {:induction false} SleepsAppend(a: seq<Effect>, b: seq<Effect>)
    ensures CountSleeps(a + b) == CountSleeps(a) + CountSleeps(b)
    decreases |a|
  {
    if a == [] {
      assert a + b == b;
    } else {
      SleepsAppend(a[1..], b);
      var head := if a[0].Sleep? then 1 else 0;
      assert (a + b)[0] == a[0] && (a + b)[1..] == a[1..] + b;
      assert CountSleeps(a + b) == head + CountSleeps(a[1..] + b);
      assert CountSleeps(a) == head + CountSleeps(a[1..]);
    }
  }

  lemma CountsAppend(a: seq<Effect>, b: seq<Effect>)
    ensures Printed(a + b) == Printed(a) + Printed(b)
    ensures CountShows(a + b) == CountShows(a) + CountShows(b)
    ensures CountSleeps(a + b) == CountSleeps(a) + CountSleeps(b)
  {
    PrintedAppend(a, b);
    ShowsAppend(a, b);
    SleepsAppend(a, b);
  }

  lemma CountsOfOne(e: Effect)
    ensures Printed([e]) == if e.Print? then [e.c] else ""
    ensures CountShows([e]) == if e.Show? then 1 else 0
    ensures CountSleeps([e]) == if e.Sleep? then 1 else 0
  {
    assert [e][1..] == [];
  }

  lemma CharEffectsCounts(text: string, i: int, delay: real)
    requires 0 <= i < |text|
    ensures Printed(CharEffects(text, i, delay)) == [text[i]]
    ensures CountShows(CharEffects(text, i, delay)) == 1
    ensures CountSleeps(CharEffects(text, i, delay)) == if PausesAfter(text, i) then 1 else 0
  {
    var pause: seq<Effect> := if PausesAfter(text, i) then [Sleep(delay)] else [];
    CountsOfOne(Print(text[i]));
    CountsOfOne(Show);
    CountsOfOne(Sleep(delay));
    CountsAppend([Print(text[i])], pause);
    CountsAppend([Print(text[i])] + pause, [Show]);
  }

  /** Scrolling prints every character of the text once and in order, shows once per
      character, and pauses once per character except for the first dot of each run
      of dots. */
  lemma {:induction false} ScrollTraceCounts(text: string, delay: real)
    ensures Printed(ScrollTrace(text, delay)) == text
    ensures CountShows(ScrollTrace(text, delay)) == |text|
    ensures CountSleeps(ScrollTrace(text, delay)) == |text| - DotRuns(text)
    decreases |text|
  {
    if text != [] {
      var n := |text|;
      var front := text[..n - 1];
      var before, last := ScrollTrace(front, delay), CharEffects(text, n - 1, delay);
      ScrollTraceCounts(front, delay);
      assert ScrollTrace(text, delay) == before + last;
      CountsAppend(before, last);
      CharEffectsCounts(text, n - 1, delay);
      assert text == front + [text[n - 1]];
      DotRunsStep(text);
    }
  }

  /** The last character opens a new run of dots exactly when no pause follows it. */
  lemma DotRunsStep(text: string)
    requires text != []
    ensures DotRuns(text) == DotRuns(text[..|text| - 1]) + (if PausesAfter(text, |text| - 1) then 0 else 1)
  {
    var n := |text|;
    if n > 1 {
      assert text[..n - 1][n - 2] == text[n - 2];
    }
  }

  /** A text that starts with a dot prints it and shows it without pausing. */
  lemma LeadingDotDoesNotPause(text: string, delay: real)
    requires |text| >= 1 && text[0] == '.'
    ensures ScrollTrace(text, delay)[..2] == [Print('.'), Show]
  {
    PrefixOfScroll(text, 1, delay);
    assert text[..1] == ['.'];
    assert ScrollTrace(text[..1], delay) == ScrollTrace([], delay) + CharEffects(text[..1], 0, delay);
  }

  /** Scrolling one more character of the text appends that character's effects. */
  lemma ScrollTraceStep(text: string, i: int, delay: real)
    requires 0 <= i < |text|
    ensures ScrollTrace(text[..i + 1], delay) == ScrollTrace(text[..i], delay) + CharEffects(text, i, delay)
  {
    assert text[..i + 1][..i] == text[..i];
    assert CharEffects(text[..i + 1], i, delay) == CharEffects(text, i, delay);
  }

  /** The trace of a prefix of the text is a prefix of the text's trace. */
  lemma {:induction false} PrefixOfScroll(text: string, k: nat, delay: real)
    requires k <= |text|
    ensures |ScrollTrace(text[..k], delay)| <= |ScrollTrace(text, delay)|
    ensures ScrollTrace(text, delay)[..|ScrollTrace(text[..k], delay)|] == ScrollTrace(text[..k], delay)
    decreases |text|
  {
    if k < |text| {
      var front := text[..|text| - 1];
      PrefixOfScroll(front, k, delay);
      assert front[..k] == text[..k];
    } else {
      assert text[..k] == text;
    }
  }

  // ---------------------------------------------------------------------------
  // The FeatherWing

  class Segments {
    /** Everything asked of the segment driver, and every pause, in order. */
    var trace: seq<Effect>

    constructor()
      ensures trace == []
    {
      trace := [];
    }

    /** `_scroll_marquee`: one pass over the text, with the `char_is_dot` flag
        remembering whether the previous character was a '.'. */
    method ScrollMarquee(text: string, delay: real)
      modifies this`trace
      ensures trace == old(trace) + ScrollTrace(text, delay)
    {
      var charIsDot := false;
      var i := 0;
      while i < |text|
        invariant 0 <= i <= |text|
        invariant charIsDot <==> i > 0 && text[i - 1] == '.'
        invariant trace == old(trace) + ScrollTrace(text[..i], delay)
      {
        ScrollTraceStep(text, i, delay);
        ScrollChar(text, i, delay, charIsDot);
        charIsDot := text[i] == '.';
        i := i + 1;
      }
      assert text[..i] == text;
    }

    /** One pass of the loop of `_scroll_marquee`: print the character, pause unless it
        is a dot folded into the previous character, and show. */
    method ScrollChar(text: string, i: int, delay: real, charIsDot: bool)
      requires 0 <= i < |text|
      requires charIsDot <==> i > 0 && text[i - 1] == '.'
      modifies this`trace
      ensures trace == old(trace) + CharEffects(text, i, delay)
    {
      var character := text[i];
      trace := trace + [Print(character)];
      if character != '.' || charIsDot {
        trace := trace + [Sleep(delay)];
      }
      trace := trace + [Show];
    }

    /** `fill`: a bool lights every segment (1) or clears them (0) and shows;
        anything else raises ValueError and does nothing. */
    method Fill(fill: Value) returns (r: Outcome)
      modifies this`trace
      ensures r == (if fill.Bool? then Pass else Fail(ValueError))
      ensures trace == old(trace) + (if fill.Bool? then [FillAll(if fill.b then 1 else 0), Show] else [])
    {
      if !fill.Bool? {
        return Fail(ValueError);
      }
      trace := trace + [FillAll(if fill.b then 1 else 0), Show];
      return Pass;
    }

    /** `marquee`: nothing for a text that is not a string; otherwise the display is
        cleared once and the text scrolled once, or, when looping, once per pass of the
        first `passes` passes of the endless loop. */
    method Marquee(text: Value, delay: real, loop: bool, passes: nat)
      modifies this`trace
      ensures !text.Str? ==> trace == old(trace)
      ensures text.Str? ==>
        trace == old(trace) + [FillAll(0), Show] + Repeat(ScrollTrace(text.s, delay), if loop then passes else 1)
    {
      if !text.Str? {
        return;
      }
      var _ := Fill(Bool(false));
      if loop {
        ScrollPasses(text.s, delay, passes);
      } else {
        ScrollMarquee(text.s, delay);
        assert Repeat(ScrollTrace(text.s, delay), 1) == [] + ScrollTrace(text.s, delay);
      }
    }

    /** The first `passes` passes of the endless `while True` loop of `marquee`. */
    method ScrollPasses(text: string, delay: real, passes: nat)
      modifies this`trace
      ensures trace == old(trace) + Repeat(ScrollTrace(text, delay), passes)
    {
      ghost var once := ScrollTrace(text, delay);
      var k := 0;
      while k < passes
        invariant 0 <= k <= passes
        invariant trace == old(trace) + Repeat(once, k)
      {
        ScrollMarquee(text, delay);
        k := k + 1;
      }
    }
  }
}
