/** The decisions `PYOA_Graphics` (lib/adafruit_pyoa.py) takes from the fields of a card:
    which buttons are shown, which destination a touch selects, where a destination id
    leads, what colour and loop flag the card asks for, and whether it advances by itself.

    A card is the dictionary the JSON story file gives, and every `card.get(key, default)`
    of the source is `Get(card, key, default)` here. */
module Story {
  import opened Values

  type Card = map<string, Value>

  /** Python's `card.get(key, default)`. */
  function Get(card: Card, key: string, default: Value): Value {
    if key in card then card[key] else default
  }

  /** The three on-screen buttons: left and right for a two-way choice, middle for one. */
  datatype Position = Left | Middle | Right

  /** A touch-screen sample. */
  datatype Point = Point(x: int, y: int)

  predicate HasFirstButton(card: Card) {
    Truthy(Get(card, "button01_text", NoneValue))
  }

  predicate HasSecondButton(card: Card) {
    Truthy(Get(card, "button02_text", NoneValue))
  }

  /** The buttons `_display_buttons` appends to the button group, in the order appended. */
  function ButtonsFor(card: Card): (buttons: seq<Position>)
    ensures |buttons| == 2 <==> HasFirstButton(card) && HasSecondButton(card)
    ensures |buttons| == 1 <==> HasFirstButton(card) && !HasSecondButton(card)
    ensures buttons == [] <==> !HasFirstButton(card)
    ensures Middle in buttons <==> |buttons| == 1
    ensures |buttons| == 2 ==> buttons[0] == Right && buttons[1] == Left
  {
    if HasFirstButton(card) && !HasSecondButton(card) then [Middle]
    else if HasFirstButton(card) && HasSecondButton(card) then [Right, Left]
    else []
  }

  /** The label `_display_buttons` gives a button: the first text on the left and middle
      buttons, the second text on the right one. */
  function LabelFor(card: Card, pos: Position): Value {
    if pos == Right then Get(card, "button02_text", NoneValue)
    else Get(card, "button01_text", NoneValue)
  }

  /** The destination id a button stands for (None when the card has no such key). */
  function GotoFor(card: Card, pos: Position): Value {
    if pos == Right then Get(card, "button02_goto_card_id", NoneValue)
    else Get(card, "button01_goto_card_id", NoneValue)
  }

  /** What one turn of the polling loop of `_wait_for_press` does: go on polling, or
      return the destination id of the pressed button. */
  datatype Poll = KeepPolling | Pressed(destination: Value)

  /** One turn of the polling loop for the touch sample `touch`; `contains(b, p)` is the
      button library's hit test of button `b` at point `p`. */
  function PollStep(card: Card, touch: Option<Point>, contains: (Position, Point) -> bool): (r: Poll)
    ensures touch.None? ==> r == KeepPolling
    ensures ButtonsFor(card) == [] ==> r == KeepPolling
    ensures r.Pressed? ==> exists pos :: pos in ButtonsFor(card) && r.destination == GotoFor(card, pos)
  {
    if touch.None? then KeepPolling
    else
      var p := touch.value;
      if HasFirstButton(card) && !HasSecondButton(card) && contains(Middle, p) then
        Pressed(GotoFor(card, Middle))
      else if HasFirstButton(card) && HasSecondButton(card) && contains(Left, p) then
        Pressed(GotoFor(card, Left))
      else if HasFirstButton(card) && HasSecondButton(card) && contains(Right, p) then
        Pressed(GotoFor(card, Right))
      else KeepPolling
  }

  /** A poll returns only for a touch inside a shown button, and then returns that
      button's destination. */
  lemma PressIsShownButton(card: Card, touch: Option<Point>, contains: (Position, Point) -> bool)
    requires PollStep(card, touch, contains).Pressed?
    ensures touch.Some?
    ensures exists pos :: pos in ButtonsFor(card) && contains(pos, touch.value) &&
                          PollStep(card, touch, contains).destination == GotoFor(card, pos)
  {
    var p := touch.value;
    if HasFirstButton(card) && !HasSecondButton(card) {
      assert Middle in ButtonsFor(card) && contains(Middle, p);
    } else if contains(Left, p) {
      assert Left in ButtonsFor(card);
    } else {
      assert Right in ButtonsFor(card) && contains(Right, p);
    }
  }

  /** A touch inside a shown button selects that button's destination: the first
      destination for the middle or left button, the second for the right one (the left
      button is tested first where the two overlap). */
  lemma ShownButtonIsPressed(card: Card, p: Point, pos: Position, contains: (Position, Point) -> bool)
    requires pos in ButtonsFor(card) && contains(pos, p)
    requires pos == Right ==> !contains(Left, p)
    ensures PollStep(card, Some(p), contains) == Pressed(GotoFor(card, pos))
    ensures pos != Right ==> PollStep(card, Some(p), contains).destination == Get(card, "button01_goto_card_id", NoneValue)
    ensures pos == Right ==> PollStep(card, Some(p), contains).destination == Get(card, "button02_goto_card_id", NoneValue)
  {
  }

  /** The outcome of polling the touch samples in order until one presses a button. */
  function FirstPress(card: Card, samples: seq<Option<Point>>, contains: (Position, Point) -> bool): (r: Poll)
    ensures r.Pressed? ==>
      exists i :: 0 <= i < |samples| && PollStep(card, samples[i], contains) == r &&
        forall j :: 0 <= j < i ==> PollStep(card, samples[j], contains) == KeepPolling
    ensures r == KeepPolling <==>
      forall i :: 0 <= i < |samples| ==> PollStep(card, samples[i], contains) == KeepPolling
    decreases |samples|
  {
    if samples == [] then KeepPolling
    else
      var r := PollStep(card, samples[0], contains);
      if r.Pressed? then r else FirstPress(card, samples[1..], contains)
  }

  /** `_wait_for_press` over a finite stretch of touch samples: it returns the destination
      of the first press, or reports that it is still polling when the samples run out. */
  method WaitForPress(card: Card, samples: seq<Option<Point>>, contains: (Position, Point) -> bool)
    returns (r: Poll)
    ensures r == FirstPress(card, samples, contains)
  {
    var i := 0;
    while i < |samples|
      invariant 0 <= i <= |samples|
      invariant FirstPress(card, samples, contains) == FirstPress(card, samples[i..], contains)
    {
      assert samples[i..][1..] == samples[i + 1..];
      var step := PollStep(card, samples[i], contains);
      if step.Pressed? {
        return step;
      }
      i := i + 1;
    }
    return KeepPolling;
  }

  /** A card with no button text and no auto-advance waits for ever, whatever is touched. */
  lemma NoButtonsWaitForever(card: Card, samples: seq<Option<Point>>, contains: (Position, Point) -> bool)
    requires !HasFirstButton(card)
    ensures FirstPress(card, samples, contains) == KeepPolling
  {
    forall i | 0 <= i < |samples|
      ensures PollStep(card, samples[i], contains) == KeepPolling
    {
      if PollStep(card, samples[i], contains).Pressed? {
        PressIsShownButton(card, samples[i], contains);
      }
    }
  }

  /** Whether a card's `card_id` equals `id` in the sense of Python's `==`. */
  predicate HasId(card: Card, id: Value) {
    PyEquals(Get(card, "card_id", NoneValue), id)
  }

  /** The first position in the story whose card has the id `id`. */
  function CardIndex(game: seq<Card>, id: Value): (r: Option<nat>)
    ensures r.Some? ==> r.value < |game| && HasId(game[r.value], id) &&
                        forall j :: 0 <= j < r.value ==> !HasId(game[j], id)
    ensures r.None? <==> forall j :: 0 <= j < |game| ==> !HasId(game[j], id)
    decreases |game|
  {
    if game == [] then None
    else if HasId(game[0], id) then Some(0)
    else match CardIndex(game[1..], id)
      case None => None
      case Some(i) => Some(i + 1)
  }

  /** The lookup at the end of `display_card`: the first index whose card has the
      destination id, or RuntimeError when no card has it. */
  method FindCardIndex(game: seq<Card>, destination: Value) returns (r: Result<nat>)
    ensures r.Success? <==> CardIndex(game, destination).Some?
    ensures r.Success? ==> r.value == CardIndex(game, destination).value
    ensures r.Failure? ==> r.error == RuntimeError(destination)
  {
    var n := 0;
    while n < |game|
      invariant 0 <= n <= |game|
      invariant forall j :: 0 <= j < n ==> !HasId(game[j], destination)
    {
      if HasId(game[n], destination) {
        return Success(n);
      }
      n := n + 1;
    }
    return Failure(RuntimeError(destination));
  }

  /** Whether `card.get('auto_advance', None) is not None`. */
  predicate AutoAdvances(card: Card) {
    Get(card, "auto_advance", NoneValue) != NoneValue
  }

  // ---------------------------------------------------------------------------
  // Text colour: Python's `int(text_color)`, with ValueError turned into 0

  predicate IsDigits(s: string) {
    |s| > 0 && forall i :: 0 <= i < |s| ==> '0' <= s[i] <= '9'
  }

  /** The number written by the decimal digits `s`. */
  function DigitsValue(s: string): nat
    requires forall i :: 0 <= i < |s| ==> '0' <= s[i] <= '9'
    decreases |s|
  {
    if s == [] then 0 else DigitsValue(s[..|s| - 1]) * 10 + (s[|s| - 1] as int - '0' as int)
  }

  /** Python's `int(s)` for a string: an optional sign followed by decimal digits parses,
      anything else raises ValueError (None here). */
  function ParseInt(s: string): Option<int> {
    if |s| > 0 && (s[0] == '-' || s[0] == '+') && IsDigits(s[1..]) then
      var magnitude: int := DigitsValue(s[1..]);
      Some(if s[0] == '-' then -magnitude else magnitude)
    else if IsDigits(s) then Some(DigitsValue(s))
    else None
  }

  /** The decimal spelling of `n`, as `str(n)` writes it. */
  function DecimalString(n: nat): (s: string)
    ensures IsDigits(s)
    decreases n
  {
    if n < 10 then [('0' as int + n) as char]
    else DecimalString(n / 10) + [('0' as int + n % 10) as char]
  }

  lemma {:induction false} DigitsOfDecimal(n: nat)
    ensures DigitsValue(DecimalString(n)) == n
    decreases n
  {
    if n >= 10 {
      DigitsOfDecimal(n / 10);
      var s := DecimalString(n);
      assert s[..|s| - 1] == DecimalString(n / 10);
    }
  }

  /** `int()` reads back what `str()` writes, with either sign. */
  lemma ParseIntOfDecimal(n: nat)
    ensures ParseInt(DecimalString(n)) == Some(n)
    ensures ParseInt("-" + DecimalString(n)) == Some(-(n as int))
  {
    DigitsOfDecimal(n);
    assert ("-" + DecimalString(n))[1..] == DecimalString(n);
  }

  /** The colour `_display_text_for` passes on: `int(text_color)`, where a ValueError
      gives 0 and a None colour makes `int()` raise TypeError, which is not caught. */
  function TextColor(color: Value): (r: Result<int>)
    ensures r.Failure? <==> color == NoneValue
    ensures r.Failure? ==> r.error == TypeError
    ensures color.Str? && ParseInt(color.s).None? ==> r == Success(0)
    ensures color.Int? ==> r == Success(color.i)
  {
    match color
    case NoneValue => Failure(TypeError)
    case Bool(b) => Success(if b then 1 else 0)
    case Int(i) => Success(i)
    case Str(s) => Success(match ParseInt(s) case Some(n) => n case None => 0)
  }

  /** A colour written in decimal keeps its value; one written in hexadecimal, as
      "0xFF0000", fails `int()` and becomes 0. */
  lemma TextColorOfStrings(n: nat)
    ensures TextColor(Str(DecimalString(n))) == Success(n)
    ensures TextColor(Str("0x" + DecimalString(n))) == Success(0)
  {
    ParseIntOfDecimal(n);
    var s := "0x" + DecimalString(n);
    assert s[1] == 'x';
    assert !IsDigits(s) && !IsDigits(s[1..]);
  }

  /** `loop == "True"` for the card's `sound_repeat` value (False when absent). */
  function LoopFlag(repeat: Value): (loop: bool)
    ensures loop <==> repeat == Str("True")
  {
    PyEquals(repeat, Str("True"))
  }
}
