/** The engine object `PYOA_Graphics` of lib/adafruit_pyoa.py: the three display groups
    (background, text, buttons), the backlight, the background and sound file handles,
    the speaker switch and the audio output, and the per-card sequence `display_card`
    runs through.

    The collaborators whose code is not part of this model are abstracted: the file
    system is the set `files` of paths that can be opened; the JSON story is the card
    list handed to `LoadGame`; the touchscreen is a finite sequence of touch samples; the
    button hit test is the function `contains`; the display brightness is kept in whole
    percent, and every brightness written is logged in `backlightLog`. */
module Pyoa {
  import opened Values
  import opened Story
  import WordWrap
  import Backlight

  /** An open(...) file object: the path it was opened on and whether it is still open. */
  datatype FileHandle = FileHandle(path: string, isOpen: bool)

  /** The `Label` shown in the text group: its text and colour. */
  datatype TextLabel = TextLabel(text: string, color: int)

  /** A button shown in the button group, with the label it was given. */
  datatype ShownButton = ShownButton(pos: Position, caption: Value)

  /** The audio output: silent, or playing the wave file at `path`. */
  datatype Audio = Silent | Playing(path: string, loop: bool)

  /** What `display_card` does with the story: it returns the index of the next card,
      it is still polling the touchscreen when the touch samples run out, or it raises. */
  datatype Transition = Next(index: int) | Waiting | Raised(error: Error)

  /** The width `set_text` wraps the card text to. */
  const TextWidth := 37

  // ---------------------------------------------------------------------------
  // Specification functions for the engine's steps

  /** `self._gamedirectory + "/" + filename`: TypeError when no game was loaded or the
      file name is not a string. */
  function GamePath(dir: Option<string>, filename: Value): (r: Result<string>)
    ensures r.Success? <==> dir.Some? && filename.Str?
    ensures r.Failure? ==> r.error == TypeError
    ensures r.Success? ==>
      && |r.value| == |dir.value| + 1 + |filename.s|
      && r.value[..|dir.value|] == dir.value
      && r.value[|dir.value|] == '/'
      && r.value[|dir.value| + 1..] == filename.s
  {
    if dir.Some? && filename.Str? then Success(dir.value + "/" + filename.s)
    else Failure(TypeError)
  }

  /** `open(self._gamedirectory + "/" + filename, "rb")`: the path opened, or the error. */
  function OpenPath(dir: Option<string>, files: set<string>, filename: Value): (r: Result<string>)
    ensures r.Success? ==> r.value in files && GamePath(dir, filename) == r
    ensures r.Failure? && GamePath(dir, filename).Success? ==>
              r.error == OSError(GamePath(dir, filename).value) && GamePath(dir, filename).value !in files
    ensures GamePath(dir, filename).Failure? ==> r == Failure(TypeError)
  {
    match GamePath(dir, filename)
    case Failure(e) => Failure(e)
    case Success(path) => if path in files then Success(path) else Failure(OSError(path))
  }

  /** The outcome of `set_background(filename)`. */
  function BackgroundOutcome(dir: Option<string>, files: set<string>, filename: Value): (r: Outcome)
    ensures !Truthy(filename) ==> r == Pass
    ensures r.Fail? <==> Truthy(filename) && OpenPath(dir, files, filename).Failure?
    ensures r.Fail? ==> r.error == OpenPath(dir, files, filename).error
  {
    if !Truthy(filename) then Pass
    else match OpenPath(dir, files, filename)
      case Failure(e) => Fail(e)
      case Success(_) => Pass
  }

  /** The background group after `set_background(filename)`. */
  function BackgroundShown(dir: Option<string>, files: set<string>, filename: Value): (shown: seq<string>)
    ensures |shown| <= 1
    ensures shown != [] <==> Truthy(filename) && BackgroundOutcome(dir, files, filename) == Pass
  {
    if Truthy(filename) && OpenPath(dir, files, filename).Success? then [OpenPath(dir, files, filename).value]
    else []
  }

  /** The buttons `_display_buttons` puts in the (empty) button group. */
  function ShownButtons(card: Card): seq<ShownButton> {
    var b := ButtonsFor(card);
    seq(|b|, i requires 0 <= i < |b| => ShownButton(b[i], LabelFor(card, b[i])))
  }

  /** What `set_text(text, color)` leaves in the text group, or the error it raises:
      nothing for a falsy text or colour, AttributeError for a text that is not a
      string, the error of `wrap_nicely`, and otherwise the wrapped lines joined with
      newlines, unless that join is empty. */
  function RenderedText(text: Value, color: Option<int>): (r: Result<Option<TextLabel>>)
    ensures !Truthy(text) || color == None || color == Some(0) ==> r == Success(None)
    ensures r.Failure? ==> text.Str? ==> r.error == ValueError
    ensures r.Failure? && !text.Str? ==> r.error == AttributeError
    ensures r.Success? && r.value.Some? ==> r.value.value.text != "" && color == Some(r.value.value.color)
  {
    if !Truthy(text) || color.None? || color.value == 0 then Success(None)
    else if !text.Str? then Failure(AttributeError)
    else match WordWrap.Wrap(text.s, TextWidth)
      case Failure(e) => Failure(e)
      case Success(lines) =>
        var shown := WordWrap.Join(lines, '\n');
        if shown == "" then Success(None) else Success(Some(TextLabel(shown, color.value)))
  }

  function LabelsOf(rendered: Result<Option<TextLabel>>): seq<TextLabel> {
    if rendered.Success? && rendered.value.Some? then [rendered.value.value] else []
  }

  function OutcomeOf<T>(r: Result<T>): Outcome {
    if r.Success? then Pass else Fail(r.error)
  }

  /** The outcome of `_display_text_for(card)`: `int(text_color)` raises TypeError for a
      null colour, and is not called when the text is falsy. */
  function TextOutcome(card: Card): Outcome {
    var text := Get(card, "text", NoneValue);
    if !Truthy(text) then Pass
    else match TextColor(Get(card, "text_color", Int(0)))
      case Failure(e) => Fail(e)
      case Success(c) => OutcomeOf(RenderedText(text, Some(c)))
  }

  /** The text group `_display_text_for(card)` leaves behind an emptied text group. */
  function TextShown(card: Card): seq<TextLabel> {
    var text := Get(card, "text", NoneValue);
    if !Truthy(text) then []
    else match TextColor(Get(card, "text_color", Int(0)))
      case Failure(_) => []
      case Success(c) => LabelsOf(RenderedText(text, Some(c)))
  }

  /** The outcome and the audio state of `play_sound(filename, wait_to_finish, loop)`;
      a sound played to its end (the blocking wait) leaves the output silent. */
  function PlayResult(dir: Option<string>, files: set<string>, filename: Value, waitToFinish: bool, loop: bool): (r: (Outcome, Audio))
    ensures r.1.Playing? ==> r.0 == Pass && r.1.path in files && r.1.loop == loop
    ensures r.0.Fail? ==> r.1 == Silent && OpenPath(dir, files, filename).Failure? && r.0.error == OpenPath(dir, files, filename).error
  {
    if !Truthy(filename) then (Pass, Silent)
    else match OpenPath(dir, files, filename)
      case Failure(e) => (Fail(e), Silent)
      case Success(path) => if loop || !waitToFinish then (Pass, Playing(path, loop)) else (Pass, Silent)
  }

  /** The outcome and the audio state of `_play_sound_for(card)` starting from `before`. */
  function SoundFor(dir: Option<string>, files: set<string>, card: Card, before: Audio): (r: (Outcome, Audio))
    ensures !Truthy(Get(card, "sound", NoneValue)) ==> r == (Pass, before)
    ensures Truthy(Get(card, "sound", NoneValue)) && r.0 == Pass ==>
      OpenPath(dir, files, Get(card, "sound", NoneValue)).Success? &&
      r.1 == Playing(OpenPath(dir, files, Get(card, "sound", NoneValue)).value, LoopFlag(Get(card, "sound_repeat", Bool(false))))
    ensures r.0.Fail? ==> r.1 == Silent
  {
    var sound := Get(card, "sound", NoneValue);
    if !Truthy(sound) then (Pass, before)
    else PlayResult(dir, files, sound, false, LoopFlag(Get(card, "sound_repeat", Bool(false))))
  }

  /** `self._game[card_num]`, with Python's negative indexing. */
  function CardAt(game: Option<seq<Card>>, cardNum: int): (r: Result<Card>)
    ensures game.None? ==> r == Failure(TypeError)
    ensures game.Some? ==> (r.Success? <==> -|game.value| <= cardNum < |game.value|)
    ensures r.Failure? && game.Some? ==> r.error == IndexError
    ensures r.Success? && cardNum >= 0 ==> r.value == game.value[cardNum]
    ensures r.Success? && cardNum < 0 ==> r.value == game.value[|game.value| + cardNum]
  {
    if game.None? then Failure(TypeError)
    else if cardNum < -|game.value| || |game.value| <= cardNum then Failure(IndexError)
    else Success(game.value[if cardNum < 0 then cardNum + |game.value| else cardNum])
  }

  /** `'{:^24s}'.format(card['card_id'])`: KeyError without a card id, TypeError for a
      null id, ValueError for a number, which has no `s` format. */
  function HeaderOutcome(card: Card): (r: Outcome)
    ensures r == Pass <==> "card_id" in card && card["card_id"].Str?
    ensures r.Fail? ==> r.error == KeyError || r.error == TypeError || r.error == ValueError
  {
    if "card_id" !in card then Fail(KeyError)
    else match card["card_id"]
      case Str(_) => Pass
      case NoneValue => Fail(TypeError)
      case _ => Fail(ValueError)
  }

  /** The setup steps of `display_card` that can raise, in the order they run. */
  function SetupOutcome(dir: Option<string>, files: set<string>, card: Card): (r: Outcome)
    ensures r == Pass <==> BackgroundOutcome(dir, files, Get(card, "background_image", NoneValue)) == Pass &&
                           TextOutcome(card) == Pass && SoundFor(dir, files, card, Silent).0 == Pass
    ensures BackgroundOutcome(dir, files, Get(card, "background_image", NoneValue)).Fail? ==>
              r == BackgroundOutcome(dir, files, Get(card, "background_image", NoneValue))
  {
    var background := BackgroundOutcome(dir, files, Get(card, "background_image", NoneValue));
    if background.Fail? then background
    else if TextOutcome(card).Fail? then TextOutcome(card)
    else SoundFor(dir, files, card, Silent).0
  }

  /** What `display_card` does once the card is on screen: advance to the next index,
      or wait for a press and look the destination up in the story. */
  function AfterSetup(game: seq<Card>, card: Card, cardNum: int,
                      samples: seq<Option<Point>>, contains: (Position, Point) -> bool): (t: Transition)
    ensures AutoAdvances(card) ==> t == Next(cardNum + 1)
    ensures t == Waiting <==> !AutoAdvances(card) && FirstPress(card, samples, contains) == KeepPolling
    ensures t.Next? && !AutoAdvances(card) ==> 0 <= t.index < |game|
    ensures t.Raised? ==> t.error.RuntimeError?
  {
    if AutoAdvances(card) then Next(cardNum + 1)
    else match FirstPress(card, samples, contains)
      case KeepPolling => Waiting
      case Pressed(destination) =>
        match CardIndex(game, destination)
        case Some(i) => Next(i)
        case None => Raised(RuntimeError(destination))
  }

  /** The result of `display_card(card_num)`, the touch samples being those the
      touchscreen gives while the card waits for a press. */
  function CardTransition(game: Option<seq<Card>>, dir: Option<string>, files: set<string>, cardNum: int,
                          samples: seq<Option<Point>>, contains: (Position, Point) -> bool): (t: Transition)
    ensures CardAt(game, cardNum).Failure? ==> t == Raised(CardAt(game, cardNum).error)
    ensures t.Next? || t == Waiting ==>
      CardAt(game, cardNum).Success? && HeaderOutcome(CardAt(game, cardNum).value) == Pass &&
      SetupOutcome(dir, files, CardAt(game, cardNum).value) == Pass
  {
    match CardAt(game, cardNum)
    case Failure(e) => Raised(e)
    case Success(card) =>
      if HeaderOutcome(card).Fail? then Raised(HeaderOutcome(card).error)
      else if SetupOutcome(dir, files, card).Fail? then Raised(SetupOutcome(dir, files, card).error)
      else AfterSetup(game.value, card, cardNum, samples, contains)
  }

  // ---------------------------------------------------------------------------
  // Properties of the specification functions

  /** The label `set_text` shows keeps every non-blank character of the text, in order,
      in the colour asked for; nothing is shown for a falsy text or a colour of 0; the
      call raises only for a text that is not a string or that holds a word with two or
      more newlines. */
  lemma RenderedTextKeepsText(text: Value, color: Option<int>)
    ensures !Truthy(text) || color == None || color == Some(0) ==> RenderedText(text, color) == Success(None)
    ensures RenderedText(text, color).Failure? <==>
      Truthy(text) && color.Some? && color.value != 0 &&
      (!text.Str? || exists i :: 0 <= i < |WordWrap.Split(text.s, ' ')| && WordWrap.Count(WordWrap.Split(text.s, ' ')[i], '\n') >= 2)
    ensures RenderedText(text, color).Success? && RenderedText(text, color).value.Some? ==>
      var shown := RenderedText(text, color).value.value;
      text.Str? && color.Some? && shown.color == color.value != 0 &&
      WordWrap.Visible(shown.text) == WordWrap.Visible(text.s)
  {
    if Truthy(text) && color.Some? && color.value != 0 && text.Str? {
      WordWrap.WrapFailsIff(text.s, TextWidth);
      var wrapped := WordWrap.Wrap(text.s, TextWidth);
      if wrapped.Success? {
        var lines := wrapped.value;
        WordWrap.WrapKeepsText(text.s, TextWidth);
        WordWrap.WrapHasNoNewline(text.s, TextWidth);
        WordWrap.NoNewlineInConcat(lines);
        WordWrap.WithoutAbsent(WordWrap.Concat(lines), '\n');
        WordWrap.VisibleJoin(lines, '\n');
      }
    }
  }

  /** For a text without newlines, every line of the label `set_text` shows is at most
      37 characters wide, unless it is a single word. */
  lemma RenderedTextFits(text: string, color: int)
    requires '\n' !in text
    ensures RenderedText(Str(text), Some(color)).Success?
    ensures RenderedText(Str(text), Some(color)).value.Some? ==>
      var lines := WordWrap.Split(RenderedText(Str(text), Some(color)).value.value.text, '\n');
      forall j :: 0 <= j < |lines| ==> WordWrap.Fits(lines[j], TextWidth)
  {
    if text != "" && color != 0 {
      WordWrap.WrapWidth(text, TextWidth);
      var lines := WordWrap.Wrap(text, TextWidth).value;
      WordWrap.WrapFailsIff(text, TextWidth);
      WordWrap.WrapHasNoNewline(text, TextWidth);
      WordWrap.SplitJoin(lines, '\n');
    }
  }

  /** For any text, the lines of the label `set_text` shows are at most 37 characters
      wide or single words, except lines closed at a newline of the text: at most one
      per newline. */
  lemma RenderedTextOverlong(text: string, color: int)
    requires RenderedText(Str(text), Some(color)).Success?
    ensures RenderedText(Str(text), Some(color)).value.Some? ==>
      var lines := WordWrap.Split(RenderedText(Str(text), Some(color)).value.value.text, '\n');
      WordWrap.Overlong(lines, TextWidth) <= WordWrap.Count(text, '\n')
  {
    if RenderedText(Str(text), Some(color)).value.Some? {
      var lines := WordWrap.Wrap(text, TextWidth).value;
      WordWrap.WrapOverlong(text, TextWidth);
      WordWrap.WrapHasNoNewline(text, TextWidth);
      WordWrap.SplitJoin(lines, '\n');
    }
  }

  /** `play_sound` with no file name only stops; a blocking play ends silent; a looping
      or non-blocking play of a file that opens is left playing that file. */
  lemma PlayResultStates(dir: Option<string>, files: set<string>, filename: Value, waitToFinish: bool, loop: bool)
    ensures !Truthy(filename) ==> PlayResult(dir, files, filename, waitToFinish, loop) == (Pass, Silent)
    ensures PlayResult(dir, files, filename, waitToFinish, loop).0.Fail? ==>
              PlayResult(dir, files, filename, waitToFinish, loop).1 == Silent
    ensures waitToFinish && !loop ==> PlayResult(dir, files, filename, waitToFinish, loop).1 == Silent
    ensures PlayResult(dir, files, filename, waitToFinish, loop).1.Playing? <==>
              Truthy(filename) && OpenPath(dir, files, filename).Success? && (loop || !waitToFinish)
    ensures PlayResult(dir, files, filename, waitToFinish, loop).1.Playing? ==>
              PlayResult(dir, files, filename, waitToFinish, loop).1 == Playing(OpenPath(dir, files, filename).value, loop)
  {
  }

  /** `display_card` reaches the shortcut only for a card whose setup raised nothing,
      and a card that auto-advances then goes to `card_num + 1` without waiting. */
  lemma AutoAdvanceGoesToNext(game: seq<Card>, dir: Option<string>, files: set<string>, cardNum: int,
                              samples: seq<Option<Point>>, contains: (Position, Point) -> bool)
    requires CardAt(Some(game), cardNum).Success?
    ensures var card := CardAt(Some(game), cardNum).value;
      HeaderOutcome(card) == Pass && SetupOutcome(dir, files, card) == Pass && AutoAdvances(card) ==>
        CardTransition(Some(game), dir, files, cardNum, samples, contains) == Next(cardNum + 1)
    ensures var card := CardAt(Some(game), cardNum).value;
      HeaderOutcome(card).Fail? ==>
        CardTransition(Some(game), dir, files, cardNum, samples, contains) == Raised(HeaderOutcome(card).error)
  {
  }

  /** Without auto-advance, a card leaves only after a touch inside one of its shown
      buttons, towards that button's destination. */
  lemma PressedDestinationIsShownButton(game: seq<Card>, card: Card, cardNum: int,
                                        samples: seq<Option<Point>>, contains: (Position, Point) -> bool)
    requires !AutoAdvances(card)
    requires AfterSetup(game, card, cardNum, samples, contains) != Waiting
    ensures FirstPress(card, samples, contains).Pressed?
    ensures exists k, pos :: 0 <= k < |samples| && samples[k].Some? && pos in ButtonsFor(card) &&
              contains(pos, samples[k].value) &&
              FirstPress(card, samples, contains).destination == GotoFor(card, pos)
  {
    var press := FirstPress(card, samples, contains);
    var k :| 0 <= k < |samples| && PollStep(card, samples[k], contains) == press;
    PressIsShownButton(card, samples[k], contains);
  }

  /** Without auto-advance, the next index is the first card whose id equals the
      destination pressed; when no card has that id, RuntimeError names it. */
  lemma PressGoesToFirstMatch(game: seq<Card>, card: Card, cardNum: int,
                              samples: seq<Option<Point>>, contains: (Position, Point) -> bool)
    requires !AutoAdvances(card)
    ensures var t := AfterSetup(game, card, cardNum, samples, contains);
            t.Next? ==> 0 <= t.index < |game| && HasId(game[t.index], FirstPress(card, samples, contains).destination) &&
                        forall j :: 0 <= j < t.index ==> !HasId(game[j], FirstPress(card, samples, contains).destination)
    ensures var t := AfterSetup(game, card, cardNum, samples, contains);
            t.Raised? ==> t.error == RuntimeError(FirstPress(card, samples, contains).destination) &&
                          forall j :: 0 <= j < |game| ==> !HasId(game[j], t.error.cardId)
  {
  }

  /** A card without button text and without auto-advance keeps waiting for a touch. */
  lemma NoButtonsKeepWaiting(game: seq<Card>, card: Card, cardNum: int,
                             samples: seq<Option<Point>>, contains: (Position, Point) -> bool)
    requires !AutoAdvances(card)
    requires !HasFirstButton(card)
    ensures AfterSetup(game, card, cardNum, samples, contains) == Waiting
  {
    NoButtonsWaitForever(card, samples, contains);
  }

  // ---------------------------------------------------------------------------
  // The engine

  class PyoaGraphics {
    /** The paths the file system can open. */
    const files: set<string>
    var gameDirectory: Option<string>
    var game: Option<seq<Card>>
    /** The display brightness in whole percent, and every value written to it. */
    var brightness: int
    var backlightLog: seq<int>
    /** The display groups: the background bitmap's path, the text label, the buttons. */
    var backgroundGroup: seq<string>
    var textGroup: seq<TextLabel>
    var buttonGroup: seq<ShownButton>
    var backgroundFile: Option<FileHandle>
    var wavFile: Option<FileHandle>
    /** How many background and sound files the engine has opened and not closed. */
    ghost var openBackgrounds: nat
    ghost var openSounds: nat
    var speakerEnabled: bool
    var audio: Audio

    /** Each group holds no more than its `max_size`; at most one background file and
        one sound file are open, and they are the ones the fields hold; the speaker is
        on exactly while the sound file is playing; a shown background is the open
        background file. */
    ghost predicate Valid()
      reads this
    {
      && |backgroundGroup| <= 1 && |textGroup| <= 1 && |buttonGroup| <= 2
      && 0 <= brightness <= 100
      && openBackgrounds == (if backgroundFile.Some? && backgroundFile.value.isOpen then 1 else 0)
      && openSounds == (if wavFile.Some? then 1 else 0)
      && (backgroundGroup != [] ==> backgroundFile == Some(FileHandle(backgroundGroup[0], true)))
      && (wavFile.Some? <==> audio.Playing?)
      && (audio.Playing? ==> wavFile == Some(FileHandle(audio.path, true)))
      && (speakerEnabled <==> audio.Playing?)
    }

    /** `__init__`: empty groups, no file open, the speaker off, and the backlight faded
        from `displayBrightness` down to 0. */
    constructor(files: set<string>, displayBrightness: int)
      requires 0 <= displayBrightness <= 100
      ensures Valid()
      ensures this.files == files && gameDirectory == None && game == None
      ensures backgroundGroup == [] && textGroup == [] && buttonGroup == []
      ensures backgroundFile == None && wavFile == None && !speakerEnabled && audio == Silent
      ensures brightness == 0 && backlightLog == Backlight.FadeTrace(displayBrightness, 0)
    {
      this.files := files;
      gameDirectory := None;
      game := None;
      brightness := displayBrightness;
      backlightLog := [];
      backgroundGroup := [];
      textGroup := [];
      buttonGroup := [];
      backgroundFile := None;
      wavFile := None;
      openBackgrounds := 0;
      openSounds := 0;
      speakerEnabled := false;
      audio := Silent;
      new;
      BacklightFade(0.0);
    }

    /** `load_game`: the directory is recorded first; the story is read from
        `<directory>/cyoa.json`, and `story` stands for the cards parsed from it. */
    method LoadGame(directory: string, story: seq<Card>) returns (r: Outcome)
      requires Valid()
      modifies this`gameDirectory, this`game
      ensures Valid()
      ensures gameDirectory == Some(directory)
      ensures r == (if directory + "/cyoa.json" in files then Pass else Fail(OSError(directory + "/cyoa.json")))
      ensures game == (if r.Pass? then Some(story) else old(game))
    {
      gameDirectory := Some(directory);
      var fileName := directory + "/cyoa.json";
      if fileName !in files {
        return Fail(OSError(fileName));
      }
      game := Some(story);
      return Pass;
    }

    /** `backlight_fade`: writes every value of `range(from, to, delta)` and then the
        target, so the brightness ends at the clamped, truncated target. */
    method BacklightFade(toLight: real)
      requires Valid()
      modifies this`brightness, this`backlightLog
      ensures Valid()
      ensures brightness == Backlight.TargetPercent(toLight)
      ensures backlightLog == old(backlightLog) + Backlight.FadeTrace(old(brightness), Backlight.TargetPercent(toLight))
    {
      var from := brightness;
      var to := Backlight.TargetPercent(toLight);
      var delta := if from > to then -1 else 1;
      var steps := Backlight.FadeSteps(from, to);
      Backlight.FadeIsMonotone(from, to);
      var i := 0;
      while i < |steps|
        invariant 0 <= i <= |steps|
        invariant backlightLog == old(backlightLog) + steps[..i]
        invariant 0 <= brightness <= 100
      {
        assert Backlight.FadeTrace(from, to)[i] == steps[i];
        brightness := from + delta * i;
        backlightLog := backlightLog + [brightness];
        assert steps[..i + 1] == steps[..i] + [steps[i]];
        i := i + 1;
      }
      brightness := to;
      backlightLog := backlightLog + [to];
      assert steps[..i] == steps;
    }

    /** `_fade_to_black`: the backlight goes to 0 and all three groups are emptied; the
        background file stays as it was. */
    method FadeToBlack()
      requires Valid()
      modifies this`brightness, this`backlightLog, this`backgroundGroup, this`textGroup, this`buttonGroup,
               this`backgroundFile, this`openBackgrounds
      ensures Valid()
      ensures brightness == 0 && backlightLog == old(backlightLog) + Backlight.FadeTrace(old(brightness), 0)
      ensures backgroundGroup == [] && textGroup == [] && buttonGroup == []
      ensures backgroundFile == old(backgroundFile)
    {
      BacklightFade(0.0);
      var _ := SetBackground(NoneValue, false);
      var _ := SetText(NoneValue, None);
      var n := |buttonGroup|;
      var k := 0;
      while k < n
        invariant 0 <= k <= n
        invariant buttonGroup == old(buttonGroup)[..n - k]
        invariant Valid()
        modifies this`buttonGroup
      {
        buttonGroup := buttonGroup[..|buttonGroup| - 1];
        k := k + 1;
      }
    }

    /** `_display_buttons`: appends the buttons the card's texts call for to the
        emptied button group. */
    method DisplayButtons(card: Card)
      requires Valid() && buttonGroup == []
      modifies this`buttonGroup
      ensures Valid()
      ensures buttonGroup == ShownButtons(card)
    {
      if HasFirstButton(card) && !HasSecondButton(card) {
        buttonGroup := buttonGroup + [ShownButton(Middle, LabelFor(card, Middle))];
      }
      if HasFirstButton(card) && HasSecondButton(card) {
        buttonGroup := buttonGroup + [ShownButton(Right, LabelFor(card, Right))];
        buttonGroup := buttonGroup + [ShownButton(Left, LabelFor(card, Left))];
      }
    }

    /** `set_background`: with a fade to black around it when `withFade` is set, the
        background group is emptied and the named file shown. */
    method SetBackground(filename: Value, withFade: bool) returns (r: Outcome)
      requires Valid()
      modifies this`brightness, this`backlightLog, this`backgroundGroup, this`backgroundFile, this`openBackgrounds
      ensures Valid()
      ensures r == BackgroundOutcome(gameDirectory, files, filename)
      ensures backgroundGroup == BackgroundShown(gameDirectory, files, filename)
      ensures !Truthy(filename) ==> backgroundFile == old(backgroundFile)
      ensures Truthy(filename) && r.Pass? ==> backgroundFile == Some(FileHandle(OpenPath(gameDirectory, files, filename).value, true))
      ensures Truthy(filename) && r.Fail? ==>
                backgroundFile == (if old(backgroundFile).Some? then Some(old(backgroundFile).value.(isOpen := false)) else None)
      ensures withFade ==> brightness == (if r.Pass? then 100 else 0)
      ensures withFade ==> backlightLog == old(backlightLog) + Backlight.FadeTrace(old(brightness), 0) +
                                           (if r.Pass? then Backlight.FadeTrace(0, 100) else [])
      ensures !withFade ==> brightness == old(brightness) && backlightLog == old(backlightLog)
    {
      if withFade {
        BacklightFade(0.0);
      }
      r := ReplaceBackground(filename);
      if r.Fail? {
        return;
      }
      if withFade {
        BacklightFade(1.0);
      }
    }

    /** The part of `set_background` between the fades: pops the background group, and
        for a truthy file name closes the old background file, opens the new one and
        shows it. */
    method ReplaceBackground(filename: Value) returns (r: Outcome)
      requires Valid()
      modifies this`backgroundGroup, this`backgroundFile, this`openBackgrounds
      ensures Valid()
      ensures r == BackgroundOutcome(gameDirectory, files, filename)
      ensures backgroundGroup == BackgroundShown(gameDirectory, files, filename)
      ensures !Truthy(filename) ==> backgroundFile == old(backgroundFile)
      ensures Truthy(filename) && r.Pass? ==> backgroundFile == Some(FileHandle(OpenPath(gameDirectory, files, filename).value, true))
      ensures Truthy(filename) && r.Fail? ==>
                backgroundFile == (if old(backgroundFile).Some? then Some(old(backgroundFile).value.(isOpen := false)) else None)
    {
      if backgroundGroup != [] {
        backgroundGroup := backgroundGroup[..|backgroundGroup| - 1];
      }
      if !Truthy(filename) {
        return Pass;
      }
      if backgroundFile.Some? {
        if backgroundFile.value.isOpen {
          openBackgrounds := openBackgrounds - 1;
        }
        backgroundFile := Some(backgroundFile.value.(isOpen := false));
      }
      var openedPath := OpenPath(gameDirectory, files, filename);
      if openedPath.Failure? {
        return Fail(openedPath.error);
      }
      backgroundFile := Some(FileHandle(openedPath.value, true));
      openBackgrounds := openBackgrounds + 1;
      backgroundGroup := backgroundGroup + [openedPath.value];
      return Pass;
    }

    /** `set_text`: empties the text group, then shows the wrapped text in `color`
        unless the text or the colour is falsy (a null colour is `None`). */
    method SetText(text: Value, color: Option<int>) returns (r: Outcome)
      requires Valid()
      modifies this`textGroup
      ensures Valid()
      ensures r == OutcomeOf(RenderedText(text, color))
      ensures textGroup == LabelsOf(RenderedText(text, color))
    {
      if textGroup != [] {
        textGroup := textGroup[..|textGroup| - 1];
      }
      if !Truthy(text) || color.None? || color.value == 0 {
        return Pass;
      }
      if !text.Str? {
        return Fail(AttributeError);
      }
      var lines := WordWrap.WrapNicely(text.s, TextWidth);
      if lines.Failure? {
        return Fail(lines.error);
      }
      var shown := WordWrap.Join(lines.value, '\n');
      if shown != "" {
        textGroup := textGroup + [TextLabel(shown, color.value)];
      }
      return Pass;
    }

    /** `_display_text_for`: shows the card's text in the card's colour when the text
        is truthy; a colour that is not a number becomes 0, which shows nothing. */
    method DisplayTextFor(card: Card) returns (r: Outcome)
      requires Valid()
      modifies this`textGroup
      ensures Valid()
      ensures r == TextOutcome(card)
      ensures Truthy(Get(card, "text", NoneValue)) && TextColor(Get(card, "text_color", Int(0))).Success? ==>
                textGroup == TextShown(card)
      ensures !Truthy(Get(card, "text", NoneValue)) || TextColor(Get(card, "text_color", Int(0))).Failure? ==>
                textGroup == old(textGroup)
    {
      var text := Get(card, "text", NoneValue);
      var color := TextColor(Get(card, "text_color", Int(0)));
      if !Truthy(text) {
        return Pass;
      }
      if color.Failure? {
        return Fail(color.error);
      }
      r := SetText(text, Some(color.value));
    }

    /** `play_sound`: always switches the speaker off, stops the audio and closes the
        sound file first; then opens and plays the named file, and when asked to wait
        for it (and not to loop) closes it again once it has played. */
    method PlaySound(filename: Value, waitToFinish: bool, loop: bool) returns (r: Outcome)
      requires Valid()
      modifies this`speakerEnabled, this`audio, this`wavFile, this`openSounds
      ensures Valid()
      ensures (r, audio) == PlayResult(gameDirectory, files, filename, waitToFinish, loop)
      ensures audio == Silent ==> wavFile == None && !speakerEnabled && openSounds == 0
    {
      StopSound();
      if !Truthy(filename) {
        return Pass;
      }
      var openedPath := OpenPath(gameDirectory, files, filename);
      if openedPath.Failure? {
        return Fail(openedPath.error);
      }
      wavFile := Some(FileHandle(openedPath.value, true));
      openSounds := openSounds + 1;
      speakerEnabled := true;
      audio := Playing(openedPath.value, loop);
      if loop || !waitToFinish {
        return Pass;
      }
      // the sound plays to its end
      audio := Silent;
      wavFile := None;
      openSounds := openSounds - 1;
      speakerEnabled := false;
      return Pass;
    }

    /** The start of `play_sound`: switches the speaker off, stops the audio and
        closes the sound file. */
    method StopSound()
      requires Valid()
      modifies this`speakerEnabled, this`audio, this`wavFile, this`openSounds
      ensures Valid()
      ensures audio == Silent && !speakerEnabled && wavFile == None && openSounds == 0
    {
      speakerEnabled := false;
      audio := Silent;
      if wavFile.Some? {
        openSounds := openSounds - 1;
        wavFile := None;
      }
    }

    /** `_play_sound_for`: starts the card's sound without waiting, looping only when
        `sound_repeat` is the string "True". */
    method PlaySoundFor(card: Card) returns (r: Outcome)
      requires Valid()
      modifies this`speakerEnabled, this`audio, this`wavFile, this`openSounds
      ensures Valid()
      ensures (r, audio) == SoundFor(gameDirectory, files, card, old(audio))
      ensures !Truthy(Get(card, "sound", NoneValue)) ==> wavFile == old(wavFile) && speakerEnabled == old(speakerEnabled)
    {
      var sound := Get(card, "sound", NoneValue);
      var loop := LoopFlag(Get(card, "sound_repeat", Bool(false)));
      if Truthy(sound) {
        r := PlaySound(sound, false, loop);
      } else {
        r := Pass;
      }
    }

    /** The first steps of showing a card: tears the screen down, shows the card's
        buttons and shows its background. */
    method ShowScene(card: Card) returns (r: Outcome)
      requires Valid()
      modifies this`brightness, this`backlightLog, this`backgroundGroup, this`textGroup, this`buttonGroup,
               this`backgroundFile, this`openBackgrounds
      ensures Valid()
      ensures r == BackgroundOutcome(gameDirectory, files, Get(card, "background_image", NoneValue))
      ensures buttonGroup == ShownButtons(card)
      ensures backgroundGroup == BackgroundShown(gameDirectory, files, Get(card, "background_image", NoneValue))
      ensures brightness == 0 && textGroup == []
      ensures backlightLog == old(backlightLog) + Backlight.FadeTrace(old(brightness), 0)
    {
      FadeToBlack();
      DisplayButtons(card);
      r := SetBackground(Get(card, "background_image", NoneValue), false);
    }

    /** The part of `display_card` after the background: fades the backlight up, shows
        the text and starts the sound, stopping when the text raises. */
    method LightScene(card: Card) returns (r: Outcome)
      requires Valid()
      modifies this`brightness, this`backlightLog, this`textGroup, this`speakerEnabled, this`audio, this`wavFile, this`openSounds
      ensures Valid()
      ensures r == (if TextOutcome(card).Fail? then TextOutcome(card) else SoundFor(gameDirectory, files, card, Silent).0)
      ensures brightness == 100 && backlightLog == old(backlightLog) + Backlight.FadeTrace(old(brightness), 100)
      ensures old(textGroup) == [] ==> textGroup == TextShown(card)
      ensures r.Pass? ==> audio == SoundFor(gameDirectory, files, card, old(audio)).1
    {
      assert Backlight.TargetPercent(1.0) == 100;
      BacklightFade(1.0);
      r := DisplayTextFor(card);
      if r.Fail? {
        return;
      }
      r := PlaySoundFor(card);
    }

    /** The display part of `display_card`: shows the scene, fades the backlight up,
        shows the text and starts the sound, stopping at the first step that raises. */
    method ShowCard(card: Card) returns (r: Outcome)
      requires Valid()
      modifies this`brightness, this`backlightLog, this`backgroundGroup, this`textGroup, this`buttonGroup,
               this`backgroundFile, this`openBackgrounds, this`speakerEnabled, this`audio, this`wavFile, this`openSounds
      ensures Valid()
      ensures r == SetupOutcome(gameDirectory, files, card)
      ensures buttonGroup == ShownButtons(card)
      ensures backgroundGroup == BackgroundShown(gameDirectory, files, Get(card, "background_image", NoneValue))
      ensures BackgroundOutcome(gameDirectory, files, Get(card, "background_image", NoneValue)).Pass? ==>
                brightness == 100 && textGroup == TextShown(card) &&
                backlightLog == old(backlightLog) + Backlight.FadeTrace(old(brightness), 0) + Backlight.FadeTrace(0, 100)
      ensures BackgroundOutcome(gameDirectory, files, Get(card, "background_image", NoneValue)).Fail? ==>
                brightness == 0 && textGroup == [] &&
                backlightLog == old(backlightLog) + Backlight.FadeTrace(old(brightness), 0)
      ensures r.Pass? ==> audio == SoundFor(gameDirectory, files, card, old(audio)).1
    {
      r := ShowScene(card);
      if r.Fail? {
        return;
      }
      r := LightScene(card);
    }

    /** `display_card(card_num)`: picks the card, prints its id, shows it, and then
        either advances to the next index or waits for a press, stops the sound and
        looks the destination up. */
    method DisplayCard(cardNum: int, samples: seq<Option<Point>>, contains: (Position, Point) -> bool)
      returns (t: Transition)
      requires Valid()
      modifies this
      ensures Valid()
      ensures t == CardTransition(old(game), old(gameDirectory), files, cardNum, samples, contains)
      ensures game == old(game) && gameDirectory == old(gameDirectory)
      ensures CardAt(game, cardNum).Failure? ==> unchanged(this)
      ensures CardAt(game, cardNum).Success? && HeaderOutcome(CardAt(game, cardNum).value).Fail? ==> unchanged(this)
      ensures CardAt(game, cardNum).Success? && HeaderOutcome(CardAt(game, cardNum).value).Pass? ==>
        var card := CardAt(game, cardNum).value;
        && buttonGroup == ShownButtons(card)
        && backgroundGroup == BackgroundShown(gameDirectory, files, Get(card, "background_image", NoneValue))
        && (t.Next? || t == Waiting ==> brightness == 100 && textGroup == TextShown(card))
        && (t.Next? && AutoAdvances(card) ==> audio == SoundFor(gameDirectory, files, card, old(audio)).1)
        && (t.Next? && !AutoAdvances(card) ==> audio == Silent && !speakerEnabled && wavFile == None)
    {
      if game.None? {
        return Raised(TypeError);
      }
      var story := game.value;
      if cardNum < -|story| || |story| <= cardNum {
        return Raised(IndexError);
      }
      var card := story[if cardNum < 0 then cardNum + |story| else cardNum];
      assert CardAt(game, cardNum) == Success(card);
      var header := HeaderOutcome(card);
      if header.Fail? {
        return Raised(header.error);
      }
      t := PresentCard(story, card, cardNum, samples, contains);
    }

    /** `display_card` once the card is chosen and its id printed: shows it, then
        advances to the next index or waits for a press. */
    method PresentCard(story: seq<Card>, card: Card, cardNum: int,
                       samples: seq<Option<Point>>, contains: (Position, Point) -> bool)
      returns (t: Transition)
      requires Valid()
      modifies this`brightness, this`backlightLog, this`backgroundGroup, this`textGroup, this`buttonGroup,
               this`backgroundFile, this`openBackgrounds, this`speakerEnabled, this`audio, this`wavFile, this`openSounds
      ensures Valid()
      ensures t == (if SetupOutcome(gameDirectory, files, card).Fail? then Raised(SetupOutcome(gameDirectory, files, card).error)
                    else AfterSetup(story, card, cardNum, samples, contains))
      ensures buttonGroup == ShownButtons(card)
      ensures backgroundGroup == BackgroundShown(gameDirectory, files, Get(card, "background_image", NoneValue))
      ensures t.Next? || t == Waiting ==> brightness == 100 && textGroup == TextShown(card)
      ensures t.Next? && AutoAdvances(card) ==> audio == SoundFor(gameDirectory, files, card, old(audio)).1
      ensures t.Next? && !AutoAdvances(card) ==> audio == Silent && !speakerEnabled && wavFile == None
    {
      var setup := ShowCard(card);
      if setup.Fail? {
        return Raised(setup.error);
      }
      if AutoAdvances(card) {
        return Next(cardNum + 1);
      }
      t := AwaitChoice(story, card, cardNum, samples, contains);
    }

    /** The end of `display_card` for a card that does not auto-advance: waits for a
        press, stops the sound and returns the first index with the destination id. */
    method AwaitChoice(story: seq<Card>, card: Card, cardNum: int,
                       samples: seq<Option<Point>>, contains: (Position, Point) -> bool)
      returns (t: Transition)
      requires Valid() && !AutoAdvances(card)
      modifies this`speakerEnabled, this`audio, this`wavFile, this`openSounds
      ensures Valid()
      ensures t == AfterSetup(story, card, cardNum, samples, contains)
      ensures t == Waiting ==> audio == old(audio) && speakerEnabled == old(speakerEnabled) && wavFile == old(wavFile)
      ensures t != Waiting ==> audio == Silent && !speakerEnabled && wavFile == None
    {
      var press := WaitForPress(card, samples, contains);
      if press.KeepPolling? {
        return Waiting;
      }
      var _ := PlaySound(NoneValue, true, false);
      var found := FindCardIndex(story, press.destination);
      if found.Failure? {
        return Raised(found.error);
      }
      return Next(found.value);
    }
  }
}
