# A verified model of the PYOA card engine and three FeatherWing/expander helpers

This project models four pieces of the CircuitPython bundle in Dafny.

- **The choose-your-own-adventure engine `PYOA_Graphics`** (`lib/adafruit_pyoa.py`).
  - A story is a list of cards. Each card is a dictionary of JSON values.
  - `display_card(card_num)` picks a card and prints its id. It then tears the screen
    down and shows the card's buttons, background, text and sound, fading the backlight
    down and up around them.
  - It then either auto-advances to `card_num + 1`, or waits for a touch on a shown
    button and returns the index of the first card whose `card_id` equals that
    button's destination.
  - The model keeps the engine's state in a class `Pyoa.PyoaGraphics`: the three
    display groups, the backlight brightness, the background and sound file handles,
    the speaker switch and the audio output.
  - The engine's decisions are pure functions:
    - `WordWrap`: the greedy word wrapper `wrap_nicely`;
    - `Backlight`: the fade arithmetic;
    - `Story`: button choice, press mapping, card lookup, colour parsing and the loop flag;
    - `Pyoa`: specification functions for each step of `display_card`.
- **The LED matrix FeatherWing** (`lib/adafruit_featherwing/matrix_featherwing.py`).
  - Four in-place shifts of a 16 x 8 pixel buffer, each optionally rotating.
  - The type-guarded `fill`, the `auto_write` setter and `_update`.
  - The buffer is an `array2<int>`. Each shift is proved against a grid-valued
    specification function.
- **The segment FeatherWing marquee** (`lib/adafruit_featherwing/led_segments.py`).
  - `_scroll_marquee`, `marquee` and `fill` append the driver calls and pauses they
    make to an effect trace.
  - The trace is specified by `ScrollTrace`.
- **The MCP230xx register accessors** (`lib/adafruit_mcp230xx/mcp230xx.py`).
  - 8- and 16-bit values are packed little-endian into the shared 3-byte `_BUFFER`.
  - The I2C transfers are recorded in order.

Python's dynamic values appear as `Values.Value`: None, a bool, an int or a string. A
call that may raise returns a `Result` or an `Outcome` that carries the exception.

## Model

| member | source | states |
|---|---|---|
| WordWrap.Split | lib/adafruit_pyoa.py:375 | `str.split(' ')` gives one more piece than there are separators, and no piece holds the separator |
| WordWrap.JoinSplit | lib/adafruit_pyoa.py:375 | joining the pieces of a split with the separator gives the text back |
| WordWrap.SplitJoin | lib/adafruit_pyoa.py:313 | splitting a join of separator-free pieces gives the pieces back |
| WordWrap.Place | lib/adafruit_pyoa.py:379-388 | one run of the loop body raises ValueError exactly when the word holds two or more newlines; otherwise it keeps every closed line and closes at most one more |
| WordWrap.Accumulate | lib/adafruit_pyoa.py:376-388 | the loop over the words raises only ValueError, and closes at most one line per word |
| WordWrap.Finish | lib/adafruit_pyoa.py:389-392 | the code after the loop raises IndexError exactly when there is no closed line and the current line is empty; otherwise it returns the closed lines plus the current line when that is not empty |
| WordWrap.Wrap | lib/adafruit_pyoa.py:367-393 | `wrap_nicely` raises only ValueError, and otherwise returns at least one line |
| WordWrap.WrapNicely | lib/adafruit_pyoa.py:367-393 | the loop of `wrap_nicely` returns exactly `Wrap`, the result or exception of the word-by-word specification |
| WordWrap.AccumulateFailureSticks | lib/adafruit_pyoa.py:378-380 | once a word has raised, the whole call raises that error |
| WordWrap.AccumulateFailsIff | lib/adafruit_pyoa.py:379-380 | the loop raises exactly when some word holds two or more newlines, and then it raises ValueError |
| WordWrap.WrapFailsIff | lib/adafruit_pyoa.py:375-393 | `wrap_nicely` raises ValueError exactly when a word holds two or more newlines; otherwise it returns at least one line, so `the_lines[0]` never raises |
| WordWrap.AccumulateNonEmpty | lib/adafruit_pyoa.py:389-392 | after at least one word there is a line to emit |
| WordWrap.AccumulateNoNewline | lib/adafruit_pyoa.py:379-388 | neither the closed lines nor the current line ever hold a newline |
| WordWrap.WrapHasNoNewline | lib/adafruit_pyoa.py:375-393 | no returned line holds a newline |
| WordWrap.PlaceFits | lib/adafruit_pyoa.py:379-388 | the width check runs before a word joins the current line, so the current line always fits; a line closed at a newline is the only closed line that can fail to fit |
| WordWrap.AccumulateFits | lib/adafruit_pyoa.py:376-388 | for any words the current line fits, and the closed lines that do not fit number at most the newlines in the words |
| WordWrap.WrapOverlong | lib/adafruit_pyoa.py:375-393 | for any text, the returned lines that are wider than `max_chars` and hold a space number at most the newlines of the text |
| WordWrap.WrapWidth | lib/adafruit_pyoa.py:375-393 | for a text without newlines, every returned line is within `max_chars` characters or holds no space |
| WordWrap.WrapNewlineOverflowExample | lib/adafruit_pyoa.py:379-383 | "a b\nc" wrapped at 2 gives ["a b", "c"]: the line closed at the newline is wider than `max_chars` |
| WordWrap.AccumulateLeadsWithSpace | lib/adafruit_pyoa.py:381-388 | the line that becomes the first line is empty or starts with the separator that `[1:]` removes |
| WordWrap.FinishTrimsOnlyFirstLine | lib/adafruit_pyoa.py:389-392 | the final line is emitted only when non-empty, and only the first line loses its first character |
| WordWrap.PlaceVisibleNewline | lib/adafruit_pyoa.py:379-383 | a word with one newline closes the line after its first part and starts the next with its second part, losing no visible character |
| WordWrap.PlaceVisible | lib/adafruit_pyoa.py:378-388 | one pass of the loop body adds the visible characters of its word to the output, and nothing else |
| WordWrap.AccumulateVisible | lib/adafruit_pyoa.py:378-388 | the loop's output holds the visible characters of all the words, in order |
| WordWrap.FinishVisible | lib/adafruit_pyoa.py:389-392 | closing the last line and dropping the first character of the first line loses no visible character |
| WordWrap.WrapKeepsText | lib/adafruit_pyoa.py:375-393 | removing the spaces from the returned lines leaves the text's characters other than spaces and the consumed newlines, in order |
| WordWrap.FirstLineEmptyWhenFirstWordOverflows | lib/adafruit_pyoa.py:384-386 | when the first word holds no newline and, with its separator, is wider than `max_chars`, the first returned line is "" |
| WordWrap.WrapLongWordExample | lib/adafruit_pyoa.py:384-386 | "abcdef" wrapped at 3 gives ["", "abcdef"]: a single word wider than `max_chars` stands on its own line, too wide, although the text holds no newline |
| WordWrap.WrapSentenceExample | lib/adafruit_pyoa.py:367-393 | "the quick brown fox" wrapped at 10 gives ["the quick", "brown fox"] |
| WordWrap.WrapNewlineExample | lib/adafruit_pyoa.py:379-383 | "ab\ncd" wrapped at 10 gives ["ab", "cd"] |
| Backlight.Clamp | lib/adafruit_pyoa.py:353 | `max(0, min(1.0, x))` lies in [0, 1], keeps values inside it and maps values outside to the nearer end |
| Backlight.TargetPercent | lib/adafruit_pyoa.py:353-354 | the target is the clamped value times 100, truncated, in [0, 100] |
| Backlight.FadeSteps | lib/adafruit_pyoa.py:355-358 | `range(from, to, delta)` has \|to - from\| values; it starts at `from`, moves by ±1 towards `to`, is empty when `from == to` and never holds `to` |
| Backlight.FadeTrace | lib/adafruit_pyoa.py:355-360 | a fade writes \|to - from\| + 1 values, the first being `from` and the last `to` |
| Backlight.FadeIsMonotone | lib/adafruit_pyoa.py:355-361 | the written brightness values are strictly monotone, stay between start and target, and end exactly at the target |
| Story.ButtonsFor | lib/adafruit_pyoa.py:158-163 | two buttons (right then left) when both texts are truthy, the middle one alone when only the first is, none otherwise (also when only the second is) |
| Story.PollStep | lib/adafruit_pyoa.py:211-225 | one poll keeps polling without a touch or without shown buttons, and otherwise returns only the destination of a shown button |
| Story.PressIsShownButton | lib/adafruit_pyoa.py:210-225 | a poll returns only for a touch inside a shown button, and returns that button's destination |
| Story.ShownButtonIsPressed | lib/adafruit_pyoa.py:214-225 | a touch inside a shown button returns `button01_goto_card_id` for the middle or left button and `button02_goto_card_id` for the right one |
| Story.FirstPress | lib/adafruit_pyoa.py:210-225 | the polling result is the press of the first sample that presses a button, with every earlier sample pressing none; it keeps polling exactly when no sample presses |
| Story.WaitForPress | lib/adafruit_pyoa.py:201-225 | the polling loop returns `FirstPress` of the touch samples |
| Story.NoButtonsWaitForever | lib/adafruit_pyoa.py:208-225 | with no first button text, no touch ever returns |
| Story.CardIndex | lib/adafruit_pyoa.py:260-262 | the index found is the first whose `card_id` equals the destination (Python `==`), and there is none exactly when no card matches |
| Story.FindCardIndex | lib/adafruit_pyoa.py:260-264 | the lookup loop returns `CardIndex`, or raises RuntimeError naming the destination when no card matches |
| Story.ParseIntOfDecimal | lib/adafruit_pyoa.py:183 | `int()` reads a decimal numeral back, with either sign |
| Story.TextColor | lib/adafruit_pyoa.py:179-185 | `int(text_color)` raises TypeError exactly for None; an int keeps its value; a string that does not parse becomes 0 |
| Story.TextColorOfStrings | lib/adafruit_pyoa.py:180-185 | a decimal colour string keeps its value, and a "0x…" colour string becomes 0 |
| Story.LoopFlag | lib/adafruit_pyoa.py:195-197 | the sound loops exactly when `sound_repeat` is the string "True" |
| Pyoa.GamePath | lib/adafruit_pyoa.py:282 | the path is the game directory, a "/" and the file name; TypeError exactly when there is no directory or the name is not a string |
| Pyoa.OpenPath | lib/adafruit_pyoa.py:282-288 | a file opens only at `<game directory>/<filename>` and only when that path exists, and otherwise raises OSError naming that path (TypeError without a directory or for a non-string name) |
| Pyoa.BackgroundOutcome | lib/adafruit_pyoa.py:322-346 | `set_background` passes for a falsy name, and raises exactly the error of opening the file otherwise |
| Pyoa.BackgroundShown | lib/adafruit_pyoa.py:331-342 | the background group holds at most one bitmap, and holds one exactly when the file name is truthy and the file opens |
| Pyoa.RenderedText | lib/adafruit_pyoa.py:301-320 | nothing is shown for a falsy text or colour; a string text raises only ValueError and any other text AttributeError; a shown label is non-empty and has the requested colour |
| Pyoa.RenderedTextKeepsText | lib/adafruit_pyoa.py:301-320 | `set_text` shows nothing for a falsy text or colour; it raises only for a non-string text or a word with two or more newlines; the label it shows has the requested colour and every visible character of the text, in order |
| Pyoa.RenderedTextFits | lib/adafruit_pyoa.py:312-313 | for a text without newlines, every line of the shown label is at most 37 characters wide or is a single word |
| Pyoa.RenderedTextOverlong | lib/adafruit_pyoa.py:312-313 | for any text, the lines of the shown label that are wider than 37 characters and hold a space number at most the newlines of the text |
| Pyoa.PlayResult | lib/adafruit_pyoa.py:266-299 | a playing output follows a passing call and plays an existing file with the requested loop flag; a failed open leaves the output silent and raises that open's error |
| Pyoa.SoundFor | lib/adafruit_pyoa.py:188-199 | a falsy sound changes nothing; a sound that opens is left playing with the loop flag `sound_repeat` gives; a failure leaves the output silent |
| Pyoa.CardAt | lib/adafruit_pyoa.py:233 | TypeError without a game; the card exists exactly for an index in [-n, n), taken from the end when negative, and IndexError otherwise |
| Pyoa.HeaderOutcome | lib/adafruit_pyoa.py:236 | the id prints exactly when it is a string; otherwise KeyError, TypeError or ValueError |
| Pyoa.SetupOutcome | lib/adafruit_pyoa.py:239-248 | setup passes exactly when the background, the text and the sound all pass, and a background error is the one raised |
| Pyoa.AfterSetup | lib/adafruit_pyoa.py:250-264 | auto-advance gives `card_num + 1`; it waits exactly when no sample presses; a looked-up index lies in the story; only RuntimeError is raised |
| Pyoa.CardTransition | lib/adafruit_pyoa.py:227-264 | a card that cannot be picked raises that error; the card moves on or waits only when its id printed and its setup raised nothing |
| Pyoa.PlayResultStates | lib/adafruit_pyoa.py:266-299 | with no file name the sound only stops; a failed open or a blocking play ends silent; the output is left playing the opened file exactly for a loop or a non-blocking play |
| Pyoa.AutoAdvanceGoesToNext | lib/adafruit_pyoa.py:233-255 | a card whose setup raised nothing and that has `auto_advance` goes to `card_num + 1`; a bad card id raises before anything is shown |
| Pyoa.PressedDestinationIsShownButton | lib/adafruit_pyoa.py:257 | without auto-advance, a card is left only after a touch inside one of its shown buttons, towards that button's destination |
| Pyoa.PressGoesToFirstMatch | lib/adafruit_pyoa.py:257-264 | without auto-advance, the next index is the first card whose id equals the pressed destination; RuntimeError naming it is raised when no card has it |
| Pyoa.NoButtonsKeepWaiting | lib/adafruit_pyoa.py:250-257 | a card without button text and without auto-advance keeps waiting |
| Pyoa.PyoaGraphics.constructor | lib/adafruit_pyoa.py:65-99 | empty groups, no file open, the speaker off, no game loaded, and the backlight faded down to 0 |
| Pyoa.PyoaGraphics.LoadGame | lib/adafruit_pyoa.py:102-136 | the directory is recorded even when the story file is missing; the story is loaded only when `<directory>/cyoa.json` opens, and OSError names that path otherwise |
| Pyoa.PyoaGraphics.BacklightFade | lib/adafruit_pyoa.py:348-361 | the brightness ends at the clamped, truncated target, and the written values are those of `FadeTrace` |
| Pyoa.PyoaGraphics.FadeToBlack | lib/adafruit_pyoa.py:138-145 | brightness 0 and all three groups empty, the background file untouched |
| Pyoa.PyoaGraphics.DisplayButtons | lib/adafruit_pyoa.py:147-163 | the button group holds the buttons `ButtonsFor` chooses, labelled with the card's texts |
| Pyoa.PyoaGraphics.SetBackground | lib/adafruit_pyoa.py:322-346 | the background group and file are replaced as `ReplaceBackground` states; with a fade the backlight goes to 0, and back to 100 only when nothing raised |
| Pyoa.PyoaGraphics.ReplaceBackground | lib/adafruit_pyoa.py:331-342 | the old bitmap is removed; for a truthy name the old file is closed before the new one opens, so at most one background file is open |
| Pyoa.PyoaGraphics.SetText | lib/adafruit_pyoa.py:301-320 | the text group holds at most the label `RenderedText` describes, and the call raises what it raises |
| Pyoa.PyoaGraphics.DisplayTextFor | lib/adafruit_pyoa.py:173-186 | the card's text is set only when it is truthy, in the parsed colour; a None colour raises TypeError and leaves the group alone |
| Pyoa.PyoaGraphics.StopSound | lib/adafruit_pyoa.py:274-278 | the speaker is off, the audio silent and no sound file open |
| Pyoa.PyoaGraphics.PlaySound | lib/adafruit_pyoa.py:266-299 | the outcome and the audio state are those of `PlayResult`; a silent output has the speaker off and no sound file open |
| Pyoa.PyoaGraphics.PlaySoundFor | lib/adafruit_pyoa.py:188-199 | a truthy sound is played without waiting, looping as `LoopFlag` says; a falsy one leaves the sound as it was |
| Pyoa.PyoaGraphics.ShowScene | lib/adafruit_pyoa.py:239-241 | after the teardown the buttons and the background of the card are shown, with the backlight at 0 and no text |
| Pyoa.PyoaGraphics.LightScene | lib/adafruit_pyoa.py:242-247 | the backlight fades up to 100, the text is shown and the sound started, and the outcome is the text's error or else the sound's |
| Pyoa.PyoaGraphics.ShowCard | lib/adafruit_pyoa.py:239-248 | the steps run in order and stop at the first that raises; the backlight ends at 100 only when the background was shown without error |
| Pyoa.PyoaGraphics.PresentCard | lib/adafruit_pyoa.py:239-264 | a setup error is raised; otherwise the card auto-advances or waits for a press, as `AfterSetup` states |
| Pyoa.PyoaGraphics.AwaitChoice | lib/adafruit_pyoa.py:257-264 | after a press the sound is stopped and the destination looked up; while no press comes the sound plays on |
| Pyoa.PyoaGraphics.DisplayCard | lib/adafruit_pyoa.py:227-264 | the result is `CardTransition`; a missing card or a bad card id changes nothing; an auto-advance leaves the card's sound playing, and a pressed choice stops it |
| MatrixFeatherWing.Advance | lib/adafruit_featherwing/matrix_featherwing.py:115-117 | every pixel of a line takes its predecessor's place and the vacated first place gets the refill |
| MatrixFeatherWing.Retreat | lib/adafruit_featherwing/matrix_featherwing.py:128-130 | every pixel of a line takes its successor's place and the vacated last place gets the refill |
| MatrixFeatherWing.ShiftedRight | lib/adafruit_featherwing/matrix_featherwing.py:107-118 | every pixel moves one column right, and column 0 takes the refill: dark, or the pixel pushed off column 15 when rotating |
| MatrixFeatherWing.ShiftedLeft | lib/adafruit_featherwing/matrix_featherwing.py:120-131 | every pixel moves one column left, and column 15 takes the refill: dark, or the pixel pushed off column 0 when rotating |
| MatrixFeatherWing.ShiftedUp | lib/adafruit_featherwing/matrix_featherwing.py:133-144 | every pixel moves from row y - 1 to row y, and row 0 takes the refill: dark, or the pixel pushed off row 7 when rotating |
| MatrixFeatherWing.ShiftedDown | lib/adafruit_featherwing/matrix_featherwing.py:146-157 | every pixel moves from row y + 1 to row y, and row 7 takes the refill: dark, or the pixel pushed off row 0 when rotating |
| MatrixFeatherWing.RotationsCancel | lib/adafruit_featherwing/matrix_featherwing.py:113-130 | rotating a line one way and then the other gives it back |
| MatrixFeatherWing.RotationKeepsPixels | lib/adafruit_featherwing/matrix_featherwing.py:113-130 | a rotation is a permutation of the line's pixels |
| MatrixFeatherWing.HorizontalShiftsKeepRows | lib/adafruit_featherwing/matrix_featherwing.py:107-131 | a horizontal shift moves each row along by itself, so no pixel changes row, and with rotation each row keeps its pixels |
| MatrixFeatherWing.VerticalShiftsKeepColumns | lib/adafruit_featherwing/matrix_featherwing.py:133-157 | a vertical shift moves each column by itself, and with rotation each column keeps its pixels |
| MatrixFeatherWing.RotateRightThenLeft | lib/adafruit_featherwing/matrix_featherwing.py:107-131 | rotating right and then left, or left and then right, restores the grid |
| MatrixFeatherWing.RotateUpThenDown | lib/adafruit_featherwing/matrix_featherwing.py:133-157 | rotating up and then down, or down and then up, restores the grid |
| MatrixFeatherWing.MatrixFeatherWing.constructor | lib/adafruit_featherwing/matrix_featherwing.py:43-50 | a dark 16 x 8 buffer with `auto_write` on |
| MatrixFeatherWing.MatrixFeatherWing.Update | lib/adafruit_featherwing/matrix_featherwing.py:67-72 | the buffer is pushed to the display only while `auto_write` is set |
| MatrixFeatherWing.MatrixFeatherWing.Show | lib/adafruit_featherwing/matrix_featherwing.py:87-92 | the buffer is pushed to the display once |
| MatrixFeatherWing.MatrixFeatherWing.SetAutoWrite | lib/adafruit_featherwing/matrix_featherwing.py:167-170 | a bool is taken and any other value ignored |
| MatrixFeatherWing.MatrixFeatherWing.Fill | lib/adafruit_featherwing/matrix_featherwing.py:94-105 | a bool sets every pixel to 1 or 0 and updates; anything else raises ValueError and changes nothing |
| MatrixFeatherWing.MatrixFeatherWing.ShiftRowRight | lib/adafruit_featherwing/matrix_featherwing.py:115-117 | in row `y`, new[x] = old[x-1] for 1 ≤ x ≤ 15 and new[0] is the saved pixel; other rows are untouched |
| MatrixFeatherWing.MatrixFeatherWing.ShiftRowLeft | lib/adafruit_featherwing/matrix_featherwing.py:128-130 | in row `y`, new[x] = old[x+1] for 0 ≤ x ≤ 14 and new[15] is the saved pixel; other rows are untouched |
| MatrixFeatherWing.MatrixFeatherWing.ShiftColumnUp | lib/adafruit_featherwing/matrix_featherwing.py:141-143 | in column `x`, new[y] = old[y-1] for 1 ≤ y ≤ 7 and new[0] is the saved pixel; other columns are untouched |
| MatrixFeatherWing.MatrixFeatherWing.ShiftColumnDown | lib/adafruit_featherwing/matrix_featherwing.py:154-156 | in column `x`, new[y] = old[y+1] for 0 ≤ y ≤ 6 and new[7] is the saved pixel; other columns are untouched |
| MatrixFeatherWing.MatrixFeatherWing.ShiftRight | lib/adafruit_featherwing/matrix_featherwing.py:107-118 | new[x, y] = old[x-1, y]; column 0 is dark, or old column 15 when rotating; the buffer is `ShiftedRight` of the old one; one update |
| MatrixFeatherWing.MatrixFeatherWing.ShiftLeft | lib/adafruit_featherwing/matrix_featherwing.py:120-131 | new[x, y] = old[x+1, y]; column 15 is dark, or old column 0 when rotating; the buffer is `ShiftedLeft` of the old one; one update |
| MatrixFeatherWing.MatrixFeatherWing.ShiftUp | lib/adafruit_featherwing/matrix_featherwing.py:133-144 | new[x, y] = old[x, y-1]; row 0 is dark, or old row 7 when rotating; the buffer is `ShiftedUp` of the old one; one update |
| MatrixFeatherWing.MatrixFeatherWing.ShiftDown | lib/adafruit_featherwing/matrix_featherwing.py:146-157 | new[x, y] = old[x, y+1]; row 7 is dark, or old row 0 when rotating; the buffer is `ShiftedDown` of the old one; one update |
| LedSegments.PausesAfter | lib/adafruit_featherwing/led_segments.py:82-85 | every character other than '.' is followed by a pause, and so is a dot after a dot; a leading dot is not |
| LedSegments.CharEffects | lib/adafruit_featherwing/led_segments.py:81-86 | one character is printed first and shown last, with a pause of `delay` between exactly when `PausesAfter` holds |
| LedSegments.ScrollTrace | lib/adafruit_featherwing/led_segments.py:79-86 | a scroll does nothing exactly for the empty text, and otherwise ends with a show |
| LedSegments.CharEffectsCounts | lib/adafruit_featherwing/led_segments.py:81-86 | each character is printed and shown once, with one pause unless it is a dot after a non-dot |
| LedSegments.ScrollTraceCounts | lib/adafruit_featherwing/led_segments.py:79-86 | one scroll prints the text exactly, in order, shows once per character, and pauses once per character less the number of runs of dots |
| LedSegments.LeadingDotDoesNotPause | lib/adafruit_featherwing/led_segments.py:79-86 | a text that starts with '.' prints and shows it with no pause |
| LedSegments.PrefixOfScroll | lib/adafruit_featherwing/led_segments.py:80-86 | the effects of a prefix of the text come first, unchanged, in the effects of the whole text |
| LedSegments.Segments.constructor | lib/adafruit_featherwing/led_segments.py:43-44 | a new FeatherWing has asked nothing of the driver |
| LedSegments.Segments.ScrollMarquee | lib/adafruit_featherwing/led_segments.py:75-86 | the loop with the `char_is_dot` flag appends exactly `ScrollTrace` of the text |
| LedSegments.Segments.ScrollChar | lib/adafruit_featherwing/led_segments.py:81-86 | one pass of the loop, given the flag for the previous character, appends exactly `CharEffects` of that character |
| LedSegments.Segments.Fill | lib/adafruit_featherwing/led_segments.py:88-98 | a bool fills with 1 or 0 and shows; anything else raises ValueError and does nothing |
| LedSegments.Segments.Marquee | lib/adafruit_featherwing/led_segments.py:57-73 | nothing for a non-string; otherwise one clear, then one scroll, or one scroll per observed pass when looping |
| LedSegments.Segments.ScrollPasses | lib/adafruit_featherwing/led_segments.py:70-71 | the observed passes of the endless loop append one `ScrollTrace` of the text per pass |
| Mcp230xx.LowByte | lib/adafruit_mcp230xx/mcp230xx.py:54 | `n & 0xFF` is a byte congruent to `n` modulo 256, and a byte is kept |
| Mcp230xx.PackU16LE | lib/adafruit_mcp230xx/mcp230xx.py:63-65 | three bytes, the register byte first |
| Mcp230xx.PackU8 | lib/adafruit_mcp230xx/mcp230xx.py:79-80 | two bytes, the register byte first |
| Mcp230xx.OrDisjoint | lib/adafruit_mcp230xx/mcp230xx.py:57 | or-ing a number below 2^k into a multiple of 2^k adds them |
| Mcp230xx.DecodeU16LE | lib/adafruit_mcp230xx/mcp230xx.py:57 | `(hi << 8) \| lo` equals `hi * 256 + lo` and lies in [0, 65535] |
| Mcp230xx.U16RoundTrip | lib/adafruit_mcp230xx/mcp230xx.py:57-65 | decoding the two data bytes written for `val` gives `val` modulo 65536, and `val` itself for 0 ≤ val < 65536 |
| Mcp230xx.U8RoundTrip | lib/adafruit_mcp230xx/mcp230xx.py:79-80 | the data byte written for `val` is `val` modulo 256, and `val` itself for a byte |
| Mcp230xx.Mcp230xx.constructor | lib/adafruit_mcp230xx/mcp230xx.py:40-48 | the device shares the given 3-byte buffer and has made no transfer |
| Mcp230xx.Mcp230xx.ReadU16LE | lib/adafruit_mcp230xx/mcp230xx.py:50-57 | the register byte is written without a stop, two bytes are read into the buffer, the third byte is kept, and the value is the little-endian decoding in [0, 65535] |
| Mcp230xx.Mcp230xx.WriteU16LE | lib/adafruit_mcp230xx/mcp230xx.py:59-66 | the buffer holds the register, low and high bytes, and exactly those three bytes are sent |
| Mcp230xx.Mcp230xx.ReadU8 | lib/adafruit_mcp230xx/mcp230xx.py:68-74 | the register byte is written without a stop, one byte is read into the first place, the rest is kept, and the value is that byte |
| Mcp230xx.Mcp230xx.WriteU8 | lib/adafruit_mcp230xx/mcp230xx.py:76-81 | the first two places hold the register and value bytes, the third is kept, and exactly two bytes are sent |

## Behaviour of the code that is easy to miss

- A card's colour.
  - `text_color` defaults to 0, and `set_text` shows nothing for a colour of 0. So a card
    with text but no colour shows no text.
  - A colour written as a hexadecimal string such as "0xFF0000" makes `int()` raise
    ValueError. It becomes 0, so such a card shows no text either (`Story.TextColorOfStrings`).
- The button keys are `button01_text`, `button02_text`, `button01_goto_card_id` and
  `button02_goto_card_id`. A card with only `button02_text` shows no button and waits for
  ever (`Story.ButtonsFor`, `Pyoa.NoButtonsKeepWaiting`).
- Auto-advance past the last card.
  - `display_card` returns `card_num + 1` without checking it against the story's length.
  - The next `display_card` then raises IndexError (`Pyoa.CardAt`).
  - A negative index counts from the end, as Python's list indexing does.
- Word wrapping.
  - The final line is emitted only when it is not empty.
  - A first word wider than `max_chars - 1` that holds no newline makes the first
    returned line empty.
  - A word holding two or more newlines raises ValueError.
  - A line closed at a newline is not checked against `max_chars`. "a b\nc" at width 2
    gives "a b", three characters wide (`WordWrap.WrapNewlineOverflowExample`). At most
    one line per newline is too wide and holds a space (`WordWrap.WrapOverlong`); a single
    word wider than `max_chars` stands on its own line ("abcdef" at width 3 gives
    ["", "abcdef"], `WordWrap.WrapLongWordExample`).
- The card id is printed with the `s` format before anything is shown.
  - A missing id raises KeyError.
  - A null id raises TypeError.
  - A numeric id raises ValueError.

## Left out

- Hardware and foreign libraries: display, `displayio` groups and bitmaps, touchscreen,
  audio, speaker pin, the HT16K33 and segment drivers, and the I2C device.
  - Each appears only through the state the modelled code keeps for it (groups, handles,
    brightness, the pixel buffer, effect and transfer traces).
  - Each also appears through the parameters it supplies (touch samples, the hit test
    `contains`, read replies).
- Font loading, glyph preloading and `Button`/`Label` construction in `load_game` and
  `set_text`: foreign calls. JSON parsing: the parsed card list is a parameter of `LoadGame`.
- Pyoa.PyoaGraphics.LoadGame: the font is taken to load. The source loads
  `<directory>/fonts/Arial-Bold-12.bdf` before it opens `cyoa.json`, so a missing font
  raises first, and that error is not modelled.
- Values.Value: JSON floats, lists and objects are not modelled. So `int(1.5)` as a
  `text_color` (1) and a `card_id` of 1.0 that equals 1 under `==` do not arise.
- Decoding errors of bitmap and wave files. A file that opens is taken to decode.
- `print` diagnostics, `refresh_soon`/`wait_for_frame`, and every `time.sleep`. Marquee
  pauses are trace events carrying their duration.
- Pyoa.PyoaGraphics.BacklightFade: brightness is kept in whole percent, so the float
  `val / 100` written to the display and the float read back by `int(brightness * 100)`
  are not modelled.
- Backlight.TargetPercent: `int(to_light * 100)` is computed on exact reals, not on
  binary floats. Python gives `int(0.29 * 100) == 28` where the model gives 29. The
  engine only fades to 0 and 1.0, where the two agree.
- Pyoa.PyoaGraphics.DisplayCard: `float(auto_advance)` is taken to succeed, so a
  non-numeric `auto_advance` that would raise is not modelled. The wait itself is not
  modelled.
- Story.WaitForPress: the endless `while True` polling loop runs over a finite sequence
  of touch samples. Running out of samples reports `KeepPolling` (Waiting) instead of
  looping for ever.
- LedSegments.Segments.Marquee: the endless loop of `marquee(loop=True)` is observed for
  a given number of passes.
- Pyoa.PyoaGraphics.PlaySound: the busy wait `while self.audio.playing` is modelled as
  the sound having played to its end.
- Story.ParseInt: `int()` on strings accepts an optional sign and decimal digits. Surrounding
  whitespace, digit-group underscores and non-ASCII Unicode decimal digits (Arabic-Indic
  digits, for instance), which Python also accepts, are not modelled, so such colours read
  as 0 here.
- Pyoa.PyoaGraphics.DisplayButtons: requires the emptied button group it is always called
  on. The group's overflow error for a third button cannot arise there.
- The `Group` error for appending an element that already belongs to a group is not
  modelled; the code never triggers it.
- `MatrixFeatherWing.pixel`, `__getitem__`, `__setitem__`, and the `blink_rate` and
  `brightness` properties of both FeatherWings: pass-throughs to the driver.
- `Segments.print`: a pass-through to the driver.
- The shared `_BUFFER`'s lack of re-entrancy and the I2C bus lock (`with self._device`).
  The code is sequential.
- The matrix driver's buffer is taken to start dark.
