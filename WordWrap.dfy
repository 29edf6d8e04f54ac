/** The greedy word wrapper `PYOA_Graphics.wrap_nicely` of lib/adafruit_pyoa.py.

    The text is cut at every single space into words; each word is appended to the
    current line behind a space while the line stays within `maxChars`, otherwise the
    current line is closed and the word starts the next one. A word holding one newline
    closes the current line after the part before the newline, without any width check,
    and the part after it starts the next line; a word holding two or more newlines makes
    the unpacking `w1, w2 = w.split('\n')` raise ValueError. Every line is built with a
    leading separator, and the first character of the first line only is dropped at the end. */
module WordWrap {
  import opened Values

  /** Number of occurrences of `c` in `s`. */
  function Count(s: string, c: char): nat
    decreases |s|
  {
    if s == [] then 0 else (if s[0] == c then 1 else 0) + Count(s[1..], c)
  }

  /** `s` with every occurrence of `c` removed. */
  function Without(s: string, c: char): string
    decreases |s|
  {
    if s == [] then "" else (if s[0] == c then "" else [s[0]]) + Without(s[1..], c)
  }

  /** The characters of `s` that are printed: everything except spaces and newlines. */
  function Visible(s: string): string {
    Without(Without(s, '\n'), ' ')
  }

  /** The pieces of a list of strings glued together with nothing between them. */
  function Concat(pieces: seq<string>): string
    decreases |pieces|
  {
    if pieces == [] then "" else pieces[0] + Concat(pieces[1..])
  }

  /** Python's `s.split(sep)` for a one-character separator: each occurrence of `sep`
      ends one piece and starts the next, so adjacent separators give empty pieces and
      the result is never empty. */
  function Split(s: string, sep: char): (pieces: seq<string>)
    ensures |pieces| == Count(s, sep) + 1
    ensures forall i :: 0 <= i < |pieces| ==> sep !in pieces[i]
    decreases |s|
  {
    if s == [] then [""]
    else
      var rest := Split(s[1..], sep);
      if s[0] == sep then [""] + rest
      else [[s[0]] + rest[0]] + rest[1..]
  }

  /** Python's `sep.join(pieces)`, the inverse of `Split`. */
  function Join(pieces: seq<string>, sep: char): string
    decreases |pieces|
  {
    if pieces == [] then ""
    else if |pieces| == 1 then pieces[0]
    else pieces[0] + [sep] + Join(pieces[1..], sep)
  }

  /** Python's `s[1:]`: drops the first character, and leaves "" as it is. */
  function DropFirst(s: string): string {
    if s == "" then "" else s[1..]
  }

  /** The two loop variables of `wrap_nicely`: the closed lines and the line being built. */
  datatype Acc = Acc(lines: seq<string>, line: string)

  /** One run of the loop body for the word `w`. */
  function Place(acc: Acc, w: string, maxChars: int): (r: Result<Acc>)
    ensures r.Failure? <==> Count(w, '\n') >= 2
    ensures r.Failure? ==> r.error == ValueError
    ensures r.Success? ==> acc.lines <= r.value.lines && |r.value.lines| <= |acc.lines| + 1
  {
    CountPositive(w, '\n');
    if '\n' in w then
      var parts := Split(w, '\n');
      if |parts| != 2 then Failure(ValueError)
      else Success(Acc(acc.lines + [acc.line + " " + parts[0]], parts[1]))
    else if |acc.line + " " + w| > maxChars then Success(Acc(acc.lines + [acc.line], w))
    else Success(Acc(acc.lines, acc.line + " " + w))
  }

  /** The loop variables after the loop body has run for every word of `words`, in order. */
  function Accumulate(words: seq<string>, maxChars: int): (r: Result<Acc>)
    ensures r.Failure? ==> r.error == ValueError
    ensures r.Success? ==> |r.value.lines| <= |words|
    decreases |words|
  {
    if words == [] then Success(Acc([], ""))
    else
      match Accumulate(words[..|words| - 1], maxChars)
      case Failure(e) => Failure(e)
      case Success(acc) => Place(acc, words[|words| - 1], maxChars)
  }

  /** The code after the loop: a non-empty last line is closed, and the first line loses
      its first character (indexing an empty list of lines would raise IndexError). */
  function Finish(acc: Acc): (r: Result<seq<string>>)
    ensures r.Failure? <==> acc.lines == [] && acc.line == ""
    ensures r.Failure? ==> r.error == IndexError
    ensures r.Success? ==> |r.value| == |acc.lines| + (if acc.line != "" then 1 else 0)
  {
    var lines := if acc.line != "" then acc.lines + [acc.line] else acc.lines;
    if lines == [] then Failure(IndexError)
    else Success([DropFirst(lines[0])] + lines[1..])
  }

  /** What `wrap_nicely(text, maxChars)` returns or raises. */
  function Wrap(text: string, maxChars: int): (r: Result<seq<string>>)
    ensures r.Failure? ==> r.error == ValueError
    ensures r.Success? ==> |r.value| >= 1
  {
    match Accumulate(Split(text, ' '), maxChars)
    case Failure(e) => Failure(e)
    case Success(acc) => Finish(acc)
  }

  /** `wrap_nicely` as the loop the source runs. */
  method WrapNicely(text: string, maxChars: int) returns (r: Result<seq<string>>)
    ensures r == Wrap(text, maxChars)
  {
    var words := Split(text, ' ');
    var theLines: seq<string> := [];
    var theLine := "";
    var i := 0;
    while i < |words|
      invariant 0 <= i <= |words|
      invariant Accumulate(words[..i], maxChars) == Success(Acc(theLines, theLine))
    {
      var w := words[i];
      assert words[..i + 1][..i] == words[..i];
      if '\n' in w {
        var parts := Split(w, '\n');
        if |parts| != 2 {
          AccumulateFailureSticks(words, i + 1, maxChars);
          return Failure(ValueError);
        }
        theLine := theLine + " " + parts[0];
        theLines := theLines + [theLine];
        theLine := parts[1];
      } else if |theLine + " " + w| > maxChars {
        theLines := theLines + [theLine];
        theLine := w;
      } else {
        theLine := theLine + " " + w;
      }
      i := i + 1;
    }
    assert words[..i] == words;
    if theLine != "" {
      theLines := theLines + [theLine];
    }
    if theLines == [] {
      return Failure(IndexError);
    }
    assert theLines[0 := DropFirst(theLines[0])] == [DropFirst(theLines[0])] + theLines[1..];
    theLines := theLines[0 := DropFirst(theLines[0])];
    return Success(theLines);
  }

  // ---------------------------------------------------------------------------
  // Facts about Split, Join, Without and Concat

  /** Joining the pieces of a split gives the text back. */
  lemma {:induction false} JoinSplit(s: string, sep: char)
    ensures Join(Split(s, sep), sep) == s
    decreases |s|
  {
    if s != [] {
      JoinSplit(s[1..], sep);
      var rest := Split(s[1..], sep);
      if s[0] == sep {
        assert Split(s, sep) == [""] + rest;
        assert ([""] + rest)[1..] == rest;
      } else {
        if |rest| > 1 {
          assert Join(rest, sep) == rest[0] + [sep] + Join(rest[1..], sep);
        }
        assert s == [s[0]] + s[1..];
      }
    }
  }

  /** Splitting a separator-free prefix onto the pieces of the rest. */
  lemma {:induction false} SplitPrefix(p: string, t: string, sep: char)
    requires sep !in p
    ensures Split(p + t, sep) == [p + Split(t, sep)[0]] + Split(t, sep)[1..]
    decreases |p|
  {
    if p != [] {
      SplitPrefix(p[1..], t, sep);
      assert (p + t)[0] == p[0] && (p + t)[1..] == p[1..] + t;
      var rest := Split(p[1..] + t, sep);
      assert Split(p + t, sep) == [[p[0]] + rest[0]] + rest[1..];
      assert rest[0] == p[1..] + Split(t, sep)[0];
      assert [p[0]] + (p[1..] + Split(t, sep)[0]) == p + Split(t, sep)[0];
    } else {
      assert p + t == t;
      assert p + Split(t, sep)[0] == Split(t, sep)[0];
      assert Split(t, sep) == [Split(t, sep)[0]] + Split(t, sep)[1..];
    }
  }

  /** Splitting a join of separator-free pieces gives the pieces back. */
  lemma {:induction false} SplitJoin(pieces: seq<string>, sep: char)
    requires |pieces| >= 1
    requires forall i :: 0 <= i < |pieces| ==> sep !in pieces[i]
    ensures Split(Join(pieces, sep), sep) == pieces
    decreases |pieces|
  {
    if |pieces| == 1 {
      SplitPrefix(pieces[0], "", sep);
      assert pieces[0] + "" == pieces[0];
    } else {
      var rest := Join(pieces[1..], sep);
      SplitJoin(pieces[1..], sep);
      SplitPrefix(pieces[0], [sep] + rest, sep);
      assert pieces[0] + [sep] + rest == pieces[0] + ([sep] + rest);
      assert ([sep] + rest)[1..] == rest;
      assert Split([sep] + rest, sep) == [""] + Split(rest, sep);
      assert pieces[0] + "" == pieces[0];
      assert pieces == [pieces[0]] + pieces[1..];
    }
  }

  /** A character that is not in the text is in none of the pieces. */
  lemma {:induction false} SplitKeepsAbsent(s: string, sep: char, c: char)
    requires c !in s
    ensures forall i :: 0 <= i < |Split(s, sep)| ==> c !in Split(s, sep)[i]
    decreases |s|
  {
    if s != [] {
      SplitKeepsAbsent(s[1..], sep, c);
    }
  }

  lemma {:induction false} CountPositive(s: string, c: char)
    ensures c in s <==> Count(s, c) > 0
    decreases |s|
  {
    if s != [] {
      CountPositive(s[1..], c);
      assert c in s <==> s[0] == c || c in s[1..];
    }
  }

  lemma {:induction false} WithoutAppend(a: string, b: string, c: char)
    ensures Without(a + b, c) == Without(a, c) + Without(b, c)
    decreases |a|
  {
    if a == [] {
      assert a + b == b;
    } else {
      WithoutAppend(a[1..], b, c);
      var head: string := if a[0] == c then "" else [a[0]];
      assert (a + b)[0] == a[0] && (a + b)[1..] == a[1..] + b;
      assert Without(a + b, c) == head + Without(a[1..] + b, c);
      assert Without(a, c) == head + Without(a[1..], c);
    }
  }

  lemma {:induction false} WithoutAbsent(s: string, c: char)
    requires c !in s
    ensures Without(s, c) == s
    decreases |s|
  {
    if s != [] {
      WithoutAbsent(s[1..], c);
    }
  }

  lemma VisibleAppend(a: string, b: string)
    ensures Visible(a + b) == Visible(a) + Visible(b)
  {
    WithoutAppend(a, b, '\n');
    WithoutAppend(Without(a, '\n'), Without(b, '\n'), ' ');
  }

  lemma {:induction false} ConcatAppend(pieces: seq<string>, last: string)
    ensures Concat(pieces + [last]) == Concat(pieces) + last
    decreases |pieces|
  {
    if pieces == [] {
      assert [] + [last] == [last];
    } else {
      ConcatAppend(pieces[1..], last);
      assert (pieces + [last])[1..] == pieces[1..] + [last];
    }
  }

  /** Joining pieces with spaces or newlines adds nothing but spaces or newlines. */
  lemma {:induction false} VisibleJoin(pieces: seq<string>, sep: char)
    requires sep == ' ' || sep == '\n'
    ensures Visible(Join(pieces, sep)) == Visible(Concat(pieces))
    decreases |pieces|
  {
    if |pieces| == 1 {
      assert Concat(pieces[1..]) == "";
      assert pieces[0] + "" == pieces[0];
    } else if |pieces| > 1 {
      VisibleJoin(pieces[1..], sep);
      assert [sep][1..] == "";
      if sep == '\n' {
        assert Without([sep], '\n') == "";
        assert Visible([sep]) == Without("", ' ') == "";
      } else {
        assert Without([sep], '\n') == [sep];
        assert Without([sep], ' ') == "";
      }
      assert Join(pieces, sep) == pieces[0] + [sep] + Join(pieces[1..], sep);
      assert Concat(pieces) == pieces[0] + Concat(pieces[1..]);
      VisibleAppend(pieces[0] + [sep], Join(pieces[1..], sep));
      VisibleAppend(pieces[0], [sep]);
      VisibleAppend(pieces[0], Concat(pieces[1..]));
    }
  }

  lemma VisibleOfWords(text: string)
    ensures Visible(Concat(Split(text, ' '))) == Visible(text)
  {
    JoinSplit(text, ' ');
    VisibleJoin(Split(text, ' '), ' ');
  }

  // ---------------------------------------------------------------------------
  // Facts about the loop

  /** Once the loop body has raised, the whole call raises the same error. */
  lemma {:induction false} AccumulateFailureSticks(words: seq<string>, k: nat, maxChars: int)
    requires k <= |words|
    requires Accumulate(words[..k], maxChars).Failure?
    ensures Accumulate(words, maxChars) == Accumulate(words[..k], maxChars)
    decreases |words| - k
  {
    if k < |words| {
      assert words[..k + 1][..k] == words[..k];
      AccumulateFailureSticks(words, k + 1, maxChars);
    } else {
      assert words[..k] == words;
    }
  }

  /** The closed lines of a prefix stay the first closed lines of the whole run. */
  lemma {:induction false} AccumulateKeepsLines(words: seq<string>, k: nat, maxChars: int)
    requires k <= |words|
    requires Accumulate(words[..k], maxChars).Success?
    requires Accumulate(words, maxChars).Success?
    ensures Accumulate(words[..k], maxChars).value.lines <= Accumulate(words, maxChars).value.lines
    decreases |words| - k
  {
    if k == |words| {
      assert words[..k] == words;
    } else {
      var prefix := words[..|words| - 1];
      assert prefix[..k] == words[..k];
      AccumulateKeepsLines(prefix, k, maxChars);
    }
  }

  /** After at least one word there is something to emit, so `the_lines[0]` never fails. */
  lemma AccumulateNonEmpty(words: seq<string>, maxChars: int)
    requires words != []
    requires Accumulate(words, maxChars).Success?
    ensures Accumulate(words, maxChars).value.lines != [] || Accumulate(words, maxChars).value.line != ""
  {
  }

  /** The call raises exactly when some word holds two or more newlines, and then it
      raises ValueError (the failed two-way unpacking). */
  lemma {:induction false} AccumulateFailsIff(words: seq<string>, maxChars: int)
    ensures Accumulate(words, maxChars).Failure? <==>
              exists i :: 0 <= i < |words| && Count(words[i], '\n') >= 2
    ensures Accumulate(words, maxChars).Failure? ==> Accumulate(words, maxChars).error == ValueError
    decreases |words|
  {
    if words != [] {
      var prefix := words[..|words| - 1];
      var w := words[|words| - 1];
      AccumulateFailsIff(prefix, maxChars);
      CountPositive(w, '\n');
      if exists i :: 0 <= i < |prefix| && Count(prefix[i], '\n') >= 2 {
        var i :| 0 <= i < |prefix| && Count(prefix[i], '\n') >= 2;
        assert words[i] == prefix[i];
      }
      if exists i :: 0 <= i < |words| && Count(words[i], '\n') >= 2 {
        var i :| 0 <= i < |words| && Count(words[i], '\n') >= 2;
        if i < |prefix| {
          assert prefix[i] == words[i];
        }
      }
    }
  }

  /** `wrap_nicely` raises ValueError exactly when a word holds two or more newlines;
      otherwise it returns at least one line. */
  lemma WrapFailsIff(text: string, maxChars: int)
    ensures Wrap(text, maxChars).Failure? <==>
              exists i :: 0 <= i < |Split(text, ' ')| && Count(Split(text, ' ')[i], '\n') >= 2
    ensures Wrap(text, maxChars).Failure? ==> Wrap(text, maxChars).error == ValueError
    ensures Wrap(text, maxChars).Success? ==> |Wrap(text, maxChars).value| >= 1
  {
    var words := Split(text, ' ');
    AccumulateFailsIff(words, maxChars);
    if Accumulate(words, maxChars).Success? {
      AccumulateNonEmpty(words, maxChars);
      assert Wrap(text, maxChars) == Finish(Accumulate(words, maxChars).value);
    } else {
      var i :| 0 <= i < |words| && Count(words[i], '\n') >= 2;
      assert Count(Split(text, ' ')[i], '\n') >= 2;
    }
  }

  /** No emitted line holds a newline. */
  lemma {:induction false} AccumulateNoNewline(words: seq<string>, maxChars: int)
    requires Accumulate(words, maxChars).Success?
    ensures var acc := Accumulate(words, maxChars).value;
      '\n' !in acc.line && forall j :: 0 <= j < |acc.lines| ==> '\n' !in acc.lines[j]
    decreases |words|
  {
    if words != [] {
      AccumulateNoNewline(words[..|words| - 1], maxChars);
    }
  }

  lemma WrapHasNoNewline(text: string, maxChars: int)
    requires Wrap(text, maxChars).Success?
    ensures forall j :: 0 <= j < |Wrap(text, maxChars).value| ==> '\n' !in Wrap(text, maxChars).value[j]
  {
    AccumulateNoNewline(Split(text, ' '), maxChars);
    var acc := Accumulate(Split(text, ' '), maxChars).value;
    var lines := if acc.line != "" then acc.lines + [acc.line] else acc.lines;
    assert '\n' !in lines[0];
    assert '\n' !in DropFirst(lines[0]);
  }

  /** A line is within the width, or it is a single unbroken word. */
  predicate Fits(line: string, maxChars: int) {
    |line| <= maxChars || ' ' !in line
  }

  /** How many of the lines do not fit. */
  function Overlong(lines: seq<string>, maxChars: int): nat
    decreases |lines|
  {
    if lines == [] then 0 else (if Fits(lines[0], maxChars) then 0 else 1) + Overlong(lines[1..], maxChars)
  }

  lemma {:induction false} OverlongAppend(a: seq<string>, b: seq<string>, maxChars: int)
    ensures Overlong(a + b, maxChars) == Overlong(a, maxChars) + Overlong(b, maxChars)
    decreases |a|
  {
    if a == [] {
      assert a + b == b;
    } else {
      OverlongAppend(a[1..], b, maxChars);
      assert (a + b)[0] == a[0] && (a + b)[1..] == a[1..] + b;
    }
  }

  lemma {:induction false} OverlongZero(lines: seq<string>, maxChars: int)
    requires Overlong(lines, maxChars) == 0
    ensures forall j :: 0 <= j < |lines| ==> Fits(lines[j], maxChars)
    decreases |lines|
  {
    if lines != [] {
      OverlongZero(lines[1..], maxChars);
      assert forall j :: 1 <= j < |lines| ==> lines[j] == lines[1..][j - 1];
    }
  }

  lemma {:induction false} CountAppend(a: string, b: string, c: char)
    ensures Count(a + b, c) == Count(a, c) + Count(b, c)
    decreases |a|
  {
    if a == [] {
      assert a + b == b;
    } else {
      CountAppend(a[1..], b, c);
      assert (a + b)[0] == a[0] && (a + b)[1..] == a[1..] + b;
    }
  }

  /** Joining pieces with spaces adds no newline. */
  lemma {:induction false} CountJoin(pieces: seq<string>)
    ensures Count(Join(pieces, ' '), '\n') == Count(Concat(pieces), '\n')
    decreases |pieces|
  {
    if |pieces| == 1 {
      assert Concat(pieces[1..]) == "";
      assert pieces[0] + "" == pieces[0];
    } else if |pieces| > 1 {
      CountJoin(pieces[1..]);
      assert Join(pieces, ' ') == pieces[0] + [' '] + Join(pieces[1..], ' ');
      assert Concat(pieces) == pieces[0] + Concat(pieces[1..]);
      CountAppend(pieces[0] + [' '], Join(pieces[1..], ' '), '\n');
      CountAppend(pieces[0], [' '], '\n');
      CountAppend(pieces[0], Concat(pieces[1..]), '\n');
      assert Count([' '], '\n') == 0;
    }
  }

  /** One run of the loop body: the word joins the current line only after the width
      check, so the new current line fits; closing a line adds an overlong line only
      when a newline in the word closed it. */
  lemma PlaceFits(acc: Acc, w: string, maxChars: int)
    requires ' ' !in w && Fits(acc.line, maxChars)
    requires Place(acc, w, maxChars).Success?
    ensures var next := Place(acc, w, maxChars).value;
      Fits(next.line, maxChars) && Overlong(next.lines, maxChars) <= Overlong(acc.lines, maxChars) + Count(w, '\n')
  {
    if '\n' in w {
      var parts := Split(w, '\n');
      SplitKeepsAbsent(w, '\n', ' ');
      assert ' ' !in parts[1];
      OverlongAppend(acc.lines, [acc.line + " " + parts[0]], maxChars);
    } else if |acc.line + " " + w| > maxChars {
      OverlongAppend(acc.lines, [acc.line], maxChars);
    }
  }

  /** The line being built always fits, and at most one closed line per newline does not. */
  lemma {:induction false} AccumulateFits(words: seq<string>, maxChars: int)
    requires forall i :: 0 <= i < |words| ==> ' ' !in words[i]
    requires Accumulate(words, maxChars).Success?
    ensures var acc := Accumulate(words, maxChars).value;
      Fits(acc.line, maxChars) && Overlong(acc.lines, maxChars) <= Count(Concat(words), '\n')
    decreases |words|
  {
    if words != [] {
      var prefix := words[..|words| - 1];
      var w := words[|words| - 1];
      assert words == prefix + [w];
      AccumulateFits(prefix, maxChars);
      PlaceFits(Accumulate(prefix, maxChars).value, w, maxChars);
      ConcatAppend(prefix, w);
      CountAppend(Concat(prefix), w, '\n');
    }
  }

  /** Every line `wrap_nicely` returns fits in `maxChars` characters or is a single
      unbroken word, except lines closed at a newline: at most one per newline of the
      text. */
  lemma WrapOverlong(text: string, maxChars: int)
    requires Wrap(text, maxChars).Success?
    ensures Overlong(Wrap(text, maxChars).value, maxChars) <= Count(text, '\n')
  {
    var words := Split(text, ' ');
    AccumulateFits(words, maxChars);
    JoinSplit(text, ' ');
    CountJoin(words);
    var acc := Accumulate(words, maxChars).value;
    var lines := if acc.line != "" then acc.lines + [acc.line] else acc.lines;
    if acc.line != "" {
      OverlongAppend(acc.lines, [acc.line], maxChars);
    }
    var out := Wrap(text, maxChars).value;
    assert out == [DropFirst(lines[0])] + lines[1..];
    assert Fits(lines[0], maxChars) ==> Fits(DropFirst(lines[0]), maxChars) by {
      if lines[0] != "" {
        assert lines[0] == [lines[0][0]] + DropFirst(lines[0]);
      }
    }
    assert Overlong(out, maxChars) == (if Fits(out[0], maxChars) then 0 else 1) + Overlong(out[1..], maxChars);
    assert out[1..] == lines[1..];
  }

  /** For a text without newlines every line `wrap_nicely` returns fits in `maxChars`
      characters, unless it is a single word longer than that. */
  lemma WrapWidth(text: string, maxChars: int)
    requires '\n' !in text
    ensures Wrap(text, maxChars).Success?
    ensures forall j :: 0 <= j < |Wrap(text, maxChars).value| ==> Fits(Wrap(text, maxChars).value[j], maxChars)
  {
    var words := Split(text, ' ');
    SplitKeepsAbsent(text, ' ', '\n');
    CountPositive(text, '\n');
    AccumulateFailsIff(words, maxChars);
    forall i | 0 <= i < |words|
      ensures Count(words[i], '\n') == 0
    {
      CountPositive(words[i], '\n');
    }
    WrapOverlong(text, maxChars);
    OverlongZero(Wrap(text, maxChars).value, maxChars);
  }

  /** A line closed at a newline skips the width check: "a b\nc" at width 2 gives a
      first line three characters wide. */
  lemma WrapNewlineOverflowExample()
    ensures Wrap("a b\nc", 2) == Success(["a b", "c"])
    ensures !Fits("a b", 2)
  {
    OverflowWords();
    OverflowLines();
    FinishTwo("a b", "c");
    assert "a b"[1] == ' ';
  }

  lemma OverflowWords()
    ensures Split("a b\nc", ' ') == ["a", "b\nc"]
    ensures Split("b\nc", '\n') == ["b", "c"]
  {
    SplitJoin(["a", "b\nc"], ' ');
    assert Join(["a", "b\nc"], ' ') == "a b\nc";
    SplitJoin(["b", "c"], '\n');
    assert Join(["b", "c"], '\n') == "b\nc";
  }

  lemma OverflowFirstWord()
    ensures Accumulate(["a"], 2) == Success(Acc([], " a"))
  {
    var words := ["a"];
    assert words[..0] == [];
    assert "" + " " + "a" == " a";
  }

  lemma OverflowPlace()
    ensures Place(Acc([], " a"), "b\nc", 2) == Success(Acc([" a b"], "c"))
  {
    var w := "b\nc";
    OverflowWords();
    assert w[1] == '\n';
    var parts := Split(w, '\n');
    assert |parts| == 2 && parts[0] == "b" && parts[1] == "c";
    assert " a" + " " + "b" == " a b";
    var none: seq<string> := [];
    assert none + [" a b"] == [" a b"];
  }

  lemma OverflowLines()
    ensures Accumulate(["a", "b\nc"], 2) == Success(Acc([" a b"], "c"))
  {
    var words := ["a", "b\nc"];
    assert words[..1] == ["a"];
    OverflowFirstWord();
    OverflowPlace();
  }


  /** The line that will become the first line is empty or starts with the separator
      that the final `[1:]` removes. */
  predicate LeadsWithSpace(acc: Acc) {
    var first := if acc.lines != [] then acc.lines[0] else acc.line;
    first == "" || first[0] == ' '
  }

  lemma {:induction false} AccumulateLeadsWithSpace(words: seq<string>, maxChars: int)
    requires Accumulate(words, maxChars).Success?
    ensures LeadsWithSpace(Accumulate(words, maxChars).value)
    decreases |words|
  {
    if words != [] {
      AccumulateLeadsWithSpace(words[..|words| - 1], maxChars);
    }
  }

  /** Everything the loop has produced so far, closed lines and current line together. */
  function Flat(acc: Acc): string {
    Concat(acc.lines) + acc.line
  }

  lemma FlatAfterNewline(acc: Acc, w: string, maxChars: int)
    requires '\n' in w && |Split(w, '\n')| == 2
    ensures Flat(Place(acc, w, maxChars).value) == Flat(acc) + " " + Split(w, '\n')[0] + Split(w, '\n')[1]
  {
    var parts := Split(w, '\n');
    ConcatAppend(acc.lines, acc.line + " " + parts[0]);
  }

  /** Closing a line at a newline keeps the visible characters on either side of it. */
  lemma VisibleAroundNewline(f: string, before: string, after: string)
    ensures Visible(f + " " + before + after) == Visible(f) + Visible(before + ['\n'] + after)
  {
    VisibleAppend(f + " " + before, after);
    VisibleAppend(f + " ", before);
    VisibleAppend(f, " ");
    VisibleAppend(before + ['\n'], after);
    VisibleAppend(before, ['\n']);
  }

  /** A word with one newline closes the current line after its first part, and its
      second part starts the next line; no visible character is lost. */
  lemma PlaceVisibleNewline(acc: Acc, w: string, maxChars: int)
    requires '\n' in w && |Split(w, '\n')| == 2
    ensures Place(acc, w, maxChars) ==
            Success(Acc(acc.lines + [acc.line + " " + Split(w, '\n')[0]], Split(w, '\n')[1]))
    ensures Visible(Flat(Place(acc, w, maxChars).value)) == Visible(Flat(acc)) + Visible(w)
  {
    var parts := Split(w, '\n');
    JoinSplit(w, '\n');
    assert w == parts[0] + ['\n'] + parts[1];
    FlatAfterNewline(acc, w, maxChars);
    VisibleAroundNewline(Flat(acc), parts[0], parts[1]);
  }

  lemma PlaceVisibleClose(acc: Acc, w: string, maxChars: int)
    requires '\n' !in w && |acc.line + " " + w| > maxChars
    ensures Visible(Flat(Place(acc, w, maxChars).value)) == Visible(Flat(acc)) + Visible(w)
  {
    ConcatAppend(acc.lines, acc.line);
    assert Flat(Place(acc, w, maxChars).value) == Flat(acc) + w;
    VisibleAppend(Flat(acc), w);
  }

  lemma PlaceVisibleExtend(acc: Acc, w: string, maxChars: int)
    requires '\n' !in w && |acc.line + " " + w| <= maxChars
    ensures Visible(Flat(Place(acc, w, maxChars).value)) == Visible(Flat(acc)) + Visible(w)
  {
    assert Flat(Place(acc, w, maxChars).value) == Flat(acc) + " " + w;
    VisibleAppend(Flat(acc) + " ", w);
    VisibleAppend(Flat(acc), " ");
  }

  /** One run of the loop body adds the visible characters of its word, and nothing else. */
  lemma PlaceVisible(acc: Acc, w: string, maxChars: int)
    requires Place(acc, w, maxChars).Success?
    ensures Visible(Flat(Place(acc, w, maxChars).value)) == Visible(Flat(acc)) + Visible(w)
  {
    if '\n' in w {
      PlaceVisibleNewline(acc, w, maxChars);
    } else if |acc.line + " " + w| > maxChars {
      PlaceVisibleClose(acc, w, maxChars);
    } else {
      PlaceVisibleExtend(acc, w, maxChars);
    }
  }

  lemma {:induction false} AccumulateVisible(words: seq<string>, maxChars: int)
    requires Accumulate(words, maxChars).Success?
    ensures Visible(Flat(Accumulate(words, maxChars).value)) == Visible(Concat(words))
    decreases |words|
  {
    if words != [] {
      var prefix := words[..|words| - 1];
      var w := words[|words| - 1];
      AccumulateVisible(prefix, maxChars);
      PlaceVisible(Accumulate(prefix, maxChars).value, w, maxChars);
      assert words == prefix + [w];
      ConcatAppend(prefix, w);
      VisibleAppend(Concat(prefix), w);
    }
  }

  /** The text of the lines after the final step, before the first character is dropped. */
  lemma FinishVisible(acc: Acc)
    requires Finish(acc).Success?
    requires LeadsWithSpace(acc)
    ensures Visible(Concat(Finish(acc).value)) == Visible(Flat(acc))
  {
    var lines := if acc.line != "" then acc.lines + [acc.line] else acc.lines;
    ConcatAppend(acc.lines, acc.line);
    assert Concat(lines) == Flat(acc);
    assert lines[0] == (if acc.lines != [] then acc.lines[0] else acc.line);
    assert Visible(DropFirst(lines[0])) == Visible(lines[0]) by {
      if lines[0] != "" {
        assert lines[0] == [' '] + lines[0][1..];
        VisibleAppend([' '], lines[0][1..]);
      }
    }
    assert Concat(lines) == lines[0] + Concat(lines[1..]);
    assert Finish(acc).value == [DropFirst(lines[0])] + lines[1..];
    assert Concat(Finish(acc).value) == DropFirst(lines[0]) + Concat(lines[1..]);
    VisibleAppend(lines[0], Concat(lines[1..]));
    VisibleAppend(DropFirst(lines[0]), Concat(lines[1..]));
  }

  /** The last line is emitted only when it is not empty, and only the first emitted
      line loses its first character; every later line is returned as it was built. */
  lemma FinishTrimsOnlyFirstLine(acc: Acc)
    requires Finish(acc).Success?
    ensures var out := Finish(acc).value;
      && (acc.lines != [] ==> out[0] == DropFirst(acc.lines[0]))
      && (acc.lines == [] ==> out == [DropFirst(acc.line)])
      && (forall i :: 1 <= i < |acc.lines| ==> out[i] == acc.lines[i])
      && (acc.line != "" && acc.lines != [] ==> out[|out| - 1] == acc.line)
  {
  }

  /** A closed line built behind its separator and a non-empty current line come out as
      two lines, the separator dropped from the first. */
  lemma FinishTwo(a: string, b: string)
    requires b != ""
    ensures Finish(Acc([" " + a], b)) == Success([a, b])
  {
    var lines := [" " + a] + [b];
    assert DropFirst(lines[0]) == a;
    assert [DropFirst(lines[0])] + lines[1..] == [a, b];
  }

  /** Removing the spaces from the lines `wrap_nicely` returns leaves exactly the
      characters of the text other than spaces and the newlines it consumed, in order. */
  lemma WrapKeepsText(text: string, maxChars: int)
    requires Wrap(text, maxChars).Success?
    ensures Without(Concat(Wrap(text, maxChars).value), ' ') == Visible(text)
  {
    var words := Split(text, ' ');
    var acc := Accumulate(words, maxChars).value;
    AccumulateVisible(words, maxChars);
    AccumulateLeadsWithSpace(words, maxChars);
    FinishVisible(acc);
    VisibleOfWords(text);
    var out := Wrap(text, maxChars).value;
    WrapHasNoNewline(text, maxChars);
    NoNewlineInConcat(out);
    WithoutAbsent(Concat(out), '\n');
  }

  lemma {:induction false} NoNewlineInConcat(pieces: seq<string>)
    requires forall j :: 0 <= j < |pieces| ==> '\n' !in pieces[j]
    ensures '\n' !in Concat(pieces)
    decreases |pieces|
  {
    if pieces != [] {
      NoNewlineInConcat(pieces[1..]);
    }
  }

  /** When the first word (with the separator in front of it) is already wider than
      `maxChars`, the first line is closed empty: the result starts with "". */
  lemma FirstLineEmptyWhenFirstWordOverflows(text: string, maxChars: int)
    requires '\n' !in Split(text, ' ')[0]
    requires |Split(text, ' ')[0]| + 1 > maxChars
    requires Wrap(text, maxChars).Success?
    ensures Wrap(text, maxChars).value[0] == ""
  {
    var words := Split(text, ' ');
    assert words[..1][..0] == [];
    assert words[..1][0] == words[0];
    assert "" + " " + words[0] == " " + words[0];
    assert |"" + " " + words[0]| == |words[0]| + 1;
    assert [] + [""] == [""];
    assert Place(Acc([], ""), words[0], maxChars) == Success(Acc([""], words[0]));
    assert Accumulate(words[..1], maxChars) == Success(Acc([""], words[0]));
    AccumulateKeepsLines(words, 1, maxChars);
  }

  lemma SentenceWords(text: string)
    requires text == "the quick brown fox"
    ensures Split(text, ' ') == ["the", "quick", "brown", "fox"]
  {
    var words := ["the", "quick", "brown", "fox"];
    assert Join(words, ' ') == "the quick brown fox";
    SplitJoin(words, ' ');
  }

  lemma SentenceFirstLine()
    ensures Accumulate(["the", "quick"], 10) == Success(Acc([], " the quick"))
  {
    var words := ["the", "quick"];
    assert words[..1] == ["the"] && words[..1][..0] == [];
    assert "" + " " + "the" == " the";
    assert Accumulate(words[..1], 10) == Success(Acc([], " the"));
    assert " the" + " " + "quick" == " the quick";
  }

  lemma SentenceBreak()
    ensures Accumulate(["the", "quick", "brown"], 10) == Success(Acc([" the quick"], "brown"))
  {
    var words := ["the", "quick", "brown"];
    SentenceFirstLine();
    assert words[..2] == ["the", "quick"];
    assert |" the quick" + " " + "brown"| == 16;
    assert [] + [" the quick"] == [" the quick"];
  }

  lemma SentenceLines()
    ensures Accumulate(["the", "quick", "brown", "fox"], 10) == Success(Acc([" the quick"], "brown fox"))
  {
    var words := ["the", "quick", "brown", "fox"];
    SentenceBreak();
    assert words[..3] == ["the", "quick", "brown"];
    assert "brown" + " " + "fox" == "brown fox";
  }

  /** A worked example: a single word wider than the limit gets a line of its own, too
      wide, behind an empty first line, although the text holds no newline. */
  lemma WrapLongWordExample()
    ensures Wrap("abcdef", 3) == Success(["", "abcdef"])
    ensures Count("abcdef", '\n') == 0
  {
    var words := ["abcdef"];
    SplitJoin(words, ' ');
    assert Join(words, ' ') == "abcdef";
    LongWordPlace();
    assert words[..0] == [];
    FinishTwo("", "abcdef");
    assert " " + "" == " ";
  }

  lemma LongWordPlace()
    ensures Place(Acc([], ""), "abcdef", 3) == Success(Acc([""], "abcdef"))
  {
    var w := "abcdef";
    assert '\n' !in w by {
      assert forall i :: 0 <= i < |w| ==> w[i] != '\n';
    }
    assert |"" + " " + w| == 7;
    var none: seq<string> := [];
    assert none + [""] == [""];
  }

  /** A worked example: a plain sentence wrapped at ten characters. */
  lemma WrapSentenceExample(text: string)
    requires text == "the quick brown fox"
    ensures Wrap(text, 10) == Success(["the quick", "brown fox"])
  {
    SentenceWords(text);
    SentenceLines();
    FinishTwo("the quick", "brown fox");
  }


  lemma NewlineWordParts()
    ensures Split("ab\ncd", ' ') == ["ab\ncd"]
    ensures Split("ab\ncd", '\n') == ["ab", "cd"]
  {
    SplitJoin(["ab\ncd"], ' ');
    SplitJoin(["ab", "cd"], '\n');
    assert Join(["ab", "cd"], '\n') == "ab\ncd";
  }

  lemma NewlinePlace()
    ensures Place(Acc([], ""), "ab\ncd", 10) == Success(Acc([" ab"], "cd"))
  {
    var w := "ab\ncd";
    NewlineWordParts();
    assert w[2] == '\n';
    var parts := Split(w, '\n');
    assert |parts| == 2 && parts[0] == "ab" && parts[1] == "cd";
    assert "" + " " + "ab" == " ab";
    var none: seq<string> := [];
    assert none + [" ab"] == [" ab"];
  }

  /** A worked example: an embedded newline forces a break. */
  lemma WrapNewlineExample()
    ensures Wrap("ab\ncd", 10) == Success(["ab", "cd"])
  {
    NewlineWordParts();
    NewlinePlace();
    var words: seq<string> := ["ab\ncd"];
    assert words[..0] == [];
    assert Accumulate(words, 10) == Success(Acc([" ab"], "cd"));
    FinishTwo("ab", "cd");
  }

}
