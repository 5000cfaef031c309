/** The last lines of a log file, read through a window of bounded size. */
module Tail {
  import opened Text

  // ---------------------------------------------------------------- raw lines

  predicate IsNewline(c: char) {
    c == '\n'
  }

  function TrimNewlines(s: string): string {
    TrimRightBy(s, IsNewline)
  }

  function LinesOf(s: string): (lines: seq<string>)
    ensures |lines| >= 1
  {
    Split(TrimNewlines(s), '\n')
  }

  function LastN(lines: seq<string>, n: nat): (r: seq<string>)
    ensures |r| == if |lines| > n then n else |lines|
  {
    if |lines| > n then lines[|lines| - n..] else lines
  }

  /** What is read of a file: its last bytes. */
  function Window(file: string, size: nat): string {
    if |file| > size then file[|file| - size..] else file
  }

  /** What is kept of them: when the file is cut, everything up to the first newline goes. */
  function Kept(file: string, size: nat): (kept: string)
    ensures |kept| <= size
  {
    var window := Window(file, size);
    var i := FirstIndex(window, '\n');
    if |file| > size && i < |window| then window[i + 1..] else window
  }

  // ---------------------------------------------------------------- sanitising

  const ESC := 27 as char

  predicate IsParameter(c: char) {
    '0' <= c <= '9' || c == ';' || c == '?'
  }

  predicate IsIntermediate(c: char) {
    ' ' <= c <= '/'
  }

  predicate IsFinal(c: char) {
    '@' <= c <= '~'
  }

  function Run(s: string, p: char -> bool): (k: nat)
    ensures k <= |s|
    ensures forall i :: 0 <= i < k ==> p(s[i])
    ensures k < |s| ==> !p(s[k])
  {
    if s != "" && p(s[0]) then 1 + Run(s[1..], p) else 0
  }

  /** The length of the escape sequence at the front of the text, 0 if there is none. */
  function EscapeLength(s: string): (k: nat)
    ensures k <= |s|
    ensures k > 0 ==> s[0] == ESC
  {
    if |s| < 2 || s[0] != ESC || s[1] != '[' then 0
    else
      var i := 2 + Run(s[2..], IsParameter);
      var j := i + Run(s[i..], IsIntermediate);
      if j < |s| && IsFinal(s[j]) then j + 1 else 0
  }

  function StripEscapes(s: string): string
    decreases |s|
  {
    if s == "" then ""
    else
      var k := EscapeLength(s);
      if k > 0 then StripEscapes(s[k..]) else [s[0]] + StripEscapes(s[1..])
  }

  predicate IsPrintable(c: char) {
    c >= ' ' || c == '\t'
  }

  function DropControls(s: string): string {
    if s == "" then "" else (if IsPrintable(s[0]) then [s[0]] else "") + DropControls(s[1..])
  }

  predicate IsBlank(c: char) {
    c == ' '
  }

  function Sanitize(line: string): string {
    TrimRightBy(DropControls(StripEscapes(line)), IsBlank)
  }

  function SanitizeAll(lines: seq<string>): (r: seq<string>)
    ensures |r| == |lines|
    ensures forall i :: 0 <= i < |r| ==> r[i] == Sanitize(lines[i])
  {
    seq(|lines|, i requires 0 <= i < |lines| => Sanitize(lines[i]))
  }

  // ---------------------------------------------------------------- the method

  const MAX_TAIL_BYTES: nat := 1_048_576

  datatype File = Unreadable | Content(text: string)

  datatype Result = Failure | Lines(lines: seq<string>)

  /** The simple form: the whole file, its lines, the last n of them. */
  function WholeTail(file: string, n: nat): seq<string> {
    SanitizeAll(LastN(LinesOf(file), n))
  }

  function WindowTail(file: string, size: nat, n: nat): seq<string> {
    SanitizeAll(LastN(LinesOf(Kept(file, size)), n))
  }

  /** The file from the start of the window, behind its first newline when it is cut. */
  method ReadWindow(text: string, size: nat) returns (data: string)
    ensures data == Kept(text, size)
  {
    var start := |text| - size;
    if start < 0 {
      start := 0;
    }
    data := text[start..];
    if start > 0 {
      var newline := FirstIndex(data, '\n');
      if newline < |data| {
        data := data[newline + 1..];
      }
    }
  }

  method SanitizeInPlace(raw: seq<string>) returns (lines: seq<string>)
    ensures lines == SanitizeAll(raw)
  {
    lines := raw;
    for i := 0 to |lines|
      invariant |lines| == |raw|
      invariant forall j :: 0 <= j < i ==> lines[j] == Sanitize(raw[j])
      invariant forall j :: i <= j < |raw| ==> lines[j] == raw[j]
    {
      var line := StripEscapes(lines[i]);
      line := DropControls(line);
      lines := lines[i := TrimRightBy(line, IsBlank)];
    }
  }

  lemma SmallFile(file: string, size: nat, n: nat)
    ensures |file| <= size ==> WindowTail(file, size, n) == WholeTail(file, n)
  {
  }

  method LastLines(data: string, n: nat) returns (lines: seq<string>)
    ensures lines == LastN(LinesOf(data), n)
  {
    lines := Split(TrimNewlines(data), '\n');
    if |lines| > n {
      lines := lines[|lines| - n..];
    }
  }

  method TailWindow(text: string, size: nat, n: nat) returns (lines: seq<string>)
    ensures lines == WindowTail(text, size, n)
  {
    var data := ReadWindow(text, size);
    lines := LastLines(data, n);
    lines := SanitizeInPlace(lines);
  }

  method TailLogFile(file: File, n: nat) returns (r: Result)
    ensures file.Unreadable? ==> r == Failure
    ensures file.Content? ==> r == Lines(WindowTail(file.text, MAX_TAIL_BYTES, n))
    ensures file.Content? && |file.text| <= 1_048_576 ==> r == Lines(WholeTail(file.text, n))
  {
    if file.Unreadable? {
      return Failure;
    }
    var lines := TailWindow(file.text, MAX_TAIL_BYTES, n);
    SmallFile(file.text, MAX_TAIL_BYTES, n);
    r := Lines(lines);
  }

  // ---------------------------------------------------------------- the window against the file

  /** The last part is a suffix of the text, behind a separator unless it is all of it. */
  predicate EndsWithPart(s: string, c: char, last: string, alone: bool) {
    |last| <= |s| && s[|s| - |last|..] == last
    && (if alone then last == s else |last| < |s| && s[|s| - |last| - 1] == c)
  }

  lemma EndsLater(first: string, c: char, rest: string, last: string, alone: bool)
    requires EndsWithPart(rest, c, last, alone)
    ensures EndsWithPart(first + [c] + rest, c, last, false)
  {
    var s := first + [c] + rest;
    assert s[|s| - |last|..] == rest[|rest| - |last|..];
    if !alone {
      assert s[|s| - |last| - 1] == rest[|rest| - |last| - 1];
    }
  }

  lemma LastOfMore(s: string, c: char, first: string, rest: string, parts: seq<string>, tail: seq<string>)
    requires s == first + [c] + rest && parts == [first] + tail && tail != []
    requires EndsWithPart(rest, c, tail[|tail| - 1], |tail| == 1)
    ensures EndsWithPart(s, c, parts[|parts| - 1], |parts| == 1)
  {
    EndsLater(first, c, rest, tail[|tail| - 1], |tail| == 1);
    assert parts[|parts| - 1] == tail[|tail| - 1] && |parts| > 1;
  }

  lemma LastOfOne(s: string, c: char, parts: seq<string>)
    requires parts == [s]
    ensures EndsWithPart(s, c, parts[|parts| - 1], |parts| == 1)
  {
  }

  lemma {:induction false} LastPart(s: string, c: char)
    ensures EndsWithPart(s, c, Split(s, c)[|Split(s, c)| - 1], |Split(s, c)| == 1)
    decreases |s|
  {
    if FirstIndex(s, c) < |s| {
      var first, rest := AtFirst(s, c);
      LastPart(rest, c);
      LastOfMore(s, c, first, rest, Split(s, c), Split(rest, c));
    } else {
      assert s[..|s|] == s;
      SplitWhole(s, c);
      LastOfOne(s, c, Split(s, c));
    }
  }

  lemma {:induction false} TrimAppend(head: string, tail: string)
    ensures TrimNewlines(head + tail)
            == if TrimNewlines(tail) == "" then TrimNewlines(head) else head + TrimNewlines(tail)
    decreases |tail|
  {
    if tail == "" {
      assert head + tail == head;
    } else if tail[|tail| - 1] == '\n' {
      assert (head + tail)[..|head + tail| - 1] == head + tail[..|tail| - 1];
      TrimAppend(head, tail[..|tail| - 1]);
    }
  }

  lemma LastOfBoth(head: seq<string>, tail: seq<string>, n: nat)
    requires |head| >= 1
    ensures LastN(head + tail, n) == LastN(tail, n) <==> |tail| >= n
  {
    if |tail| >= n {
      assert (head + tail)[|head + tail| - n..] == tail[|tail| - n..];
    }
  }

  /** A text that does not consist of newlines never ends in an empty line. */
  lemma LastLineIsText(s: string)
    requires TrimNewlines(s) != ""
    ensures LinesOf(s)[|LinesOf(s)| - 1] != ""
  {
    LastPart(TrimNewlines(s), '\n');
    TrimRightEnds(s, IsNewline);
  }

  /** When the window can stand for the file: the file fits; or, behind the window's first
      newline, at least n lines are left that are not all empty; or the file is nothing but
      newlines; or one line is wanted and the window happens to be exactly that line. */
  predicate WindowSuffices(file: string, size: nat, n: nat) {
    || |file| <= size
    || (if '\n' in Window(file, size) then
          (TrimNewlines(Kept(file, size)) != "" && |LinesOf(Kept(file, size))| >= n) || TrimNewlines(file) == ""
        else n == 1 && file[|file| - size - 1] == '\n')
  }

  lemma CutInsideWindow(head: string, kept: string, n: nat)
    requires n >= 1
    ensures var file := head + "\n" + kept;
            LastN(LinesOf(kept), n) == LastN(LinesOf(file), n)
            <==> (TrimNewlines(kept) != "" && |LinesOf(kept)| >= n) || TrimNewlines(file) == ""
  {
    var file := head + "\n" + kept;
    TrimAppend(head + "\n", kept);
    if TrimNewlines(kept) != "" {
      assert head + "\n" + TrimNewlines(kept) == head + ['\n'] + TrimNewlines(kept);
      SplitAppend(head, '\n', TrimNewlines(kept));
      LastOfBoth(Split(head, '\n'), LinesOf(kept), n);
    } else {
      assert LinesOf(kept) == [""];
      if TrimNewlines(file) != "" {
        LastLineIsText(file);
        var last := LastN(LinesOf(file), n);
        assert last[|last| - 1] == LinesOf(file)[|LinesOf(file)| - 1];
      }
    }
  }

  lemma {:induction false} TrimKeepsText(s: string)
    requires s != "" && s[|s| - 1] != '\n'
    ensures TrimNewlines(s) == s
  {
  }

  lemma OneLineOf(window: string)
    requires window != "" && '\n' !in window
    ensures LinesOf(window) == [window]
  {
    assert window[|window| - 1] in window;
    FirstIndexAbsent(window, '\n');
  }

  lemma BehindNewline(before: string, window: string, n: nat)
    requires n >= 1 && window != "" && '\n' !in window
    ensures LastN(LinesOf(before + ['\n'] + window), n) == [window] <==> n == 1
  {
    var file := before + ['\n'] + window;
    assert window[|window| - 1] in window;
    TrimKeepsText(file);
    SplitAppend(before, '\n', window);
    OneLineOf(window);
    var head := Split(before, '\n');
    LastOfBoth(head, [window], n);
    assert n == 1 ==> LastN([window], n) == [window];
  }

  lemma NotTheLastPart(file: string, window: string)
    requires |file| > |window| && file[|file| - |window| - 1] != '\n'
    ensures Split(file, '\n')[|Split(file, '\n')| - 1] != window
  {
    LastPart(file, '\n');
  }

  lemma InsideLine(file: string, window: string, n: nat)
    requires n >= 1 && window != "" && '\n' !in window
    requires |file| > |window| && file[|file| - |window|..] == window && file[|file| - |window| - 1] != '\n'
    ensures LastN(LinesOf(file), n) != [window]
  {
    assert window[|window| - 1] in window;
    assert file[|file| - 1] == file[|file| - |window|..][|window| - 1];
    TrimKeepsText(file);
    NotTheLastPart(file, window);
    LastOfLastN(LinesOf(file), n);
  }

  lemma LastOfLastN(lines: seq<string>, n: nat)
    requires n >= 1 && |lines| >= 1
    ensures LastN(lines, n)[|LastN(lines, n)| - 1] == lines[|lines| - 1]
  {
  }

  lemma NoNewlineInWindow(head: string, window: string, n: nat)
    requires n >= 1 && head != "" && window != "" && '\n' !in window
    ensures LastN(LinesOf(window), n) == LastN(LinesOf(head + window), n) <==> n == 1 && head[|head| - 1] == '\n'
  {
    OneLineOf(window);
    var file := head + window;
    if head[|head| - 1] == '\n' {
      var before := head[..|head| - 1];
      assert head == before + ['\n'];
      BehindNewline(before, window, n);
    } else {
      assert file[|file| - |window|..] == window;
      InsideLine(file, window, n);
    }
  }

  lemma AroundNewline(head: string, window: string, i: nat)
    requires i < |window| && window[i] == '\n'
    ensures head + window == (head + window[..i]) + "\n" + window[i + 1..]
  {
    assert window == window[..i] + "\n" + window[i + 1..];
  }

  /** The window shows the same lines as the whole file exactly when it suffices. */
  lemma WindowAgreesIff(file: string, size: nat, n: nat)
    requires size >= 1 && n >= 1
    ensures LastN(LinesOf(Kept(file, size)), n) == LastN(LinesOf(file), n) <==> WindowSuffices(file, size, n)
  {
    if |file| > size {
      var head, window := file[..|file| - size], Window(file, size);
      var i := FirstIndex(window, '\n');
      assert file == head + window;
      if i < |window| {
        AroundNewline(head, window, i);
        CutInsideWindow(head + window[..i], window[i + 1..], n);
      } else {
        assert window[..i] == window;
        NoNewlineInWindow(head, window, n);
      }
    }
  }

  /** Reading through the window refines reading the whole file: whenever the window
      suffices, the answer is the simple form's. */
  lemma WindowRefinesWhole(file: string, size: nat, n: nat)
    requires size >= 1 && n >= 1 && WindowSuffices(file, size, n)
    ensures WindowTail(file, size, n) == WholeTail(file, n)
  {
    WindowAgreesIff(file, size, n);
  }

  function Requested(n: int): (lines: nat)
    ensures 1 <= lines <= 1000
  {
    if n <= 0 || n > 1000 then 100 else n
  }

  /** The exported entry: a denied path fails, an odd line count becomes 100, and a window
      that suffices shows what the simple form shows. */
  method TailAllowed(allowed: bool, file: File, n: int) returns (r: Result)
    ensures r == Failure <==> !allowed || file.Unreadable?
    ensures r.Lines? ==> |r.lines| <= 1000 && r.lines == WindowTail(file.text, MAX_TAIL_BYTES, Requested(n))
    ensures r.Lines? && WindowSuffices(file.text, MAX_TAIL_BYTES, Requested(n)) ==>
              r == Lines(WholeTail(file.text, Requested(n)))
  {
    if !allowed {
      return Failure;
    }
    r := TailLogFile(file, Requested(n));
    if r.Lines? && WindowSuffices(file.text, MAX_TAIL_BYTES, Requested(n)) {
      WindowRefinesWhole(file.text, MAX_TAIL_BYTES, Requested(n));
    }
  }

  // ---------------------------------------------------------------- what sanitising means

  lemma {:induction false} DropControlsCleans(s: string)
    ensures forall c :: c in DropControls(s) ==> IsPrintable(c)
    ensures (forall c :: c in s ==> IsPrintable(c)) ==> DropControls(s) == s
  {
    if s != "" {
      DropControlsCleans(s[1..]);
      assert s[0] in s && forall c :: c in s[1..] ==> c in s;
      assert s == [s[0]] + s[1..];
    }
  }

  lemma {:induction false} NothingToStrip(s: string)
    requires ESC !in s
    ensures StripEscapes(s) == s
  {
    if s != "" {
      assert s[0] in s;
      NothingToStrip(s[1..]);
      assert s == [s[0]] + s[1..];
    }
  }

  /** Text without control characters and trailing blanks is shown as it is. */
  lemma PlainTextIsKept(line: string)
    requires forall c :: c in line ==> IsPrintable(c)
    requires line == "" || line[|line| - 1] != ' '
    ensures Sanitize(line) == line
  {
    assert ESC !in line;
    NothingToStrip(line);
    DropControlsCleans(line);
  }

  lemma {:induction false} TrimRightKeeps(s: string, p: char -> bool)
    ensures forall c :: c in TrimRightBy(s, p) ==> c in s
    ensures TrimRightBy(s, p) == "" || !p(TrimRightBy(s, p)[|TrimRightBy(s, p)| - 1])
  {
    if s != "" && p(s[|s| - 1]) {
      TrimRightKeeps(s[..|s| - 1], p);
    }
  }

  /** A sanitised line has no control characters but tabs, no trailing blank, and is left
      alone by a second pass. */
  lemma SanitizeIsClean(line: string)
    ensures var r := Sanitize(line);
            (forall c :: c in r ==> IsPrintable(c)) && (r == "" || r[|r| - 1] != ' ') && Sanitize(r) == r
  {
    DropControlsCleans(StripEscapes(line));
    TrimRightKeeps(DropControls(StripEscapes(line)), IsBlank);
    PlainTextIsKept(Sanitize(line));
  }

  lemma {:induction false} RunInFront(s: string, tail: string, p: char -> bool)
    requires Run(s, p) < |s|
    ensures Run(s + tail, p) == Run(s, p)
  {
    if p(s[0]) {
      assert (s + tail)[1..] == s[1..] + tail;
      RunInFront(s[1..], tail, p);
    }
  }

  lemma EscapeInFront(escape: string, tail: string)
    requires escape != "" && EscapeLength(escape) == |escape|
    ensures EscapeLength(escape + tail) == |escape|
  {
    var s := escape + tail;
    var i := 2 + Run(escape[2..], IsParameter);
    assert s[2..] == escape[2..] + tail;
    RunInFront(escape[2..], tail, IsParameter);
    assert s[i..] == escape[i..] + tail;
    RunInFront(escape[i..], tail, IsIntermediate);
  }

  lemma Regroup(c: char, a: string, b: string)
    ensures ([c] + a) + b == [c] + (a + b)
  {
  }

  lemma NoEscapeHere(s: string, c: char, rest: string)
    requires c != ESC && s == [c] + rest
    ensures StripEscapes(s) == [c] + StripEscapes(rest)
  {
    assert s[1..] == rest;
  }

  lemma {:induction false} StripThrough(head: string, tail: string)
    requires ESC !in head
    ensures StripEscapes(head + tail) == head + StripEscapes(tail)
  {
    if head == "" {
      assert head + tail == tail && head + StripEscapes(tail) == StripEscapes(tail);
    } else {
      var c, rest, stripped := head[0], head[1..], StripEscapes(tail);
      assert c in head && head == [c] + rest;
      StripThrough(rest, tail);
      Regroup(c, rest, tail);
      Regroup(c, rest, stripped);
      NoEscapeHere(head + tail, c, rest + tail);
    }
  }

  /** Colouring a text does not change what is shown: a complete escape sequence behind a
      text without escapes can be taken out. */
  lemma EscapesAreInvisible(head: string, escape: string, tail: string)
    requires ESC !in head
    requires escape != "" && EscapeLength(escape) == |escape|
    ensures Sanitize(head + escape + tail) == Sanitize(head + tail)
  {
    StripThrough(head, escape + tail);
    StripThrough(head, tail);
    EscapeInFront(escape, tail);
    assert (escape + tail)[|escape|..] == tail;
    assert head + (escape + tail) == head + escape + tail;
  }
}
