/** What the tail of a log shows, character by character. */
module TailMeaning {
  import opened Text
  import opened Tail

  // ---------------------------------------------------------------- escape sequences

  predicate Parameters(s: string) {
    forall i :: 0 <= i < |s| ==> '0' <= s[i] <= '9' || s[i] == ';' || s[i] == '?'
  }

  predicate Intermediates(s: string) {
    forall i :: 0 <= i < |s| ==> 32 <= s[i] as int <= 47
  }

  /** ESC, an opening bracket, parameters, intermediate bytes and one final byte. */
  predicate SequenceOf(s: string, ps: string, ms: string, final: char) {
    Parameters(ps) && Intermediates(ms) && 64 <= final as int <= 126
    && s == [27 as char, '['] + ps + ms + [final]
  }

  ghost predicate IsSequence(s: string) {
    exists ps, ms, final :: SequenceOf(s, ps, ms, final)
  }

  lemma {:induction false} RunIs(front: string, rest: string, p: char -> bool)
    requires forall i :: 0 <= i < |front| ==> p(front[i])
    requires rest == "" || !p(rest[0])
    ensures Run(front + rest, p) == |front|
  {
    if front == "" {
      assert front + rest == rest;
    } else {
      assert (front + rest)[1..] == front[1..] + rest;
      RunIs(front[1..], rest, p);
    }
  }

  lemma SequenceLength(ps: string, ms: string, final: char, tail: string)
    requires Parameters(ps) && Intermediates(ms) && 64 <= final as int <= 126
    ensures EscapeLength([27 as char, '['] + ps + ms + [final] + tail) == 3 + |ps| + |ms|
  {
    var s := [27 as char, '['] + ps + ms + [final] + tail;
    var back := ms + ([final] + tail);
    assert s[2..] == ps + back;
    RunIs(ps, back, IsParameter);
    assert s[2 + |ps|..] == back;
    RunIs(ms, [final] + tail, IsIntermediate);
    assert s[2 + |ps| + |ms|] == final;
  }

  /** A text begins with an escape sequence of k characters exactly when its first k
      characters are one. */
  lemma EscapeLengthIff(s: string, k: nat)
    requires 0 < k <= |s|
    ensures EscapeLength(s) == k <==> IsSequence(s[..k])
  {
    if IsSequence(s[..k]) {
      var ps, ms, final :| SequenceOf(s[..k], ps, ms, final);
      assert s == [27 as char, '['] + ps + ms + [final] + s[k..];
      SequenceLength(ps, ms, final, s[k..]);
    }
    if EscapeLength(s) == k {
      SequenceFound(s, k);
    }
  }

  lemma SequenceFound(s: string, k: nat)
    requires 0 < k <= |s| && EscapeLength(s) == k
    ensures IsSequence(s[..k])
  {
    var i := 2 + Run(s[2..], IsParameter);
    var j := i + Run(s[i..], IsIntermediate);
    var ps, ms := s[2..i], s[i..j];
    assert Parameters(ps) by {
      assert forall x :: 0 <= x < |ps| ==> ps[x] == s[2..][x];
    }
    assert Intermediates(ms) by {
      assert forall x :: 0 <= x < |ms| ==> ms[x] == s[i..][x];
    }
    assert s[..k] == [s[0], s[1]] + ps + ms + [s[j]];
    assert SequenceOf(s[..k], ps, ms, s[j]);
  }

  /** Colour and cursor sequences are not shown. */
  lemma ColourIsInvisible(head: string, escape: string, tail: string)
    requires ESC !in head && IsSequence(escape)
    ensures Sanitize(head + escape + tail) == Sanitize(head + tail)
  {
    var ps, ms, final :| SequenceOf(escape, ps, ms, final);
    SequenceLength(ps, ms, final, "");
    assert escape + "" == escape;
    EscapesAreInvisible(head, escape, tail);
  }

  lemma {:induction false} DropControlsConcat(a: string, b: string)
    ensures DropControls(a + b) == DropControls(a) + DropControls(b)
  {
    if a == "" {
      assert a + b == b;
    } else {
      assert (a + b)[1..] == a[1..] + b;
      DropControlsConcat(a[1..], b);
    }
  }

  /** Of anything else that begins with ESC only that character goes, and the rest is shown. */
  lemma BrokenSequenceIsShown(head: string, s: string)
    requires ESC !in head && s != "" && s[0] == ESC
    requires forall k :: 0 < k <= |s| ==> !IsSequence(s[..k])
    ensures StripEscapes(head + s) == head + ([ESC] + StripEscapes(s[1..]))
    ensures DropControls([ESC] + StripEscapes(s[1..])) == DropControls(StripEscapes(s[1..]))
  {
    StripThrough(head, s);
    if EscapeLength(s) > 0 {
      EscapeLengthIff(s, EscapeLength(s));
    }
    DropControlsConcat([ESC], StripEscapes(s[1..]));
    assert DropControls([ESC]) == "";
  }

  /** Control characters other than tabs are not shown either. */
  lemma ControlIsInvisible(head: string, c: char, tail: string)
    requires ESC !in head && ESC !in tail
    requires c as int < 32 && c as int != 9 && c != ESC
    ensures Sanitize(head + [c] + tail) == Sanitize(head + tail)
  {
    var with, without := head + [c] + tail, head + tail;
    NothingToStrip(with);
    NothingToStrip(without);
    DropControlsConcat(head + [c], tail);
    DropControlsConcat(head, [c]);
    DropControlsConcat(head, tail);
    assert DropControls([c]) == "";
    assert DropControls(with) == DropControls(without);
  }

  /** Blanks at the end are not shown. */
  lemma {:induction false} TrailingBlanksGo(text: string, blanks: string)
    requires forall c :: c in text ==> IsPrintable(c)
    requires text == "" || text[|text| - 1] != ' '
    requires forall i :: 0 <= i < |blanks| ==> blanks[i] == ' '
    ensures Sanitize(text + blanks) == text
  {
    var line := text + blanks;
    assert forall c :: c in line ==> c in text || c in blanks;
    assert ESC !in line;
    NothingToStrip(line);
    DropControlsCleans(line);
    BlanksGo(text, blanks);
  }

  lemma {:induction false} BlanksGo(text: string, blanks: string)
    requires text == "" || text[|text| - 1] != ' '
    requires forall i :: 0 <= i < |blanks| ==> blanks[i] == ' '
    ensures TrimRightBy(text + blanks, IsBlank) == text
  {
    if blanks == "" {
      assert text + blanks == text;
    } else {
      assert (text + blanks)[..|text + blanks| - 1] == text + blanks[..|blanks| - 1];
      BlanksGo(text, blanks[..|blanks| - 1]);
    }
  }

  // ---------------------------------------------------------------- the request

  /** Between 1 and 1000 lines are shown as asked for; any other number means 100. */
  lemma RequestedMeans(n: int)
    ensures Requested(n) == if 1 <= n <= 1000 then n else 100
  {
  }

  /** The last lines of a file that fits the window, whatever newlines end it: as many as
      asked for, or all of them, sanitised. */
  lemma {:induction false} LastLinesOfFile(lines: seq<string>, newlines: string, n: nat)
    requires lines != [] && lines[|lines| - 1] != ""
    requires forall i :: 0 <= i < |lines| ==> '\n' !in lines[i]
    requires forall i :: 0 <= i < |newlines| ==> newlines[i] == '\n'
    ensures LinesOf(Join(lines, '\n') + newlines) == lines
    ensures |lines| > n ==> WholeTail(Join(lines, '\n') + newlines, n) == SanitizeAll(lines[|lines| - n..])
    ensures |lines| <= n ==> WholeTail(Join(lines, '\n') + newlines, n) == SanitizeAll(lines)
  {
    JoinEnds(lines, '\n');
    NewlinesGo(Join(lines, '\n'), newlines);
    assert forall p :: p in lines ==> '\n' !in p;
    SplitJoin(lines, '\n');
  }

  lemma {:induction false} JoinEnds(lines: seq<string>, sep: char)
    requires lines != [] && lines[|lines| - 1] != ""
    ensures var s, last := Join(lines, sep), lines[|lines| - 1];
            s != "" && s[|s| - 1] == last[|last| - 1]
  {
    if |lines| > 1 {
      JoinEnds(lines[1..], sep);
    }
  }

  lemma {:induction false} NewlinesGo(text: string, newlines: string)
    requires text == "" || text[|text| - 1] != '\n'
    requires forall i :: 0 <= i < |newlines| ==> newlines[i] == '\n'
    ensures TrimNewlines(text + newlines) == text
  {
    if newlines == "" {
      assert text + newlines == text;
    } else {
      assert (text + newlines)[..|text + newlines| - 1] == text + newlines[..|newlines| - 1];
      NewlinesGo(text, newlines[..|newlines| - 1]);
    }
  }
}
