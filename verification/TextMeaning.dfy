/** The text functions of the backend, said of characters and positions. */
module TextMeaning {
  import opened Text

  // ---------------------------------------------------------------- case

  /** Two characters fold together exactly when they are equal or the two cases of a letter. */
  lemma FoldTogetherIff(c: char, d: char)
    ensures LowerChar(c) == LowerChar(d) <==>
              c == d
              || ('A' <= c <= 'Z' && d as int == c as int + 32)
              || ('A' <= d <= 'Z' && c as int == d as int + 32)
    ensures !('A' <= LowerChar(c) <= 'Z')
    ensures !('A' <= c <= 'Z') ==> LowerChar(c) == c
  {
  }

  predicate SameLetters(s: string, t: string) {
    |s| == |t| && forall i :: 0 <= i < |s| ==> LowerChar(s[i]) == LowerChar(t[i])
  }

  lemma LowerEqualIff(s: string, t: string)
    ensures Lower(s) == Lower(t) <==> SameLetters(s, t)
  {
    if Lower(s) == Lower(t) {
      forall i | 0 <= i < |s|
        ensures LowerChar(s[i]) == LowerChar(t[i])
      {
        assert Lower(s)[i] == Lower(t)[i];
      }
    }
  }

  // ---------------------------------------------------------------- trimming

  /** Space, tab, newline, vertical tab, form feed and carriage return. */
  predicate Blank(c: char) {
    c as int == 32 || 9 <= c as int <= 13
  }

  predicate Blanks(s: string) {
    forall i :: 0 <= i < |s| ==> Blank(s[i])
  }

  predicate Bare(s: string) {
    s == "" || (!Blank(s[0]) && !Blank(s[|s| - 1]))
  }

  lemma {:induction false} TrimLeftOf(front: string, t: string)
    requires Blanks(front) && (t == "" || !IsSpace(t[0]))
    ensures TrimLeftBy(front + t, IsSpace) == t
  {
    if front == "" {
      assert front + t == t;
    } else {
      assert (front + t)[1..] == front[1..] + t;
      TrimLeftOf(front[1..], t);
    }
  }

  lemma {:induction false} TrimRightOf(t: string, back: string)
    requires Blanks(back) && (t == "" || !IsSpace(t[|t| - 1]))
    ensures TrimRightBy(t + back, IsSpace) == t
  {
    if back == "" {
      assert t + back == t;
    } else {
      var last := |back| - 1;
      assert (t + back)[..|t + back| - 1] == t + back[..last];
      TrimRightOf(t, back[..last]);
    }
  }

  lemma {:induction false} LeftBlanks(s: string) returns (front: string)
    ensures Blanks(front) && s == front + TrimLeftBy(s, IsSpace)
  {
    if s != "" && IsSpace(s[0]) {
      var rest := LeftBlanks(s[1..]);
      front := [s[0]] + rest;
    } else {
      front := "";
    }
  }

  lemma {:induction false} RightBlanks(s: string) returns (back: string)
    ensures Blanks(back) && s == TrimRightBy(s, IsSpace) + back
  {
    if s != "" && IsSpace(s[|s| - 1]) {
      var rest := RightBlanks(s[..|s| - 1]);
      back := rest + [s[|s| - 1]];
    } else {
      back := "";
    }
  }

  ghost predicate Surrounded(s: string, t: string) {
    exists front, back :: Blanks(front) && Blanks(back) && s == front + t + back
  }

  /** Trimming takes off exactly the blanks at both ends: the result is the one part of the
      text that neither begins nor ends with a blank and has nothing but blanks around it. */
  lemma TrimmedIff(s: string, t: string)
    ensures TrimSpace(s) == t <==> Bare(t) && Surrounded(s, t)
  {
    if Bare(t) && Surrounded(s, t) {
      var front, back :| Blanks(front) && Blanks(back) && s == front + t + back;
      TrimmedTo(front, t, back);
    }
    TrimmedIsBare(s);
  }

  lemma TrimmedIsBare(s: string)
    ensures Bare(TrimSpace(s)) && Surrounded(s, TrimSpace(s))
  {
    var l := TrimLeftBy(s, IsSpace);
    var front := LeftBlanks(s);
    var back := RightBlanks(l);
    TrimLeftEnds(s, IsSpace);
    TrimRightEnds(l, IsSpace);
    assert s == front + TrimSpace(s) + back;
    assert TrimSpace(s) != "" ==> TrimSpace(s)[0] == l[0];
  }

  lemma TrimmedTo(front: string, t: string, back: string)
    requires Blanks(front) && Blanks(back) && Bare(t)
    ensures TrimSpace(front + t + back) == t
  {
    if t == "" {
      TrimLeftOf(front + back, "");
      assert front + t + back == front + back + "";
    } else {
      assert front + t + back == front + (t + back);
      TrimLeftOf(front, t + back);
      TrimRightOf(t, back);
    }
  }

  // ---------------------------------------------------------------- splitting

  /** The parts of a text: joined they give it back, and none holds the separator. */
  lemma SplitIff(s: string, sep: char, parts: seq<string>)
    ensures Split(s, sep) == parts <==>
              parts != [] && Join(parts, sep) == s && forall i :: 0 <= i < |parts| ==> sep !in parts[i]
  {
    JoinSplit(s, sep);
    PartsAreClean(s, sep);
    if parts != [] && Join(parts, sep) == s && forall i :: 0 <= i < |parts| ==> sep !in parts[i] {
      SplitJoin(parts, sep);
    }
  }

  predicate Word(w: string, p: char -> bool) {
    w != "" && forall i :: 0 <= i < |w| ==> !p(w[i])
  }

  lemma {:induction false} FieldLengthOf(w: string, c: char, rest: string, p: char -> bool)
    requires p(c) && forall i :: 0 <= i < |w| ==> !p(w[i])
    ensures FieldLength(w + [c] + rest, p) == |w| == FieldLength(w, p)
  {
    if w != "" {
      assert (w + [c] + rest)[1..] == w[1..] + [c] + rest;
      FieldLengthOf(w[1..], c, rest, p);
    } else {
      assert (w + [c] + rest)[0] == c;
    }
  }

  lemma FieldsFirst(w: string, c: char, rest: string, p: char -> bool)
    requires Word(w, p) && p(c)
    ensures Fields(w, p) == [w]
    ensures Fields(w + [c] + rest, p) == [w] + Fields(rest, p)
  {
    FieldLengthOf(w, c, rest, p);
    var s := w + [c] + rest;
    assert s[0] == w[0];
    assert s[..|w|] == w && s[|w|..] == [c] + rest;
    SeparatorFirst(c, rest, p);
    assert w[..|w|] == w && w[|w|..] == "";
    assert Fields("", p) == [];
  }

  /** A separator in front makes no field. */
  lemma SeparatorFirst(c: char, rest: string, p: char -> bool)
    requires p(c)
    ensures Fields([c] + rest, p) == Fields(rest, p)
  {
    assert ([c] + rest)[1..] == rest;
  }

  /** Words joined by any separator are the fields again. */
  lemma {:induction false} FieldsOfJoin(words: seq<string>, c: char, p: char -> bool)
    requires p(c) && forall i :: 0 <= i < |words| ==> Word(words[i], p)
    ensures Fields(Join(words, c), p) == words
  {
    if |words| == 0 {
      assert Fields("", p) == [];
    } else {
      var rest := Join(words[1..], c);
      FieldsFirst(words[0], c, rest, p);
      FieldsOfJoin(words[1..], c, p);
      assert words == [words[0]] + words[1..];
    }
  }
}
