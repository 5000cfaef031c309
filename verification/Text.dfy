/** ASCII renderings of the Go string helpers the backend relies on.
    A Go string is a sequence of characters here; only ASCII letters change case and
    only the six ASCII white-space characters are trimmed. */
module Text {
  import opened Common

  predicate IsSpace(c: char) {
    c == ' ' || '\t' <= c <= '\r'
  }

  function LowerChar(c: char): char {
    if 'A' <= c <= 'Z' then (c as int + 32) as char else c
  }

  /** strings.Map without deletions, strings.ToLower, one-to-one replacers. */
  function MapChars(s: string, f: char -> char): (r: string)
    ensures |r| == |s|
    ensures forall i :: 0 <= i < |s| ==> r[i] == f(s[i])
  {
    seq(|s|, i requires 0 <= i < |s| => f(s[i]))
  }

  function Lower(s: string): string {
    MapChars(s, LowerChar)
  }

  function TrimLeftBy(s: string, p: char -> bool): string {
    if s != "" && p(s[0]) then TrimLeftBy(s[1..], p) else s
  }

  function TrimRightBy(s: string, p: char -> bool): string {
    if s != "" && p(s[|s| - 1]) then TrimRightBy(s[..|s| - 1], p) else s
  }

  function TrimBy(s: string, p: char -> bool): string {
    TrimRightBy(TrimLeftBy(s, p), p)
  }

  function TrimSpace(s: string): string {
    TrimBy(s, IsSpace)
  }

  /** strings.Join. */
  function Join(parts: seq<string>, sep: char): string {
    if |parts| == 0 then ""
    else if |parts| == 1 then parts[0]
    else parts[0] + [sep] + Join(parts[1..], sep)
  }

  /** strings.Split on one character: never empty. */
  function Split(s: string, sep: char): (parts: seq<string>)
    ensures |parts| >= 1
    decreases |s|
  {
    var i := FirstIndex(s, sep);
    if i == |s| then [s] else [s[..i]] + Split(s[i + 1..], sep)
  }

  /** strings.FieldsFunc: the non-empty runs between separators. */
  function Fields(s: string, p: char -> bool): seq<string>
    decreases |s|
  {
    var rest := TrimLeftBy(s, p);
    TrimLeftShorter(s, p);
    if rest == "" then []
    else
      var k := FieldLength(rest, p);
      [rest[..k]] + Fields(rest[k..], p)
  }

  function FieldLength(s: string, p: char -> bool): (k: nat)
    ensures k <= |s|
    ensures s != "" && !p(s[0]) ==> k > 0
  {
    if s == "" || p(s[0]) then 0 else 1 + FieldLength(s[1..], p)
  }

  lemma {:induction false} TrimLeftShorter(s: string, p: char -> bool)
    ensures |TrimLeftBy(s, p)| <= |s|
    ensures TrimLeftBy(s, p) != "" ==> !p(TrimLeftBy(s, p)[0])
  {
    if s != "" && p(s[0]) {
      TrimLeftShorter(s[1..], p);
    }
  }

  /** Position of the first occurrence, or |s| when there is none. */
  function FirstIndex(s: string, c: char): (i: nat)
    ensures i <= |s|
    ensures i < |s| ==> s[i] == c
    ensures c !in s[..i]
  {
    if s == "" then 0
    else if s[0] == c then 0
    else
      assert s[..1 + FirstIndex(s[1..], c)] == [s[0]] + s[1..][..FirstIndex(s[1..], c)];
      1 + FirstIndex(s[1..], c)
  }

  lemma FirstIndexAt(head: string, c: char, tail: string)
    requires c !in head
    ensures FirstIndex(head + [c] + tail, c) == |head|
  {
    var s := head + [c] + tail;
    assert s[|head|] == c;
    assert forall k :: 0 <= k < |head| ==> s[k] == head[k] && s[k] in head;
    assert forall k :: 0 <= k < FirstIndex(s, c) ==> s[k] in s[..FirstIndex(s, c)];
  }

  lemma FirstIndexAbsent(s: string, c: char)
    requires c !in s
    ensures FirstIndex(s, c) == |s|
  {
  }

  lemma SplitFirst(head: string, sep: char, tail: string)
    requires sep !in head
    ensures Split(head + [sep] + tail, sep) == [head] + Split(tail, sep)
  {
    var s := head + [sep] + tail;
    FirstIndexAt(head, sep, tail);
    assert s[..|head|] == head && s[|head| + 1..] == tail;
  }

  /** Joining and splitting are inverse as long as no part holds the separator. */
  lemma {:induction false} SplitJoin(parts: seq<string>, sep: char)
    requires |parts| >= 1
    requires forall p :: p in parts ==> sep !in p
    ensures Split(Join(parts, sep), sep) == parts
  {
    assert parts[0] in parts;
    if |parts| == 1 {
      FirstIndexAbsent(parts[0], sep);
    } else {
      SplitFirst(parts[0], sep, Join(parts[1..], sep));
      SplitJoin(parts[1..], sep);
    }
  }

  lemma AtFirst(s: string, c: char) returns (first: string, rest: string)
    requires FirstIndex(s, c) < |s|
    ensures c !in first && s == first + [c] + rest && |rest| < |s|
    ensures Split(s, c) == [first] + Split(rest, c)
  {
    var i := FirstIndex(s, c);
    first, rest := s[..i], s[i + 1..];
  }

  lemma {:induction false} SplitAppend(head: string, c: char, tail: string)
    ensures Split(head + [c] + tail, c) == Split(head, c) + Split(tail, c)
    decreases |head|
  {
    if FirstIndex(head, c) == |head| {
      assert head[..|head|] == head;
      SplitFirst(head, c, tail);
    } else {
      var first, rest := AtFirst(head, c);
      SplitAppend(rest, c, tail);
      SplitFirst(first, c, rest + [c] + tail);
      Regrouped(first, c, rest, tail);
      Reassociate([first], Split(rest, c), Split(tail, c));
    }
  }

  lemma Regrouped(first: string, c: char, rest: string, tail: string)
    ensures (first + [c] + rest) + [c] + tail == first + [c] + (rest + [c] + tail)
  {
  }

  lemma {:induction false} JoinSplit(s: string, sep: char)
    ensures Join(Split(s, sep), sep) == s
    decreases |s|
  {
    if FirstIndex(s, sep) < |s| {
      var first, rest := AtFirst(s, sep);
      JoinSplit(rest, sep);
      assert Split(s, sep)[1..] == Split(rest, sep);
    }
  }

  /** All the parts of all the parts. */
  function Pieces(parts: seq<string>, sep: char): seq<string> {
    if parts == [] then [] else Split(parts[0], sep) + Pieces(parts[1..], sep)
  }

  /** What a list of parts becomes when it is joined and split again. */
  function Cut(parts: seq<string>, sep: char): seq<string> {
    if parts == [] then [""] else Pieces(parts, sep)
  }

  lemma {:induction false} SplitOfJoin(parts: seq<string>, sep: char)
    ensures Split(Join(parts, sep), sep) == Cut(parts, sep)
  {
    if |parts| == 1 {
      assert Pieces(parts[1..], sep) == [];
    } else if |parts| > 1 {
      SplitOfJoin(parts[1..], sep);
      SplitAppend(parts[0], sep, Join(parts[1..], sep));
    }
  }

  /** Exactly when two lists join to one text. */
  lemma JoinEqualIff(a: seq<string>, b: seq<string>, sep: char)
    ensures Join(a, sep) == Join(b, sep) <==> Cut(a, sep) == Cut(b, sep)
  {
    SplitOfJoin(a, sep);
    SplitOfJoin(b, sep);
    JoinSplit(Join(a, sep), sep);
    JoinSplit(Join(b, sep), sep);
  }

  lemma JoinOfCut(parts: seq<string>, sep: char)
    ensures Join(Cut(parts, sep), sep) == Join(parts, sep)
  {
    SplitOfJoin(parts, sep);
    JoinSplit(Join(parts, sep), sep);
  }

  lemma {:induction false} SplitWhole(s: string, sep: char)
    requires sep !in s
    ensures Split(s, sep) == [s]
  {
    FirstIndexAbsent(s, sep);
  }

  /** Splitting leaves no separator, and brings no character in. */
  lemma {:induction false} PartsAreClean(s: string, sep: char)
    ensures forall p :: p in Split(s, sep) ==> sep !in p && forall c :: c in p ==> c in s
    decreases |s|
  {
    if FirstIndex(s, sep) < |s| {
      var first, rest := AtFirst(s, sep);
      PartsAreClean(rest, sep);
    } else {
      assert s[..|s|] == s;
    }
  }

  lemma {:induction false} PiecesAreClean(parts: seq<string>, sep: char)
    ensures forall p :: p in Pieces(parts, sep) ==> sep !in p && exists q :: q in parts && forall c :: c in p ==> c in q
  {
    if parts != [] {
      PiecesAreClean(parts[1..], sep);
      PartsAreClean(parts[0], sep);
      forall p | p in Pieces(parts, sep)
        ensures sep !in p && exists q :: q in parts && forall c :: c in p ==> c in q
      {
        if p in Split(parts[0], sep) {
          assert parts[0] in parts;
        } else {
          var q :| q in parts[1..] && forall c :: c in p ==> c in q;
          assert q in parts;
        }
      }
    }
  }

  /** The lists one gets by joining neighbours: finitely many, one for each way to cut the
      pieces into groups. */
  ghost function Groupings(pieces: seq<string>, sep: char): set<seq<string>>
    decreases |pieces|
  {
    if pieces == [] then {[]}
    else
      set k, rest | 1 <= k <= |pieces| && rest in Groupings(pieces[k..], sep) :: [Join(pieces[..k], sep)] + rest
  }

  lemma {:induction false} PiecesCount(parts: seq<string>, sep: char)
    ensures |Pieces(parts, sep)| >= |parts|
    ensures |Pieces(parts, sep)| == |parts| ==> Pieces(parts, sep) == parts
  {
    if parts != [] {
      PiecesCount(parts[1..], sep);
      if |Split(parts[0], sep)| == 1 {
        JoinSplit(parts[0], sep);
        assert parts == [parts[0]] + parts[1..];
      }
    }
  }

  lemma {:induction false} CleanPieces(parts: seq<string>, sep: char)
    requires forall p :: p in parts ==> sep !in p
    ensures Pieces(parts, sep) == parts
  {
    if parts != [] {
      assert parts[0] in parts;
      SplitWhole(parts[0], sep);
      CleanPieces(parts[1..], sep);
      assert parts == [parts[0]] + parts[1..];
    }
  }

  lemma FirstGroup(pieces: seq<string>, sep: char, y: seq<string>) returns (k: nat, rest: seq<string>)
    requires pieces != [] && y in Groupings(pieces, sep)
    ensures 1 <= k <= |pieces| && rest in Groupings(pieces[k..], sep) && y == [Join(pieces[..k], sep)] + rest
  {
    k, rest :| 1 <= k <= |pieces| && rest in Groupings(pieces[k..], sep) && y == [Join(pieces[..k], sep)] + rest;
  }

  lemma {:induction false} GroupingHasPieces(pieces: seq<string>, sep: char, y: seq<string>)
    requires forall p :: p in pieces ==> sep !in p
    requires y in Groupings(pieces, sep)
    ensures Pieces(y, sep) == pieces
    decreases |pieces|
  {
    if pieces != [] {
      var k, rest := FirstGroup(pieces, sep, y);
      var head, tail := pieces[..k], pieces[k..];
      assert pieces == head + tail && forall p :: p in pieces <==> p in head || p in tail;
      GroupingHasPieces(tail, sep, rest);
      GroupInFront(head, tail, sep, rest);
    }
  }

  lemma GroupInFront(head: seq<string>, tail: seq<string>, sep: char, rest: seq<string>)
    requires |head| >= 1 && (forall p :: p in head ==> sep !in p) && Pieces(rest, sep) == tail
    ensures Pieces([Join(head, sep)] + rest, sep) == head + tail
  {
    SplitJoin(head, sep);
    PiecesCons(Join(head, sep), rest, sep);
  }

  lemma PiecesCons(p: string, rest: seq<string>, sep: char)
    ensures Pieces([p] + rest, sep) == Split(p, sep) + Pieces(rest, sep)
    ensures sep !in p ==> Pieces([p] + rest, sep) == [p] + Pieces(rest, sep)
  {
    assert ([p] + rest)[1..] == rest;
    if sep !in p {
      SplitWhole(p, sep);
    }
  }

  lemma {:induction false} PiecesMakeGrouping(pieces: seq<string>, sep: char, y: seq<string>)
    requires Pieces(y, sep) == pieces
    ensures y in Groupings(pieces, sep)
    decreases |y|
  {
    PiecesCount(y, sep);
    if y != [] {
      var head := Split(y[0], sep);
      var k := |head|;
      assert pieces[..k] == head && pieces[k..] == Pieces(y[1..], sep);
      JoinSplit(y[0], sep);
      PiecesMakeGrouping(pieces[k..], sep, y[1..]);
      assert y == [Join(pieces[..k], sep)] + y[1..];
    }
  }

  /** The groupings of pieces are exactly the lists with those pieces. */
  lemma GroupingIff(pieces: seq<string>, sep: char, y: seq<string>)
    requires forall p :: p in pieces ==> sep !in p
    ensures y in Groupings(pieces, sep) <==> Pieces(y, sep) == pieces
  {
    if y in Groupings(pieces, sep) {
      GroupingHasPieces(pieces, sep, y);
    }
    if Pieces(y, sep) == pieces {
      PiecesMakeGrouping(pieces, sep, y);
    }
  }

  lemma JoinIsIff(y: seq<string>, sep: char, s: string)
    ensures y != [] && Join(y, sep) == s <==> Pieces(y, sep) == Split(s, sep)
  {
    if y != [] {
      SplitOfJoin(y, sep);
      JoinSplit(s, sep);
      JoinSplit(Join(y, sep), sep);
    }
  }

  function LowerAll(parts: seq<string>): (ls: seq<string>)
    ensures |ls| == |parts| && forall i :: 0 <= i < |parts| ==> ls[i] == Lower(parts[i])
  {
    seq(|parts|, i requires 0 <= i < |parts| => Lower(parts[i]))
  }

  lemma LowerAround(first: string, sep: char, rest: string)
    requires LowerChar(sep) == sep
    ensures Lower(first + [sep] + rest) == Lower(first) + [sep] + Lower(rest)
  {
  }

  lemma LowerAllConcat(a: seq<string>, b: seq<string>)
    ensures LowerAll(a + b) == LowerAll(a) + LowerAll(b)
  {
  }

  /** A separator no letter folds to survives case folding. */
  lemma LowerKeepsOut(s: string, c: char)
    requires c !in s && !('a' <= c <= 'z')
    ensures c !in Lower(s)
  {
  }

  lemma {:induction false} SplitLower(s: string, sep: char)
    requires LowerChar(sep) == sep && !('a' <= sep <= 'z')
    ensures Split(Lower(s), sep) == LowerAll(Split(s, sep))
    decreases |s|
  {
    if FirstIndex(s, sep) == |s| {
      assert s[..|s|] == s;
      LowerKeepsOut(s, sep);
      SplitWhole(Lower(s), sep);
      SplitWhole(s, sep);
    } else {
      var first, rest := AtFirst(s, sep);
      SplitLower(rest, sep);
      LowerAround(first, sep, rest);
      LowerKeepsOut(first, sep);
      SplitFirst(Lower(first), sep, Lower(rest));
      LowerAllConcat([first], Split(rest, sep));
    }
  }

  lemma {:induction false} CutLower(parts: seq<string>, sep: char)
    requires LowerChar(sep) == sep && !('a' <= sep <= 'z')
    ensures Cut(LowerAll(parts), sep) == LowerAll(Cut(parts, sep))
  {
    PiecesLower(parts, sep);
  }

  lemma {:induction false} PiecesLower(parts: seq<string>, sep: char)
    requires LowerChar(sep) == sep && !('a' <= sep <= 'z')
    ensures Pieces(LowerAll(parts), sep) == LowerAll(Pieces(parts, sep))
  {
    if parts != [] {
      assert LowerAll(parts)[1..] == LowerAll(parts[1..]);
      SplitLower(parts[0], sep);
      PiecesLower(parts[1..], sep);
      LowerAllConcat(Split(parts[0], sep), Pieces(parts[1..], sep));
    }
  }

  /** Case folding and trimming commute when the trimmed class ignores case. */
  lemma {:induction false} TrimLeftMap(s: string, p: char -> bool, f: char -> char)
    requires forall c :: p(f(c)) == p(c)
    ensures TrimLeftBy(MapChars(s, f), p) == MapChars(TrimLeftBy(s, p), f)
  {
    if s != "" && p(s[0]) {
      assert MapChars(s, f)[1..] == MapChars(s[1..], f);
      TrimLeftMap(s[1..], p, f);
    }
  }

  lemma {:induction false} TrimRightMap(s: string, p: char -> bool, f: char -> char)
    requires forall c :: p(f(c)) == p(c)
    ensures TrimRightBy(MapChars(s, f), p) == MapChars(TrimRightBy(s, p), f)
  {
    if s != "" && p(s[|s| - 1]) {
      assert MapChars(s, f)[..|s| - 1] == MapChars(s[..|s| - 1], f);
      TrimRightMap(s[..|s| - 1], p, f);
    }
  }

  lemma TrimMap(s: string, p: char -> bool, f: char -> char)
    requires forall c :: p(f(c)) == p(c)
    ensures TrimBy(MapChars(s, f), p) == MapChars(TrimBy(s, p), f)
  {
    TrimLeftMap(s, p, f);
    TrimRightMap(TrimLeftBy(s, p), p, f);
  }

  /** The two email normalisations of the backend agree. */
  lemma LowerTrimCommute(s: string)
    ensures TrimSpace(Lower(s)) == Lower(TrimSpace(s))
  {
    TrimMap(s, IsSpace, LowerChar);
  }

  lemma LowerIdempotent(s: string)
    ensures Lower(Lower(s)) == Lower(s)
  {
  }

  lemma {:induction false} TrimLeftEnds(s: string, p: char -> bool)
    ensures TrimLeftBy(s, p) == "" || !p(TrimLeftBy(s, p)[0])
  {
    if s != "" && p(s[0]) {
      TrimLeftEnds(s[1..], p);
    }
  }

  lemma {:induction false} TrimRightEnds(s: string, p: char -> bool)
    ensures TrimRightBy(s, p) <= s
    ensures TrimRightBy(s, p) == "" || !p(TrimRightBy(s, p)[|TrimRightBy(s, p)| - 1])
  {
    if s != "" && p(s[|s| - 1]) {
      TrimRightEnds(s[..|s| - 1], p);
    }
  }

  lemma TrimIdempotent(s: string, p: char -> bool)
    ensures TrimBy(TrimBy(s, p), p) == TrimBy(s, p)
  {
    TrimLeftEnds(s, p);
    TrimRightEnds(TrimLeftBy(s, p), p);
  }
}
