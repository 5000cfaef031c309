/** What the device comparator answers, said of the strings themselves. */
module NaturalOrderMeaning {
  import opened Common
  import opened Digits
  import opened NaturalOrder
  import opened NaturalOrderLaws

  // ---------------------------------------------------------------- cutting between tokens

  /** No digit run reaches across the end of p into x. */
  predicate CleanCut(p: string, x: string) {
    p == "" || x == "" || !IsDigit(p[|p| - 1]) || !IsDigit(x[0])
  }

  lemma {:induction false} RunWithin(p: string, x: string)
    requires CleanCut(p, x)
    ensures p != "" ==> DigitRun(p + x) == DigitRun(p)
  {
    if p != "" && IsDigit(p[0]) {
      assert (p + x)[1..] == p[1..] + x;
      if p[1..] != "" {
        RunWithin(p[1..], x);
      }
    }
  }

  lemma HeadWithin(p: string, x: string)
    requires p != "" && CleanCut(p, x)
    ensures HeadLength(p + x) == HeadLength(p) && Head(p + x) == Head(p)
    ensures (p + x)[HeadLength(p)..] == p[HeadLength(p)..] + x && CleanCut(p[HeadLength(p)..], x)
  {
    RunWithin(p, x);
    var k := HeadLength(p);
    assert (p + x)[..k] == p[..k];
  }

  lemma HeadFirst(s: string, k: nat)
    requires s != "" && k == HeadLength(s)
    ensures Tokens(s) == [Head(s)] + Tokens(s[k..])
  {
  }

  lemma {:induction false} TokensAppend(p: string, x: string)
    requires CleanCut(p, x)
    ensures Tokens(p + x) == Tokens(p) + Tokens(x)
    decreases |p|
  {
    if p == "" {
      assert p + x == x;
    } else {
      var k := HeadLength(p);
      HeadWithin(p, x);
      TokensAppend(p[k..], x);
      Prepended(p, x, k);
    }
  }

  lemma Prepended(p: string, x: string, k: nat)
    requires p != "" && k == HeadLength(p) == HeadLength(p + x) && Head(p + x) == Head(p)
    requires (p + x)[k..] == p[k..] + x
    requires Tokens(p[k..] + x) == Tokens(p[k..]) + Tokens(x)
    ensures Tokens(p + x) == Tokens(p) + Tokens(x)
  {
    HeadFirst(p, k);
    HeadFirst(p + x, k);
    Reassociate([Head(p)], Tokens(p[k..]), Tokens(x));
  }

  lemma NumeralThen(ds: string, x: string)
    requires ds != "" && AllDigits(ds) && (x == "" || !IsDigit(x[0]))
    ensures Tokens(ds + x) == [Number(Saturate(Value(ds)))] + Tokens(x)
  {
    DigitRunOf(ds, x);
    assert (ds + x)[..|ds|] == ds && (ds + x)[|ds|..] == x;
    assert (ds + x)[0] == ds[0];
  }

  lemma NumeralBehind(p: string, ds: string, x: string)
    requires p == "" || !IsDigit(p[|p| - 1])
    requires ds != "" && AllDigits(ds) && (x == "" || !IsDigit(x[0]))
    ensures Tokens(p + (ds + x)) == Tokens(p) + [Number(Saturate(Value(ds)))] + Tokens(x)
  {
    var r := ds + x;
    assert r[0] == ds[0];
    NumeralThen(ds, x);
    TokensAppend(p, r);
    Reassociate(Tokens(p), [Number(Saturate(Value(ds)))], Tokens(x));
  }

  lemma FrontDecides(a: string, b: string, p: seq<Token>, m: Token, n: Token, x: seq<Token>, y: seq<Token>)
    requires Tokens(a) == p + [m] + x && Tokens(b) == p + [n] + y
    requires m != n
    ensures NaturallyBefore(a, b) == TokenLess(m, n)
  {
    assert p + [m] + x == p + ([m] + x) && p + [n] + y == p + ([n] + y);
    AfterPrefix(a, b, p, [m] + x, [n] + y);
  }

  lemma RestDecides(a: string, b: string, p: seq<Token>, x: string, y: string)
    requires Tokens(a) == p + Tokens(x) && Tokens(b) == p + Tokens(y)
    ensures x == "" || y == "" ==> NaturallyBefore(a, b) == (|a| < |b|)
    ensures x != "" && y != "" && Head(x) != Head(y) ==> NaturallyBefore(a, b) == TokenLess(Head(x), Head(y))
  {
    if x != "" && y != "" {
      HeadFirst(x, HeadLength(x));
      HeadFirst(y, HeadLength(y));
    }
    AfterPrefix(a, b, p, Tokens(x), Tokens(y));
  }

  lemma SameNumber(a: string, b: string, p: seq<Token>, m: nat, x: string, y: string)
    requires Tokens(a) == p + [Number(m)] + Tokens(x) && Tokens(b) == p + [Number(m)] + Tokens(y)
    requires (x == "" || !IsDigit(x[0])) && (y == "" || !IsDigit(y[0]))
    ensures x == "" || y == "" ==> NaturallyBefore(a, b) == (|a| < |b|)
    ensures x != "" && y != "" && x[0] != y[0] ==> NaturallyBefore(a, b) == (x[0] < y[0])
  {
    RestDecides(a, b, p + [Number(m)], x, y);
  }

  // ---------------------------------------------------------------- the answers

  /** Behind a common text the smaller number comes first, however the numbers are written:
      "sda2" before "sda10". */
  lemma NumbersDecide(p: string, ds: string, es: string, x: string, y: string)
    requires p == "" || !IsDigit(p[|p| - 1])
    requires ds != "" && AllDigits(ds) && (x == "" || !IsDigit(x[0]))
    requires es != "" && AllDigits(es) && (y == "" || !IsDigit(y[0]))
    requires Value(ds) < Value(es) && Value(ds) < 0xFFFF_FFFF_FFFF_FFFF
    ensures NaturallyBefore(p + (ds + x), p + (es + y))
    ensures !NaturallyBefore(p + (es + y), p + (ds + x))
  {
    var m, n := Number(Saturate(Value(ds))), Number(Saturate(Value(es)));
    assert m.n < n.n;
    NumeralBehind(p, ds, x);
    NumeralBehind(p, es, y);
    FrontDecides(p + (ds + x), p + (es + y), Tokens(p), m, n, Tokens(x), Tokens(y));
    FrontDecides(p + (es + y), p + (ds + x), Tokens(p), n, m, Tokens(y), Tokens(x));
  }

  /** Where the first different bytes do not both belong to numbers, the smaller byte comes
      first, a digit against another byte included. */
  lemma BytesDecide(p: string, c: char, d: char, x: string, y: string)
    requires c != d && !(IsDigit(c) && IsDigit(d))
    requires IsDigit(c) || IsDigit(d) ==> p == "" || !IsDigit(p[|p| - 1])
    ensures NaturallyBefore(p + ([c] + x), p + ([d] + y)) <==> c < d
  {
    var a, b := [c] + x, [d] + y;
    assert CleanCut(p, a) && CleanCut(p, b);
    TokensAppend(p, a);
    TokensAppend(p, b);
    RestDecides(p + a, p + b, Tokens(p), a, b);
  }

  /** Equal numbers, or two beyond 64 bits, decide nothing: what follows them does, and at the
      end of either string the byte lengths. */
  lemma EqualNumbersTie(a: string, b: string, p: string, ds: string, es: string, x: string, y: string)
    requires a == p + (ds + x) && b == p + (es + y)
    requires p == "" || !IsDigit(p[|p| - 1])
    requires ds != "" && AllDigits(ds) && (x == "" || !IsDigit(x[0]))
    requires es != "" && AllDigits(es) && (y == "" || !IsDigit(y[0]))
    requires Value(ds) == Value(es) || (Value(ds) >= 0xFFFF_FFFF_FFFF_FFFF && Value(es) >= 0xFFFF_FFFF_FFFF_FFFF)
    ensures x == "" || y == "" ==> (NaturallyBefore(a, b) <==> |a| < |b|)
    ensures x != "" && y != "" && x[0] != y[0] ==> (NaturallyBefore(a, b) <==> x[0] < y[0])
  {
    var m := Saturate(Value(ds));
    assert m == Saturate(Value(es));
    NumeralBehind(p, ds, x);
    NumeralBehind(p, es, y);
    SameNumber(a, b, Tokens(p), m, x, y);
  }

  lemma {:induction false} ValueGrows(ds: string, es: string)
    requires AllDigits(ds) && AllDigits(es)
    ensures Value(ds) <= Value(ds + es)
  {
    if es == "" {
      assert ds + es == ds;
    } else {
      assert (ds + es)[..|ds + es| - 1] == ds + es[..|es| - 1];
      ValueGrows(ds, es[..|es| - 1]);
    }
  }

  /** Where the digit run at the end of a string starts. */
  lemma {:induction false} TrailingRun(p: string) returns (i: nat)
    ensures i <= |p| && AllDigits(p[i..]) && (i > 0 ==> !IsDigit(p[i - 1]))
  {
    if p == "" || !IsDigit(p[|p| - 1]) {
      i := |p|;
    } else {
      i := TrailingRun(p[..|p| - 1]);
      assert p[i..] == p[..|p| - 1][i..] + [p[|p| - 1]];
    }
  }

  /** A string comes before every longer one that starts with it, even where the longer one
      prolongs a number. */
  lemma PrefixFirst(p: string, x: string)
    requires x != ""
    ensures NaturallyBefore(p, p + x) && !NaturallyBefore(p + x, p)
  {
    if CleanCut(p, x) {
      TokensAppend(p, x);
      assert Tokens(p) == Tokens(p) + [];
      AfterPrefix(p, p + x, Tokens(p), [], Tokens(x));
      AfterPrefix(p + x, p, Tokens(p), Tokens(x), []);
    } else {
      var i := TrailingRun(p);
      var k := DigitRun(x);
      var q, ds, es, r := p[..i], p[i..], x[..k], x[k..];
      assert p == q + (ds + "") && p + x == q + ((ds + es) + r);
      assert AllDigits(ds + es);
      ValueGrows(ds, es);
      if Value(ds) < Value(ds + es) && Value(ds) < 0xFFFF_FFFF_FFFF_FFFF {
        NumbersDecide(q, ds, ds + es, "", r);
      } else {
        EqualNumbersTie(p, p + x, q, ds, ds + es, "", r);
        EqualNumbersTie(p + x, p, q, ds + es, ds, r, "");
      }
    }
  }

  // ---------------------------------------------------------------- every pair is decided

  /** The number at the front of a string as the comparator reads it. */
  function Reading(s: string): nat {
    Saturate(Value(s[..DigitRun(s)]))
  }

  /** Two texts the comparator cannot tell apart: equal bytes, and equal numbers however
      they are written. */
  predicate ReadAlike(p: string, q: string)
    decreases |p|
  {
    if p == "" || q == "" then p == q
    else if IsDigit(p[0]) && IsDigit(q[0]) then
      Reading(p) == Reading(q) && ReadAlike(p[DigitRun(p)..], q[DigitRun(q)..])
    else p[0] == q[0] && ReadAlike(p[1..], q[1..])
  }

  lemma {:induction false} ReadAlikeIff(p: string, q: string)
    ensures ReadAlike(p, q) <==> Tokens(p) == Tokens(q)
    decreases |p|
  {
    if p != "" && q != "" {
      var k, l := HeadLength(p), HeadLength(q);
      assert Tokens(p) == [Head(p)] + Tokens(p[k..]) && Tokens(q) == [Head(q)] + Tokens(q[l..]);
      assert Tokens(p)[1..] == Tokens(p[k..]) && Tokens(q)[1..] == Tokens(q[l..]);
      ReadAlikeIff(p[k..], q[l..]);
    }
  }

  /** Where the texts of a and b behind i and j are no longer read alike, or one has ended. */
  ghost predicate DiffersAt(a: string, b: string, i: nat, j: nat) {
    && i <= |a| && j <= |b|
    && CleanCut(a[..i], a[i..]) && CleanCut(b[..j], b[j..])
    && ReadAlike(a[..i], b[..j])
    && (i < |a| && j < |b| ==>
          if IsDigit(a[i]) && IsDigit(b[j]) then Reading(a[i..]) != Reading(b[j..]) else a[i] != b[j])
  }

  lemma DiffersAtOnce(a: string, b: string)
    requires a == "" || b == "" || Head(a) != Head(b)
    ensures DiffersAt(a, b, 0, 0)
  {
    assert a[0..] == a && b[0..] == b;
    assert ReadAlike("", "");
    if a != "" && b != "" && IsDigit(a[0]) && IsDigit(b[0]) {
      assert Reading(a) == Head(a).n && Reading(b) == Head(b).n;
    }
  }

  lemma {:induction false} Diverge(a: string, b: string) returns (i: nat, j: nat)
    ensures DiffersAt(a, b, i, j)
    decreases |a|
  {
    if a == "" || b == "" || Head(a) != Head(b) {
      i, j := 0, 0;
      DiffersAtOnce(a, b);
    } else {
      var m, n := Diverge(a[HeadLength(a)..], b[HeadLength(b)..]);
      i, j := HeadLength(a) + m, HeadLength(b) + n;
      BehindHeads(a, b, m, n);
    }
  }

  lemma BehindHeads(a: string, b: string, m: nat, n: nat)
    requires a != "" && b != "" && Head(a) == Head(b)
    requires DiffersAt(a[HeadLength(a)..], b[HeadLength(b)..], m, n)
    ensures DiffersAt(a, b, HeadLength(a) + m, HeadLength(b) + n)
  {
    var k, l := HeadLength(a), HeadLength(b);
    HeadThenRest(a, m);
    HeadThenRest(b, n);
    assert Head(a) == Head(b);
    assert ReadAlike(a[..k + m], b[..l + n]) by {
      ReadAlikeIff(a[k..][..m], b[l..][..n]);
      ReadAlikeIff(a[..k + m], b[..l + n]);
    }
    assert a[k..][m..] == a[k + m..] && b[l..][n..] == b[l + n..];
  }

  lemma ByteThen(c: char, rest: string)
    requires !IsDigit(c)
    ensures Tokens([c] + rest) == [Byte(c)] + Tokens(rest)
  {
    assert ([c] + rest)[1..] == rest;
  }

  lemma HeadThen(a: string, rest: string)
    requires a != "" && (IsDigit(a[0]) ==> rest == "" || !IsDigit(rest[0]))
    ensures Tokens(a[..HeadLength(a)] + rest) == [Head(a)] + Tokens(rest)
  {
    var front := a[..HeadLength(a)];
    if IsDigit(a[0]) {
      NumeralThen(front, rest);
    } else {
      ByteThen(a[0], rest);
      assert front == [a[0]];
    }
  }

  lemma HeadThenRest(a: string, m: nat)
    requires a != "" && HeadLength(a) + m <= |a|
    requires CleanCut(a[HeadLength(a)..][..m], a[HeadLength(a)..][m..])
    ensures CleanCut(a[..HeadLength(a) + m], a[HeadLength(a) + m..])
    ensures Tokens(a[..HeadLength(a) + m]) == [Head(a)] + Tokens(a[HeadLength(a)..][..m])
  {
    var k := HeadLength(a);
    var front, rest := a[..k], a[k..][..m];
    assert a[..k + m] == front + rest && a[k..][m..] == a[k + m..];
    CutMoves(a, k, m);
    assert rest != "" ==> rest[0] == a[k];
    HeadThen(a, rest);
  }

  lemma CutMoves(a: string, k: nat, m: nat)
    requires k + m <= |a| && CleanCut(a[k..][..m], a[k..][m..])
    requires 0 < k < |a| ==> !IsDigit(a[k - 1]) || !IsDigit(a[k])
    ensures CleanCut(a[..k + m], a[k + m..])
  {
  }

  /** All of the comparator in one statement: both strings are read alike up to some point,
      and there the smaller number or byte comes first; if one string has ended, the one
      with fewer bytes does. */
  lemma FirstDifferenceDecides(a: string, b: string) returns (i: nat, j: nat)
    ensures DiffersAt(a, b, i, j)
    ensures i == |a| || j == |b| ==> (NaturallyBefore(a, b) <==> |a| < |b|)
    ensures i < |a| && j < |b| ==>
              (NaturallyBefore(a, b) <==>
               if IsDigit(a[i]) && IsDigit(b[j]) then Reading(a[i..]) < Reading(b[j..]) else a[i] < b[j])
  {
    i, j := Diverge(a, b);
    ReadAlikeIff(a[..i], b[..j]);
    assert a == a[..i] + a[i..] && b == b[..j] + b[j..];
    TokensAppend(a[..i], a[i..]);
    TokensAppend(b[..j], b[j..]);
    RestDecides(a, b, Tokens(a[..i]), a[i..], b[j..]);
  }

  // ---------------------------------------------------------------- the list of disks

  lemma PlainNumbersDecide(p: string, m: nat, n: nat)
    requires p == "" || !IsDigit(p[|p| - 1])
    requires m < n && m < 0xFFFF_FFFF_FFFF_FFFF
    ensures NaturallyBefore(p + Decimal(m), p + Decimal(n)) && !NaturallyBefore(p + Decimal(n), p + Decimal(m))
  {
    ValueDecimal(m);
    ValueDecimal(n);
    NumbersDecide(p, Decimal(m), Decimal(n), "", "");
    assert Decimal(m) + "" == Decimal(m) && Decimal(n) + "" == Decimal(n);
  }

  /** However the sort arranges the disks, of two devices named alike the one with the smaller
      number is listed first, wherever they are mounted. */
  lemma SmallerDeviceFirst(disks: seq<Disk>, i: nat, j: nat, p: string, m: nat, n: nat)
    requires Sorted(disks) && i < |disks| && j < |disks|
    requires p == "" || !IsDigit(p[|p| - 1])
    requires m < n && m < 0xFFFF_FFFF_FFFF_FFFF
    requires disks[i].device == p + Decimal(m) && disks[j].device == p + Decimal(n)
    ensures i < j
  {
    PlainNumbersDecide(p, m, n);
    assert DiskBefore(disks[i], disks[j]) && !DiskBefore(disks[j], disks[i]);
  }

  /** A device mounted twice is listed by its mounts. */
  lemma SmallerMountFirst(disks: seq<Disk>, i: nat, j: nat, p: string, m: nat, n: nat)
    requires Sorted(disks) && i < |disks| && j < |disks|
    requires p == "" || !IsDigit(p[|p| - 1])
    requires m < n && m < 0xFFFF_FFFF_FFFF_FFFF
    requires disks[i].device == disks[j].device
    requires disks[i].mount == p + Decimal(m) && disks[j].mount == p + Decimal(n)
    ensures i < j
  {
    PlainNumbersDecide(p, m, n);
    assert DiskBefore(disks[i], disks[j]) && !DiskBefore(disks[j], disks[i]);
  }
}
