/** When the device comparator is an order: exactly on canonical numerals. */
module NaturalOrderLaws {
  import opened Digits
  import opened NaturalOrder

  // ---------------------------------------------------------------- rendering tokens

  function RenderToken(t: Token): string {
    match t
    case Byte(c) => [c]
    case Number(n) => Decimal(n)
  }

  function Render(ts: seq<Token>): string {
    if ts == [] then "" else RenderToken(ts[0]) + Render(ts[1..])
  }

  /** The token sequences that strings have. */
  predicate Lexical(ts: seq<Token>) {
    ts == [] ||
    (match ts[0]
     case Byte(c) => !IsDigit(c) && Lexical(ts[1..])
     case Number(n) => n <= MAX_UINT64 && (ts[1..] == [] || ts[1].Byte?) && Lexical(ts[1..]))
  }

  lemma {:induction false} TokensLexical(s: string)
    ensures Lexical(Tokens(s))
    decreases |s|
  {
    if s != "" {
      var k := if IsDigit(s[0]) then DigitRun(s) else 1;
      TokensLexical(s[k..]);
      assert Tokens(s)[1..] == Tokens(s[k..]);
    }
  }

  lemma {:induction false} TokensRender(ts: seq<Token>)
    requires Lexical(ts)
    ensures Tokens(Render(ts)) == ts
  {
    if ts != [] {
      var head, rest := RenderToken(ts[0]), Render(ts[1..]);
      TokensRender(ts[1..]);
      if ts[0].Number? {
        ValueDecimal(ts[0].n);
        if ts[1..] != [] {
          assert rest[0] == ts[1].c;
        }
        DigitRunOf(head, rest);
        assert (head + rest)[..|head|] == head;
      }
      assert (head + rest)[|head|..] == rest;
    }
  }

  lemma {:induction false} RenderAppend(x: seq<Token>, y: seq<Token>)
    ensures Render(x + y) == Render(x) + Render(y)
  {
    if x == [] {
      assert x + y == y;
    } else {
      assert (x + y)[1..] == x[1..] + y;
      RenderAppend(x[1..], y);
    }
  }

  // ---------------------------------------------------------------- canonical strings

  /** Every maximal digit run is a numeral without leading zeros that fits in 64 bits. */
  predicate Canonical(s: string)
    decreases |s|
  {
    if s == "" then true
    else if IsDigit(s[0]) then
      var k := DigitRun(s);
      Plain(s[..k]) && Value(s[..k]) <= MAX_UINT64 && Canonical(s[k..])
    else Canonical(s[1..])
  }

  /** Rendering the tokens never lengthens a string, and gives it back exactly when the
      string is canonical. */
  lemma {:induction false} RenderTokens(s: string)
    ensures |Render(Tokens(s))| <= |s|
    ensures Canonical(s) <==> Render(Tokens(s)) == s
    decreases |s|
  {
    if s != "" {
      var k := if IsDigit(s[0]) then DigitRun(s) else 1;
      var run, rest := s[..k], s[k..];
      RenderTokens(rest);
      assert s == run + rest;
      var head := RenderToken(Tokens(s)[0]);
      assert Render(Tokens(s)) == head + Render(Tokens(rest)) by {
        assert Tokens(s)[1..] == Tokens(rest);
      }
      if IsDigit(s[0]) {
        RunRoundTrip(run);
      }
      assert head + Render(Tokens(rest)) == run + rest ==> |head| == |run| && |Render(Tokens(rest))| == |rest|;
      assert head + Render(Tokens(rest)) == run + rest ==> head == run && Render(Tokens(rest)) == rest by {
        if head + Render(Tokens(rest)) == run + rest {
          assert (head + Render(Tokens(rest)))[..|head|] == head;
          assert (run + rest)[..|run|] == run;
          assert (head + Render(Tokens(rest)))[|head|..] == Render(Tokens(rest));
          assert (run + rest)[|run|..] == rest;
        }
      }
    }
  }

  lemma RunRoundTrip(run: string)
    requires run != "" && AllDigits(run)
    ensures |Decimal(Saturate(Value(run)))| <= |run|
    ensures Plain(run) && Value(run) <= MAX_UINT64 <==> Decimal(Saturate(Value(run))) == run
  {
    DecimalValue(run);
    DecimalMonotone(Saturate(Value(run)), Value(run));
    DecimalPlain(Saturate(Value(run)));
    ValueDecimal(Saturate(Value(run)));
  }

  /** The canonical string with the same tokens. */
  function Canon(s: string): string {
    Render(Tokens(s))
  }

  lemma CanonSound(s: string)
    ensures Canonical(Canon(s)) && Tokens(Canon(s)) == Tokens(s) && |Canon(s)| <= |s|
    ensures Canonical(s) <==> Canon(s) == s
  {
    TokensLexical(s);
    TokensRender(Tokens(s));
    RenderTokens(s);
    RenderTokens(Canon(s));
  }

  // ---------------------------------------------------------------- the order

  /** Lexicographic order on token sequences. */
  predicate TokensLess(x: seq<Token>, y: seq<Token>) {
    if y == [] then false
    else if x == [] then true
    else if x[0] == y[0] then TokensLess(x[1..], y[1..])
    else TokenLess(x[0], y[0])
  }

  lemma {:induction false} TokensTrichotomy(x: seq<Token>, y: seq<Token>)
    requires Lexical(x) && Lexical(y)
    ensures TokensLess(x, y) || TokensLess(y, x) || x == y
    ensures !(TokensLess(x, y) && TokensLess(y, x))
    ensures !TokensLess(x, x)
  {
    if x != [] {
      if y != [] && x[0] == y[0] {
        TokensTrichotomy(x[1..], y[1..]);
        assert x == [x[0]] + x[1..] && y == [y[0]] + y[1..];
      }
      TokensTrichotomy(x[1..], x[1..]);
    }
  }

  lemma {:induction false} TokensTransitive(x: seq<Token>, y: seq<Token>, z: seq<Token>)
    requires Lexical(x) && Lexical(y) && Lexical(z)
    requires TokensLess(x, y) && TokensLess(y, z)
    ensures TokensLess(x, z)
  {
    if x != [] && x[0] == y[0] && y[0] == z[0] {
      TokensTransitive(x[1..], y[1..], z[1..]);
    }
  }

  /** The first difference is what the lexicographic order looks at; without one, the
      longer sequence comes later and renders to a longer string. */
  lemma {:induction false} DifferenceIsLexicographic(x: seq<Token>, y: seq<Token>)
    ensures FirstDifference(x, y).Decided? ==> TokensLess(x, y) == FirstDifference(x, y).less
    ensures FirstDifference(x, y).Undecided? ==>
              TokensLess(x, y) == (|x| < |y|) && (|Render(x)| < |Render(y)| <==> |x| < |y|)
  {
    if x != [] && y != [] {
      DifferenceIsLexicographic(x[1..], y[1..]);
    } else if y != [] {
      assert |RenderToken(y[0])| > 0;
    }
  }

  /** On canonical strings the comparator is the lexicographic order of the tokens. */
  lemma CanonicalAgrees(a: string, b: string)
    requires Canonical(a) && Canonical(b)
    ensures NaturallyBefore(a, b) <==> TokensLess(Tokens(a), Tokens(b))
    ensures Tokens(a) == Tokens(b) ==> a == b
  {
    CanonSound(a);
    CanonSound(b);
    DifferenceIsLexicographic(Tokens(a), Tokens(b));
  }

  ghost predicate InDomain(x: string, s: string) {
    Canonical(x) || x == s
  }

  /** The comparator is a strict total order on the canonical strings together with s. */
  ghost predicate StrictTotalWith(s: string) {
    && (forall x :: InDomain(x, s) ==> !NaturallyBefore(x, x))
    && (forall x, y | InDomain(x, s) && InDomain(y, s) ::
          NaturallyBefore(x, y) || NaturallyBefore(y, x) || x == y)
    && (forall x, y, z | InDomain(x, s) && InDomain(y, s) && InDomain(z, s) ::
          NaturallyBefore(x, y) && NaturallyBefore(y, z) ==> NaturallyBefore(x, z))
  }

  lemma CanonicalStrictTotal(s: string)
    requires Canonical(s)
    ensures StrictTotalWith(s)
  {
    forall x, y | InDomain(x, s) && InDomain(y, s)
      ensures !NaturallyBefore(x, x)
      ensures NaturallyBefore(x, y) || NaturallyBefore(y, x) || x == y
    {
      CanonicalAgrees(x, y);
      CanonicalAgrees(y, x);
      CanonicalAgrees(x, x);
      TokensLexical(x);
      TokensLexical(y);
      TokensTrichotomy(Tokens(x), Tokens(y));
    }
    forall x, y, z | InDomain(x, s) && InDomain(y, s) && InDomain(z, s) && NaturallyBefore(x, y)
        && NaturallyBefore(y, z)
      ensures NaturallyBefore(x, z)
    {
      CanonicalAgrees(x, y);
      CanonicalAgrees(y, z);
      CanonicalAgrees(x, z);
      TokensLexical(x);
      TokensLexical(y);
      TokensLexical(z);
      TokensTransitive(Tokens(x), Tokens(y), Tokens(z));
    }
  }

  /** Bytes after a lexical sequence: still lexical, and rendered one by one. */
  lemma {:induction false} LexicalAppendByte(x: seq<Token>, c: char)
    requires Lexical(x) && !IsDigit(c)
    ensures Lexical(x + [Byte(c)])
  {
    if x != [] {
      assert (x + [Byte(c)])[1..] == x[1..] + [Byte(c)];
      LexicalAppendByte(x[1..], c);
    }
  }

  lemma CanonicalAppend(s: string, c: char)
    requires Canonical(s) && !IsDigit(c)
    ensures Canonical(s + [c]) && Tokens(s + [c]) == Tokens(s) + [Byte(c)]
  {
    CanonSound(s);
    var x := Tokens(s);
    TokensLexical(s);
    LexicalAppendByte(x, c);
    RenderAppend(x, [Byte(c)]);
    assert Render([Byte(c)]) == [c] by { assert Render([]) == ""; }
    TokensRender(x + [Byte(c)]);
    CanonSound(s + [c]);
  }

  /** A canonical extension of s by letters 'a' that is longer than a given length. */
  lemma {:induction false} LongExtension(s: string, n: nat) returns (u: string, tail: seq<Token>)
    requires Canonical(s)
    ensures Canonical(u) && |u| > n && Tokens(u) == Tokens(s) + [Byte('a')] + tail
    decreases n
  {
    if |s| + 1 > n {
      CanonicalAppend(s, 'a');
      u, tail := s + ['a'], [];
    } else {
      var v, t := LongExtension(s, n - 1);
      CanonicalAppend(v, 'a');
      u, tail := v + ['a'], t + [Byte('a')];
    }
  }

  lemma {:induction false} DifferenceAfterPrefix(p: seq<Token>, x: seq<Token>, y: seq<Token>)
    ensures FirstDifference(p + x, p + y) == FirstDifference(x, y)
  {
    if p == [] {
      assert p + x == x && p + y == y;
    } else {
      assert (p + x)[1..] == p[1..] + x && (p + y)[1..] == p[1..] + y;
      DifferenceAfterPrefix(p[1..], x, y);
    }
  }

  /** Strings with a common token prefix are told apart by what follows it. */
  lemma AfterPrefix(a: string, b: string, p: seq<Token>, x: seq<Token>, y: seq<Token>)
    requires Tokens(a) == p + x && Tokens(b) == p + y
    ensures x == [] || y == [] ==> NaturallyBefore(a, b) == (|a| < |b|)
    ensures x != [] && y != [] && x[0] != y[0] ==> NaturallyBefore(a, b) == TokenLess(x[0], y[0])
  {
    DifferenceAfterPrefix(p, x, y);
  }

  /** The canonical strings are the largest domain of that kind: adding any other string
      makes two distinct strings incomparable or closes a cycle of three. */
  lemma CanonicalIsMaximal(s: string)
    requires !Canonical(s)
    ensures !StrictTotalWith(s)
  {
    CanonSound(s);
    var c, p := Canon(s), Tokens(s);
    assert InDomain(c, s) && InDomain(s, s);
    assert p == p + [];
    AfterPrefix(c, s, p, [], []);
    AfterPrefix(s, c, p, [], []);
    if |c| < |s| {
      CanonicalAppend(c, 'z');
      var t := c + ['z'];
      assert InDomain(t, s);
      AfterPrefix(t, s, p, [Byte('z')], []);
      AfterPrefix(s, t, p, [], [Byte('z')]);
      if |t| < |s| {
        var u, tail := LongExtension(c, |s|);
        assert InDomain(u, s);
        assert Tokens(u) == p + ([Byte('a')] + tail);
        AfterPrefix(s, u, p, [], [Byte('a')] + tail);
        AfterPrefix(t, u, p, [Byte('z')], [Byte('a')] + tail);
      }
    }
  }

  lemma OrderedExactlyOnCanonical(s: string)
    ensures StrictTotalWith(s) <==> Canonical(s)
  {
    if Canonical(s) {
      CanonicalStrictTotal(s);
    } else {
      CanonicalIsMaximal(s);
    }
  }

  /** The smallest cycle: leading zeros break transitivity. */
  lemma LeadingZerosCycle()
    ensures NaturallyBefore("a1z", "a001") && NaturallyBefore("a001", "a1aaa") && NaturallyBefore("a1aaa", "a1z")
  {
    var low, high := "aaa", "z";
    assert "a1" + high == "a1z" && "a1" + low == "a1aaa";
    ZeroPadded(high);
    ZeroPadded(low);
    LettersDecide(low, high);
  }

  /** Against a zero-padded numeral only the total length counts. */
  lemma ZeroPadded(rest: string)
    requires rest != "" && !IsDigit(rest[0])
    ensures NaturallyBefore("a1" + rest, "a001") <==> 2 + |rest| < 4
    ensures NaturallyBefore("a001", "a1" + rest) <==> 4 < 2 + |rest|
  {
    OneThen("a001", "001", "");
    OneThen("a1" + rest, "1", rest);
    AfterPrefix("a1" + rest, "a001", [Byte('a'), Number(1)], Tokens(rest), []);
    AfterPrefix("a001", "a1" + rest, [Byte('a'), Number(1)], [], Tokens(rest));
  }

  lemma LettersDecide(low: string, high: string)
    requires low != "" && high != "" && !IsDigit(low[0]) && !IsDigit(high[0]) && low[0] < high[0]
    ensures NaturallyBefore("a1" + low, "a1" + high)
  {
    OneThen("a1" + low, "1", low);
    OneThen("a1" + high, "1", high);
    AfterPrefix("a1" + low, "a1" + high, [Byte('a'), Number(1)], Tokens(low), Tokens(high));
  }

  lemma OneThen(s: string, ds: string, rest: string)
    requires ds == "1" || ds == "001"
    requires s == "a" + ds + rest
    requires rest == "" || !IsDigit(rest[0])
    ensures Tokens(s) == [Byte('a'), Number(1)] + Tokens(rest)
  {
    DigitRunOf(ds, rest);
    var tail := ds + rest;
    assert tail[..|ds|] == ds && tail[|ds|..] == rest;
    ValueOfOne();
    assert s[1..] == tail;
    assert Tokens(tail) == [Number(1)] + Tokens(rest);
    assert s[0] == 'a';
  }

  lemma ValueOfOne()
    ensures Value("1") == 1 && Value("001") == 1
  {
    assert "001"[..2] == "00" && "00"[..1] == "0" && "0"[..0] == "" && "1"[..0] == "";
    assert Value("") == 0 && Value("0") == 0 && Value("00") == 0;
  }

  // ---------------------------------------------------------------- sorting disks

  datatype Disk = Disk(device: string, mount: string)

  /** The comparison handed to sort.Slice by the disk collector. */
  predicate DiskBefore(x: Disk, y: Disk) {
    if x.device != y.device then NaturallyBefore(x.device, y.device) else NaturallyBefore(x.mount, y.mount)
  }

  /** What sort.Slice promises: no element sorts before an earlier one. */
  ghost predicate Sorted(ds: seq<Disk>) {
    forall i, j :: 0 <= i < j < |ds| ==> !DiskBefore(ds[j], ds[i])
  }

  ghost predicate CanonicalDisks(ds: seq<Disk>) {
    forall d :: d in ds ==> Canonical(d.device) && Canonical(d.mount)
  }

  lemma DisksTrichotomy(x: Disk, y: Disk)
    requires Canonical(x.device) && Canonical(x.mount) && Canonical(y.device) && Canonical(y.mount)
    ensures DiskBefore(x, y) || DiskBefore(y, x) || x == y
  {
    CanonicalStrictTotal("");
    assert InDomain(x.device, "") && InDomain(y.device, "") && InDomain(x.mount, "") && InDomain(y.mount, "");
  }

  /** Two sorted arrangements of the same canonical disks start alike. */
  lemma SameFirst(a: seq<Disk>, b: seq<Disk>)
    requires a != [] && b != [] && a[0] in b && b[0] in a
    requires CanonicalDisks(a)
    requires Sorted(a) && Sorted(b)
    ensures a[0] == b[0]
  {
    var i :| 0 <= i < |b| && b[i] == a[0];
    var j :| 0 <= j < |a| && a[j] == b[0];
    DisksTrichotomy(a[0], b[0]);
  }

  lemma DropSameFirst(a: seq<Disk>, b: seq<Disk>)
    requires a != [] && b != [] && a[0] == b[0]
    requires multiset(a) == multiset(b)
    ensures multiset(a[1..]) == multiset(b[1..])
  {
    assert a == [a[0]] + a[1..] && b == [b[0]] + b[1..];
    assert multiset(a[1..]) == multiset(a) - multiset{a[0]};
    assert multiset(b[1..]) == multiset(b) - multiset{b[0]};
  }

  /** The order in which the device map was iterated leaves no trace: two sorted
      arrangements of the same canonical disks are equal. */
  lemma {:induction false} SortedDisksUnique(a: seq<Disk>, b: seq<Disk>)
    requires multiset(a) == multiset(b)
    requires CanonicalDisks(a)
    requires Sorted(a) && Sorted(b)
    ensures a == b
  {
    assert |a| == |multiset(a)| == |multiset(b)| == |b|;
    if a != [] {
      assert a[0] in multiset(b) && b[0] in multiset(a);
      SameFirst(a, b);
      DropSameFirst(a, b);
      SortedDisksUnique(a[1..], b[1..]);
      assert a == [a[0]] + a[1..] && b == [b[0]] + b[1..];
    }
  }
}
