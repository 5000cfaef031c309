/** The device comparator: digit runs compare as numbers, everything else byte by byte. */
module NaturalOrder {
  import opened Digits

  const MAX_UINT64: nat := 0xFFFF_FFFF_FFFF_FFFF

  function Saturate(n: nat): nat {
    if n > MAX_UINT64 then MAX_UINT64 else n
  }

  // ---------------------------------------------------------------- tokens

  datatype Token = Byte(c: char) | Number(n: nat)

  /** What the comparator sees: maximal digit runs as saturated numbers, other bytes as is. */
  function Tokens(s: string): seq<Token> {
    if s == "" then []
    else if IsDigit(s[0]) then
      var k := DigitRun(s);
      [Number(Saturate(Value(s[..k])))] + Tokens(s[k..])
    else [Byte(s[0])] + Tokens(s[1..])
  }

  predicate TokenLess(x: Token, y: Token) {
    match (x, y)
    case (Byte(c), Byte(d)) => c < d
    case (Number(m), Number(n)) => m < n
    case (Byte(c), Number(_)) => c < '0'
    case (Number(_), Byte(d)) => '9' < d
  }

  datatype Verdict = Undecided | Decided(less: bool)

  /** The first differing token decides. */
  function FirstDifference(x: seq<Token>, y: seq<Token>): Verdict {
    if x == [] || y == [] then Undecided
    else if x[0] == y[0] then FirstDifference(x[1..], y[1..])
    else Decided(TokenLess(x[0], y[0]))
  }

  /** The verdict on two remainders, given which of the whole strings is shorter. */
  predicate RestBefore(x: string, y: string, shorter: bool) {
    match FirstDifference(Tokens(x), Tokens(y))
    case Undecided => shorter
    case Decided(less) => less
  }

  /** The relation the comparator decides on every pair of strings: the first differing
      token, or the byte lengths when one token sequence runs out first. */
  predicate NaturallyBefore(a: string, b: string) {
    RestBefore(a, b, |a| < |b|)
  }

  // ---------------------------------------------------------------- the comparator

  /** strconv.ParseUint saturates on overflow, and the comparator drops its error. */
  method ReadUintChunk(s: string, start: nat) returns (n: nat, end: nat)
    requires start <= |s|
    ensures end == start + DigitRun(s[start..])
    ensures n == Saturate(Value(s[start..][..DigitRun(s[start..])]))
  {
    var i := start;
    while i < |s| && IsDigit(s[i])
      invariant start <= i <= |s|
      invariant start + DigitRun(s[start..]) == i + DigitRun(s[i..])
    {
      assert s[i..][1..] == s[i + 1..];
      i := i + 1;
    }
    end := i;
    assert DigitRun(s[i..]) == 0;
    assert s[start..][..end - start] == s[start..end];
    n := Saturate(Value(s[start..i]));
  }

  /** The token at the front of a non-empty string, and where the next one starts. */
  function Head(s: string): Token
    requires s != ""
  {
    if IsDigit(s[0]) then Number(Saturate(Value(s[..DigitRun(s)]))) else Byte(s[0])
  }

  function HeadLength(s: string): (k: nat)
    requires s != ""
    ensures 0 < k <= |s|
  {
    if IsDigit(s[0]) then DigitRun(s) else 1
  }

  lemma EqualHeads(x: string, y: string, shorter: bool)
    requires x != "" && y != "" && Head(x) == Head(y)
    ensures RestBefore(x, y, shorter) == RestBefore(x[HeadLength(x)..], y[HeadLength(y)..], shorter)
  {
  }

  lemma DifferentHeads(x: string, y: string, shorter: bool)
    requires x != "" && y != "" && Head(x) != Head(y)
    ensures RestBefore(x, y, shorter) == TokenLess(Head(x), Head(y))
  {
  }

  method NaturalLess(a: string, b: string) returns (less: bool)
    ensures less == NaturallyBefore(a, b)
  {
    var ia, ib := 0, 0;
    assert a[0..] == a && b[0..] == b;
    while ia < |a| && ib < |b|
      invariant 0 <= ia <= |a| && 0 <= ib <= |b|
      invariant NaturallyBefore(a, b) == RestBefore(a[ia..], b[ib..], |a| < |b|)
      decreases |a| - ia
    {
      var ca, cb := a[ia], b[ib];
      ghost var x, y := a[ia..], b[ib..];
      if IsDigit(ca) && IsDigit(cb) {
        var na, enda := ReadUintChunk(a, ia);
        var nb, endb := ReadUintChunk(b, ib);
        if na != nb {
          DifferentHeads(x, y, |a| < |b|);
          return na < nb;
        }
        EqualHeads(x, y, |a| < |b|);
        assert a[enda..] == x[HeadLength(x)..] && b[endb..] == y[HeadLength(y)..];
        ia, ib := enda, endb;
        continue;
      }
      if ca != cb {
        DifferentHeads(x, y, |a| < |b|);
        return ca < cb;
      }
      EqualHeads(x, y, |a| < |b|);
      assert a[ia + 1..] == x[HeadLength(x)..] && b[ib + 1..] == y[HeadLength(y)..];
      ia, ib := ia + 1, ib + 1;
    }
    return |a| < |b|;
  }
}
