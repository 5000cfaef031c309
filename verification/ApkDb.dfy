/** The installed-package database: sections of "K:value" lines separated by blank lines. */
module ApkDb {
  import opened Common
  import opened Digits
  import opened Text

  datatype Package = Package(name: string, version: string, arch: string, size: int, desc: string)

  const EMPTY := Package("", "", "", 0, "")

  // ---------------------------------------------------------------- strconv.ParseInt, error dropped

  const TWO_63: int := 0x8000_0000_0000_0000
  const TWO_64: int := 0x1_0000_0000_0000_0000

  datatype Parsed = Syntax | Range | Number(n: int)

  /** strconv.ParseUint: digits are read from the left, so an overflow is reported before a
      stray character behind it. */
  function ParseUint(s: string): Parsed {
    var k := DigitRun(s);
    if s == "" then Syntax
    else if Value(s[..k]) >= TWO_64 then Range
    else if k < |s| then Syntax
    else Number(Value(s[..k]))
  }

  /** strconv.ParseInt without its error: 0 when malformed, the nearest bound when out of range. */
  function ParseInt(s: string): (n: int)
    ensures -TWO_63 <= n < TWO_63
  {
    if s == "" then 0
    else
      var negative := s[0] == '-';
      match ParseUint(if s[0] == '+' || s[0] == '-' then s[1..] else s)
      case Syntax => 0
      case Range => if negative then -TWO_63 else TWO_63 - 1
      case Number(n) =>
        if negative then (if n > TWO_63 then -TWO_63 else -n)
        else if n >= TWO_63 then TWO_63 - 1 else n
  }

  function IntText(n: int): string {
    if n < 0 then "-" + Decimal(-n) else Decimal(n)
  }

  lemma ParseUintDecimal(n: nat)
    requires n < TWO_64
    ensures ParseUint(Decimal(n)) == Number(n)
  {
    var ds := Decimal(n);
    ValueDecimal(n);
    DigitRunOf(ds, "");
    assert ds + "" == ds && ds[..|ds|] == ds;
  }

  /** A 64-bit number survives printing and parsing. */
  lemma ParseIntRoundTrip(n: int)
    requires -TWO_63 <= n < TWO_63
    ensures ParseInt(IntText(n)) == n
  {
    if n < 0 {
      ParseUintDecimal(-n);
      assert IntText(n)[1..] == Decimal(-n);
    } else {
      ParseUintDecimal(n);
      assert IntText(n)[0] in Decimal(n);
    }
  }

  // ---------------------------------------------------------------- the parser

  predicate HasKey(line: string) {
    |line| >= 2 && line[1] == ':'
  }

  predicate IsField(line: string) {
    HasKey(line) && line[0] in "PVAIT"
  }

  /** A keyed line changes one field of the record being collected; any other line none. */
  function SetField(cur: Package, line: string): Package {
    if !HasKey(line) then cur
    else
      var val := line[2..];
      match line[0]
      case 'P' => cur.(name := val)
      case 'V' => cur.(version := val)
      case 'A' => cur.(arch := val)
      case 'I' => cur.(size := ParseInt(val))
      case 'T' => cur.(desc := val)
      case _ => cur
  }

  datatype State = State(done: seq<Package>, cur: Package)

  function Flush(s: State): State {
    if s.cur.name != "" then State(s.done + [s.cur], EMPTY) else s
  }

  function Step(s: State, line: string): State {
    if line == "" then Flush(s) else s.(cur := SetField(s.cur, line))
  }

  function Run(s: State, lines: seq<string>): State
    decreases |lines|
  {
    if lines == [] then s else Run(Step(s, lines[0]), lines[1..])
  }

  function Packages(lines: seq<string>): seq<Package> {
    Flush(Run(State([], EMPTY), lines)).done
  }

  datatype Database = Unreadable | Content(text: string)

  method CollectAPKPackages(db: Database) returns (result: seq<Package>)
    ensures db.Unreadable? ==> result == []
    ensures db.Content? ==> result == Packages(Split(db.text, '\n'))
  {
    result := [];
    if db.Unreadable? {
      return;
    }
    var cur := EMPTY;
    var lines := Split(db.text, '\n');
    for i := 0 to |lines|
      invariant Run(State(result, cur), lines[i..]) == Run(State([], EMPTY), lines)
    {
      assert lines[i..][0] == lines[i] && lines[i..][1..] == lines[i + 1..];
      var line := lines[i];
      if line == "" {
        if cur.name != "" {
          result := result + [cur];
          cur := EMPTY;
        }
        continue;
      }
      if |line| < 2 || line[1] != ':' {
        continue;
      }
      var key, val := line[0], line[2..];
      match key {
        case 'P' => cur := cur.(name := val);
        case 'V' => cur := cur.(version := val);
        case 'A' => cur := cur.(arch := val);
        case 'I' => cur := cur.(size := ParseInt(val));
        case 'T' => cur := cur.(desc := val);
        case _ =>
      }
    }
    if cur.name != "" {
      result := result + [cur];
    }
  }

  // ---------------------------------------------------------------- what a section means

  predicate Solid(block: seq<string>) {
    forall line :: line in block ==> line != ""
  }

  function Take(line: string, key: char, otherwise: string): string {
    if HasKey(line) && line[0] == key then line[2..] else otherwise
  }

  /** The value of the last line with the key. */
  function LastValue(block: seq<string>, key: char, otherwise: string): string {
    if block == [] then otherwise else LastValue(block[1..], key, Take(block[0], key, otherwise))
  }

  function Meaning(block: seq<string>): Package {
    Package(LastValue(block, 'P', ""), LastValue(block, 'V', ""), LastValue(block, 'A', ""),
            ParseInt(LastValue(block, 'I', "")), LastValue(block, 'T', ""))
  }

  lemma {:induction false} RunFills(s: State, block: seq<string>, size: string)
    requires Solid(block) && ParseInt(size) == s.cur.size
    ensures Run(s, block)
            == State(s.done, Package(LastValue(block, 'P', s.cur.name), LastValue(block, 'V', s.cur.version),
                                     LastValue(block, 'A', s.cur.arch), ParseInt(LastValue(block, 'I', size)),
                                     LastValue(block, 'T', s.cur.desc)))
    decreases |block|
  {
    if block != [] {
      var line := block[0];
      assert line in block && forall l :: l in block[1..] ==> l in block;
      RunFills(Step(s, line), block[1..], Take(line, 'I', size));
    }
  }

  /** Whatever their order, repetition and the lines between them, the keyed lines of a
      section yield the last value of each key. */
  lemma SectionMeaning(done: seq<Package>, block: seq<string>)
    requires Solid(block)
    ensures Run(State(done, EMPTY), block) == State(done, Meaning(block))
  {
    RunFills(State(done, EMPTY), block, "");
  }

  // ---------------------------------------------------------------- printing

  function Keyed(key: char, val: string): string {
    [key, ':'] + val
  }

  lemma TakeKeyed(at: char, val: string, key: char, otherwise: string)
    ensures Take(Keyed(at, val), key, otherwise) == if at == key then val else otherwise
  {
    assert Keyed(at, val)[2..] == val;
  }

  function FieldLines(p: Package): seq<string> {
    [Keyed('P', p.name), Keyed('V', p.version), Keyed('A', p.arch), Keyed('I', IntText(p.size)), Keyed('T', p.desc)]
  }

  /** The lines of a section the parser recognises. */
  function Fields(block: seq<string>): seq<string> {
    if block == [] then []
    else (if IsField(block[0]) then [block[0]] else []) + Fields(block[1..])
  }

  lemma {:induction false} OnlyFieldsMatter(block: seq<string>, key: char, otherwise: string)
    requires key in "PVAIT"
    ensures LastValue(block, key, otherwise) == LastValue(Fields(block), key, otherwise)
  {
    if block != [] {
      OnlyFieldsMatter(block[1..], key, Take(block[0], key, otherwise));
      if IsField(block[0]) {
        assert Fields(block) == [block[0]] + Fields(block[1..]);
        assert Fields(block)[1..] == Fields(block[1..]);
      } else {
        assert Fields(block) == Fields(block[1..]);
      }
    }
  }

  predicate Printable(p: Package) {
    p.name != "" && -TWO_63 <= p.size < TWO_63
  }

  /** A section whose recognised lines are those of a package means that package. */
  lemma PrintedSectionMeans(block: seq<string>, p: Package)
    requires Fields(block) == FieldLines(p) && -TWO_63 <= p.size < TWO_63
    ensures Meaning(block) == p
  {
    ParseIntRoundTrip(p.size);
    assert LastValue(block, 'P', "") == p.name by { PrintedValue(block, p, 'P'); }
    assert LastValue(block, 'V', "") == p.version by { PrintedValue(block, p, 'V'); }
    assert LastValue(block, 'A', "") == p.arch by { PrintedValue(block, p, 'A'); }
    assert LastValue(block, 'I', "") == IntText(p.size) by { PrintedValue(block, p, 'I'); }
    assert LastValue(block, 'T', "") == p.desc by { PrintedValue(block, p, 'T'); }
  }

  function TextOf(p: Package, key: char): string {
    match key
    case 'P' => p.name
    case 'V' => p.version
    case 'A' => p.arch
    case 'I' => IntText(p.size)
    case _ => p.desc
  }

  lemma PrintedValue(block: seq<string>, p: Package, key: char)
    requires Fields(block) == FieldLines(p) && key in "PVAIT"
    ensures LastValue(block, key, "") == TextOf(p, key)
  {
    OnlyFieldsMatter(block, key, "");
    LastOfFive(Keyed('P', p.name), Keyed('V', p.version), Keyed('A', p.arch), Keyed('I', IntText(p.size)),
               Keyed('T', p.desc), key);
    var first := if key == 'P' then p.name else "";
    var second := if key == 'V' then p.version else first;
    var third := if key == 'A' then p.arch else second;
    var fourth := if key == 'I' then IntText(p.size) else third;
    TakeKeyed('P', p.name, key, "");
    TakeKeyed('V', p.version, key, first);
    TakeKeyed('A', p.arch, key, second);
    TakeKeyed('I', IntText(p.size), key, third);
    TakeKeyed('T', p.desc, key, fourth);
  }

  lemma LastOfFive(p: string, v: string, a: string, i: string, t: string, key: char)
    ensures LastValue([p, v, a, i, t], key, "")
            == Take(t, key, Take(i, key, Take(a, key, Take(v, key, Take(p, key, "")))))
  {
    var first := Take(p, key, "");
    var second := Take(v, key, first);
    var third := Take(a, key, second);
    assert [p, v, a, i, t][1..] == [v, a, i, t];
    assert [v, a, i, t][1..] == [a, i, t];
    assert [a, i, t][1..] == [i, t];
    assert [i, t][1..] == [t];
    assert LastValue([p, v, a, i, t], key, "") == LastValue([v, a, i, t], key, first);
    assert LastValue([v, a, i, t], key, first) == LastValue([a, i, t], key, second);
    assert LastValue([a, i, t], key, second) == LastValue([i, t], key, third);
    assert LastValue([i, t], key, third) == LastValue([t], key, Take(i, key, third));
  }

  function Blank(n: nat): (lines: seq<string>)
    ensures |lines| == n
    ensures forall line :: line in lines ==> line == ""
  {
    if n == 0 then [] else [""] + Blank(n - 1)
  }

  /** Sections one after the other, each followed by its blank lines. */
  function Layout(blocks: seq<seq<string>>, gaps: seq<nat>): seq<string>
    requires |blocks| == |gaps|
  {
    if blocks == [] then [] else blocks[0] + (Blank(gaps[0]) + Layout(blocks[1..], gaps[1..]))
  }

  /** At least one blank line behind every section but the last. */
  predicate Separated(gaps: seq<nat>) {
    forall i :: 0 <= i < |gaps| - 1 ==> gaps[i] >= 1
  }

  // ---------------------------------------------------------------- runs over a file

  lemma {:induction false} RunAppend(s: State, a: seq<string>, b: seq<string>)
    ensures Run(s, a + b) == Run(Run(s, a), b)
    decreases |a|
  {
    if a == [] {
      assert a + b == b;
    } else {
      assert (a + b)[0] == a[0] && (a + b)[1..] == a[1..] + b;
      RunAppend(Step(s, a[0]), a[1..], b);
    }
  }

  lemma {:induction false} RunBlank(s: State, n: nat)
    ensures Run(s, Blank(n)) == if n == 0 then s else Flush(s)
    decreases n
  {
    if n > 0 {
      assert Blank(n)[0] == "" && Blank(n)[1..] == Blank(n - 1);
      RunBlank(Flush(s), n - 1);
    }
  }

  // ---------------------------------------------------------------- sections without a name

  /** A section without a name is not dropped: its blank line does not close it, and its
      fields run into the next section as if the two were one. */
  lemma NamelessSectionRunsOn(done: seq<Package>, block: seq<string>, gap: nat, rest: seq<string>)
    requires Solid(block) && Meaning(block).name == ""
    ensures Run(State(done, EMPTY), block + Blank(gap) + rest) == Run(State(done, EMPTY), block + rest)
  {
    SectionMeaning(done, block);
    RunAppend(State(done, EMPTY), block + Blank(gap), rest);
    RunAppend(State(done, EMPTY), block, Blank(gap));
    RunAppend(State(done, EMPTY), block, rest);
    RunBlank(State(done, Meaning(block)), gap);
  }

  predicate Sets(block: seq<string>, key: char) {
    exists i :: 0 <= i < |block| && HasKey(block[i]) && block[i][0] == key
  }

  lemma {:induction false} LastValueSets(block: seq<string>, key: char, otherwise: string)
    ensures LastValue(block, key, otherwise) == if Sets(block, key) then LastValue(block, key, "") else otherwise
  {
    if block != [] {
      LastValueSets(block[1..], key, Take(block[0], key, otherwise));
      LastValueSets(block[1..], key, Take(block[0], key, ""));
      assert Sets(block, key) <==> (HasKey(block[0]) && block[0][0] == key) || Sets(block[1..], key) by {
        assert forall i :: 0 <= i < |block| - 1 ==> block[1..][i] == block[i + 1];
        if i :| 1 <= i < |block| && HasKey(block[i]) && block[i][0] == key {
          assert block[1..][i - 1] == block[i];
        }
      }
    }
  }

  lemma {:induction false} LastValueAppend(first: seq<string>, second: seq<string>, key: char, otherwise: string)
    ensures LastValue(first + second, key, otherwise) == LastValue(second, key, LastValue(first, key, otherwise))
  {
    if first == [] {
      assert first + second == second;
    } else {
      assert (first + second)[0] == first[0] && (first + second)[1..] == first[1..] + second;
      LastValueAppend(first[1..], second, key, Take(first[0], key, otherwise));
    }
  }

  lemma ValueOfBoth(first: seq<string>, second: seq<string>, key: char)
    ensures LastValue(first + second, key, "")
            == if Sets(second, key) then LastValue(second, key, "") else LastValue(first, key, "")
    ensures !Sets(second, key) ==> LastValue(second, key, "") == ""
  {
    LastValueAppend(first, second, key, "");
    LastValueSets(second, key, LastValue(first, key, ""));
    LastValueSets(second, key, "");
  }

  // A whole file of sections, named or not.

  predicate AllSolid(blocks: seq<seq<string>>) {
    forall b :: b in blocks ==> Solid(b)
  }

  /** The lines of the nameless sections at the end: they are still open. */
  function Open(blocks: seq<seq<string>>): seq<string> {
    if blocks == [] then []
    else
      var last := blocks[|blocks| - 1];
      if Meaning(last).name != "" then [] else Open(blocks[..|blocks| - 1]) + last
  }

  /** What the parser makes of the sections: a named one takes in the nameless ones before it. */
  function Filed(blocks: seq<seq<string>>): seq<Package> {
    if blocks == [] then []
    else
      var init, last := blocks[..|blocks| - 1], blocks[|blocks| - 1];
      Filed(init) + if Meaning(last).name != "" then [Meaning(Open(init) + last)] else []
  }

  /** What the named sections mean, each read alone. */
  function NamedMeanings(blocks: seq<seq<string>>): seq<Package> {
    if blocks == [] then []
    else
      var last := blocks[|blocks| - 1];
      NamedMeanings(blocks[..|blocks| - 1]) + if Meaning(last).name != "" then [Meaning(last)] else []
  }

  lemma {:induction false} OpenIsNameless(blocks: seq<seq<string>>)
    requires AllSolid(blocks)
    ensures Solid(Open(blocks)) && Meaning(Open(blocks)).name == ""
  {
    if blocks != [] {
      var init, last := blocks[..|blocks| - 1], blocks[|blocks| - 1];
      assert last in blocks && forall b :: b in init ==> b in blocks;
      OpenIsNameless(init);
      ValueOfBoth(Open(init), last, 'P');
    }
  }

  lemma PendingAndBlock(done: seq<Package>, pending: seq<string>, block: seq<string>)
    requires Solid(pending) && Solid(block)
    ensures Run(State(done, Meaning(pending)), block) == State(done, Meaning(pending + block))
  {
    SectionMeaning(done, pending);
    SectionMeaning(done, pending + block);
    RunAppend(State(done, EMPTY), pending, block);
  }

  lemma {:induction false} LayoutSnoc(blocks: seq<seq<string>>, gaps: seq<nat>, block: seq<string>, gap: nat)
    requires |blocks| == |gaps|
    ensures Layout(blocks + [block], gaps + [gap]) == Layout(blocks, gaps) + (block + Blank(gap))
  {
    var more, wider := blocks + [block], gaps + [gap];
    if blocks == [] {
      assert more[1..] == [] && wider[1..] == [];
      assert Blank(gap) + [] == Blank(gap);
    } else {
      assert more[1..] == blocks[1..] + [block] && wider[1..] == gaps[1..] + [gap];
      LayoutSnoc(blocks[1..], gaps[1..], block, gap);
      var rest := Layout(blocks[1..], gaps[1..]);
      Reassociate(Blank(gaps[0]), rest, block + Blank(gap));
      Reassociate(blocks[0], Blank(gaps[0]) + rest, block + Blank(gap));
    }
  }

  lemma NextSection(done: seq<Package>, pending: seq<string>, block: seq<string>, gap: nat)
    requires Solid(pending) && Solid(block)
    ensures Run(State(done, Meaning(pending)), block + Blank(gap))
            == if gap == 0 then State(done, Meaning(pending + block)) else Flush(State(done, Meaning(pending + block)))
  {
    RunAppend(State(done, Meaning(pending)), block, Blank(gap));
    PendingAndBlock(done, pending, block);
    RunBlank(State(done, Meaning(pending + block)), gap);
  }

  lemma NameOfBoth(pending: seq<string>, block: seq<string>)
    requires Meaning(pending).name == ""
    ensures Meaning(pending + block).name == Meaning(block).name
  {
    ValueOfBoth(pending, block, 'P');
  }

  /** After sections that are all closed by blank lines. */
  lemma {:induction false} ClosedSections(blocks: seq<seq<string>>, gaps: seq<nat>)
    requires |blocks| == |gaps| && AllSolid(blocks) && forall i :: 0 <= i < |gaps| ==> gaps[i] >= 1
    ensures Run(State([], EMPTY), Layout(blocks, gaps)) == State(Filed(blocks), Meaning(Open(blocks)))
  {
    if blocks != [] {
      var n := |blocks| - 1;
      var init, last := blocks[..n], blocks[n];
      assert last in blocks && forall b :: b in init ==> b in blocks;
      ClosedSections(init, gaps[..n]);
      LastOfLayout(blocks, gaps);
      OpenIsNameless(init);
      NextSection(Filed(init), Open(init), last, gaps[n]);
      NameOfBoth(Open(init), last);
    }
  }

  lemma LayoutLast(blocks: seq<seq<string>>, gaps: seq<nat>, init: seq<seq<string>>, before: seq<nat>)
    requires |blocks| == |gaps| > 0 && init == blocks[..|blocks| - 1] && before == gaps[..|blocks| - 1]
    ensures Layout(blocks, gaps) == Layout(init, before) + (blocks[|blocks| - 1] + Blank(gaps[|blocks| - 1]))
  {
    var last, gap := blocks[|blocks| - 1], gaps[|blocks| - 1];
    assert init + [last] == blocks && before + [gap] == gaps;
    LayoutSnoc(init, before, last, gap);
  }

  lemma LastOfLayout(blocks: seq<seq<string>>, gaps: seq<nat>)
    requires |blocks| == |gaps| > 0
    ensures var n := |blocks| - 1;
            Run(State([], EMPTY), Layout(blocks, gaps))
            == Run(Run(State([], EMPTY), Layout(blocks[..n], gaps[..n])), blocks[n] + Blank(gaps[n]))
  {
    var n := |blocks| - 1;
    LayoutLast(blocks, gaps, blocks[..n], gaps[..n]);
    RunAppend(State([], EMPTY), Layout(blocks[..n], gaps[..n]), blocks[n] + Blank(gaps[n]));
  }

  /** What any file of sections is parsed to. */
  lemma SectionsAreFiled(blocks: seq<seq<string>>, gaps: seq<nat>)
    requires |blocks| == |gaps| && AllSolid(blocks) && Separated(gaps)
    ensures Packages(Layout(blocks, gaps)) == Filed(blocks)
  {
    if blocks != [] {
      var n := |blocks| - 1;
      var init, last := blocks[..n], blocks[n];
      assert last in blocks && forall b :: b in init ==> b in blocks;
      ClosedSections(init, gaps[..n]);
      LastOfLayout(blocks, gaps);
      OpenIsNameless(init);
      NextSection(Filed(init), Open(init), last, gaps[n]);
      NameOfBoth(Open(init), last);
    }
  }

  /** The section sets every field that the lines before it filled. */
  predicate Overrides(pending: seq<string>, block: seq<string>) {
    && (Sets(block, 'V') || Meaning(pending).version == "")
    && (Sets(block, 'A') || Meaning(pending).arch == "")
    && (Sets(block, 'I') || Meaning(pending).size == 0)
    && (Sets(block, 'T') || Meaning(pending).desc == "")
  }

  lemma ReadAloneIff(pending: seq<string>, block: seq<string>)
    requires Meaning(pending).name == ""
    ensures Meaning(pending + block) == Meaning(block) <==> Overrides(pending, block)
  {
    ValueOfBoth(pending, block, 'P');
    ValueOfBoth(pending, block, 'V');
    ValueOfBoth(pending, block, 'A');
    ValueOfBoth(pending, block, 'I');
    ValueOfBoth(pending, block, 'T');
  }

  /** Every named section sets the fields of the nameless ones right before it. */
  predicate NothingLeaks(blocks: seq<seq<string>>) {
    forall i :: 0 <= i < |blocks| && Meaning(blocks[i]).name != "" ==> Overrides(Open(blocks[..i]), blocks[i])
  }

  lemma NothingLeaksSnoc(blocks: seq<seq<string>>)
    requires blocks != []
    ensures var n := |blocks| - 1;
            NothingLeaks(blocks)
            <==> NothingLeaks(blocks[..n])
                 && (Meaning(blocks[n]).name != "" ==> Overrides(Open(blocks[..n]), blocks[n]))
  {
    var n := |blocks| - 1;
    assert forall i :: 0 <= i < n ==> blocks[..n][..i] == blocks[..i] && blocks[..n][i] == blocks[i];
  }

  lemma SameEnd(x: seq<Package>, y: seq<Package>, a: Package, b: Package)
    ensures x + [a] == y + [b] <==> x == y && a == b
  {
    assert (x + [a])[..|x|] == x && (y + [b])[..|y|] == y;
    assert (x + [a])[|x|] == a && (y + [b])[|y|] == b;
    assert x + [a] == y + [b] ==> |x| == |y|;
  }

  lemma {:induction false} FiledAloneIff(blocks: seq<seq<string>>)
    requires AllSolid(blocks)
    ensures Filed(blocks) == NamedMeanings(blocks) <==> NothingLeaks(blocks)
  {
    if blocks != [] {
      var n := |blocks| - 1;
      var init, last := blocks[..n], blocks[n];
      assert forall b :: b in init ==> b in blocks;
      FiledAloneIff(init);
      NothingLeaksSnoc(blocks);
      if Meaning(last).name != "" {
        OpenIsNameless(init);
        ReadAloneIff(Open(init), last);
        SameEnd(Filed(init), NamedMeanings(init), Meaning(Open(init) + last), Meaning(last));
      } else {
        assert Filed(blocks) == Filed(init) && NamedMeanings(blocks) == NamedMeanings(init);
      }
    }
  }

  /** In any file of sections, the named ones are read as if each stood alone exactly when
      every one of them sets all the fields that the nameless sections before it filled. */
  lemma NamelessIsHarmlessIff(blocks: seq<seq<string>>, gaps: seq<nat>)
    requires |blocks| == |gaps| && AllSolid(blocks) && Separated(gaps)
    ensures Packages(Layout(blocks, gaps)) == NamedMeanings(blocks) <==> NothingLeaks(blocks)
  {
    SectionsAreFiled(blocks, gaps);
    FiledAloneIff(blocks);
  }

  /** A version from a nameless section ends up in the package that follows it. */
  lemma LeakedVersion()
    ensures Packages(["V:1.0", "", "P:musl"]) == [Package("musl", "1.0", "", 0, "")]
  {
    var lines := ["V:1.0", "", "P:musl"];
    assert lines[1..] == ["", "P:musl"] && lines[1..][1..] == ["P:musl"] && lines[1..][1..][1..] == [];
    assert lines[0][2..] == "1.0" && "P:musl"[2..] == "musl";
    var one := Step(State([], EMPTY), lines[0]);
    var two := Step(one, "");
    assert Run(Step(two, "P:musl"), []) == State([], Package("musl", "1.0", "", 0, ""));
  }

  // ---------------------------------------------------------------- round trip

  predicate Named(blocks: seq<seq<string>>) {
    forall b :: b in blocks ==> Solid(b) && Meaning(b).name != ""
  }

  lemma NamedLeaksNothing(blocks: seq<seq<string>>)
    requires Named(blocks)
    ensures AllSolid(blocks) && NothingLeaks(blocks)
  {
    forall i | 0 <= i < |blocks|
      ensures Open(blocks[..i]) == []
    {
      if i > 0 {
        assert blocks[..i][i - 1] in blocks;
      }
    }
  }

  /** Named sections, separated by blank lines, parse to their meanings in order. */
  lemma SectionsParse(blocks: seq<seq<string>>, gaps: seq<nat>)
    requires |blocks| == |gaps| && Separated(gaps) && Named(blocks)
    ensures Packages(Layout(blocks, gaps)) == NamedMeanings(blocks)
  {
    NamedLeaksNothing(blocks);
    NamelessIsHarmlessIff(blocks, gaps);
  }

  predicate Prints(blocks: seq<seq<string>>, packages: seq<Package>) {
    |blocks| == |packages|
    && forall i :: 0 <= i < |blocks| ==> Solid(blocks[i]) && Fields(blocks[i]) == FieldLines(packages[i])
  }

  /** Section by section, the blocks mean the packages. */
  predicate Mean(blocks: seq<seq<string>>, packages: seq<Package>) {
    |blocks| == |packages|
    && forall i :: 0 <= i < |blocks| ==> Solid(blocks[i]) && Meaning(blocks[i]) == packages[i] && packages[i].name != ""
  }

  lemma PrintedMeans(blocks: seq<seq<string>>, packages: seq<Package>)
    requires Prints(blocks, packages) && forall p :: p in packages ==> Printable(p)
    ensures Mean(blocks, packages)
  {
    forall i | 0 <= i < |blocks|
      ensures Solid(blocks[i]) && Meaning(blocks[i]) == packages[i] && packages[i].name != ""
    {
      assert packages[i] in packages;
      PrintedSectionMeans(blocks[i], packages[i]);
    }
  }

  lemma {:induction false} MeaningsOf(blocks: seq<seq<string>>, packages: seq<Package>)
    requires Mean(blocks, packages)
    ensures NamedMeanings(blocks) == packages
  {
    if blocks != [] {
      var n := |blocks| - 1;
      MeaningsOf(blocks[..n], packages[..n]);
      assert packages == packages[..n] + [packages[n]];
    }
  }

  predicate OneLined(lines: seq<string>) {
    forall line :: line in lines ==> '\n' !in line
  }

  /** Printing a list of packages and collecting it again gives the list: in every section the
      five lines of the package come in order, lines the parser ignores may stand between
      them, and the last section may or may not be closed by blank lines. */
  lemma RoundTrip(packages: seq<Package>, blocks: seq<seq<string>>, gaps: seq<nat>)
    requires |blocks| == |gaps| && Separated(gaps)
    requires Prints(blocks, packages) && forall p :: p in packages ==> Printable(p)
    requires OneLined(Layout(blocks, gaps))
    ensures Packages(Split(Join(Layout(blocks, gaps), '\n'), '\n')) == packages
  {
    PrintedMeans(blocks, packages);
    MeaningsOf(blocks, packages);
    SectionsParse(blocks, gaps);
    var lines := Layout(blocks, gaps);
    if lines == [] {
      assert Split("", '\n') == [""];
      RunBlank(State([], EMPTY), 1);
      assert Blank(1) == [""];
    } else {
      SplitJoin(lines, '\n');
    }
  }

  // ---------------------------------------------------------------- sizes and keys

  /** A size is a decimal number with an optional sign, held within 64 bits. */
  lemma ParseIntMeans(ds: string)
    requires ds != "" && AllDigits(ds)
    ensures ParseInt(ds) == ParseInt("+" + ds)
    ensures ParseInt(ds) == if Value(ds) < 9223372036854775808 then Value(ds) else 9223372036854775807
    ensures ParseInt("-" + ds) == if Value(ds) < 9223372036854775808 then 0 - Value(ds) else -9223372036854775808
  {
    ParseUintOf(ds, "");
    assert ds + "" == ds;
    assert ("+" + ds)[1..] == ds && ("-" + ds)[1..] == ds;
  }

  lemma ParseUintOf(ds: string, rest: string)
    requires AllDigits(ds) && (rest == "" || !IsDigit(rest[0])) && ds + rest != ""
    ensures ParseUint(ds + rest) ==
              if Value(ds) >= 18446744073709551616 then Range else if rest != "" then Syntax else Number(Value(ds))
  {
    DigitRunOf(ds, rest);
    assert (ds + rest)[..|ds|] == ds;
  }

  /** Anything else counts as no size, unless its digits already exceed 64 bits. */
  lemma ParseIntOther(ds: string, rest: string)
    requires AllDigits(ds) && rest != "" && !IsDigit(rest[0])
    requires ds == "" ==> rest[0] != '+' && rest[0] != '-'
    ensures ParseInt(ds + rest) == if Value(ds) < 18446744073709551616 then 0 else 9223372036854775807
    ensures ParseInt("-" + (ds + rest)) == if Value(ds) < 18446744073709551616 then 0 else -9223372036854775808
    ensures ParseInt("") == 0 && ParseInt("+") == 0 && ParseInt("-") == 0
  {
    ParseUintOf(ds, rest);
    var s := ds + rest;
    assert s[0] == if ds == "" then rest[0] else ds[0];
    assert ("-" + s)[1..] == s;
    assert "+"[1..] == "" && "-"[1..] == "";
  }

  /** The five fields in the letters of the file. */
  lemma KeysInFile(p: Package)
    ensures FieldLines(p) ==
              ["P:" + p.name, "V:" + p.version, "A:" + p.arch, "I:" + IntText(p.size), "T:" + p.desc]
  {
  }
}
