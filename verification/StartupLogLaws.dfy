/** The startup log over whole histories: what any sequence of process starts leaves in the
    file, and what the reader makes of any file. */
module StartupLogLaws {
  import opened StartupLog

  // ---------------------------------------------------------------- the writer over a run

  /** The log after a sequence of starts on a fresh file. */
  function Log(starts: seq<Start>): seq<Line> {
    if starts == [] then [] else Appended(Log(starts[..|starts| - 1]), starts[|starts| - 1])
  }

  predicate Identified(starts: seq<Start>) {
    forall s :: s in starts ==> s.bootId != "" && s.now != ""
  }

  predicate NewBoot(starts: seq<Start>, i: nat)
    requires i < |starts|
  {
    forall j :: 0 <= j < i ==> starts[j].bootId != starts[i].bootId
  }

  /** The first start of every boot, in order. */
  function Firsts(starts: seq<Start>): seq<Start> {
    if starts == [] then []
    else
      Firsts(starts[..|starts| - 1])
      + if NewBoot(starts, |starts| - 1) then [starts[|starts| - 1]] else []
  }

  function Records(starts: seq<Start>): (r: seq<Line>)
    ensures |r| == |starts|
    ensures forall i :: 0 <= i < |r| ==> r[i] == Recorded(starts[i])
  {
    if starts == [] then [] else Records(starts[..|starts| - 1]) + [Recorded(starts[|starts| - 1])]
  }

  /** Distinct starts of the list never share a known boot time. */
  predicate TimesApart(starts: seq<Start>) {
    forall i, j :: 0 <= i < j < |starts| && starts[j].rebootedAt != "" ==> starts[i].rebootedAt != starts[j].rebootedAt
  }

  predicate NoTwoAlike(lines: seq<Line>) {
    forall i, j :: 0 <= i < j < |lines| && lines[j].Entry?
      ==> !SameBoot(lines[i], lines[j].record.bootId, lines[j].record.rebootedAt)
  }

  predicate WrittenBy(l: Line, starts: seq<Start>) {
    exists i :: 0 <= i < |starts| && l == Recorded(starts[i])
  }

  /** Whatever starts happen, no two records of the log share a boot id or a boot time, and
      every record is one of the starts. */
  lemma {:induction false} OneRecordPerBoot(starts: seq<Start>)
    ensures NoTwoAlike(Log(starts))
    ensures forall l :: l in Log(starts) ==> WrittenBy(l, starts)
  {
    if starts != [] {
      var before, s := starts[..|starts| - 1], starts[|starts| - 1];
      OneRecordPerBoot(before);
      forall l | l in Log(starts)
        ensures WrittenBy(l, starts)
      {
        if l in Log(before) {
          var i :| 0 <= i < |before| && l == Recorded(before[i]);
          assert starts[i] == before[i];
        } else {
          assert l == Recorded(s);
        }
      }
    }
  }

  /** A start is on record afterwards, under its boot id or its boot time. */
  lemma {:induction false} EveryStartIsCovered(starts: seq<Start>, k: nat)
    requires k < |starts| && starts[k].bootId != ""
    ensures Contains(Log(starts), starts[k].bootId, starts[k].rebootedAt)
  {
    var before, s := starts[..|starts| - 1], starts[|starts| - 1];
    var log := Log(before);
    if k < |before| {
      EveryStartIsCovered(before, k);
      assert before[k] == starts[k];
      var i :| 0 <= i < |log| && SameBoot(log[i], starts[k].bootId, starts[k].rebootedAt);
      assert Log(starts)[i] == log[i];
    } else if !Contains(log, s.bootId, s.rebootedAt) {
      assert Log(starts)[|log|] == Recorded(s);
    }
  }

  lemma {:induction false} FirstsAreNew(starts: seq<Start>)
    ensures forall s :: s in Firsts(starts) ==> s in starts
    ensures forall i :: 0 <= i < |starts| ==>
              exists j :: 0 <= j < |Firsts(starts)| && Firsts(starts)[j].bootId == starts[i].bootId
    ensures forall i, j :: 0 <= i < j < |Firsts(starts)| ==> Firsts(starts)[i].bootId != Firsts(starts)[j].bootId
  {
    if starts != [] {
      var before, last := starts[..|starts| - 1], |starts| - 1;
      FirstsAreNew(before);
      var known, all := Firsts(before), Firsts(starts);
      assert forall j :: 0 <= j < |known| ==> all[j] == known[j];
      forall i | 0 <= i < |starts|
        ensures exists j :: 0 <= j < |all| && all[j].bootId == starts[i].bootId
      {
        if NewBoot(starts, last) && i == last {
          assert all[|known|] == starts[last];
        } else {
          var k := if i < last then i else var m :| 0 <= m < last && starts[m].bootId == starts[last].bootId; m;
          assert before[k] == starts[k];
          var j :| 0 <= j < |known| && known[j].bootId == before[k].bootId;
          assert all[j].bootId == starts[i].bootId;
        }
      }
      if NewBoot(starts, last) {
        forall i | 0 <= i < |known|
          ensures known[i].bootId != starts[last].bootId
        {
          assert known[i] in before;
        }
      } else {
        assert all == known;
      }
    }
  }

  lemma TimesApartSnoc(starts: seq<Start>, s: Start)
    requires TimesApart(starts + [s])
    ensures TimesApart(starts)
    ensures s.rebootedAt != "" ==> forall i :: 0 <= i < |starts| ==> starts[i].rebootedAt != s.rebootedAt
  {
    var all := starts + [s];
    assert all[|starts|] == s && forall i :: 0 <= i < |starts| ==> all[i] == starts[i];
  }

  lemma FirstsApart(starts: seq<Start>)
    requires starts != [] && TimesApart(Firsts(starts))
    ensures TimesApart(Firsts(starts[..|starts| - 1]))
  {
    var before := starts[..|starts| - 1];
    if NewBoot(starts, |starts| - 1) {
      TimesApartSnoc(Firsts(before), starts[|starts| - 1]);
    } else {
      assert Firsts(starts) == Firsts(before);
    }
  }

  lemma {:induction false} NewBootIsAppended(firsts: seq<Start>, s: Start)
    requires forall i :: 0 <= i < |firsts| ==> firsts[i].bootId != s.bootId
    requires s.rebootedAt != "" ==> forall i :: 0 <= i < |firsts| ==> firsts[i].rebootedAt != s.rebootedAt
    ensures Appended(Records(firsts), s) == Records(firsts + [s])
  {
    assert (firsts + [s])[..|firsts|] == firsts;
  }

  lemma {:induction false} KnownBootIsSkipped(firsts: seq<Start>, s: Start, j: nat)
    requires j < |firsts| && firsts[j].bootId == s.bootId != ""
    ensures Appended(Records(firsts), s) == Records(firsts)
  {
    assert SameBoot(Records(firsts)[j], s.bootId, s.rebootedAt);
  }

  lemma OtherBoots(starts: seq<Start>, bootId: string)
    requires forall i :: 0 <= i < |starts| ==> starts[i].bootId != bootId
    ensures forall i :: 0 <= i < |Firsts(starts)| ==> Firsts(starts)[i].bootId != bootId
  {
    FirstsAreNew(starts);
    forall i | 0 <= i < |Firsts(starts)|
      ensures Firsts(starts)[i].bootId != bootId
    {
      assert Firsts(starts)[i] in starts;
    }
  }

  lemma FirstOf(starts: seq<Start>, i: nat) returns (j: nat)
    requires i < |starts|
    ensures j < |Firsts(starts)| && Firsts(starts)[j].bootId == starts[i].bootId
  {
    FirstsAreNew(starts);
    j :| 0 <= j < |Firsts(starts)| && Firsts(starts)[j].bootId == starts[i].bootId;
  }

  lemma {:induction false} FirstsAreLogged(starts: seq<Start>)
    requires Identified(starts) && TimesApart(Firsts(starts))
    ensures Log(starts) == Records(Firsts(starts))
  {
    if starts != [] {
      var n := |starts| - 1;
      var before, s := starts[..n], starts[n];
      FirstsApart(starts);
      FirstsAreLogged(before);
      if NewBoot(starts, n) {
        TimesApartSnoc(Firsts(before), s);
        OtherBoots(before, s.bootId);
        NewBootIsAppended(Firsts(before), s);
      } else {
        var m :| 0 <= m < n && before[m].bootId == s.bootId;
        var j := FirstOf(before, m);
        assert s in starts;
        KnownBootIsSkipped(Firsts(before), s, j);
        assert Firsts(starts) == Firsts(before);
      }
    }
  }

  /** With boot ids available, the log is the list of first starts, one for each boot, exactly
      when no two of those share a known boot time. */
  lemma FirstStartOfEachBootIffTimesApart(starts: seq<Start>)
    requires Identified(starts)
    ensures Log(starts) == Records(Firsts(starts)) <==> TimesApart(Firsts(starts))
  {
    if TimesApart(Firsts(starts)) {
      FirstsAreLogged(starts);
    }
    if Log(starts) == Records(Firsts(starts)) {
      OneRecordPerBoot(starts);
      var firsts := Firsts(starts);
      forall i, j | 0 <= i < j < |firsts| && firsts[j].rebootedAt != ""
        ensures firsts[i].rebootedAt != firsts[j].rebootedAt
      {
        assert !SameBoot(Log(starts)[i], Log(starts)[j].record.bootId, Log(starts)[j].record.rebootedAt);
      }
    }
  }

  predicate IsRecordOf(l: Line, bootId: string) {
    l.Entry? && l.record.bootId == bootId
  }

  predicate OnRecord(log: seq<Line>, bootId: string) {
    exists l :: l in log && IsRecordOf(l, bootId)
  }

  /** The start has no known boot time, or one that is not on record for another boot. */
  predicate TimeIsFree(log: seq<Line>, s: Start) {
    s.rebootedAt == "" || forall l :: l in log && l.Entry? && l.record.rebootedAt == s.rebootedAt ==>
        l.record.bootId == s.bootId
  }

  predicate Chance(starts: seq<Start>, i: nat, bootId: string)
    requires i < |starts|
  {
    starts[i].bootId == bootId && TimeIsFree(Log(starts[..i]), starts[i])
  }

  predicate HasChance(starts: seq<Start>, bootId: string) {
    exists i :: 0 <= i < |starts| && Chance(starts, i, bootId)
  }

  lemma HasChanceSnoc(before: seq<Start>, s: Start, bootId: string)
    ensures HasChance(before + [s], bootId)
            <==> HasChance(before, bootId) || (s.bootId == bootId && TimeIsFree(Log(before), s))
  {
    var all := before + [s];
    assert all[|before|] == s && all[..|before|] == before;
    forall i | 0 <= i < |before|
      ensures Chance(all, i, bootId) <==> Chance(before, i, bootId)
    {
      assert all[..i] == before[..i] && all[i] == before[i];
    }
    if HasChance(before, bootId) {
      var i :| 0 <= i < |before| && Chance(before, i, bootId);
      assert Chance(all, i, bootId);
    }
    if s.bootId == bootId && TimeIsFree(Log(before), s) {
      assert Chance(all, |before|, bootId);
    }
  }

  lemma RecordSnoc(log: seq<Line>, s: Start, bootId: string)
    requires bootId != "" && s.bootId != ""
    ensures OnRecord(Appended(log, s), bootId)
            <==> OnRecord(log, bootId) || (s.bootId == bootId && TimeIsFree(log, s))
  {
    var after := Appended(log, s);
    if Contains(log, s.bootId, s.rebootedAt) {
      var i :| 0 <= i < |log| && SameBoot(log[i], s.bootId, s.rebootedAt);
      assert log[i] in log;
      if s.bootId == bootId && TimeIsFree(log, s) {
        assert IsRecordOf(log[i], bootId);
      }
    } else {
      assert after == log + [Recorded(s)];
      assert IsRecordOf(Recorded(s), s.bootId) && Recorded(s) in after;
      assert forall l :: l in after <==> l in log || l == Recorded(s);
      forall l | l in log && l.Entry? && s.rebootedAt != ""
        ensures l.record.rebootedAt != s.rebootedAt
      {
        var i :| 0 <= i < |log| && log[i] == l;
        assert !SameBoot(log[i], s.bootId, s.rebootedAt);
      }
    }
  }

  /** A boot is on record exactly when one of its starts had no boot time, or one not on
      record for another boot at that moment. */
  lemma {:induction false} OnRecordIff(starts: seq<Start>, bootId: string)
    requires Identified(starts) && bootId != ""
    ensures OnRecord(Log(starts), bootId) <==> HasChance(starts, bootId)
  {
    if starts != [] {
      var before, s := starts[..|starts| - 1], starts[|starts| - 1];
      assert starts == before + [s] && s in starts;
      OnRecordIff(before, bootId);
      HasChanceSnoc(before, s, bootId);
      RecordSnoc(Log(before), s, bootId);
    }
  }

  function BootIds(starts: seq<Start>): set<string> {
    set s | s in starts :: s.bootId
  }

  function RecordedIds(log: seq<Line>): set<string> {
    set l | l in log && l.Entry? :: l.record.bootId
  }

  lemma {:induction false} RecordsAreBoots(starts: seq<Start>)
    requires Identified(starts)
    ensures |Log(starts)| == |RecordedIds(Log(starts))| && RecordedIds(Log(starts)) <= BootIds(starts)
  {
    OneRecordPerBoot(starts);
    forall b | b in RecordedIds(Log(starts))
      ensures b in BootIds(starts)
    {
      var l :| l in Log(starts) && l.Entry? && l.record.bootId == b;
      var i :| 0 <= i < |starts| && l == Recorded(starts[i]);
      assert starts[i] in starts;
    }
    forall l | l in Log(starts)
      ensures l.Entry? && l.record.bootId != ""
    {
      var i :| 0 <= i < |starts| && l == Recorded(starts[i]);
      assert starts[i] in starts;
    }
    IdsOfDistinct(Log(starts));
  }

  lemma {:induction false} IdsOfDistinct(log: seq<Line>)
    requires NoTwoAlike(log) && forall l :: l in log ==> l.Entry? && l.record.bootId != ""
    ensures |RecordedIds(log)| == |log|
  {
    if log != [] {
      var n := |log| - 1;
      var init, last := log[..n], log[n];
      assert last in log && log == init + [last];
      IdsOfDistinct(init);
      LastIdIsNew(init, last);
      IdsSnoc(init, last);
    }
  }

  lemma LastIdIsNew(init: seq<Line>, last: Line)
    requires NoTwoAlike(init + [last]) && last.Entry? && last.record.bootId != ""
    ensures last.record.bootId !in RecordedIds(init)
  {
    var log := init + [last];
    forall l | l in init && l.Entry?
      ensures l.record.bootId != last.record.bootId
    {
      var i :| 0 <= i < |init| && init[i] == l;
      assert log[i] == l && log[|init|] == last;
      assert !SameBoot(log[i], last.record.bootId, last.record.rebootedAt);
    }
  }

  lemma IdsSnoc(init: seq<Line>, last: Line)
    requires last.Entry?
    ensures RecordedIds(init + [last]) == RecordedIds(init) + {last.record.bootId}
  {
    assert forall l :: l in init + [last] <==> l in init || l == last;
  }

  /** There is one record for each boot exactly when every boot had such a start. */
  lemma OneRecordForEachBootIff(starts: seq<Start>)
    requires Identified(starts)
    ensures |Log(starts)| == |BootIds(starts)| <==> forall b :: b in BootIds(starts) ==> HasChance(starts, b)
  {
    var log := Log(starts);
    RecordsAreBoots(starts);
    forall b | b in BootIds(starts)
      ensures b in RecordedIds(log) <==> HasChance(starts, b)
    {
      var s :| s in starts && s.bootId == b;
      OnRecordIff(starts, b);
      RecordedIff(log, b);
    }
    SubsetFull(RecordedIds(log), BootIds(starts));
  }

  lemma RecordedIff(log: seq<Line>, b: string)
    ensures b in RecordedIds(log) <==> OnRecord(log, b)
  {
    if OnRecord(log, b) {
      var l :| l in log && IsRecordOf(l, b);
      assert l.Entry? && l.record.bootId == b;
    }
    if b in RecordedIds(log) {
      var l :| l in log && l.Entry? && l.record.bootId == b;
      assert IsRecordOf(l, b);
    }
  }

  lemma SubsetFull<T>(a: set<T>, b: set<T>)
    requires a <= b
    ensures |a| == |b| <==> forall x :: x in b ==> x in a
  {
    assert b == a + (b - a);
    assert |b| == |a| + |b - a|;
    if forall x :: x in b ==> x in a {
      assert a == b;
    }
    if |a| == |b| {
      assert b - a == {};
    }
  }

  /** Two boots with one estimated boot time leave a single record: the second boot is lost. */
  lemma SharedBootTimeLosesABoot()
    ensures var a := Start("09:00", "dark", "boot-a", "08:00");
            var b := Start("10:00", "dark", "boot-b", "08:00");
            Log([a, b]) == [Recorded(a)] && |Firsts([a, b])| == 2
  {
    var a := Start("09:00", "dark", "boot-a", "08:00");
    var b := Start("10:00", "dark", "boot-b", "08:00");
    assert [a, b][..1] == [a] && [a][..0] == [];
    assert Log([]) == [] && Log([a]) == [Recorded(a)];
    assert SameBoot(Log([a])[0], b.bootId, b.rebootedAt);
    assert NewBoot([a], 0) && NewBoot([a, b], 1);
    assert Firsts([a]) == [a];
  }

  /** The log after starts of which some could not read or write the file. */
  function LogOf(attempts: seq<Attempt>): seq<Line> {
    if attempts == [] then [] else Attempted(LogOf(attempts[..|attempts| - 1]), attempts[|attempts| - 1])
  }

  function Successful(attempts: seq<Attempt>): seq<Start> {
    if attempts == [] then []
    else
      var last := attempts[|attempts| - 1];
      Successful(attempts[..|attempts| - 1]) + if last.writable then [last.start] else []
  }

  /** A start that could not write its record is as if it had not happened, so what holds of
      all runs of starts holds of those that could. */
  lemma {:induction false} FailedWritesVanish(attempts: seq<Attempt>)
    requires forall a :: a in attempts ==> a.readable
    ensures LogOf(attempts) == Log(Successful(attempts))
  {
    if attempts != [] {
      var before, last := attempts[..|attempts| - 1], attempts[|attempts| - 1];
      assert last in attempts;
      FailedWritesVanish(before);
      if last.writable {
        assert (Successful(before) + [last.start])[..|Successful(before)|] == Successful(before);
      } else {
        assert Successful(attempts) == Successful(before);
      }
    }
  }

  // ---------------------------------------------------------------- the reader over any file

  /** What the reader takes a line for: a boot id, else a boot time, else a boot of its own. */
  datatype Boot = Id(id: string) | Since(time: string) | Alone(line: nat)

  function BootOf(lines: seq<Line>, i: nat): Boot
    requires i < |lines| && Usable(lines[i])
  {
    var r := lines[i].record;
    if r.bootId != "" then Id(r.bootId) else if r.rebootedAt != "" then Since(r.rebootedAt) else Alone(i)
  }

  function Boots(lines: seq<Line>): set<Boot> {
    set i | 0 <= i < |lines| && Usable(lines[i]) :: BootOf(lines, i)
  }

  /** The boots whose first line carries a time that falls into the year. */
  function DatedBoots(lines: seq<Line>, dayOf: string -> Day): set<Boot> {
    set i | 0 <= i < |lines| && FirstOfBoot(lines, i) && dayOf(Reference(lines[i].record)).On? :: BootOf(lines, i)
  }

  /** Being the first of its boot means that no earlier line stands for the same boot. */
  lemma FirstByIdentity(lines: seq<Line>, i: nat)
    requires i < |lines| && Usable(lines[i])
    ensures FirstOfBoot(lines, i)
            <==> forall j :: 0 <= j < i && Usable(lines[j]) ==> BootOf(lines, j) != BootOf(lines, i)
  {
    assert forall j :: 0 <= j < i && Usable(lines[j]) ==>
      (Duplicates(lines[j], lines[i]) <==> BootOf(lines, j) == BootOf(lines, i));
  }

  lemma {:induction false} EarliestOf(lines: seq<Line>, i: nat) returns (k: nat)
    requires i < |lines| && Usable(lines[i])
    ensures k <= i && FirstOfBoot(lines, k) && BootOf(lines, k) == BootOf(lines, i)
    decreases i
  {
    FirstByIdentity(lines, i);
    if FirstOfBoot(lines, i) {
      k := i;
    } else {
      var j :| 0 <= j < i && Usable(lines[j]) && BootOf(lines, j) == BootOf(lines, i);
      k := EarliestOf(lines, j);
    }
  }

  /** Every boot of a file has exactly one first line. */
  lemma OneFirstLine(lines: seq<Line>, b: Boot)
    requires b in Boots(lines)
    ensures exists k :: 0 <= k < |lines| && FirstOfBoot(lines, k) && BootOf(lines, k) == b
    ensures forall i, k :: 0 <= i < k < |lines| && FirstOfBoot(lines, i) && FirstOfBoot(lines, k) ==>
              BootOf(lines, i) != BootOf(lines, k)
  {
    var i :| 0 <= i < |lines| && Usable(lines[i]) && BootOf(lines, i) == b;
    var first := EarliestOf(lines, i);
    FirstsDiffer(lines);
  }

  lemma FirstsDiffer(lines: seq<Line>)
    ensures forall i, k :: 0 <= i < k < |lines| && FirstOfBoot(lines, i) && FirstOfBoot(lines, k) ==>
              BootOf(lines, i) != BootOf(lines, k)
  {
    forall i, k | 0 <= i < k < |lines| && FirstOfBoot(lines, i) && FirstOfBoot(lines, k)
      ensures BootOf(lines, i) != BootOf(lines, k)
    {
      FirstByIdentity(lines, k);
    }
  }

  lemma FirstInPrefix(lines: seq<Line>, n: nat, i: nat)
    requires i < n <= |lines|
    ensures FirstOfBoot(lines[..n], i) <==> FirstOfBoot(lines, i)
  {
    assert forall j :: 0 <= j <= i ==> lines[..n][j] == lines[j];
  }

  lemma DatedBootsGrow(lines: seq<Line>, l: Line, dayOf: string -> Day)
    ensures var all := lines + [l];
            DatedBoots(all, dayOf)
            == DatedBoots(lines, dayOf) + if DayOf(all, |lines|, dayOf).On? then {BootOf(all, |lines|)} else {}
  {
    var all := lines + [l];
    assert all[..|lines|] == lines;
    forall i | 0 <= i < |lines|
      ensures FirstOfBoot(lines, i) <==> FirstOfBoot(all, i)
      ensures all[i] == lines[i]
    {
      FirstInPrefix(all, |lines|, i);
    }
  }

  /** The year's total of any file whatever is the number of distinct boots dated in it. */
  lemma {:induction false} TotalIsDatedBoots(lines: seq<Line>, dayOf: string -> Day)
    ensures Total(lines, dayOf) == |DatedBoots(lines, dayOf)|
  {
    if lines != [] {
      var n := |lines| - 1;
      var before := lines[..n];
      TotalIsDatedBoots(before, dayOf);
      assert before + [lines[n]] == lines;
      DatedBootsGrow(before, lines[n], dayOf);
      if DayOf(lines, n, dayOf).On? {
        NewBootOfLine(lines, dayOf);
      }
    }
  }

  lemma NewBootOfLine(lines: seq<Line>, dayOf: string -> Day)
    requires lines != [] && FirstOfBoot(lines, |lines| - 1)
    ensures BootOf(lines, |lines| - 1) !in DatedBoots(lines[..|lines| - 1], dayOf)
  {
    var n := |lines| - 1;
    var before := lines[..n];
    FirstByIdentity(lines, n);
    assert forall i :: 0 <= i < n && Usable(lines[i]) ==> BootOf(before, i) == BootOf(lines, i);
  }

  /** Appending a copy of a line changes no count, unless the line is counted and carries
      neither a boot id nor a boot time. */
  lemma CopyChangesNothingIff(lines: seq<Line>, k: nat, dayOf: string -> Day)
    requires k < |lines|
    ensures (forall date :: Count(lines + [lines[k]], dayOf, date) == Count(lines, dayOf, date))
            <==> !(Usable(lines[k]) && lines[k].record.bootId == "" && lines[k].record.rebootedAt == ""
                   && dayOf(lines[k].record.timestamp).On?)
  {
    var l := lines[k];
    var all := lines + [l];
    assert all[|lines|] == l && all[k] == l;
    CountOne(lines, l, dayOf);
    if Usable(l) && (l.record.bootId != "" || l.record.rebootedAt != "") {
      assert Duplicates(all[k], all[|lines|]);
    } else if Usable(l) && dayOf(l.record.timestamp).On? {
      var date := dayOf(l.record.timestamp).date;
      assert DayOf(all, |lines|, dayOf) == On(date);
      assert Count(all, dayOf, date) != Count(lines, dayOf, date);
    }
  }

  // ---------------------------------------------------------------- both together

  function BootTime(s: Start): string {
    if s.rebootedAt != "" then s.rebootedAt else s.now
  }

  /** The boots of a run, dated by their first start. */
  function DatedIn(starts: seq<Start>, dayOf: string -> Day): set<string> {
    set i | 0 <= i < |starts| && NewBoot(starts, i) && dayOf(BootTime(starts[i])).On? :: starts[i].bootId
  }

  function DatedStarts(starts: seq<Start>, dayOf: string -> Day): set<string> {
    set s | s in starts && dayOf(BootTime(s)).On? :: s.bootId
  }

  lemma DatedStartsGrow(starts: seq<Start>, s: Start, dayOf: string -> Day)
    ensures DatedStarts(starts + [s], dayOf)
            == DatedStarts(starts, dayOf) + if dayOf(BootTime(s)).On? then {s.bootId} else {}
  {
    assert forall t :: t in starts + [s] <==> t in starts || t == s;
  }

  lemma DatedInGrows(starts: seq<Start>, s: Start, dayOf: string -> Day)
    ensures var all := starts + [s];
            DatedIn(all, dayOf)
            == DatedIn(starts, dayOf) + if NewBoot(all, |starts|) && dayOf(BootTime(s)).On? then {s.bootId} else {}
  {
    var all := starts + [s];
    assert all[|starts|] == s;
    forall i | 0 <= i < |starts|
      ensures all[i] == starts[i] && (NewBoot(all, i) <==> NewBoot(starts, i))
    {
      assert forall j :: 0 <= j <= i ==> all[j] == starts[j];
    }
  }

  lemma {:induction false} DatedFirsts(starts: seq<Start>, dayOf: string -> Day)
    ensures DatedIn(starts, dayOf) == DatedStarts(Firsts(starts), dayOf)
  {
    if starts != [] {
      var n := |starts| - 1;
      var before := starts[..n];
      DatedFirsts(before, dayOf);
      assert before + [starts[n]] == starts;
      DatedInGrows(before, starts[n], dayOf);
      DatedStartsGrow(Firsts(before), starts[n], dayOf);
      if !NewBoot(starts, n) {
        assert Firsts(starts) == Firsts(before);
      }
    }
  }

  predicate IdsDiffer(firsts: seq<Start>) {
    forall i, j :: 0 <= i < j < |firsts| ==> firsts[i].bootId != firsts[j].bootId
  }

  lemma EveryRecordCounts(firsts: seq<Start>, n: nat)
    requires n < |firsts| && Identified(firsts) && IdsDiffer(firsts)
    ensures FirstOfBoot(Records(firsts), n)
    ensures Reference(Records(firsts)[n].record) == BootTime(firsts[n])
  {
    assert firsts[n] in firsts;
  }

  lemma {:induction false} TotalOfRecords(firsts: seq<Start>, dayOf: string -> Day)
    requires Identified(firsts) && IdsDiffer(firsts)
    ensures Total(Records(firsts), dayOf) == |DatedStarts(firsts, dayOf)|
  {
    if firsts != [] {
      var n := |firsts| - 1;
      var before, s := firsts[..n], firsts[n];
      TotalOfRecords(before, dayOf);
      CountOne(Records(before), Recorded(s), dayOf);
      EveryRecordCounts(firsts, n);
      assert firsts == before + [s];
      DatedStartsGrow(before, s, dayOf);
      assert s.bootId !in DatedStarts(before, dayOf);
    }
  }

  /** The records whose time falls into the year. */
  function DatedRecords(log: seq<Line>, dayOf: string -> Day): set<nat> {
    set i: nat | i < |log| && log[i].Entry? && dayOf(Reference(log[i].record)).On?
  }

  lemma DatedSnoc(before: seq<Line>, l: Line, dayOf: string -> Day)
    requires l.Entry?
    ensures |DatedRecords(before + [l], dayOf)|
            == |DatedRecords(before, dayOf)| + if dayOf(Reference(l.record)).On? then 1 else 0
  {
    var all, n := before + [l], |before|;
    assert all[n] == l && forall i :: 0 <= i < n ==> all[i] == before[i];
    var more: set<nat> := if dayOf(Reference(l.record)).On? then {n} else {};
    assert DatedRecords(all, dayOf) == DatedRecords(before, dayOf) + more;
  }

  lemma {:induction false} AllFirstsCount(log: seq<Line>, dayOf: string -> Day, n: nat)
    requires n <= |log| && forall i :: 0 <= i < |log| ==> FirstOfBoot(log, i)
    ensures Total(log[..n], dayOf) == |DatedRecords(log[..n], dayOf)|
  {
    if n > 0 {
      AllFirstsCount(log, dayOf, n - 1);
      FirstInPrefix(log, n, n - 1);
      assert log[..n] == log[..n - 1] + [log[n - 1]];
      CountOne(log[..n - 1], log[n - 1], dayOf);
      DatedSnoc(log[..n - 1], log[n - 1], dayOf);
    }
  }

  lemma RunRecordsCount(starts: seq<Start>, i: nat)
    requires Identified(starts) && i < |Log(starts)|
    ensures FirstOfBoot(Log(starts), i)
  {
    var log := Log(starts);
    OneRecordPerBoot(starts);
    assert log[i] in log;
    var m :| 0 <= m < |starts| && log[i] == Recorded(starts[m]);
    assert starts[m] in starts;
    forall j | 0 <= j < i
      ensures !Duplicates(log[j], log[i])
    {
      assert !SameBoot(log[j], log[i].record.bootId, log[i].record.rebootedAt);
    }
  }

  /** Over any run of starts with boot ids the reader drops no record: the year's total is the
      number of records dated in the year, one for each boot that is on record. */
  lemma YearTotalIsRecords(starts: seq<Start>, dayOf: string -> Day)
    requires Identified(starts)
    ensures Total(Log(starts), dayOf) == |DatedRecords(Log(starts), dayOf)|
  {
    forall i | 0 <= i < |Log(starts)|
      ensures FirstOfBoot(Log(starts), i)
    {
      RunRecordsCount(starts, i);
    }
    AllFirstsCount(Log(starts), dayOf, |Log(starts)|);
    assert Log(starts)[..|Log(starts)|] == Log(starts);
  }

  /** Writer and reader together: over any sequence of starts with boot ids, whose first
      starts do not share a boot time, the year's total is the number of distinct boots whose
      boot time falls into the year, however often each of them started the process. */
  lemma YearTotalIsBoots(starts: seq<Start>, dayOf: string -> Day)
    requires Identified(starts) && TimesApart(Firsts(starts))
    ensures Total(Log(starts), dayOf) == |DatedIn(starts, dayOf)|
  {
    FirstsAreLogged(starts);
    FirstsAreNew(starts);
    DatedFirsts(starts, dayOf);
    TotalOfRecords(Firsts(starts), dayOf);
  }
}
