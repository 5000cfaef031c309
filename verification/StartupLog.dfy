/** The startup history: one process appends at most one line per boot, another counts the
    lines per day, and both ignore duplicates in their own way. */
module StartupLog {

  datatype Record = Record(timestamp: string, event: string, theme: string, bootId: string, rebootedAt: string)

  /** A line of the file: blank and malformed lines hold no record. */
  datatype Line = Junk | Entry(record: Record)

  datatype Day = NoDay | On(date: string)

  const STARTUP := "startup"

  // ---------------------------------------------------------------- the writer

  predicate SameBoot(l: Line, bootId: string, rebootedAt: string) {
    l.Entry? && ((bootId != "" && l.record.bootId == bootId) || (rebootedAt != "" && l.record.rebootedAt == rebootedAt))
  }

  predicate Contains(lines: seq<Line>, bootId: string, rebootedAt: string) {
    exists i :: 0 <= i < |lines| && SameBoot(lines[i], bootId, rebootedAt)
  }

  method StartupHistoryContains(lines: seq<Line>, bootId: string, rebootedAt: string) returns (found: bool)
    ensures found <==> Contains(lines, bootId, rebootedAt)
  {
    for i := 0 to |lines|
      invariant !Contains(lines[..i], bootId, rebootedAt)
      invariant forall j :: 0 <= j < i ==> !SameBoot(lines[j], bootId, rebootedAt)
    {
      if lines[i].Junk? {
        continue;
      }
      if bootId != "" && lines[i].record.bootId == bootId {
        return true;
      }
      if rebootedAt != "" && lines[i].record.rebootedAt == rebootedAt {
        return true;
      }
    }
    found := false;
  }

  /** One start of the process: the clock, the kernel's boot id, the estimated boot time. */
  datatype Start = Start(now: string, theme: string, bootId: string, rebootedAt: string)

  function Recorded(s: Start): Line {
    Entry(Record(s.now, STARTUP, s.theme, s.bootId, s.rebootedAt))
  }

  function Appended(lines: seq<Line>, s: Start): seq<Line> {
    if Contains(lines, s.bootId, s.rebootedAt) then lines else lines + [Recorded(s)]
  }

  /** A start on a machine whose file system may fail. */
  datatype Attempt = Attempt(start: Start, readable: bool, writable: bool)

  function Attempted(lines: seq<Line>, a: Attempt): seq<Line> {
    if a.readable && Contains(lines, a.start.bootId, a.start.rebootedAt) then lines
    else if a.writable then lines + [Recorded(a.start)]
    else lines
  }

  class History {
    var lines: seq<Line>

    constructor ()
      ensures lines == []
    {
      lines := [];
    }

    /** A file that cannot be opened for reading counts as one without the boot; one whose
        directory or file cannot be created loses the start. */
    method RecordStartupEvent(s: Start, readable: bool, writable: bool)
      modifies this
      ensures lines == Attempted(old(lines), Attempt(s, readable, writable))
    {
      var known := false;
      if readable {
        known := StartupHistoryContains(lines, s.bootId, s.rebootedAt);
      }
      if known {
        return;
      }
      if !writable {
        return;
      }
      lines := lines + [Recorded(s)];
    }
  }

  // ---------------------------------------------------------------- the reader

  predicate Usable(l: Line) {
    l.Entry? && l.record.event == STARTUP && (l.record.timestamp != "" || l.record.rebootedAt != "")
  }

  function Reference(r: Record): string {
    if r.rebootedAt != "" then r.rebootedAt else r.timestamp
  }

  /** Two usable lines the reader takes for the same boot. */
  predicate Duplicates(l: Line, m: Line) {
    Usable(l) && Usable(m) &&
    if m.record.bootId != "" then l.record.bootId == m.record.bootId
    else m.record.rebootedAt != "" && l.record.bootId == "" && l.record.rebootedAt == m.record.rebootedAt
  }

  /** A usable line without a duplicate before it. */
  predicate FirstOfBoot(lines: seq<Line>, i: nat)
    requires i < |lines|
  {
    Usable(lines[i]) && forall j :: 0 <= j < i ==> !Duplicates(lines[j], lines[i])
  }

  /** Parsing and the choice of the year are one input: the date of a time string, if it is
      well formed and falls into the year. */
  function DayOf(lines: seq<Line>, i: nat, dayOf: string -> Day): Day
    requires i < |lines|
  {
    if FirstOfBoot(lines, i) then dayOf(Reference(lines[i].record)) else NoDay
  }

  function Count(lines: seq<Line>, dayOf: string -> Day, date: string): nat {
    if lines == [] then 0
    else
      Count(lines[..|lines| - 1], dayOf, date)
      + if DayOf(lines, |lines| - 1, dayOf) == On(date) then 1 else 0
  }

  /** All days of the year together. */
  function Total(lines: seq<Line>, dayOf: string -> Day): nat {
    if lines == [] then 0
    else Total(lines[..|lines| - 1], dayOf) + if DayOf(lines, |lines| - 1, dayOf).On? then 1 else 0
  }

  predicate HasId(l: Line, bootId: string) {
    Usable(l) && l.record.bootId == bootId
  }

  predicate HasTimeOnly(l: Line, time: string) {
    Usable(l) && l.record.bootId == "" && l.record.rebootedAt == time
  }

  ghost predicate Seen(lines: seq<Line>, bootIds: set<string>, times: set<string>) {
    && (forall b :: b in bootIds <==> b != "" && exists i :: 0 <= i < |lines| && HasId(lines[i], b))
    && (forall t :: t in times <==> t != "" && exists i :: 0 <= i < |lines| && HasTimeOnly(lines[i], t))
  }

  function NewIds(l: Line): set<string> {
    if Usable(l) && l.record.bootId != "" then {l.record.bootId} else {}
  }

  function NewTimes(l: Line): set<string> {
    if Usable(l) && l.record.bootId == "" && l.record.rebootedAt != "" then {l.record.rebootedAt} else {}
  }

  /** The seen-sets decide whether a line is the first of its boot. */
  lemma SeenDecides(lines: seq<Line>, l: Line, bootIds: set<string>, times: set<string>)
    requires Seen(lines, bootIds, times)
    ensures FirstOfBoot(lines + [l], |lines|) <==> Usable(l) && NewIds(l) !! bootIds && NewTimes(l) !! times
  {
    var all := lines + [l];
    assert all[|lines|] == l && forall j :: 0 <= j < |lines| ==> all[j] == lines[j];
    assert forall j :: 0 <= j < |lines| && Usable(l) && l.record.bootId != "" ==>
      (Duplicates(lines[j], l) <==> HasId(lines[j], l.record.bootId));
    assert forall j :: 0 <= j < |lines| && Usable(l) && l.record.bootId == "" && l.record.rebootedAt != "" ==>
      (Duplicates(lines[j], l) <==> HasTimeOnly(lines[j], l.record.rebootedAt));
  }

  lemma SeenGrows(lines: seq<Line>, l: Line, bootIds: set<string>, times: set<string>)
    requires Seen(lines, bootIds, times)
    ensures Seen(lines + [l], bootIds + NewIds(l), times + NewTimes(l))
  {
    var all := lines + [l];
    assert all[|lines|] == l && forall j :: 0 <= j < |lines| ==> all[j] == lines[j];
    forall b
      ensures (b != "" && exists i :: 0 <= i < |all| && HasId(all[i], b)) <==> b in bootIds + NewIds(l)
    {
      if b in bootIds {
        var i :| 0 <= i < |lines| && HasId(lines[i], b);
        assert HasId(all[i], b);
      }
      assert b in NewIds(l) ==> HasId(all[|lines|], b);
    }
    forall t
      ensures (t != "" && exists i :: 0 <= i < |all| && HasTimeOnly(all[i], t)) <==> t in times + NewTimes(l)
    {
      if t in times {
        var i :| 0 <= i < |lines| && HasTimeOnly(lines[i], t);
        assert HasTimeOnly(all[i], t);
      }
      assert t in NewTimes(l) ==> HasTimeOnly(all[|lines|], t);
    }
  }

  lemma CountOne(lines: seq<Line>, l: Line, dayOf: string -> Day)
    ensures forall date :: Count(lines + [l], dayOf, date)
                           == Count(lines, dayOf, date)
                              + if DayOf(lines + [l], |lines|, dayOf) == On(date) then 1 else 0
    ensures Total(lines + [l], dayOf) == Total(lines, dayOf) + if DayOf(lines + [l], |lines|, dayOf).On? then 1 else 0
  {
    assert (lines + [l])[..|lines|] == lines;
  }

  lemma ReadOne(lines: seq<Line>, i: nat, bootIds: set<string>, times: set<string>, dayOf: string -> Day)
    requires i < |lines| && Seen(lines[..i], bootIds, times)
    ensures Seen(lines[..i + 1], bootIds + NewIds(lines[i]), times + NewTimes(lines[i]))
    ensures forall date :: Count(lines[..i + 1], dayOf, date) == Count(lines[..i], dayOf, date)
              + if Usable(lines[i]) && NewIds(lines[i]) !! bootIds && NewTimes(lines[i]) !! times
                   && dayOf(Reference(lines[i].record)) == On(date) then 1 else 0
  {
    SeenDecides(lines[..i], lines[i], bootIds, times);
    SeenGrows(lines[..i], lines[i], bootIds, times);
    CountOne(lines[..i], lines[i], dayOf);
    assert lines[..i] + [lines[i]] == lines[..i + 1];
  }

  method ParseStartupHistoryByDay(lines: seq<Line>, dayOf: string -> Day) returns (counts: map<string, nat>)
    ensures forall date :: Count(lines, dayOf, date) == if date in counts then counts[date] else 0
    ensures forall date :: date in counts ==> counts[date] > 0
  {
    counts := map[];
    var bootIds: set<string>, times: set<string> := {}, {};
    for i := 0 to |lines|
      invariant Seen(lines[..i], bootIds, times)
      invariant forall date :: Count(lines[..i], dayOf, date) == if date in counts then counts[date] else 0
      invariant forall date :: date in counts ==> counts[date] > 0
    {
      var line := lines[i];
      ReadOne(lines, i, bootIds, times, dayOf);
      if !Usable(line) {
        assert bootIds + NewIds(line) == bootIds && times + NewTimes(line) == times;
        continue;
      }
      var rec := line.record;
      if rec.bootId != "" {
        assert times + NewTimes(line) == times;
        if rec.bootId in bootIds {
          assert bootIds + NewIds(line) == bootIds;
          continue;
        }
        bootIds := bootIds + {rec.bootId};
      } else if rec.rebootedAt != "" {
        assert bootIds + NewIds(line) == bootIds;
        if rec.rebootedAt in times {
          assert times + NewTimes(line) == times;
          continue;
        }
        times := times + {rec.rebootedAt};
      }
      var day := dayOf(Reference(rec));
      if day == NoDay {
        continue;
      }
      counts := counts[day.date := (if day.date in counts then counts[day.date] else 0) + 1];
    }
    assert lines[..|lines|] == lines;
  }

  // ---------------------------------------------------------------- single lines

  /** A start is written down unless a record shares its boot id or its boot time, both of
      them known; the record holds what was known at the start. */
  lemma AttemptMeans(lines: seq<Line>, a: Attempt)
    ensures var s, r := a.start, Attempted(lines, a);
            if a.writable && (!a.readable || forall l :: l in lines && l.Entry? ==>
                 (s.bootId == "" || l.record.bootId != s.bootId)
                 && (s.rebootedAt == "" || l.record.rebootedAt != s.rebootedAt))
            then r == lines + [Entry(Record(s.now, "startup", s.theme, s.bootId, s.rebootedAt))]
            else r == lines
  {
    var s := a.start;
    if Contains(lines, s.bootId, s.rebootedAt) {
      var i :| 0 <= i < |lines| && SameBoot(lines[i], s.bootId, s.rebootedAt);
      assert lines[i] in lines;
    } else {
      forall l | l in lines
        ensures !SameBoot(l, s.bootId, s.rebootedAt)
      {
        var i :| 0 <= i < |lines| && lines[i] == l;
      }
    }
  }

  /** What one record counts for: a startup, on the day of its boot time, or of its own time
      if the boot time is unknown. */
  lemma OneRecordCounts(r: Record, dayOf: string -> Day, date: string)
    ensures Count([Entry(r)], dayOf, date) ==
              if r.event == "startup" && (r.timestamp != "" || r.rebootedAt != "")
                 && dayOf(if r.rebootedAt != "" then r.rebootedAt else r.timestamp) == On(date)
              then 1 else 0
  {
    var lines := [Entry(r)];
    assert lines[..0] == [];
    assert Count([], dayOf, date) == 0;
  }

  /** When the last of two records repeats the boot of the first: with a boot id exactly when
      the first has it too, and without one when both have no id and the same boot time. */
  lemma RepeatIff(r: Record, q: Record)
    requires Usable(Entry(r)) && Usable(Entry(q))
    ensures FirstOfBoot([Entry(r), Entry(q)], 0)
    ensures FirstOfBoot([Entry(r), Entry(q)], 1) <==>
              if q.bootId != "" then r.bootId != q.bootId
              else q.rebootedAt == "" || r.bootId != "" || r.rebootedAt != q.rebootedAt
  {
    assert [Entry(r), Entry(q)][0] == Entry(r);
  }
}
