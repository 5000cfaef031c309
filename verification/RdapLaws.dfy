/** Every interleaving of lookups and background fetches. */
module RdapLaws {
  import opened Rdap
  import opened Sets

  datatype Event =
    | Lookup(ip: string, at: int, read: int)
    | Complete(ip: string, at: int, fetch: Fetch)

  datatype End = End(at: int, fetch: Fetch)

  /** The shared cache, the background fetches that run, and what happened so far. */
  datatype System = System(
    entries: map<string, Entry>,
    inFlight: set<string>,
    running: multiset<string>,
    starts: map<string, seq<int>>,
    ends: map<string, seq<End>>)

  const INITIAL := System(map[], {}, multiset{}, map[], map[])

  function At<T>(m: map<string, seq<T>>, ip: string): seq<T> {
    if ip in m then m[ip] else []
  }

  predicate Enabled(s: System, e: Event) {
    match e
    case Lookup(_, at, read) => read <= at
    case Complete(ip, _, _) => ip in s.running
  }

  function Step(isPublic: string -> bool, s: System, e: Event): System
    requires Enabled(s, e)
  {
    match e
    case Lookup(ip, at, read) =>
      if Launches(s.entries, s.inFlight, isPublic(ip), ip, read) then
        s.(inFlight := s.inFlight + {ip},
           running := s.running + multiset{ip},
           starts := s.starts[ip := At(s.starts, ip) + [at]])
      else s
    case Complete(ip, at, fetch) =>
      s.(entries := Stored(s.entries, ip, fetch, at),
         inFlight := s.inFlight - {ip},
         running := s.running - multiset{ip},
         ends := s.ends[ip := At(s.ends, ip) + [End(at, fetch)]])
  }

  ghost predicate Moves(isPublic: string -> bool, trace: seq<System>, es: seq<Event>, i: nat)
    requires i < |es| < |trace|
  {
    && Enabled(trace[i], es[i]) && trace[i + 1] == Step(isPublic, trace[i], es[i])
    && (i > 0 ==> es[i - 1].at <= es[i].at)
  }

  /** The states a run passes through, one step at a time, on a clock that never goes back. */
  ghost predicate Run(isPublic: string -> bool, trace: seq<System>, es: seq<Event>) {
    && |trace| == |es| + 1
    && trace[0] == INITIAL
    && (forall i :: 0 <= i < |es| ==> Moves(isPublic, trace, es, i))
  }

  /** What every reachable state satisfies for one address at one clock value. */
  ghost predicate Inv(s: System, ip: string, clock: int) {
    var starts, ends := At(s.starts, ip), At(s.ends, ip);
    && s.running[ip] == (if ip in s.inFlight then 1 else 0)
    && |starts| == |ends| + s.running[ip]
    && (forall i :: 0 <= i < |starts| ==> starts[i] <= clock)
    && (forall i :: 0 <= i < |ends| ==> starts[i] <= ends[i].at <= clock)
    && (forall i :: 0 <= i < |ends| && i + 1 < |starts| ==> ends[i].at + Ttl(ends[i].fetch) <= starts[i + 1])
    && (ip in s.entries <==> ends != [])
    && (ends != [] ==>
          var last := ends[|ends| - 1];
          s.entries[ip] == Entry(Result(last.fetch), last.at + Ttl(last.fetch)))
  }

  lemma LookupKeeps(isPublic: string -> bool, s: System, e: Event, ip: string, clock: int)
    requires Inv(s, ip, clock) && Enabled(s, e) && clock <= e.at
    requires e.Lookup?
    ensures Inv(Step(isPublic, s, e), ip, e.at)
  {
    var s' := Step(isPublic, s, e);
    if e.ip != ip {
      assert At(s'.starts, ip) == At(s.starts, ip) && s'.running[ip] == s.running[ip];
    }
  }

  lemma CompleteKeeps(isPublic: string -> bool, s: System, e: Event, ip: string, clock: int)
    requires Inv(s, ip, clock) && Enabled(s, e) && clock <= e.at
    requires e.Complete?
    ensures Inv(Step(isPublic, s, e), ip, e.at)
  {
    if e.ip == ip {
      OwnCompleteKeeps(isPublic, s, e, clock);
    } else {
      var s' := Step(isPublic, s, e);
      assert At(s'.ends, ip) == At(s.ends, ip) && s'.running[ip] == s.running[ip];
    }
  }

  lemma OwnCompleteKeeps(isPublic: string -> bool, s: System, e: Event, clock: int)
    requires e.Complete? && Inv(s, e.ip, clock) && Enabled(s, e) && clock <= e.at
    ensures Inv(Step(isPublic, s, e), e.ip, e.at)
  {
    var ip, s' := e.ip, Step(isPublic, s, e);
    var starts, before, ends := At(s.starts, ip), At(s.ends, ip), At(s'.ends, ip);
    assert s.running[ip] == 1 && s'.running[ip] == 0 && At(s'.starts, ip) == starts;
    assert ends == before + [End(e.at, e.fetch)] && |starts| == |ends|;
    assert forall i :: 0 <= i < |before| ==> ends[i] == before[i];
  }

  /** The invariant holds in every state of every run; `clock` is the time of the last step. */
  lemma {:induction false} Reachable(isPublic: string -> bool, trace: seq<System>, es: seq<Event>, n: nat,
      ip: string, clock: int)
    requires Run(isPublic, trace, es) && n <= |es|
    requires n > 0 ==> clock == es[n - 1].at
    ensures Inv(trace[n], ip, clock)
  {
    if n > 0 {
      var e := es[n - 1];
      var before := if n == 1 then e.at else es[n - 2].at;
      Reachable(isPublic, trace, es, n - 1, ip, before);
      assert Moves(isPublic, trace, es, n - 1);
      if e.Lookup? {
        LookupKeeps(isPublic, trace[n - 1], e, ip, before);
      } else {
        CompleteKeeps(isPublic, trace[n - 1], e, ip, before);
      }
    }
  }

  function ClockAt(es: seq<Event>, n: nat): int
    requires n <= |es|
  {
    if n == 0 then 0 else es[n - 1].at
  }

  /** Single flight: an address is marked in flight exactly while one fetch for it runs, and
      never two fetches run for it. */
  lemma SingleFlight(isPublic: string -> bool, trace: seq<System>, es: seq<Event>, n: nat, ip: string)
    requires Run(isPublic, trace, es) && n <= |es|
    ensures trace[n].running[ip] <= 1
    ensures ip in trace[n].inFlight <==> trace[n].running[ip] == 1
    ensures |At(trace[n].starts, ip)| == |At(trace[n].ends, ip)| + trace[n].running[ip]
  {
    Reachable(isPublic, trace, es, n, ip, ClockAt(es, n));
  }

  /** The next fetch of an address starts a day after the end of a successful one and an hour
      after the end of a failed one, at the earliest. */
  lemma StartsApart(isPublic: string -> bool, trace: seq<System>, es: seq<Event>, n: nat, ip: string, i: nat)
    requires Run(isPublic, trace, es) && n <= |es|
    requires i + 1 < |At(trace[n].starts, ip)|
    ensures i < |At(trace[n].ends, ip)|
    ensures var end, next := At(trace[n].ends, ip)[i], At(trace[n].starts, ip)[i + 1];
            && At(trace[n].starts, ip)[i] <= end.at
            && end.at + (if end.fetch.Fetched? then DAY else HOUR) <= next
  {
    Reachable(isPublic, trace, es, n, ip, ClockAt(es, n));
  }

  lemma {:induction false} StartsSpread(isPublic: string -> bool, trace: seq<System>, es: seq<Event>, n: nat,
      ip: string, i: nat, j: nat)
    requires Run(isPublic, trace, es) && n <= |es|
    requires i <= j < |At(trace[n].starts, ip)|
    ensures At(trace[n].starts, ip)[i] + (j - i) * HOUR <= At(trace[n].starts, ip)[j]
    decreases j
  {
    if i < j {
      StartsSpread(isPublic, trace, es, n, ip, i, j - 1);
      StartsApart(isPublic, trace, es, n, ip, j - 1);
      assert (j - i) * HOUR == (j - 1 - i) * HOUR + HOUR;
    }
  }

  ghost function StartsWithin(starts: seq<int>, from: int, span: nat): set<nat> {
    set k: nat | k < |starts| && from <= starts[k] <= from + span
  }

  /** A closed span of time holds at most 1 + span / 1h fetches of one address. */
  lemma FetchRate(isPublic: string -> bool, trace: seq<System>, es: seq<Event>, n: nat, ip: string, from: int,
      span: nat)
    requires Run(isPublic, trace, es) && n <= |es|
    ensures |StartsWithin(At(trace[n].starts, ip), from, span)| <= 1 + span / HOUR
  {
    var starts := At(trace[n].starts, ip);
    var ks := StartsWithin(starts, from, span);
    if ks != {} {
      var first := Least(ks);
      forall k | k in ks
        ensures first <= k < first + 1 + span / HOUR
      {
        StartsSpread(isPublic, trace, es, n, ip, first, k);
        assert (k - first) * HOUR <= span;
      }
      Within(ks, Range(first, first + 1 + span / HOUR));
    }
  }

  /** A non-empty answer is the result of the latest completed fetch of that very address,
      which succeeded less than 24 hours before the clock was read. */
  lemma AnswersAreFresh(isPublic: string -> bool, trace: seq<System>, es: seq<Event>, n: nat)
    requires Run(isPublic, trace, es) && n < |es| && es[n].Lookup?
    requires Answer(trace[n].entries, isPublic(es[n].ip), es[n].ip, es[n].read) != NONE
    ensures isPublic(es[n].ip)
    ensures var ends := At(trace[n].ends, es[n].ip);
            ends != [] &&
            var last := ends[|ends| - 1];
            && last.fetch == Fetched(Answer(trace[n].entries, isPublic(es[n].ip), es[n].ip, es[n].read))
            && last.at <= es[n].at
            && es[n].read < last.at + DAY
  {
    Reachable(isPublic, trace, es, n, es[n].ip, ClockAt(es, n));
    assert Moves(isPublic, trace, es, n);
  }

  /** A lookup of a public address that is not answered leaves a fetch running for it. */
  lemma UnansweredIsFetched(isPublic: string -> bool, trace: seq<System>, es: seq<Event>, n: nat)
    requires Run(isPublic, trace, es) && n < |es| && es[n].Lookup? && isPublic(es[n].ip)
    ensures Fresh(trace[n].entries, es[n].ip, es[n].read) || trace[n + 1].running[es[n].ip] == 1
  {
    SingleFlight(isPublic, trace, es, n, es[n].ip);
    SingleFlight(isPublic, trace, es, n + 1, es[n].ip);
    assert Moves(isPublic, trace, es, n);
  }

  /** No fetch has brought anything that still counts at the given time: there was none, the
      last one succeeded a day ago or earlier, or it failed an hour ago or earlier. */
  predicate Due(ends: seq<End>, now: int) {
    ends == [] ||
    var last := ends[|ends| - 1];
    match last.fetch
    case Fetched(_) => now >= last.at + DAY
    case Failed => now >= last.at + HOUR
  }

  /** What a lookup of a public address does, in terms of the fetches of the past alone: for
      a day after a success it answers what was fetched, otherwise nothing; and it launches a
      fetch exactly when one is due and none is running. */
  lemma LookupMeans(isPublic: string -> bool, trace: seq<System>, es: seq<Event>, n: nat)
    requires Run(isPublic, trace, es) && n < |es| && es[n].Lookup? && isPublic(es[n].ip)
    ensures var ip, now, ends := es[n].ip, es[n].read, At(trace[n].ends, es[n].ip);
            && (forall m :: ends != [] && ends[|ends| - 1].fetch == Fetched(m) && now < ends[|ends| - 1].at + DAY ==>
                  Answer(trace[n].entries, true, ip, now) == m)
            && ((ends == [] || ends[|ends| - 1].fetch.Failed? || now >= ends[|ends| - 1].at + DAY) ==>
                  Answer(trace[n].entries, true, ip, now) == NONE)
            && (if Due(ends, now) && trace[n].running[ip] == 0
                then At(trace[n + 1].starts, ip) == At(trace[n].starts, ip) + [es[n].at]
                else trace[n + 1] == trace[n])
  {
    Reachable(isPublic, trace, es, n, es[n].ip, ClockAt(es, n));
    assert Moves(isPublic, trace, es, n);
  }

  /** A lookup of any other address answers nothing and changes nothing. */
  lemma PrivateIsIgnored(isPublic: string -> bool, trace: seq<System>, es: seq<Event>, n: nat)
    requires Run(isPublic, trace, es) && n < |es| && es[n].Lookup? && !isPublic(es[n].ip)
    ensures Answer(trace[n].entries, isPublic(es[n].ip), es[n].ip, es[n].read) == NONE
    ensures trace[n + 1] == trace[n]
  {
    assert Moves(isPublic, trace, es, n);
  }
}
