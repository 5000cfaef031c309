/** Whole runs of the limiter. */
module RateLimitLaws {
  import opened RateLimit
  import opened Sets

  datatype Event = Post(ip: string, at: int) | Sweep(at: int, read: int)

  datatype Attempt = Attempt(ip: string, at: int, passed: bool)

  datatype System = System(windows: map<string, Window>, log: seq<Attempt>)

  datatype Config = Config(max: int, window: nat)

  function Step(c: Config, s: System, e: Event): System {
    match e
    case Post(ip, at) =>
      var w := Count(s.windows, ip, at, c.window);
      System(s.windows[ip := w], s.log + [Attempt(ip, at, w.count <= c.max)])
    case Sweep(_, read) => System(Purge(s.windows, read), s.log)
  }

  function Exec(c: Config, es: seq<Event>): System {
    if es == [] then System(map[], [])
    else Step(c, Exec(c, es[..|es| - 1]), es[|es| - 1])
  }

  /** The clock never goes back; a sweep compares against a time read no later than the
      moment it holds the lock. */
  ghost predicate Run(es: seq<Event>) {
    && (forall i, j :: 0 <= i < j < |es| ==> es[i].at <= es[j].at)
    && (forall i :: 0 <= i < |es| && es[i].Sweep? ==> es[i].read <= es[i].at)
  }

  /** Request times of one address, and what became of the requests. */
  function Times(log: seq<Attempt>, ip: string): seq<int> {
    if log == [] then []
    else
      var rest := Times(log[..|log| - 1], ip);
      if log[|log| - 1].ip == ip then rest + [log[|log| - 1].at] else rest
  }

  function Passed(log: seq<Attempt>, ip: string): (ps: seq<bool>)
    ensures |ps| == |Times(log, ip)|
  {
    if log == [] then []
    else
      var rest := Passed(log[..|log| - 1], ip);
      if log[|log| - 1].ip == ip then rest + [log[|log| - 1].passed] else rest
  }

  /** The reference: which request opened the window request k falls into.  It looks at the
      request times of one address only and knows no janitor. */
  function Opener(ts: seq<int>, window: nat, k: nat): (s: nat)
    requires k < |ts|
    ensures s <= k
  {
    if k == 0 then 0
    else
      var s := Opener(ts, window, k - 1);
      if ts[k] > ts[s] + window then k else s
  }

  lemma {:induction false} OpenerExtend(ts: seq<int>, more: seq<int>, window: nat, k: nat)
    requires k < |ts|
    ensures Opener(ts + more, window, k) == Opener(ts, window, k)
  {
    if k > 0 {
      OpenerExtend(ts, more, window, k - 1);
    }
  }

  /** The window an address would own if nothing were ever purged. */
  ghost predicate Owns(ts: seq<int>, window: nat, w: Window) {
    ts != [] &&
    var s := Opener(ts, window, |ts| - 1);
    w == Window(|ts| - s, ts[s] + window)
  }

  /** A missing window is one whose reset time lies behind the clock. */
  ghost predicate Tracks(c: Config, s: System, ip: string, clock: int) {
    var ts := Times(s.log, ip);
    if ip in s.windows then Owns(ts, c.window, s.windows[ip])
    else ts == [] || ts[Opener(ts, c.window, |ts| - 1)] + c.window < clock
  }

  ghost predicate Decides(c: Config, s: System, ip: string) {
    var ts := Times(s.log, ip);
    forall k :: 0 <= k < |ts| ==> Passed(s.log, ip)[k] == (k - Opener(ts, c.window, k) < c.max)
  }

  function Clock(es: seq<Event>): int
    requires es != []
  {
    es[|es| - 1].at
  }

  lemma PostKeeps(c: Config, s: System, ip: string, at: int, other: string)
    requires Tracks(c, s, other, at) && Decides(c, s, other)
    ensures Tracks(c, Step(c, s, Post(ip, at)), other, at) && Decides(c, Step(c, s, Post(ip, at)), other)
  {
    var s' := Step(c, s, Post(ip, at));
    assert s'.log[..|s'.log| - 1] == s.log;
    if other == ip {
      var ts, ts' := Times(s.log, ip), Times(s'.log, ip);
      assert ts' == ts + [at];
      forall k | 0 <= k < |ts|
        ensures Opener(ts', c.window, k) == Opener(ts, c.window, k)
      {
        OpenerExtend(ts, [at], c.window, k);
      }
    }
  }

  lemma {:induction false} Invariant(c: Config, es: seq<Event>, ip: string)
    requires Run(es)
    ensures Decides(c, Exec(c, es), ip)
    ensures es == [] ==> Tracks(c, Exec(c, es), ip, 0)
    ensures es != [] ==> Tracks(c, Exec(c, es), ip, Clock(es))
  {
    if es != [] {
      var init, e := es[..|es| - 1], es[|es| - 1];
      Invariant(c, init, ip);
      var s := Exec(c, init);
      assert Tracks(c, s, ip, e.at) by {
        if init != [] {
          assert Clock(init) <= e.at;
        }
      }
      if e.Post? {
        PostKeeps(c, s, e.ip, e.at, ip);
      }
    }
  }

  /** The decisions of a run are a pure function of each address's own request times,
      whatever the janitor does: request k passes exactly when fewer than max requests
      precede it in its window. */
  lemma DecisionsArePure(c: Config, es: seq<Event>, ip: string, k: nat)
    requires Run(es)
    requires k < |Times(Exec(c, es).log, ip)|
    ensures Passed(Exec(c, es).log, ip)[k]
            <==> k - Opener(Times(Exec(c, es).log, ip), c.window, k) < c.max
  {
    Invariant(c, es, ip);
  }

  // ---------------------------------------------------------------- the janitor

  function WithoutSweeps(es: seq<Event>): seq<Event> {
    if es == [] then []
    else
      var rest := WithoutSweeps(es[..|es| - 1]);
      if es[|es| - 1].Post? then rest + [es[|es| - 1]] else rest
  }

  lemma {:induction false} WithoutSweepsRun(es: seq<Event>)
    requires Run(es)
    ensures Run(WithoutSweeps(es))
    ensures WithoutSweeps(es) != [] ==> es != [] && Clock(WithoutSweeps(es)) <= Clock(es)
    ensures forall i :: 0 <= i < |WithoutSweeps(es)| ==> es != [] && WithoutSweeps(es)[i].at <= Clock(es)
  {
    if es != [] {
      WithoutSweepsRun(es[..|es| - 1]);
    }
  }

  /** Same addresses at the same times, verdicts aside. */
  ghost predicate SameRequests(a: seq<Attempt>, b: seq<Attempt>) {
    |a| == |b| && forall i :: 0 <= i < |a| ==> a[i].ip == b[i].ip && a[i].at == b[i].at
  }

  lemma {:induction false} SameTimes(a: seq<Attempt>, b: seq<Attempt>, ip: string)
    requires SameRequests(a, b)
    ensures Times(a, ip) == Times(b, ip)
  {
    if a != [] {
      SameTimes(a[..|a| - 1], b[..|b| - 1], ip);
    }
  }

  lemma {:induction false} SweepsLogNothing(c: Config, es: seq<Event>)
    ensures SameRequests(Exec(c, es).log, Exec(c, WithoutSweeps(es)).log)
  {
    if es != [] {
      SweepsLogNothing(c, es[..|es| - 1]);
      var rest := WithoutSweeps(es[..|es| - 1]);
      assert (rest + [es[|es| - 1]])[..|rest|] == rest;
    }
  }

  lemma {:induction false} LogFromTimes(a: seq<Attempt>, b: seq<Attempt>)
    requires SameRequests(a, b)
    requires forall ip :: Passed(a, ip) == Passed(b, ip)
    ensures a == b
  {
    if a != [] {
      var n := |a| - 1;
      forall ip
        ensures Passed(a[..n], ip) == Passed(b[..n], ip)
      {
        SameTimes(a[..n], b[..n], ip);
        assert Passed(a, ip)[..|Passed(a[..n], ip)|] == Passed(a[..n], ip);
        assert Passed(b, ip)[..|Passed(b[..n], ip)|] == Passed(b[..n], ip);
      }
      LogFromTimes(a[..n], b[..n]);
      var ip := a[n].ip;
      assert Passed(a, ip)[|Passed(a[..n], ip)|] == a[n].passed;
      assert Passed(b, ip)[|Passed(b[..n], ip)|] == b[n].passed;
      assert a == a[..n] + [a[n]] && b == b[..n] + [b[n]];
    }
  }

  /** Janitor transparency: for every schedule of sweeps the log of requests and verdicts is
      that of a limiter that never purges. */
  lemma JanitorTransparent(c: Config, es: seq<Event>)
    requires Run(es)
    ensures Exec(c, es).log == Exec(c, WithoutSweeps(es)).log
  {
    var a, b := Exec(c, es).log, Exec(c, WithoutSweeps(es)).log;
    SweepsLogNothing(c, es);
    WithoutSweepsRun(es);
    forall ip
      ensures Passed(a, ip) == Passed(b, ip)
    {
      SameTimes(a, b, ip);
      Invariant(c, es, ip);
      Invariant(c, WithoutSweeps(es), ip);
    }
    LogFromTimes(a, b);
  }

  // ---------------------------------------------------------------- the bound

  /** The requests of one address that passed within a closed interval of length window. */
  ghost function PassedWithin(c: Config, ts: seq<int>, ps: seq<bool>, from: int): set<nat>
    requires |ps| == |ts|
  {
    set k: nat | k < |ts| && ps[k] && from <= ts[k] <= from + c.window
  }

  ghost predicate Ascending(ts: seq<int>) {
    forall i, j :: 0 <= i < j < |ts| ==> ts[i] <= ts[j]
  }

  /** Requests of different windows: the later window opens after the earlier one ended. */
  lemma {:induction false} WindowsApart(ts: seq<int>, window: nat, i: nat, j: nat)
    requires Ascending(ts)
    requires i <= j < |ts|
    ensures ts[i] <= ts[Opener(ts, window, i)] + window
    ensures Opener(ts, window, i) <= Opener(ts, window, j)
    ensures Opener(ts, window, i) != Opener(ts, window, j) ==>
              i < Opener(ts, window, j) && ts[Opener(ts, window, j)] > ts[Opener(ts, window, i)] + window
    decreases j
  {
    if i < j {
      WindowsApart(ts, window, i, j - 1);
      WindowsApart(ts, window, j - 1, j - 1);
    } else if i > 0 {
      WindowsApart(ts, window, i - 1, i - 1);
    }
  }

  ghost predicate FirstMax(c: Config, ts: seq<int>, ps: seq<bool>) {
    |ps| == |ts| && forall k :: 0 <= k < |ts| ==> ps[k] == (k - Opener(ts, c.window, k) < c.max)
  }

  /** Two windows meet an interval of length window at most, and not both in full: the
      request that opened the first one lies outside. */
  lemma PassedBound(c: Config, ts: seq<int>, ps: seq<bool>, from: int)
    requires Ascending(ts) && c.max >= 1 && FirstMax(c, ts, ps)
    ensures |PassedWithin(c, ts, ps, from)| <= 2 * c.max - 1
  {
    var ks := PassedWithin(c, ts, ps, from);
    if ks != {} {
      var first := Least(ks);
      var s1 := Opener(ts, c.window, first);
      var others := set k | k in ks && Opener(ts, c.window, k) != s1;
      assert forall k :: k in ks && Opener(ts, c.window, k) != s1 ==> k in others;
      if others == {} {
        OneWindow(c, ts, ps, from, s1);
      } else {
        var second := Least(others);
        TwoWindows(c, ts, ps, from, first, second);
      }
    }
  }

  lemma TwoWindows(c: Config, ts: seq<int>, ps: seq<bool>, from: int, first: nat, second: nat)
    requires Ascending(ts) && c.max >= 1 && FirstMax(c, ts, ps)
    requires first in PassedWithin(c, ts, ps, from) && second in PassedWithin(c, ts, ps, from) && first < second
    requires Opener(ts, c.window, first) != Opener(ts, c.window, second)
    requires forall k :: k in PassedWithin(c, ts, ps, from) ==>
               first <= k && (Opener(ts, c.window, k) != Opener(ts, c.window, first) ==> second <= k)
    ensures |PassedWithin(c, ts, ps, from)| <= 2 * c.max - 1
  {
    var ks := PassedWithin(c, ts, ps, from);
    var s1, s2 := Opener(ts, c.window, first), Opener(ts, c.window, second);
    var r1, r2 := Range(s1 + 1, s1 + c.max), Range(s2, s2 + c.max);
    forall k | k in ks
      ensures k in r1 || k in r2
    {
      OnlyTwoWindows(c, ts, from, first, second, k);
    }
    WithinTwo(ks, r1, r2);
  }

  lemma OneWindow(c: Config, ts: seq<int>, ps: seq<bool>, from: int, s: nat)
    requires c.max >= 1 && FirstMax(c, ts, ps)
    requires forall k :: k in PassedWithin(c, ts, ps, from) ==> Opener(ts, c.window, k) == s
    ensures |PassedWithin(c, ts, ps, from)| <= c.max
  {
    Within(PassedWithin(c, ts, ps, from), Range(s, s + c.max));
  }

  lemma OnlyTwoWindows(c: Config, ts: seq<int>, from: int, first: nat, second: nat, k: nat)
    requires Ascending(ts)
    requires first <= k < |ts| && first < second < |ts|
    requires from <= ts[first] && ts[second] <= from + c.window && ts[k] <= from + c.window && from <= ts[k]
    requires Opener(ts, c.window, first) != Opener(ts, c.window, second)
    requires Opener(ts, c.window, k) != Opener(ts, c.window, first) ==> second <= k
    ensures Opener(ts, c.window, k) in {Opener(ts, c.window, first), Opener(ts, c.window, second)}
    ensures Opener(ts, c.window, k) < k || Opener(ts, c.window, k) != Opener(ts, c.window, first)
  {
    WindowsApart(ts, c.window, first, second);
    WindowsApart(ts, c.window, first, k);
    if Opener(ts, c.window, k) != Opener(ts, c.window, first) {
      WindowsApart(ts, c.window, second, k);
    }
  }

  /** When an address posted. */
  function PostTimesOf(es: seq<Event>, ip: string): seq<int> {
    if es == [] then []
    else
      var last := es[|es| - 1];
      PostTimesOf(es[..|es| - 1], ip) + if last.Post? && last.ip == ip then [last.at] else []
  }

  /** Every request is decided, once and at its own time. */
  lemma {:induction false} EveryPostIsDecided(c: Config, es: seq<Event>, ip: string)
    ensures Times(Exec(c, es).log, ip) == PostTimesOf(es, ip)
  {
    if es != [] {
      var init := es[..|es| - 1];
      EveryPostIsDecided(c, init, ip);
      if es[|es| - 1].Post? {
        assert Exec(c, es).log[..|Exec(c, es).log| - 1] == Exec(c, init).log;
      }
    }
  }

  lemma {:induction false} PostTimesAscend(es: seq<Event>, ip: string)
    requires Run(es)
    ensures Ascending(PostTimesOf(es, ip))
    ensures forall t :: t in PostTimesOf(es, ip) ==> es != [] && t <= Clock(es)
  {
    if es != [] {
      var init := es[..|es| - 1];
      PostTimesAscend(init, ip);
      assert init != [] ==> Clock(init) <= Clock(es);
      var before := PostTimesOf(init, ip);
      assert forall i :: 0 <= i < |before| ==> before[i] in before;
    }
  }

  lemma TimesAscend(c: Config, es: seq<Event>, ip: string)
    requires Run(es)
    ensures Ascending(Times(Exec(c, es).log, ip))
  {
    EveryPostIsDecided(c, es, ip);
    PostTimesAscend(es, ip);
  }

  /** At most 2 * max - 1 requests of one address pass within any closed interval as long as
      the window; none when max is not positive. */
  lemma IntervalBound(c: Config, es: seq<Event>, ip: string, from: int)
    requires Run(es)
    ensures var log := Exec(c, es).log;
            |PassedWithin(c, Times(log, ip), Passed(log, ip), from)| <= if c.max >= 1 then 2 * c.max - 1 else 0
  {
    Invariant(c, es, ip);
    TimesAscend(c, es, ip);
    var log := Exec(c, es).log;
    if c.max >= 1 {
      PassedBound(c, Times(log, ip), Passed(log, ip), from);
    } else {
      assert PassedWithin(c, Times(log, ip), Passed(log, ip), from) == {};
    }
  }

  // ---------------------------------------------------------------- the bound is reached

  /** One request, max - 1 requests when its window ends, and max requests one tick later. */
  function Burst(c: Config): seq<int>
    requires c.max >= 1
  {
    seq(2 * c.max, i => if i == 0 then 0 else if i < c.max then c.window as int else c.window + 1)
  }

  function Posts(ip: string, ts: seq<int>): seq<Event> {
    seq(|ts|, i requires 0 <= i < |ts| => Post(ip, ts[i]))
  }

  lemma {:induction false} PostTimes(c: Config, ip: string, ts: seq<int>)
    ensures Times(Exec(c, Posts(ip, ts)).log, ip) == ts
  {
    if ts != [] {
      var init, last := ts[..|ts| - 1], ts[|ts| - 1];
      PostTimes(c, ip, init);
      assert Posts(ip, ts)[..|ts| - 1] == Posts(ip, init);
      PostLogged(c, Exec(c, Posts(ip, init)), ip, last);
      assert ts == init + [last];
    }
  }

  lemma PostLogged(c: Config, s: System, ip: string, at: int)
    ensures Times(Step(c, s, Post(ip, at)).log, ip) == Times(s.log, ip) + [at]
  {
    var s' := Step(c, s, Post(ip, at));
    assert s'.log[..|s'.log| - 1] == s.log;
  }

  lemma {:induction false} BurstOpener(c: Config, k: nat)
    requires c.max >= 1 && c.window >= 1 && k < 2 * c.max
    ensures Opener(Burst(c), c.window, k) == if k < c.max then 0 else c.max
  {
    if k > 0 {
      BurstOpener(c, k - 1);
    }
  }

  lemma BoundIsTight(c: Config, ip: string)
    requires c.max >= 1 && c.window >= 1
    ensures Run(Posts(ip, Burst(c)))
    ensures var log := Exec(c, Posts(ip, Burst(c))).log;
            |PassedWithin(c, Times(log, ip), Passed(log, ip), 1)| == 2 * c.max - 1
  {
    var es := Posts(ip, Burst(c));
    var log := Exec(c, es).log;
    PostTimes(c, ip, Burst(c));
    Invariant(c, es, ip);
    forall k: nat | k < 2 * c.max
      ensures Passed(log, ip)[k]
    {
      BurstOpener(c, k);
    }
    AllButFirst(c, Passed(log, ip));
  }

  /** A run within the promise of a sliding window: no interval as long as the window lets
      more than max requests of one address pass. */
  ghost predicate Slides(c: Config, es: seq<Event>, ip: string, from: int) {
    var log := Exec(c, es).log;
    |PassedWithin(c, Times(log, ip), Passed(log, ip), from)| <= if c.max >= 1 then c.max else 0
  }

  /** Fixed windows behave like a sliding one in every run exactly when at most one request
      is allowed. */
  lemma SlidesIff(c: Config)
    requires c.window >= 1
    ensures (forall es, ip, from | Run(es) :: Slides(c, es, ip, from)) <==> c.max <= 1
  {
    if c.max <= 1 {
      forall es, ip, from | Run(es)
        ensures Slides(c, es, ip, from)
      {
        IntervalBound(c, es, ip, from);
      }
    } else {
      BoundIsTight(c, "");
      assert !Slides(c, Posts("", Burst(c)), "", 1);
    }
  }

  lemma AllButFirst(c: Config, ps: seq<bool>)
    requires c.max >= 1 && c.window >= 1
    requires |ps| == |Burst(c)| == 2 * c.max && forall k :: 0 <= k < |ps| ==> ps[k]
    ensures |PassedWithin(c, Burst(c), ps, 1)| == 2 * c.max - 1
  {
    assert PassedWithin(c, Burst(c), ps, 1) == Range(1, 2 * c.max);
  }

  // ---------------------------------------------------------------- single requests

  lemma {:induction false} SameOpener(ts: seq<int>, window: nat, i: nat, k: nat)
    requires i <= k < |ts| && Ascending(ts)
    requires Opener(ts, window, i) == i && ts[k] <= ts[i] + window
    ensures Opener(ts, window, k) == i
  {
    if i < k {
      SameOpener(ts, window, i, k - 1);
    }
  }

  /** The requests among the first k + 1 that were made no longer than a window before the
      k-th. */
  ghost function Recent(ts: seq<int>, window: nat, k: nat): set<nat>
    requires k < |ts|
  {
    set j: nat | j <= k && ts[j] >= ts[k] - window
  }

  /** Who keeps to the limit is never refused: a request passes if, itself included, at most
      max of the address were made within a window before it. */
  lemma ModestPass(c: Config, es: seq<Event>, ip: string, k: nat)
    requires Run(es) && k < |Times(Exec(c, es).log, ip)|
    requires |Recent(Times(Exec(c, es).log, ip), c.window, k)| <= c.max
    ensures Passed(Exec(c, es).log, ip)[k]
  {
    var ts := Times(Exec(c, es).log, ip);
    var s := Opener(ts, c.window, k);
    TimesAscend(c, es, ip);
    WindowsApart(ts, c.window, k, k);
    assert Range(s, k + 1) <= Recent(ts, c.window, k) by {
      assert forall j :: s <= j <= k ==> ts[j] >= ts[s];
    }
    Within(Range(s, k + 1), Recent(ts, c.window, k));
    DecisionsArePure(c, es, ip, k);
  }

  /** After a pause longer than the window, and at the start, exactly the first max requests
      pass until a window has gone by. */
  lemma BurstIsCut(c: Config, es: seq<Event>, ip: string, i: nat, k: nat)
    requires Run(es) && i <= k < |Times(Exec(c, es).log, ip)|
    requires var ts := Times(Exec(c, es).log, ip);
             (i == 0 || ts[i] > ts[i - 1] + c.window) && ts[k] <= ts[i] + c.window
    ensures Passed(Exec(c, es).log, ip)[k] <==> k - i < c.max
  {
    var ts := Times(Exec(c, es).log, ip);
    TimesAscend(c, es, ip);
    if i > 0 {
      assert ts[Opener(ts, c.window, i - 1)] <= ts[i - 1];
    }
    SameOpener(ts, c.window, i, k);
    DecisionsArePure(c, es, ip, k);
  }
}
