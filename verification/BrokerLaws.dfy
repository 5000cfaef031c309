/** The broker under every interleaving of its publisher and its clients. */
module BrokerLaws {
  import opened Common
  import opened Scales
  import opened Broker

  /** Clients are numbered; a handler subscribes, reads the latest snapshot once, drains its
      channel and leaves. */
  datatype Event =
    | Subscribe(k: nat)
    | Read(k: nat)
    | Publish(s: Snapshot)
    | Receive(k: nat)
    | Unsubscribe(k: nat)

  datatype System = System(hub: Hub<nat>, unread: set<nat>)

  predicate Enabled(s: System, e: Event) {
    match e
    case Subscribe(k) => k !in s.hub.clients
    case Read(k) => k in s.hub.clients && k in s.unread
    case Publish(_) => true
    case Receive(k) => k in s.hub.clients && k !in s.unread && s.hub.clients[k] != []
    case Unsubscribe(k) => k in s.hub.clients && k !in s.unread
  }

  ghost function Step(s: System, e: Event): System
    requires s.hub.Valid() && Enabled(s, e)
  {
    var h := s.hub;
    match e
    case Subscribe(k) => System(h.(clients := h.clients[k := []]), s.unread + {k})
    case Read(k) => s.(unread := s.unread - {k})
    case Publish(snap) => s.(hub := Published(h, snap))
    case Receive(k) => s.(hub := h.(clients := h.clients[k := h.clients[k][1..]]))
    case Unsubscribe(k) => s.(hub := h.(clients := h.clients - {k}))
  }

  ghost predicate Moves(trace: seq<System>, es: seq<Event>, i: nat)
    requires i < |es| < |trace| && trace[i].hub.Valid()
  {
    Enabled(trace[i], es[i]) && trace[i + 1] == Step(trace[i], es[i])
  }

  ghost predicate Run(trace: seq<System>, es: seq<Event>) {
    && |trace| == |es| + 1
    && trace[0].hub.Valid() && trace[0].hub.head == 0 && trace[0].hub.count == 0
    && trace[0].hub.clients == map[] && trace[0].unread == {}
    && (forall i :: 0 <= i < |es| ==> trace[i].hub.Valid())
    && (forall i :: 0 <= i < |es| ==> Moves(trace, es, i))
  }

  /** What was published by the events from..n. */
  function Publications(es: seq<Event>, from: nat, n: nat): seq<Snapshot>
    requires n <= |es|
  {
    if n <= from then []
    else Publications(es, from, n - 1) + if es[n - 1].Publish? then [es[n - 1].s] else []
  }

  ghost predicate Connected(trace: seq<System>, k: nat, from: nat, n: nat) {
    from <= n < |trace| && forall j :: from <= j <= n ==> k in trace[j].hub.clients
  }

  /** The publications of the events from..n, minus those made while four were pending for k. */
  ghost function Kept(trace: seq<System>, es: seq<Event>, k: nat, from: nat, n: nat): seq<Snapshot>
    requires Connected(trace, k, from, n) && n <= |es|
    decreases n
  {
    if n == from then []
    else
      Kept(trace, es, k, from, n - 1)
      + if es[n - 1].Publish? && |trace[n - 1].hub.clients[k]| < CAPACITY then [es[n - 1].s] else []
  }

  /** What client k took from its channel during the events from..n. */
  ghost function Received(trace: seq<System>, es: seq<Event>, k: nat, from: nat, n: nat): seq<Snapshot>
    requires Connected(trace, k, from, n) && n <= |es|
    decreases n
  {
    if n == from then []
    else
      Received(trace, es, k, from, n - 1)
      + if es[n - 1] == Receive(k) && trace[n - 1].hub.clients[k] != [] then [trace[n - 1].hub.clients[k][0]] else []
  }

  /** Delivery: in every interleaving, what a client received followed by what is pending for
      it is exactly what was published since its subscription, in order and without
      repetition, minus what was published while its channel was full. */
  lemma {:induction false} Delivery(trace: seq<System>, es: seq<Event>, k: nat, i: nat, n: nat)
    requires Run(trace, es) && i < n <= |es|
    requires es[i] == Subscribe(k) && Connected(trace, k, i + 1, n)
    ensures Received(trace, es, k, i + 1, n) + trace[n].hub.clients[k] == Kept(trace, es, k, i + 1, n)
    ensures |trace[n].hub.clients[k]| <= CAPACITY
    decreases n
  {
    assert Moves(trace, es, n - 1);
    if n > i + 1 {
      Delivery(trace, es, k, i, n - 1);
      DeliverOne(trace[n - 1], es[n - 1], k);
      var pending := trace[n - 1].hub.clients[k];
      if es[n - 1] == Receive(k) {
        MoveOne(Received(trace, es, k, i + 1, n - 1), pending);
      } else if es[n - 1].Publish? && |pending| < CAPACITY {
        AddOne(Received(trace, es, k, i + 1, n - 1), pending, es[n - 1].s);
      } else {
        assert trace[n].hub.clients[k] == pending;
      }
    }
  }

  lemma MoveOne(received: seq<Snapshot>, pending: seq<Snapshot>)
    requires pending != []
    ensures (received + [pending[0]]) + pending[1..] == received + pending
  {
  }

  lemma AddOne(received: seq<Snapshot>, pending: seq<Snapshot>, s: Snapshot)
    ensures received + (pending + [s]) == (received + pending) + [s]
  {
  }

  /** One step changes the pending snapshots of a client by its own receive or by a
      publication, and by nothing else. */
  lemma DeliverOne(s: System, e: Event, k: nat)
    requires s.hub.Valid() && Enabled(s, e)
    requires k in s.hub.clients && k in Step(s, e).hub.clients
    ensures Step(s, e).hub.clients[k]
            == if e == Receive(k) then s.hub.clients[k][1..]
               else if e.Publish? then Offer(s.hub.clients[k], e.s)
               else s.hub.clients[k]
  {
  }

  /** No publication finds the channel of k full. */
  ghost predicate NeverFull(trace: seq<System>, es: seq<Event>, k: nat, from: nat, n: nat)
    requires Connected(trace, k, from, n) && n <= |es|
  {
    forall j :: from <= j < n && es[j].Publish? ==> |trace[j].hub.clients[k]| < CAPACITY
  }

  lemma {:induction false} KeptAll(trace: seq<System>, es: seq<Event>, k: nat, from: nat, n: nat)
    requires Connected(trace, k, from, n) && n <= |es|
    ensures NeverFull(trace, es, k, from, n) <==> Kept(trace, es, k, from, n) == Publications(es, from, n)
    ensures |Kept(trace, es, k, from, n)| <= |Publications(es, from, n)|
    decreases n
  {
    if n > from {
      KeptAll(trace, es, k, from, n - 1);
      var full := |trace[n - 1].hub.clients[k]| >= CAPACITY;
      assert NeverFull(trace, es, k, from, n) <==>
               NeverFull(trace, es, k, from, n - 1) && !(es[n - 1].Publish? && full);
      if es[n - 1].Publish? && !full {
        SameLast(Kept(trace, es, k, from, n - 1), Publications(es, from, n - 1), es[n - 1].s);
      } else {
        assert Kept(trace, es, k, from, n) == Kept(trace, es, k, from, n - 1);
        assert !es[n - 1].Publish? ==> Publications(es, from, n) == Publications(es, from, n - 1);
      }
    }
  }

  lemma SameLast(x: seq<Snapshot>, y: seq<Snapshot>, s: Snapshot)
    ensures x + [s] == y + [s] <==> x == y
  {
    assert (x + [s])[..|x|] == x && (y + [s])[..|y|] == y;
    assert x + [s] == y + [s] ==> |x| == |y|;
  }

  /** Loss only when full: the channel part is complete exactly when no publication found
      four snapshots pending. */
  lemma LossOnlyWhenFull(trace: seq<System>, es: seq<Event>, k: nat, i: nat, n: nat)
    requires Run(trace, es) && i < n <= |es|
    requires es[i] == Subscribe(k) && Connected(trace, k, i + 1, n)
    ensures Received(trace, es, k, i + 1, n) + trace[n].hub.clients[k] == Publications(es, i + 1, n)
            <==> NeverFull(trace, es, k, i + 1, n)
  {
    Delivery(trace, es, k, i, n);
    KeptAll(trace, es, k, i + 1, n);
    Substitute(Received(trace, es, k, i + 1, n) + trace[n].hub.clients[k], Kept(trace, es, k, i + 1, n),
               Publications(es, i + 1, n));
  }

  lemma Substitute(x: seq<Snapshot>, y: seq<Snapshot>, z: seq<Snapshot>)
    requires x == y
    ensures x == z <==> y == z
  {
  }

  // ---------------------------------------------------------------- the ring

  /** The slots hold the newest publications, newest first from the head. */
  ghost predicate HoldsNewest<K>(h: Hub<K>, published: seq<Snapshot>) {
    && h.Valid()
    && h.head == |published| % RING
    && h.count == (if |published| < RING then |published| else RING)
    && forall i :: 0 <= i < h.count ==> h.ring[Slot(h.head, i)] == published[|published| - 1 - i]
  }

  lemma SlotAfter(head: nat, i: nat)
    requires head < RING && 0 < i < RING
    ensures Slot((head + 1) % RING, i) == Slot(head, i - 1)
    ensures Slot((head + 1) % RING, 0) == head
    ensures Slot((head + 1) % RING, i) != head
  {
  }

  lemma PublishHolds<K>(h: Hub<K>, published: seq<Snapshot>, s: Snapshot)
    requires HoldsNewest(h, published)
    ensures HoldsNewest(Published(h, s), published + [s])
  {
    var h', all := Published(h, s), published + [s];
    NextIndex(|published|);
    forall i | 0 <= i < h'.count
      ensures h'.ring[Slot(h'.head, i)] == all[|all| - 1 - i]
    {
      if i > 0 {
        SlotAfter(h.head, i);
        assert i - 1 < h.count;
      } else {
        SlotAfter(h.head, 1);
      }
    }
  }

  lemma NextIndex(n: nat)
    ensures (n + 1) % RING == (n % RING + 1) % RING
  {
  }

  /** Ring refinement: after any run the i-th newest publication is in slot head - 1 - i. */
  lemma {:induction false} RingRefinement(trace: seq<System>, es: seq<Event>, n: nat)
    requires Run(trace, es) && n <= |es|
    ensures HoldsNewest(trace[n].hub, Publications(es, 0, n))
  {
    if n > 0 {
      RingRefinement(trace, es, n - 1);
      assert Moves(trace, es, n - 1);
      if es[n - 1].Publish? {
        PublishHolds(trace[n - 1].hub, Publications(es, 0, n - 1), es[n - 1].s);
      }
    }
  }

  /** The second newest publication up to the n-th newest, never-written stamps aside. */
  function ScaleWindow(published: seq<Snapshot>, n: nat): seq<Snapshot>
    requires n <= |published|
  {
    if n <= 1 then []
    else
      var s := published[|published| - n];
      ScaleWindow(published, n - 1) + if s.stamp == 0 then [] else [s]
  }

  /** What the scale computation visits; the newest publication is not part of it. */
  lemma {:induction false} VisitedArePublished<K>(h: Hub<K>, published: seq<Snapshot>, n: nat)
    requires HoldsNewest(h, published) && n <= h.count
    ensures Visited(h.ring, h.head, n) == ScaleWindow(published, n)
  {
    if n > 1 {
      VisitedArePublished(h, published, n - 1);
    }
  }

  // ---------------------------------------------------------------- the axes of a run

  /** The publisher scales what it measured by the window it sees in the ring. */
  ghost predicate Measures(s: System, sent: Snapshot, raw: Snapshot)
    requires s.hub.Valid()
  {
    sent == Scaled(raw, Visited(s.hub.ring, s.hub.head, Span(s.hub.count, WINDOW)))
  }

  /** The samples behind one publication: the measurement itself, then the second newest to
      the n-th newest of the publications before it, where n is their number up to 15. */
  function Samples(sent: Snapshot, published: seq<Snapshot>): seq<Snapshot> {
    [sent] + ScaleWindow(published, if |published| > WINDOW then WINDOW else |published|)
  }

  /** In every run, the axes a snapshot is published with enclose its own sample and the
      window of publications before it: CPU samples exactly when they are percentages,
      frequencies, where they count, exactly when they are not negative, and all memory
      samples exactly when the total bounds them and the upper margin does not wrap. */
  lemma AxesEncloseWindow(trace: seq<System>, es: seq<Event>, n: nat, raw: Snapshot)
    requires Run(trace, es) && n < |es| && es[n].Publish? && Measures(trace[n], es[n].s, raw)
    requires raw.memUsed < U64 && forall x :: x in Publications(es, 0, n) ==> x.memUsed < U64
    ensures var samples := Samples(es[n].s, Publications(es, 0, n));
            var b := BoundsOf(raw, samples[1..]);
            && (forall x :: x in samples ==> (CpuInside(es[n].s, x) <==> 0.0 <= x.cpu <= 100.0))
            && (forall i :: 0 <= i < |samples| && (i == 0 || samples[i].freq > 0) ==>
                  (FreqInside(es[n].s, samples[i]) <==> 0 <= samples[i].freq))
            && ((forall x :: x in samples ==> MemInside(es[n].s, x))
                <==> b.memMax <= raw.memTotal && b.memMax + MemMargin(b) < U64)
  {
    var published, h := Publications(es, 0, n), trace[n].hub;
    RingRefinement(trace, es, n);
    VisitedArePublished(h, published, Span(h.count, WINDOW));
    WindowIsPublished(published, Span(h.count, WINDOW));
    var window := ScaleWindow(published, Span(h.count, WINDOW));
    assert Span(h.count, WINDOW) == if |published| > WINDOW then WINDOW else |published|;
    assert Samples(es[n].s, published)[1..] == window;
    ScaledEncloses(raw, window);
  }

  lemma {:induction false} WindowIsPublished(published: seq<Snapshot>, n: nat)
    requires n <= |published|
    ensures forall x :: x in ScaleWindow(published, n) ==> x in published
  {
    if n > 1 {
      WindowIsPublished(published, n - 1);
    }
  }

  lemma ScaledEncloses(raw: Snapshot, window: seq<Snapshot>)
    requires raw.memUsed < U64 && forall x :: x in window ==> x.memUsed < U64
    ensures var sent := Scaled(raw, window);
            var b := BoundsOf(raw, window);
            && (forall x :: x in [sent] + window ==> (CpuInside(sent, x) <==> 0.0 <= x.cpu <= 100.0))
            && (FreqInside(sent, sent) <==> 0 <= sent.freq)
            && (forall x :: x in window && x.freq > 0 ==> FreqInside(sent, x))
            && ((forall x :: x in [sent] + window ==> MemInside(sent, x))
                <==> b.memMax <= raw.memTotal && b.memMax + MemMargin(b) < U64)
  {
    var sent, b := Scaled(raw, window), BoundsOf(raw, window);
    BoundsTight(raw, window);
    MemEnvelope(raw, window, b);
    assert raw in [raw] + window && sent in [sent] + window;
    assert sent.cpu == raw.cpu && sent.freq == raw.freq && sent.memUsed == raw.memUsed;
    CpuEnvelope(raw, window, b, raw);
    FreqEnvelope(raw, window, b, raw);
    forall x | x in window
      ensures x in [raw] + window && x in [sent] + window
      ensures CpuInside(sent, x) <==> 0.0 <= x.cpu <= 100.0
      ensures x.freq > 0 ==> FreqInside(sent, x)
    {
      CpuEnvelope(raw, window, b, x);
      if x.freq > 0 {
        FreqEnvelope(raw, window, b, x);
      }
    }
  }

  // ---------------------------------------------------------------- the first snapshot

  lemma {:induction false} PublicationsSplit(es: seq<Event>, mid: nat, n: nat)
    requires mid <= n <= |es|
    ensures Publications(es, 0, n) == Publications(es, 0, mid) + Publications(es, mid, n)
  {
    if n > mid {
      PublicationsSplit(es, mid, n - 1);
    }
  }

  /** The snapshot a handler sends first is the newest at that moment; together with the
      channel part nothing published from then on, or before it since the subscription,
      falls between the two. */
  lemma NothingFallsBetween(trace: seq<System>, es: seq<Event>, k: nat, i: nat, j: nat, n: nat)
    requires Run(trace, es) && i < j < n <= |es|
    requires es[i] == Subscribe(k) && es[j] == Read(k) && Connected(trace, k, i + 1, n)
    ensures var all, before := Publications(es, 0, n), Publications(es, 0, j);
            && before <= all
            && Latest(trace[j].hub) == (if before == [] then None else Some(before[|before| - 1]))
            && |Publications(es, 0, i + 1)| <= |before|
            && (NeverFull(trace, es, k, i + 1, n) ==>
                  Received(trace, es, k, i + 1, n) + trace[n].hub.clients[k] == all[|Publications(es, 0, i + 1)|..])
  {
    RingRefinement(trace, es, j);
    PublicationsSplit(es, j, n);
    PublicationsSplit(es, i + 1, n);
    PublicationsSplit(es, i + 1, j);
    LossOnlyWhenFull(trace, es, k, i, n);
  }

  // ---------------------------------------------------------------- when the whole stream is in order

  /** The numbers of the publications that are kept for client k during the events from..n. */
  ghost function KeptAt(trace: seq<System>, es: seq<Event>, k: nat, from: nat, n: nat): seq<nat>
    requires Connected(trace, k, from, n) && n <= |es|
    decreases n
  {
    if n == from then []
    else
      KeptAt(trace, es, k, from, n - 1)
      + if es[n - 1].Publish? && |trace[n - 1].hub.clients[k]| < CAPACITY then [|Publications(es, 0, n - 1)|] else []
  }

  predicate Ascending(numbers: seq<nat>) {
    forall x, y :: 0 <= x < y < |numbers| ==> numbers[x] < numbers[y]
  }

  lemma {:induction false} PublicationsGrow(es: seq<Event>, m: nat, n: nat)
    requires m <= n <= |es|
    ensures |Publications(es, 0, m)| <= |Publications(es, 0, n)|
    ensures forall x :: 0 <= x < |Publications(es, 0, m)| ==> Publications(es, 0, n)[x] == Publications(es, 0, m)[x]
    decreases n
  {
    if m < n {
      PublicationsGrow(es, m, n - 1);
    }
  }

  /** The numbers belong to the kept snapshots, ascend, and count from the start of the span. */
  lemma {:induction false} NumbersOfKept(trace: seq<System>, es: seq<Event>, k: nat, from: nat, n: nat)
    requires Connected(trace, k, from, n) && n <= |es|
    ensures var numbers, kept := KeptAt(trace, es, k, from, n), Kept(trace, es, k, from, n);
            var all := Publications(es, 0, n);
            && |numbers| == |kept| && Ascending(numbers)
            && forall x :: 0 <= x < |numbers| ==>
                 |Publications(es, 0, from)| <= numbers[x] < |all| && all[numbers[x]] == kept[x]
    decreases n
  {
    if n > from {
      NumbersOfKept(trace, es, k, from, n - 1);
      PublicationsGrow(es, from, n - 1);
      PublicationsGrow(es, n - 1, n);
    }
  }

  /** The numbers of the snapshots a handler sends: the one it reads first, if there is one,
      and those kept for its channel. */
  ghost function Stream(trace: seq<System>, es: seq<Event>, k: nat, i: nat, j: nat, n: nat): seq<nat>
    requires j <= |es| && n <= |es| && Connected(trace, k, i + 1, n)
  {
    (if Publications(es, 0, j) == [] then [] else [|Publications(es, 0, j)| - 1]) + KeptAt(trace, es, k, i + 1, n)
  }

  predicate Quiet(es: seq<Event>, from: nat, end: nat)
    requires end <= |es|
  {
    forall m :: from <= m < end ==> !es[m].Publish?
  }

  lemma {:induction false} QuietPublishesNothing(trace: seq<System>, es: seq<Event>, k: nat, from: nat, end: nat)
    requires from <= end <= |es| && Quiet(es, from, end) && Connected(trace, k, from, end)
    ensures Publications(es, 0, end) == Publications(es, 0, from)
    ensures KeptAt(trace, es, k, from, end) == [] && Kept(trace, es, k, from, end) == []
    decreases end
  {
    if from < end {
      QuietPublishesNothing(trace, es, k, from, end - 1);
    }
  }

  lemma {:induction false} KeptAtPrefix(trace: seq<System>, es: seq<Event>, k: nat, from: nat, m: nat, n: nat)
    requires from <= m <= n <= |es| && Connected(trace, k, from, n)
    ensures |KeptAt(trace, es, k, from, m)| <= |KeptAt(trace, es, k, from, n)|
    ensures forall x :: 0 <= x < |KeptAt(trace, es, k, from, m)| ==>
              KeptAt(trace, es, k, from, n)[x] == KeptAt(trace, es, k, from, m)[x]
    decreases n
  {
    if m < n {
      KeptAtPrefix(trace, es, k, from, m, n - 1);
    }
  }

  lemma {:induction false} FirstPublish(es: seq<Event>, from: nat, end: nat) returns (m: nat)
    requires end <= |es| && !Quiet(es, from, end)
    ensures from <= m < end && es[m].Publish? && Quiet(es, from, m)
    decreases end
  {
    if Quiet(es, from, end - 1) {
      m := end - 1;
    } else {
      m := FirstPublish(es, from, end - 1);
    }
  }

  /** The first publication after a subscription is always kept: nothing is pending yet. */
  lemma FirstIsKept(trace: seq<System>, es: seq<Event>, k: nat, i: nat, m: nat, n: nat)
    requires Run(trace, es) && i < m < n <= |es|
    requires es[i] == Subscribe(k) && Connected(trace, k, i + 1, n)
    requires es[m].Publish? && Quiet(es, i + 1, m)
    ensures var numbers := KeptAt(trace, es, k, i + 1, n);
            |numbers| > 0 && numbers[0] == |Publications(es, 0, m)|
  {
    Delivery(trace, es, k, i, m);
    QuietPublishesNothing(trace, es, k, i + 1, m);
    assert |Received(trace, es, k, i + 1, m) + trace[m].hub.clients[k]| == 0;
    assert KeptAt(trace, es, k, i + 1, m + 1) == [|Publications(es, 0, m)|];
    KeptAtPrefix(trace, es, k, i + 1, m + 1, n);
  }

  /** A handler sends snapshots in the order of their publication, each once, exactly when
      nothing is published between its subscription and its first read. */
  lemma StreamInOrderIff(trace: seq<System>, es: seq<Event>, k: nat, i: nat, j: nat, n: nat)
    requires Run(trace, es) && i < j < n <= |es|
    requires es[i] == Subscribe(k) && es[j] == Read(k) && Connected(trace, k, i + 1, n)
    ensures Ascending(Stream(trace, es, k, i, j, n)) <==> Quiet(es, i + 1, j)
  {
    var numbers, stream := KeptAt(trace, es, k, i + 1, n), Stream(trace, es, k, i, j, n);
    NumbersOfKept(trace, es, k, i + 1, n);
    if Quiet(es, i + 1, j) {
      QuietPublishesNothing(trace, es, k, i + 1, j);
      AscendingCons(Publications(es, 0, j), numbers);
    } else {
      var m := FirstPublish(es, i + 1, j);
      FirstIsKept(trace, es, k, i, m, n);
      PublicationsGrow(es, m + 1, j);
      assert stream[1] == numbers[0] <= stream[0];
    }
  }

  lemma AscendingCons(before: seq<Snapshot>, numbers: seq<nat>)
    requires Ascending(numbers) && forall x :: 0 <= x < |numbers| ==> |before| <= numbers[x]
    ensures Ascending((if before == [] then [] else [|before| - 1]) + numbers)
  {
  }

  /** A publication between subscription and first read reaches the client twice. */
  lemma RepeatedSnapshot(h: Hub<nat>, s: Snapshot) returns (trace: seq<System>, es: seq<Event>)
    requires h.Valid() && h.head == 0 && h.count == 0 && h.clients == map[]
    ensures es == [Subscribe(0), Publish(s), Read(0), Receive(0)] && Run(trace, es) && Connected(trace, 0, 1, 4)
    ensures Latest(trace[2].hub) == Some(s) && Received(trace, es, 0, 1, 4) == [s]
    ensures Stream(trace, es, 0, 0, 2, 4) == [0, 0]
  {
    es := [Subscribe(0), Publish(s), Read(0), Receive(0)];
    var start := System(h, {});
    var subscribed := Step(start, es[0]);
    var published := Step(subscribed, es[1]);
    assert published.hub.clients[0] == [s];
    var read := Step(published, es[2]);
    trace := [start, subscribed, published, read, Step(read, es[3])];
    assert Publications(es, 0, 0) == [] && Publications(es, 0, 1) == [] && Publications(es, 0, 2) == [s];
    assert Received(trace, es, 0, 1, 1) == [] && Received(trace, es, 0, 1, 2) == [];
    assert Received(trace, es, 0, 1, 3) == [];
    assert KeptAt(trace, es, 0, 1, 1) == [] && KeptAt(trace, es, 0, 1, 2) == [0];
    assert KeptAt(trace, es, 0, 1, 3) == [0];
    assert KeptAt(trace, es, 0, 1, 4) == [0];
  }

  // ---------------------------------------------------------------- sizes

  /** A publication joins the end of a client's queue while fewer than four are pending, and
      is dropped for that client otherwise. */
  lemma FourFit(trace: seq<System>, es: seq<Event>, n: nat, k: nat)
    requires Run(trace, es) && n < |es| && es[n].Publish? && k in trace[n].hub.clients
    ensures k in trace[n + 1].hub.clients
    ensures var before := trace[n].hub.clients[k];
            trace[n + 1].hub.clients[k] == if |before| < 4 then before + [es[n].s] else before
  {
    assert Moves(trace, es, n);
  }

  /** x was published as the i-th before now, counted from 1. */
  predicate IsNewest(published: seq<Snapshot>, i: int, x: Snapshot) {
    1 <= i <= |published| && x == published[|published| - i]
  }

  /** x is one of the publications number 2 to number n and was measured. */
  ghost predicate AmongNewest(published: seq<Snapshot>, n: int, x: Snapshot) {
    exists i :: 2 <= i <= n && IsNewest(published, i, x) && x.stamp != 0
  }

  lemma {:induction false} InScaleWindow(published: seq<Snapshot>, n: nat, x: Snapshot)
    requires n <= |published|
    ensures x in ScaleWindow(published, n) <==> AmongNewest(published, n, x)
  {
    if n > 1 {
      InScaleWindow(published, n - 1, x);
      var s := published[|published| - n];
      assert IsNewest(published, n, s);
      assert AmongNewest(published, n, x) <==> AmongNewest(published, n - 1, x) || (x == s && s.stamp != 0);
    }
  }

  /** The axes of a publication look at the publications number 2 to number 15 before it, and
      at no others. */
  lemma FifteenAreScaled(trace: seq<System>, es: seq<Event>, n: nat, x: Snapshot)
    requires Run(trace, es) && n <= |es| && trace[n].hub.Valid()
    ensures x in Visited(trace[n].hub.ring, trace[n].hub.head, Span(trace[n].hub.count, WINDOW)) <==>
              AmongNewest(Publications(es, 0, n), 15, x)
  {
    var published, h := Publications(es, 0, n), trace[n].hub;
    var span := Span(h.count, WINDOW);
    RingRefinement(trace, es, n);
    VisitedArePublished(h, published, span);
    InScaleWindow(published, span, x);
    assert span == (if |published| < 15 then |published| else 15);
    assert AmongNewest(published, span, x) <==> AmongNewest(published, 15, x);
  }
}
