/** The metrics broker: a ring of the last 60 snapshots and one bounded channel per client. */
module Broker {
  import opened Common
  import opened Scales

  const RING: nat := 60
  const CAPACITY: nat := 4
  const WINDOW: nat := 15

  /** The shared state, for any way K of naming clients. */
  datatype Hub<!K(==)> = Hub(ring: seq<Snapshot>, head: nat, count: nat, clients: map<K, seq<Snapshot>>) {

    ghost predicate Valid() {
      |ring| == RING && head < RING && count <= RING
    }
  }

  /** The slot of the i-th newest snapshot. */
  function Slot(head: nat, i: nat): (k: nat)
    requires head < RING && i < RING
    ensures k < RING
  {
    (head - 1 - i + RING) % RING
  }

  /** A send that never blocks: a full channel drops the snapshot. */
  function Offer(buf: seq<Snapshot>, s: Snapshot): seq<Snapshot> {
    if |buf| < CAPACITY then buf + [s] else buf
  }

  function Published<K>(h: Hub<K>, s: Snapshot): Hub<K>
    requires h.Valid()
  {
    Hub(h.ring[h.head := s], (h.head + 1) % RING, if h.count < RING then h.count + 1 else h.count,
        map k | k in h.clients :: Offer(h.clients[k], s))
  }

  function Latest<K>(h: Hub<K>): Option<Snapshot>
    requires h.Valid()
  {
    if h.count > 0 then Some(h.ring[Slot(h.head, 0)]) else None
  }

  /** The snapshots the scale computation visits before index i: the second newest on. */
  function Visited(ring: seq<Snapshot>, head: nat, i: nat): seq<Snapshot>
    requires |ring| == RING && head < RING && i <= RING
  {
    if i <= 1 then []
    else
      var s := ring[Slot(head, i - 1)];
      Visited(ring, head, i - 1) + if s.stamp == 0 then [] else [s]
  }

  function Span(count: nat, window: nat): (n: nat)
    ensures n <= count
  {
    if count > window then window else count
  }

  class Channel {
    var buf: seq<Snapshot>

    constructor ()
      ensures buf == []
    {
      buf := [];
    }

    /** A receive of the handler; it waits while the channel is empty. */
    method Receive() returns (s: Snapshot)
      requires buf != []
      modifies this
      ensures s == old(buf)[0] && buf == old(buf)[1..]
    {
      s := buf[0];
      buf := buf[1..];
    }
  }

  class Broker {
    const ring: array<Snapshot>
    var head: nat
    var count: nat
    var clients: set<Channel>

    ghost predicate Valid()
      reads this
    {
      ring.Length == RING && head < RING && count <= RING
    }

    ghost function View(): (h: Hub<Channel>)
      requires Valid()
      reads this, ring, clients
      ensures h.Valid()
    {
      Hub(ring[..], head, count, map ch | ch in clients :: ch.buf)
    }

    constructor (empty: Snapshot)
      requires empty.stamp == 0
      ensures Valid() && fresh(ring)
      ensures View() == Hub(seq(RING, _ => empty), 0, 0, map[])
    {
      ring := new Snapshot[RING](_ => empty);
      head, count, clients := 0, 0, {};
    }

    method Subscribe() returns (ch: Channel)
      requires Valid()
      modifies this`clients
      ensures Valid() && fresh(ch) && clients == old(clients) + {ch}
      ensures View() == old(View()).(clients := old(View()).clients[ch := []])
    {
      ch := new Channel();
      clients := clients + {ch};
    }

    method Unsubscribe(ch: Channel)
      requires Valid()
      modifies this`clients
      ensures Valid() && clients == old(clients) - {ch}
      ensures View() == old(View()).(clients := old(View()).clients - {ch})
    {
      clients := clients - {ch};
    }

    method ReadLatest() returns (last: Option<Snapshot>)
      requires Valid()
      ensures last == Latest(View())
    {
      if count > 0 {
        last := Some(ring[(head - 1 + RING) % RING]);
      } else {
        last := None;
      }
    }

    /** The axes follow the visited part of the window; nothing else in the snapshot changes. */
    method ComputeOscilloScales(snap: Snapshot, window: nat) returns (r: Snapshot)
      requires Valid()
      ensures r == Scaled(snap, Visited(ring[..], head, Span(count, window)))
    {
      var n := count;
      if n > window {
        n := window;
      }
      var bounds := Bounds(snap.cpu, snap.cpu, snap.freq, snap.freq, snap.memUsed, snap.memUsed);
      ghost var visited: seq<Snapshot> := [];
      var i := 1;
      while i < n
        invariant 1 <= i && (i <= n || i == 1)
        invariant visited == Visited(ring[..], head, if i <= n then i else n)
        invariant bounds == BoundsOf(snap, visited)
      {
        var s := ring[(head - 1 - i + RING) % RING];
        if s.stamp == 0 {
          i := i + 1;
          continue;
        }
        bounds := Include(bounds, s);
        OneMoreVisited(snap, visited, s);
        visited := visited + [s];
        i := i + 1;
      }
      BoundsTight(snap, visited);
      r := SetAxes(snap, bounds);
    }

    /** The newest snapshot overwrites the oldest slot. */
    method Record(snap: Snapshot)
      requires Valid()
      modifies this`head, this`count, ring
      ensures Valid()
      ensures ring[..] == old(ring[..])[old(head) := snap]
      ensures head == (old(head) + 1) % RING
      ensures count == if old(count) < RING then old(count) + 1 else old(count)
    {
      ring[head] := snap;
      head := (head + 1) % RING;
      if count < RING {
        count := count + 1;
      }
    }

    /** Every client is offered the snapshot, in whatever order the client map yields. */
    method Broadcast(snap: Snapshot)
      modifies clients
      ensures forall ch :: ch in clients ==> ch.buf == Offer(old(ch.buf), snap)
    {
      var pending := clients;
      while pending != {}
        invariant pending <= clients
        invariant forall ch :: ch in clients ==>
                    ch.buf == if ch in pending then old(ch.buf) else Offer(old(ch.buf), snap)
        decreases |pending|
      {
        var ch :| ch in pending;
        if |ch.buf| < CAPACITY {
          ch.buf := ch.buf + [snap];
        }
        pending := pending - {ch};
      }
    }

    /** One tick of the publisher, after the measurements. */
    method Publish(snap: Snapshot) returns (sent: Snapshot)
      requires Valid()
      modifies this`head, this`count, ring, clients
      ensures Valid() && clients == old(clients)
      ensures sent == Scaled(snap, old(Visited(ring[..], head, Span(count, WINDOW))))
      ensures View() == Published(old(View()), sent)
    {
      sent := ComputeOscilloScales(snap, WINDOW);
      Record(sent);
      Broadcast(sent);
    }
  }

  lemma OneMoreVisited(snap: Snapshot, visited: seq<Snapshot>, s: Snapshot)
    ensures BoundsOf(snap, visited + [s]) == Wider(BoundsOf(snap, visited), s)
  {
    assert (visited + [s])[..|visited|] == visited;
  }

  /** One visited sample widens the bounds. */
  method Include(b: Bounds, s: Snapshot) returns (w: Bounds)
    ensures w == Wider(b, s)
  {
    w := b;
    if s.cpu < w.cpuMin {
      w := w.(cpuMin := s.cpu);
    }
    if s.cpu > w.cpuMax {
      w := w.(cpuMax := s.cpu);
    }
    if s.freq > 0 {
      if s.freq < w.freqMin {
        w := w.(freqMin := s.freq);
      }
      if s.freq > w.freqMax {
        w := w.(freqMax := s.freq);
      }
    }
    if s.memUsed < w.memMin {
      w := w.(memMin := s.memUsed);
    }
    if s.memUsed > w.memMax {
      w := w.(memMax := s.memUsed);
    }
  }

  /** The margins and clamps, step by step. */
  method SetAxes(snap: Snapshot, b: Bounds) returns (r: Snapshot)
    requires b.memMin <= b.memMax
    ensures r == Axes(snap, b)
  {
    r := snap;
    var cpuSpan := b.cpuMax - b.cpuMin;
    if cpuSpan < 0.5 {
      cpuSpan := 0.5;
    }
    var cpuMargin := cpuSpan * 0.05;
    if cpuMargin < 0.1 {
      cpuMargin := 0.1;
    }
    r := r.(cpuYMin := b.cpuMin - cpuMargin);
    if r.cpuYMin < 0.0 {
      r := r.(cpuYMin := 0.0);
    }
    r := r.(cpuYMax := b.cpuMax + cpuMargin);
    if r.cpuYMax > 100.0 {
      r := r.(cpuYMax := 100.0);
    }

    var freqSpan := b.freqMax - b.freqMin;
    if freqSpan < 1 {
      freqSpan := 1;
    }
    var freqMargin := freqSpan / 20;
    if freqMargin < 1 {
      freqMargin := 1;
    }
    r := r.(freqYMin := b.freqMin - freqMargin);
    if r.freqYMin < 0 {
      r := r.(freqYMin := 0);
    }
    r := r.(freqYMax := b.freqMax + freqMargin);

    var memSpan: nat := b.memMax - b.memMin;
    if memSpan < 1 {
      memSpan := 1;
    }
    var memMargin := memSpan / 20;
    if memMargin < 1 {
      memMargin := 1;
    }
    r := r.(memYMin := if b.memMin > memMargin then b.memMin - memMargin else 0);
    r := r.(memYMax := (b.memMax + memMargin) % U64);
    if r.memYMax > r.memTotal {
      r := r.(memYMax := r.memTotal);
    }
  }
}
