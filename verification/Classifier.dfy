/** The weighted vote over passive signals.  Weights are hundredths. */
module Classifier {

  datatype Signal = Signal(source: string, kind: string, weight: nat)

  /** Total weight of the signals for one device type. */
  function Score(signals: seq<Signal>, kind: string): nat {
    if signals == [] then 0
    else
      var last := signals[|signals| - 1];
      Score(signals[..|signals| - 1], kind) + if last.kind == kind then last.weight else 0
  }

  predicate Supported(signals: seq<Signal>, kind: string) {
    exists i :: 0 <= i < |signals| && signals[i].kind == kind
  }

  /** Position of the first signal for a type, or the number of signals. */
  function FirstSeen(signals: seq<Signal>, kind: string): (i: nat)
    ensures i <= |signals|
    ensures i < |signals| ==> signals[i].kind == kind
    ensures forall j :: 0 <= j < i ==> signals[j].kind != kind
    ensures i < |signals| <==> Supported(signals, kind)
  {
    if signals == [] then 0
    else if signals[0].kind == kind then 0
    else
      var i := FirstSeen(signals[1..], kind);
      assert forall j :: 0 < j < |signals| ==> signals[j] == signals[1..][j - 1];
      1 + i
  }

  /** The elected type has maximal weight, and among equals it was seen first. */
  ghost predicate Elected(signals: seq<Signal>, kind: string) {
    && Supported(signals, kind)
    && forall other :: Supported(signals, other) ==>
         && Score(signals, other) <= Score(signals, kind)
         && (Score(signals, other) == Score(signals, kind) ==> FirstSeen(signals, kind) <= FirstSeen(signals, other))
  }

  lemma ElectedUnique(signals: seq<Signal>, a: string, b: string)
    requires Elected(signals, a) && Elected(signals, b)
    ensures a == b
  {
    assert signals[FirstSeen(signals, a)].kind == a && signals[FirstSeen(signals, b)].kind == b;
  }

  /** The types in the order they were first seen. */
  ghost predicate InOrder(signals: seq<Signal>, order: seq<string>) {
    && (forall i, j :: 0 <= i < j < |order| ==> FirstSeen(signals, order[i]) < FirstSeen(signals, order[j]))
    && (forall kind :: kind in order <==> Supported(signals, kind))
  }

  lemma OneMoreSignal(signals: seq<Signal>, s: Signal)
    ensures forall kind :: FirstSeen(signals + [s], kind)
                           == if Supported(signals, kind) then FirstSeen(signals, kind)
                              else if kind == s.kind then |signals| else |signals| + 1
    ensures forall kind :: Supported(signals + [s], kind) <==> Supported(signals, kind) || kind == s.kind
    ensures forall kind :: Score(signals + [s], kind) == Score(signals, kind) + if kind == s.kind then s.weight else 0
  {
    var more := signals + [s];
    assert more[..|more| - 1] == signals;
    assert more[|signals|] == s;
    assert forall i :: 0 <= i < |signals| ==> more[i] == signals[i];
    forall kind
      ensures Supported(more, kind) <==> Supported(signals, kind) || kind == s.kind
      ensures FirstSeen(more, kind) == if Supported(signals, kind) then FirstSeen(signals, kind)
                                       else if kind == s.kind then |signals| else |signals| + 1
    {
      if Supported(signals, kind) {
        var i := FirstSeen(signals, kind);
        assert more[i].kind == kind;
      } else if kind == s.kind {
        assert more[|signals|].kind == kind;
      }
    }
  }

  ghost predicate Scored(signals: seq<Signal>, scores: map<string, nat>) {
    && (forall kind :: kind in scores <==> Supported(signals, kind))
    && (forall kind :: kind in scores ==> scores[kind] == Score(signals, kind))
  }

  lemma ScoreOne(signals: seq<Signal>, s: Signal, scores: map<string, nat>, added: nat)
    requires Scored(signals, scores)
    requires added == (if s.kind in scores then scores[s.kind] else 0) + s.weight
    ensures Scored(signals + [s], scores[s.kind := added])
  {
    OneMoreSignal(signals, s);
    NoSupportNoScore(signals, s.kind);
  }

  lemma KnownInOrder(signals: seq<Signal>, s: Signal, order: seq<string>)
    requires InOrder(signals, order) && Supported(signals, s.kind)
    ensures InOrder(signals + [s], order)
  {
    OneMoreSignal(signals, s);
    forall i | 0 <= i < |order|
      ensures FirstSeen(signals + [s], order[i]) == FirstSeen(signals, order[i])
    {
      assert order[i] in order;
    }
  }

  lemma NewInOrder(signals: seq<Signal>, s: Signal, order: seq<string>)
    requires InOrder(signals, order) && !Supported(signals, s.kind)
    ensures InOrder(signals + [s], order + [s.kind])
  {
    OneMoreSignal(signals, s);
    var more, order' := signals + [s], order + [s.kind];
    forall i, j | 0 <= i < j < |order'|
      ensures FirstSeen(more, order'[i]) < FirstSeen(more, order'[j])
    {
      assert order[i] in order;
      assert j < |order| ==> order[j] in order;
    }
  }

  /** Scores in a map, types in order of appearance. */
  method Tally(signals: seq<Signal>) returns (order: seq<string>, scores: map<string, nat>)
    ensures InOrder(signals, order) && Scored(signals, scores)
  {
    scores, order := map[], [];
    for i := 0 to |signals|
      invariant InOrder(signals[..i], order) && Scored(signals[..i], scores)
    {
      var signal := signals[i];
      assert signals[..i] + [signal] == signals[..i + 1];
      var score := signal.weight;
      if signal.kind !in scores {
        NewInOrder(signals[..i], signal, order);
        order := order + [signal.kind];
      } else {
        KnownInOrder(signals[..i], signal, order);
        score := scores[signal.kind] + signal.weight;
      }
      ScoreOne(signals[..i], signal, scores, score);
      scores := scores[signal.kind := score];
    }
    assert signals[..|signals|] == signals;
  }

  /** One pass over the types for the first of the highest scores. */
  method Lead(order: seq<string>, scores: map<string, nat>) returns (winner: string, ghost lead: nat)
    requires order != [] && forall kind :: kind in order ==> kind in scores
    ensures lead < |order| && winner == order[lead]
    ensures forall j :: 0 <= j < |order| ==> scores[order[j]] <= scores[winner]
    ensures forall j :: 0 <= j < lead ==> scores[order[j]] < scores[winner]
  {
    winner, lead := order[0], 0;
    for i := 1 to |order|
      invariant lead < i && winner == order[lead]
      invariant forall j :: 0 <= j < i ==> scores[order[j]] <= scores[winner]
      invariant forall j :: 0 <= j < lead ==> scores[order[j]] < scores[winner]
    {
      if scores[order[i]] > scores[winner] {
        winner := order[i];
        lead := i;
      }
    }
  }

  method Elect(signals: seq<Signal>) returns (winner: string, scores: map<string, nat>)
    requires signals != []
    ensures Elected(signals, winner)
    ensures Scored(signals, scores)
  {
    var order;
    order, scores := Tally(signals);
    assert Supported(signals, signals[0].kind);
    ghost var lead;
    winner, lead := Lead(order, scores);
    forall j | 0 <= j < |order|
      ensures scores[order[j]] == Score(signals, order[j])
    {
      assert order[j] in order;
    }
    LeadIsElected(signals, order, lead);
  }

  lemma LeadIsElected(signals: seq<Signal>, order: seq<string>, lead: nat)
    requires InOrder(signals, order) && lead < |order|
    requires forall j :: 0 <= j < |order| ==> Score(signals, order[j]) <= Score(signals, order[lead])
    requires forall j :: 0 <= j < lead ==> Score(signals, order[j]) < Score(signals, order[lead])
    ensures Elected(signals, order[lead])
  {
    assert order[lead] in order;
    forall other | Supported(signals, other)
      ensures Score(signals, other) <= Score(signals, order[lead])
      ensures Score(signals, other) == Score(signals, order[lead]) ==>
                FirstSeen(signals, order[lead]) <= FirstSeen(signals, other)
    {
      assert other in order;
    }
  }

  lemma {:induction false} NoSupportNoScore(signals: seq<Signal>, kind: string)
    ensures !Supported(signals, kind) ==> Score(signals, kind) == 0
    ensures forall i :: 0 <= i < |signals| && signals[i].kind == kind ==> signals[i].weight <= Score(signals, kind)
  {
    if signals != [] {
      var init := signals[..|signals| - 1];
      NoSupportNoScore(init, kind);
      assert forall i :: 0 <= i < |init| ==> init[i] == signals[i];
      if !Supported(signals, kind) {
        assert signals[|signals| - 1].kind != kind;
      }
    }
  }

  /** An explicit role in the hostname beats the generic "server" of a virtual machine. */
  function Settle(winner: string, hostnameType: string): string {
    if hostnameType != "unknown" && hostnameType != "server" && winner == "server" then hostnameType else winner
  }

  /** The distinct sources that support a type, in signal order. */
  function Sources(signals: seq<Signal>, kind: string): seq<string> {
    if signals == [] then []
    else
      var rest, last := Sources(signals[..|signals| - 1], kind), signals[|signals| - 1];
      if last.kind == kind && last.source !in rest then rest + [last.source] else rest
  }

  /** The first signal of a source in favour of a type. */
  ghost predicate FirstFrom(signals: seq<Signal>, kind: string, source: string, i: nat) {
    && i < |signals| && signals[i].kind == kind && signals[i].source == source
    && forall j :: 0 <= j < i && signals[j].kind == kind ==> signals[j].source != source
  }

  /** The sources are exactly those of the supporting signals, listed once each, in the order
      of their first supporting signals. */
  ghost predicate Faithful(signals: seq<Signal>, kind: string, sources: seq<string>) {
    && (forall source :: source in sources <==> exists i :: FirstFrom(signals, kind, source, i))
    && (forall k, l, i, j :: 0 <= k < l < |sources| ==>
          (FirstFrom(signals, kind, sources[k], i) && FirstFrom(signals, kind, sources[l], j) ==> i < j))
  }

  lemma OneMoreFirst(signals: seq<Signal>, s: Signal, kind: string, source: string, i: nat)
    ensures FirstFrom(signals + [s], kind, source, i) <==>
              FirstFrom(signals, kind, source, i) ||
              (i == |signals| && s.kind == kind && s.source == source
                  && forall j :: !FirstFrom(signals, kind, source, j))
  {
    var more := signals + [s];
    assert more[|signals|] == s;
    assert forall j :: 0 <= j < |signals| ==> more[j] == signals[j];
    if i == |signals| && (exists j :: 0 <= j < |signals| && signals[j].kind == kind && signals[j].source == source) {
      EarliestFrom(signals, kind, source);
    }
  }

  lemma {:induction false} EarliestFrom(signals: seq<Signal>, kind: string, source: string)
    requires exists j :: 0 <= j < |signals| && signals[j].kind == kind && signals[j].source == source
    ensures exists i :: FirstFrom(signals, kind, source, i)
  {
    var j :| 0 <= j < |signals| && signals[j].kind == kind && signals[j].source == source;
    var init := signals[..j];
    if exists k :: 0 <= k < j && init[k].kind == kind && init[k].source == source {
      EarliestFrom(init, kind, source);
      var i :| FirstFrom(init, kind, source, i);
      assert FirstFrom(signals, kind, source, i);
    } else {
      assert forall k :: 0 <= k < j ==> init[k] == signals[k];
      assert FirstFrom(signals, kind, source, j);
    }
  }

  lemma {:induction false} SourcesFaithful(signals: seq<Signal>, kind: string)
    ensures Faithful(signals, kind, Sources(signals, kind))
    ensures Supported(signals, kind) ==> Sources(signals, kind) != []
  {
    if signals != [] {
      var init, last := signals[..|signals| - 1], signals[|signals| - 1];
      SourcesFaithful(init, kind);
      assert signals == init + [last];
      var before, after := Sources(init, kind), Sources(signals, kind);
      forall source, i: nat
        ensures FirstFrom(signals, kind, source, i) <==>
                  FirstFrom(init, kind, source, i) ||
                  (i == |init| && last.kind == kind && last.source == source && source !in before)
      {
        OneMoreFirst(init, last, kind, source, i);
      }
      if last.kind == kind && last.source !in before {
        assert FirstFrom(signals, kind, last.source, |init|);
      }
      if Supported(signals, kind) {
        EarliestFrom(signals, kind, signals[FirstSeen(signals, kind)].source);
      }
    }
  }

  method CollectSources(signals: seq<Signal>, kind: string) returns (sources: seq<string>)
    ensures sources == Sources(signals, kind)
  {
    sources := [];
    for i := 0 to |signals|
      invariant sources == Sources(signals[..i], kind)
    {
      assert signals[..i + 1][..i] == signals[..i];
      if signals[i].kind != kind {
        continue;
      }
      if signals[i].source !in sources {
        sources := sources + [signals[i].source];
      }
    }
    assert signals[..|signals|] == signals;
  }

  // ---------------------------------------------------------------- agreement

  lemma {:induction false} ScoreConcat(xs: seq<Signal>, ys: seq<Signal>, kind: string)
    ensures Score(xs + ys, kind) == Score(xs, kind) + Score(ys, kind)
  {
    if ys == [] {
      assert xs + ys == xs;
    } else {
      assert (xs + ys)[..|xs + ys| - 1] == xs + ys[..|ys| - 1];
      ScoreConcat(xs, ys[..|ys| - 1], kind);
    }
  }

  /** `grown` is `base` with one signal inserted. */
  ghost predicate Inserted(base: seq<Signal>, grown: seq<Signal>, at: nat, s: Signal) {
    && |grown| == |base| + 1 && at <= |base| && grown[at] == s
    && (forall j :: 0 <= j < at ==> grown[j] == base[j])
    && (forall j :: at <= j < |base| ==> grown[j + 1] == base[j])
  }

  lemma InsertedScore(base: seq<Signal>, grown: seq<Signal>, at: nat, s: Signal, kind: string)
    requires Inserted(base, grown, at, s)
    ensures Score(grown, kind) == Score(base, kind) + if kind == s.kind then s.weight else 0
  {
    var xs, ys := base[..at], base[at..];
    assert base == xs + ys && grown == xs + ([s] + ys);
    ScoreConcat(xs, ys, kind);
    ScoreConcat(xs, [s] + ys, kind);
    ScoreConcat([s], ys, kind);
    assert Score([s], kind) == if kind == s.kind then s.weight else 0 by { assert [s][..0] == []; }
  }

  lemma FirstSeenIs(signals: seq<Signal>, kind: string, i: nat)
    requires i < |signals| && signals[i].kind == kind && forall j :: 0 <= j < i ==> signals[j].kind != kind
    ensures FirstSeen(signals, kind) == i
  {
  }

  lemma InsertedSupport(base: seq<Signal>, grown: seq<Signal>, at: nat, s: Signal, kind: string)
    requires Inserted(base, grown, at, s) && kind != s.kind && Supported(grown, kind)
    ensures Supported(base, kind)
  {
    var i :| 0 <= i < |grown| && grown[i].kind == kind;
    assert base[if i < at then i else i - 1].kind == kind;
  }

  /** Every other type keeps its support and shifts by one place behind the insertion. */
  lemma InsertedFirst(base: seq<Signal>, grown: seq<Signal>, at: nat, s: Signal, kind: string)
    requires Inserted(base, grown, at, s) && kind != s.kind
    ensures Supported(grown, kind) <==> Supported(base, kind)
    ensures Supported(base, kind) ==>
              FirstSeen(grown, kind) == FirstSeen(base, kind) + if FirstSeen(base, kind) < at then 0 else 1
  {
    if Supported(grown, kind) {
      InsertedSupport(base, grown, at, s, kind);
    }
    if Supported(base, kind) {
      var i := FirstSeen(base, kind);
      var k := if i < at then i else i + 1;
      forall j | 0 <= j < k
        ensures grown[j].kind != kind
      {
        assert j == at || grown[j] == base[if j < at then j else j - 1];
      }
      assert grown[k].kind == kind;
      FirstSeenIs(grown, kind, k);
    }
  }

  /** One more signal in favour of the settled type keeps it and never lowers its score. */
  lemma AgreementKeeps(base: seq<Signal>, grown: seq<Signal>, at: nat, s: Signal, hostnameType: string,
      before: string, after: string)
    requires Inserted(base, grown, at, s) && s.weight > 0
    requires Elected(base, before) && Elected(grown, after)
    requires s.kind == Settle(before, hostnameType) && Supported(base, s.kind)
    ensures Settle(after, hostnameType) == s.kind
    ensures Score(base, s.kind) <= Score(grown, s.kind)
  {
    InsertedScore(base, grown, at, s, s.kind);
    assert grown[at].kind == s.kind;
    if after != s.kind {
      InsertedScore(base, grown, at, s, after);
      InsertedFirst(base, grown, at, s, after);
      if before != s.kind {
        InsertedScore(base, grown, at, s, before);
        InsertedFirst(base, grown, at, s, before);
        SameLeader(base, grown, before, after);
      }
    }
  }

  /** Two types whose scores did not change cannot swap ranks. */
  lemma SameLeader(base: seq<Signal>, grown: seq<Signal>, before: string, after: string)
    requires Elected(base, before) && Elected(grown, after)
    requires Supported(base, after) && Supported(grown, before)
    requires Score(base, before) == Score(grown, before) && Score(base, after) == Score(grown, after)
    requires FirstSeen(base, before) < FirstSeen(base, after) ==> FirstSeen(grown, before) < FirstSeen(grown, after)
    ensures before == after
  {
    assert base[FirstSeen(base, before)].kind == before && base[FirstSeen(base, after)].kind == after;
  }
}
