/** What an identity is worth. */
module IdentityLaws {
  import Text
  import opened DeviceTables
  import opened Classifier
  import opened Identity

  lemma OutcomeUnique(cat: Catalogue, manual: string, vendor: string, o: Observations, x: NeighborIdentity,
      y: NeighborIdentity)
    requires Outcome(cat, manual, vendor, o, x) && Outcome(cat, manual, vendor, o, y)
    ensures x == y
  {
    var signals := Signals(cat, o);
    if manual == "" && signals != [] {
      var v :| Concludes(signals, v, o.hostnameType, x);
      var w :| Concludes(signals, w, o.hostnameType, y);
      ElectedUnique(signals, v, w);
    }
  }

  lemma {:induction false} BestUpTo(signals: seq<Signal>, n: nat) returns (k: nat)
    requires 0 < n <= |signals|
    ensures k < n
    ensures forall j :: 0 <= j < n ==>
              && Score(signals, signals[j].kind) <= Score(signals, signals[k].kind)
              && (Score(signals, signals[j].kind) == Score(signals, signals[k].kind) ==>
                    FirstSeen(signals, signals[k].kind) <= FirstSeen(signals, signals[j].kind))
  {
    k := n - 1;
    if n > 1 {
      var best := BestUpTo(signals, n - 1);
      var x, y := signals[best].kind, signals[n - 1].kind;
      if Score(signals, y) < Score(signals, x)
         || (Score(signals, y) == Score(signals, x) && FirstSeen(signals, x) <= FirstSeen(signals, y)) {
        k := best;
      }
    }
  }

  /** There is always a winner. */
  lemma ElectionSucceeds(signals: seq<Signal>) returns (winner: string)
    requires signals != []
    ensures Elected(signals, winner)
  {
    var k := BestUpTo(signals, |signals|);
    winner := signals[k].kind;
  }

  lemma VoteConcludes(cat: Catalogue, vendor: string, o: Observations) returns (id: NeighborIdentity)
    requires Credible(cat, o) && Signals(cat, o) != []
    ensures Outcome(cat, "", vendor, o, id)
  {
    var signals := Signals(cat, o);
    var winner := ElectionSucceeds(signals);
    SettledSupported(cat, o, winner);
    var t := Settle(winner, o.hostnameType);
    SourcesFaithful(signals, t);
    var sources := Sources(signals, t);
    id := NeighborIdentity(t, vendor, Cap(Score(signals, t)), sources, sources[0]);
    assert Concludes(signals, winner, o.hostnameType, id);
  }

  /** Every neighbour has an identity. */
  lemma IdentityExists(env: Env, a: Args) returns (id: NeighborIdentity)
    requires Covers(env.cat, env.patterns)
    ensures Identifies(env, a, id)
  {
    var vendor, manual := LookupOui(env, a.mac).vendor, OverrideType(env.cat, a.ip, a.inventory);
    if manual != "" {
      id := NeighborIdentity(manual, vendor, W_OVERRIDE, [MANUAL], MANUAL);
    } else if Signals(env.cat, Observe(env, a)) == [] {
      id := NeighborIdentity(UNKNOWN, vendor, 0, ["arp"], "arp");
    } else {
      ObserveCredible(env, a);
      id := VoteConcludes(env.cat, vendor, Observe(env, a));
    }
  }

  /** Equal inputs are identified alike: the relation is a function. */
  lemma IdentityUnique(env: Env, a: Args, x: NeighborIdentity, y: NeighborIdentity)
    requires Identifies(env, a, x) && Identifies(env, a, y)
    ensures x == y
  {
    var manual, vendor := OverrideType(env.cat, a.ip, a.inventory), LookupOui(env, a.mac).vendor;
    OutcomeUnique(env.cat, manual, vendor, Observe(env, a), x, y);
  }

  // ---------------------------------------------------------------- soundness

  ghost predicate Offered(cat: Catalogue, signals: seq<Signal>) {
    forall i :: 0 <= i < |signals| ==>
      IsNetworkType(cat, signals[i].kind) && signals[i].weight > 0 && signals[i].source != MANUAL
  }

  lemma OfferedConcat(cat: Catalogue, xs: seq<Signal>, ys: seq<Signal>)
    requires Offered(cat, xs) && Offered(cat, ys)
    ensures Offered(cat, xs + ys)
  {
  }

  lemma {:induction false} ServiceSignalsOffered(cat: Catalogue, types: seq<string>)
    ensures Offered(cat, ServiceSignals(cat, types))
  {
    if types != [] {
      ServiceSignalsOffered(cat, types[..|types| - 1]);
    }
  }

  lemma OfferOffered(cat: Catalogue, source: string, kind: string, weight: nat)
    requires weight > 0 && source != MANUAL
    ensures Offered(cat, Offer(cat, source, kind, weight))
  {
  }

  lemma FrontOffered(cat: Catalogue, o: Observations)
    ensures Offered(cat, SignalsBeforeServices(cat, o))
  {
    OfferOffered(cat, "dhcp", o.hostnameType, W_HOSTNAME);
    OfferOffered(cat, "public-ip", "router_wan", W_PUBLIC_IP);
    OfferOffered(cat, "mac", "server", W_VIRTUAL_MAC);
    OfferOffered(cat, "oui", o.ouiType, W_OUI);
  }

  lemma SignalsOffered(cat: Catalogue, o: Observations)
    ensures Offered(cat, Signals(cat, o))
  {
    FrontOffered(cat, o);
    ServiceSignalsOffered(cat, o.serviceTypes);
    var front := SignalsBeforeServices(cat, o) + ServiceSignals(cat, o.serviceTypes);
    OfferedConcat(cat, SignalsBeforeServices(cat, o), ServiceSignals(cat, o.serviceTypes));
    OfferedConcat(cat, front, SignalsAfterServices(cat, o));
  }

  lemma {:induction false} OverrideOffered(cat: Catalogue, ip: string, entries: seq<string>)
    ensures FirstOverride(cat, ip, entries) != "" ==> IsNetworkType(cat, FirstOverride(cat, ip, entries))
  {
    if entries != [] {
      OverrideOffered(cat, ip, entries[1..]);
    }
  }

  /** The vote: the type has support, a positive capped score and faithful sources. */
  lemma VoteSound(cat: Catalogue, o: Observations, winner: string, id: NeighborIdentity)
    requires Credible(cat, o) && Concludes(Signals(cat, o), winner, o.hostnameType, id)
    ensures IsNetworkType(cat, id.deviceType) && 0 < id.confidence <= 100
    ensures Supported(Signals(cat, o), id.deviceType) && Faithful(Signals(cat, o), id.deviceType, id.sources)
    ensures MANUAL !in id.sources
    ensures Elected(Signals(cat, o), id.deviceType)
            || (Elected(Signals(cat, o), "server") && id.deviceType == o.hostnameType)
  {
    var signals := Signals(cat, o);
    SettledSupported(cat, o, winner);
    SignalsOffered(cat, o);
    NoSupportNoScore(signals, id.deviceType);
    SourcesFaithful(signals, id.deviceType);
    assert signals[FirstSeen(signals, id.deviceType)].kind == id.deviceType;
  }

  /** What an identity means.  The type is unknown or a network type of the catalogue; a
      known type has a confidence between 1 and 100 hundredths.  When the vote decides, the
      type is the elected one, or the hostname's where "server" was elected, and the sources
      are exactly those of the signals that support it, in signal order. */
  lemma IdentitySound(env: Env, a: Args, id: NeighborIdentity)
    requires Covers(env.cat, env.patterns) && Identifies(env, a, id)
    ensures id.deviceType == UNKNOWN || IsNetworkType(env.cat, id.deviceType)
    ensures if id.deviceType == UNKNOWN then id.confidence == 0 else 0 < id.confidence <= 100
    ensures OverrideType(env.cat, a.ip, a.inventory) == "" ==> MANUAL !in id.sources
    ensures OverrideType(env.cat, a.ip, a.inventory) == "" && id.deviceType != UNKNOWN ==>
              var signals := Signals(env.cat, Observe(env, a));
              && Faithful(signals, id.deviceType, id.sources)
              && (Elected(signals, id.deviceType)
                  || (Elected(signals, "server") && id.deviceType == HostnameType(env.patterns, a.hostname)))
  {
    var o := Observe(env, a);
    OutcomeSound(env.cat, OverrideType(env.cat, a.ip, a.inventory), LookupOui(env, a.mac).vendor, o, id) by {
      ObserveCredible(env, a);
      OverrideOffered(env.cat, a.ip, Text.Fields(a.inventory, IsInventorySeparator));
    }
  }

  lemma OutcomeSound(cat: Catalogue, manual: string, vendor: string, o: Observations, id: NeighborIdentity)
    requires Credible(cat, o) && Outcome(cat, manual, vendor, o, id)
    requires manual != "" ==> IsNetworkType(cat, manual)
    ensures id.deviceType == UNKNOWN || IsNetworkType(cat, id.deviceType)
    ensures if id.deviceType == UNKNOWN then id.confidence == 0 else 0 < id.confidence <= 100
    ensures manual == "" ==> MANUAL !in id.sources
    ensures manual == "" && id.deviceType != UNKNOWN ==>
              && Faithful(Signals(cat, o), id.deviceType, id.sources)
              && (Elected(Signals(cat, o), id.deviceType)
                  || (Elected(Signals(cat, o), "server") && id.deviceType == o.hostnameType))
  {
    if manual == "" && Signals(cat, o) != [] {
      var w :| Concludes(Signals(cat, o), w, o.hostnameType, id);
      VoteSound(cat, o, w, id);
    }
    UnknownNotNetwork(cat);
  }

  lemma UnknownNotNetwork(cat: Catalogue)
    ensures !IsNetworkType(cat, UNKNOWN)
  {
    NormalStays(UNKNOWN);
  }

  /** Without a manual type, a neighbour stays unknown exactly when there is no signal. */
  lemma UnknownWithoutSignals(cat: Catalogue, vendor: string, o: Observations, id: NeighborIdentity)
    requires Credible(cat, o) && Outcome(cat, "", vendor, o, id)
    ensures id.deviceType == UNKNOWN <==> Signals(cat, o) == []
  {
    if Signals(cat, o) != [] {
      var w :| Concludes(Signals(cat, o), w, o.hostnameType, id);
      VoteSound(cat, o, w, id);
      UnknownNotNetwork(cat);
    }
  }

  // ---------------------------------------------------------------- agreement

  lemma {:induction false} ServiceSignalsConcat(cat: Catalogue, xs: seq<string>, ys: seq<string>)
    ensures ServiceSignals(cat, xs + ys) == ServiceSignals(cat, xs) + ServiceSignals(cat, ys)
  {
    if ys == [] {
      assert xs + ys == xs;
    } else {
      var init, last := ys[..|ys| - 1], Offer(cat, "service", ys[|ys| - 1], W_SERVICE);
      assert (xs + ys)[..|xs + ys| - 1] == xs + init;
      ServiceSignalsConcat(cat, xs, init);
      assert ServiceSignals(cat, ys) == ServiceSignals(cat, init) + last;
    }
  }

  lemma InsertedAmong(a: seq<Signal>, b: seq<Signal>, s: Signal, c: seq<Signal>, d: seq<Signal>)
    ensures Inserted(a + (b + c) + d, a + (b + [s] + c) + d, |a| + |b|, s)
  {
  }

  lemma ServiceInserted(cat: Catalogue, o: Observations, xs: seq<string>, kind: string, ys: seq<string>)
      returns (at: nat)
    requires o.serviceTypes == xs + ys && IsNetworkType(cat, kind)
    ensures Inserted(Signals(cat, o), Signals(cat, o.(serviceTypes := xs + [kind] + ys)), at,
                     Signal("service", kind, W_SERVICE))
  {
    var s := Signal("service", kind, W_SERVICE);
    OneService(cat, xs, kind);
    ServiceSignalsConcat(cat, xs, ys);
    ServiceSignalsConcat(cat, xs + [kind], ys);
    InsertedAmong(SignalsBeforeServices(cat, o), ServiceSignals(cat, xs), s, ServiceSignals(cat, ys),
        SignalsAfterServices(cat, o));
    at := |SignalsBeforeServices(cat, o)| + |ServiceSignals(cat, xs)|;
  }

  lemma OneService(cat: Catalogue, xs: seq<string>, kind: string)
    requires IsNetworkType(cat, kind)
    ensures ServiceSignals(cat, xs + [kind]) == ServiceSignals(cat, xs) + [Signal("service", kind, W_SERVICE)]
  {
    assert (xs + [kind])[..|xs|] == xs;
  }

  lemma AgreeingSignal(cat: Catalogue, o: Observations, xs: seq<string>, kind: string, ys: seq<string>,
                       vendor: string, id: NeighborIdentity, more: NeighborIdentity)
    requires Credible(cat, o) && o.serviceTypes == xs + ys
    requires Outcome(cat, "", vendor, o, id) && Outcome(cat, "", vendor, o.(serviceTypes := xs + [kind] + ys), more)
    requires kind == id.deviceType && kind != UNKNOWN
    ensures more.deviceType == kind && more.confidence >= id.confidence
  {
    var base, grown := Signals(cat, o), Signals(cat, o.(serviceTypes := xs + [kind] + ys));
    var v :| Concludes(base, v, o.hostnameType, id);
    VoteSound(cat, o, v, id);
    var at := ServiceInserted(cat, o, xs, kind, ys);
    assert grown != [];
    var w :| Concludes(grown, w, o.hostnameType, more);
    AgreementKeeps(base, grown, at, Signal("service", kind, W_SERVICE), o.hostnameType, v, w);
  }

  lemma ObserveWithServices(env: Env, a: Args, xs: seq<string>, service: string, ys: seq<string>)
    requires a.services == xs + ys
    ensures Observe(env, a).serviceTypes == ServiceTypes(env.hints, xs) + ServiceTypes(env.hints, ys)
    ensures Observe(env, a.(services := xs + [service] + ys))
            == Observe(env, a).(serviceTypes :=
                 ServiceTypes(env.hints, xs) + [ServiceType(env.hints, service)] + ServiceTypes(env.hints, ys))
  {
    assert ServiceTypes(env.hints, xs + ys) == ServiceTypes(env.hints, xs) + ServiceTypes(env.hints, ys);
    assert ServiceTypes(env.hints, xs + [service] + ys)
           == ServiceTypes(env.hints, xs) + [ServiceType(env.hints, service)] + ServiceTypes(env.hints, ys);
  }

  /** An observed service that suggests the settled type, anywhere in the list, keeps the
      type and never lowers the confidence. */
  lemma AgreeingService(env: Env, a: Args, xs: seq<string>, service: string, ys: seq<string>,
                        id: NeighborIdentity, more: NeighborIdentity)
    requires Covers(env.cat, env.patterns) && a.services == xs + ys
    requires Identifies(env, a, id) && Identifies(env, a.(services := xs + [service] + ys), more)
    requires ServiceType(env.hints, service) == id.deviceType && id.deviceType != UNKNOWN
    ensures more.deviceType == id.deviceType && more.confidence >= id.confidence
  {
    ObserveCredible(env, a);
    ObserveWithServices(env, a, xs, service, ys);
    AgreeingOutcome(env.cat, OverrideType(env.cat, a.ip, a.inventory), LookupOui(env, a.mac).vendor, Observe(env, a),
                    ServiceTypes(env.hints, xs), id.deviceType, ServiceTypes(env.hints, ys), id, more);
  }

  lemma AgreeingOutcome(cat: Catalogue, manual: string, vendor: string, o: Observations,
                        xs: seq<string>, kind: string, ys: seq<string>, id: NeighborIdentity, more: NeighborIdentity)
    requires Credible(cat, o) && o.serviceTypes == xs + ys
    requires Outcome(cat, manual, vendor, o, id)
              && Outcome(cat, manual, vendor, o.(serviceTypes := xs + [kind] + ys), more)
    requires kind == id.deviceType && kind != UNKNOWN
    ensures more.deviceType == kind && more.confidence >= id.confidence
  {
    if manual == "" {
      AgreeingSignal(cat, o, xs, kind, ys, vendor, id, more);
    }
  }
}
