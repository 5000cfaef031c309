/** What an identity says about the neighbour itself: its vendor from the address, its type
    and confidence from a sum of weights. */
module IdentityMeaning {
  import opened Text
  import opened OuiTable
  import opened DeviceTables
  import opened Classifier
  import opened Identity
  import opened IdentityLaws

  // ---------------------------------------------------------------- the hardware address

  /** The second digit of a group or locally administered address: bit 0 or bit 1 is set. */
  predicate IsLocalDigit(c: char) {
    c in "1235679abdef"
  }

  /** What the vendor tables say of a normalised address. */
  function VendorEntry(env: Env, m: string): Oui {
    if !IsHexAddress(m) then Oui("", "")
    else if m[..8] in env.virtualOuis then Oui(env.virtualOuis[m[..8]], "server")
    else if IsLocalDigit(m[1]) || m[..8] !in env.oui then Oui("", "")
    else env.oui[m[..8]]
  }

  lemma LowBits(hi: char, lo: char)
    requires IsHex(hi) && IsHex(lo)
    ensures var b := HexValue(hi) * 16 + HexValue(lo);
            (b % 2 != 0 || b / 2 % 2 != 0) <==> IsLocalDigit(lo)
  {
    var v := HexValue(lo);
    TwoBits(HexValue(hi), v);
    assert lo == "0123456789abcdef"[v];
    assert v % 4 != 0 <==> IsLocalDigit("0123456789abcdef"[v]);
  }

  lemma TwoBits(u: nat, v: nat)
    ensures ((u * 16 + v) % 2 != 0 || (u * 16 + v) / 2 % 2 != 0) <==> v % 4 != 0
  {
  }

  lemma LookupMeans(env: Env, mac: string)
    ensures LookupOui(env, mac) == VendorEntry(env, NormalizeMac(mac))
  {
    var m := NormalizeMac(mac);
    OuiPrefixIff(mac);
    if IsHexAddress(m) {
      assert IsHex(m[0]) && IsHex(m[1]) by {
        assert 0 % 3 == 0 && 1 % 3 == 1;
      }
      LowBits(m[0], m[1]);
    }
  }

  /** The vendor of an identity: hypervisor prefixes come first, then group and local
      addresses have none, then the table decides; anything else has none. */
  lemma VendorMeans(env: Env, a: Args, id: NeighborIdentity)
    requires Identifies(env, a, id)
    ensures var m := NormalizeMac(a.mac);
            && (!IsHexAddress(m) ==> id.vendor == "")
            && (IsHexAddress(m) && m[..8] in env.virtualOuis ==> id.vendor == env.virtualOuis[m[..8]])
            && (IsHexAddress(m) && m[..8] !in env.virtualOuis && m[1] in "1235679abdef" ==> id.vendor == "")
            && (IsHexAddress(m) && m[..8] !in env.virtualOuis && m[1] !in "1235679abdef" && m[..8] in env.oui ==>
                  id.vendor == env.oui[m[..8]].vendor)
            && (IsHexAddress(m) && m[..8] !in env.virtualOuis && m[..8] !in env.oui ==> id.vendor == "")
  {
    LookupMeans(env, a.mac);
  }

  // ---------------------------------------------------------------- the weights

  function ServicesFor(hints: map<string, string>, services: seq<string>, kind: string): nat {
    if services == [] then 0
    else
      var last := |services| - 1;
      ServicesFor(hints, services[..last], kind) + if ServiceType(hints, services[last]) == kind then 1 else 0
  }

  /** The weight for a type, in hundredths: 65 for the hostname, 50 for a public address, 60
      for a hypervisor's address, 55 for the vendor, 35 for every service and 20 for a virtual
      interface. */
  function Votes(env: Env, a: Args, kind: string): nat {
    var m := NormalizeMac(a.mac);
    if !IsNetworkType(env.cat, kind) then 0
    else
      (if HostnameType(env.patterns, a.hostname) == kind then 65 else 0)
      + (if env.isPublicAddress(TrimSpace(a.ip)) && kind == "router_wan" then 50 else 0)
      + (if (if IsHexAddress(m) then m[..8] else "") in env.virtualOuis && kind == "server" then 60 else 0)
      + (if VendorEntry(env, m).deviceType == kind then 55 else 0)
      + 35 * ServicesFor(env.hints, a.services, kind)
      + (if IsVirtualInterface(a.iface) && kind == "server" then 20 else 0)
  }

  lemma OfferScore(cat: Catalogue, source: string, offered: string, weight: nat, kind: string)
    ensures Score(Offer(cat, source, offered, weight), kind) ==
              if IsNetworkType(cat, kind) && offered == kind then weight else 0
  {
    var signals := Offer(cat, source, offered, weight);
    if signals != [] {
      assert signals[..0] == [];
      assert Score([], kind) == 0;
    }
  }

  lemma {:induction false} ServicesScore(cat: Catalogue, hints: map<string, string>, services: seq<string>,
      kind: string)
    ensures Score(ServiceSignals(cat, ServiceTypes(hints, services)), kind) ==
              if IsNetworkType(cat, kind) then 35 * ServicesFor(hints, services, kind) else 0
  {
    if services != [] {
      var last := |services| - 1;
      var types := ServiceTypes(hints, services);
      assert types[..last] == ServiceTypes(hints, services[..last]);
      ServicesScore(cat, hints, services[..last], kind);
      OfferScore(cat, "service", types[last], W_SERVICE, kind);
      ScoreConcat(ServiceSignals(cat, types[..last]), Offer(cat, "service", types[last], W_SERVICE), kind);
    }
  }

  lemma FrontScore(cat: Catalogue, o: Observations, kind: string)
    requires IsNetworkType(cat, kind)
    ensures Score(SignalsBeforeServices(cat, o), kind) ==
              (if o.hostnameType == kind then 65 else 0)
              + (if o.isPublic && kind == "router_wan" then 50 else 0)
              + (if o.isVirtualMac && kind == "server" then 60 else 0)
              + (if o.ouiType == kind then 55 else 0)
  {
    var dhcp := Offer(cat, "dhcp", o.hostnameType, W_HOSTNAME);
    var wan := if o.isPublic then Offer(cat, "public-ip", "router_wan", W_PUBLIC_IP) else [];
    var mac := if o.isVirtualMac then Offer(cat, "mac", "server", W_VIRTUAL_MAC) else [];
    var oui := Offer(cat, "oui", o.ouiType, W_OUI);
    OfferScore(cat, "dhcp", o.hostnameType, W_HOSTNAME, kind);
    OfferScore(cat, "public-ip", "router_wan", W_PUBLIC_IP, kind);
    OfferScore(cat, "mac", "server", W_VIRTUAL_MAC, kind);
    OfferScore(cat, "oui", o.ouiType, W_OUI, kind);
    ScoreConcat(dhcp, wan, kind);
    ScoreConcat(dhcp + wan, mac, kind);
    ScoreConcat(dhcp + wan + mac, oui, kind);
  }

  lemma {:induction false} OnlyNetworkTypesScore(signals: seq<Signal>, kind: string)
    requires forall i :: 0 <= i < |signals| ==> signals[i].kind != kind
    ensures Score(signals, kind) == 0
  {
    if signals != [] {
      OnlyNetworkTypesScore(signals[..|signals| - 1], kind);
    }
  }

  lemma SignalsScore(cat: Catalogue, o: Observations, kind: string)
    ensures Score(Signals(cat, o), kind) ==
              Score(SignalsBeforeServices(cat, o), kind) + Score(ServiceSignals(cat, o.serviceTypes), kind)
              + Score(SignalsAfterServices(cat, o), kind)
  {
    var front, services := SignalsBeforeServices(cat, o), ServiceSignals(cat, o.serviceTypes);
    ScoreConcat(front, services, kind);
    ScoreConcat(front + services, SignalsAfterServices(cat, o), kind);
  }

  lemma BackScore(cat: Catalogue, o: Observations, kind: string)
    requires IsNetworkType(cat, kind)
    ensures Score(SignalsAfterServices(cat, o), kind) == if o.isVirtualIface && kind == "server" then 20 else 0
  {
    OfferScore(cat, "interface", "server", W_VIRTUAL_IFACE, kind);
    assert Score([], kind) == 0;
  }

  lemma NoScoreOutside(cat: Catalogue, o: Observations, kind: string)
    requires !IsNetworkType(cat, kind)
    ensures Score(Signals(cat, o), kind) == 0
  {
    SignalsOffered(cat, o);
    OnlyNetworkTypesScore(Signals(cat, o), kind);
  }

  lemma ObserveMeans(env: Env, a: Args)
    ensures var o, m := Observe(env, a), NormalizeMac(a.mac);
            && o.hostnameType == HostnameType(env.patterns, a.hostname)
            && o.isPublic == env.isPublicAddress(TrimSpace(a.ip))
            && o.isVirtualMac == ((if IsHexAddress(m) then m[..8] else "") in env.virtualOuis)
            && o.ouiType == VendorEntry(env, m).deviceType
            && o.serviceTypes == ServiceTypes(env.hints, a.services)
            && o.isVirtualIface == IsVirtualInterface(a.iface)
  {
    LookupMeans(env, a.mac);
    OuiPrefixIff(a.mac);
  }

  lemma ScoreOf(cat: Catalogue, hints: map<string, string>, services: seq<string>, o: Observations, kind: string)
    requires IsNetworkType(cat, kind) && o.serviceTypes == ServiceTypes(hints, services)
    ensures Score(Signals(cat, o), kind) ==
              (if o.hostnameType == kind then 65 else 0)
              + (if o.isPublic && kind == "router_wan" then 50 else 0)
              + (if o.isVirtualMac && kind == "server" then 60 else 0)
              + (if o.ouiType == kind then 55 else 0)
              + 35 * ServicesFor(hints, services, kind)
              + (if o.isVirtualIface && kind == "server" then 20 else 0)
  {
    SignalsScore(cat, o, kind);
    FrontScore(cat, o, kind);
    ServicesScore(cat, hints, services, kind);
    BackScore(cat, o, kind);
  }

  /** The score of every type is the sum of the weights of what was observed for it. */
  lemma ScoreMeans(env: Env, a: Args, kind: string)
    ensures Score(Signals(env.cat, Observe(env, a)), kind) == Votes(env, a, kind)
  {
    var o := Observe(env, a);
    if IsNetworkType(env.cat, kind) {
      ScoreOf(env.cat, env.hints, a.services, o, kind);
      ObserveMeans(env, a);
    } else {
      NoScoreOutside(env.cat, o, kind);
    }
  }

  // ---------------------------------------------------------------- the vote

  ghost predicate MostVotes(env: Env, a: Args, kind: string) {
    Votes(env, a, kind) > 0 && forall other :: Votes(env, a, other) <= Votes(env, a, kind)
  }

  lemma SupportScores(cat: Catalogue, o: Observations, kind: string)
    ensures Supported(Signals(cat, o), kind) <==> Score(Signals(cat, o), kind) > 0
  {
    SignalsOffered(cat, o);
    NoSupportNoScore(Signals(cat, o), kind);
  }

  lemma ElectedHasMost(env: Env, a: Args, kind: string)
    requires Elected(Signals(env.cat, Observe(env, a)), kind)
    ensures MostVotes(env, a, kind)
  {
    var signals := Signals(env.cat, Observe(env, a));
    forall other
      ensures Votes(env, a, other) <= Votes(env, a, kind)
    {
      ScoreMeans(env, a, other);
      ScoreMeans(env, a, kind);
      SupportScores(env.cat, Observe(env, a), other);
    }
    ScoreMeans(env, a, kind);
    SupportScores(env.cat, Observe(env, a), kind);
  }

  /** The type a hostname names replaces an elected "server". */
  predicate NamesRole(env: Env, a: Args) {
    HostnameType(env.patterns, a.hostname) != "unknown" && HostnameType(env.patterns, a.hostname) != "server"
  }

  lemma SignalsIffVotes(env: Env, a: Args)
    ensures Signals(env.cat, Observe(env, a)) == [] <==> forall kind :: Votes(env, a, kind) == 0
  {
    var signals := Signals(env.cat, Observe(env, a));
    if signals == [] {
      forall kind
        ensures Votes(env, a, kind) == 0
      {
        ScoreMeans(env, a, kind);
      }
    } else {
      var kind := signals[0].kind;
      SupportScores(env.cat, Observe(env, a), kind);
      ScoreMeans(env, a, kind);
      assert Votes(env, a, kind) != 0;
    }
  }

  /** Without votes for any type the neighbour is unknown. */
  lemma NoVotesMeans(env: Env, a: Args, id: NeighborIdentity)
    requires Identifies(env, a, id) && OverrideType(env.cat, a.ip, a.inventory) == ""
    requires forall kind :: Votes(env, a, kind) == 0
    ensures id.deviceType == "unknown" && id.confidence == 0 && id.sources == ["arp"] && id.detection == "arp"
  {
    SignalsIffVotes(env, a);
  }

  /** Otherwise it has the type with most votes, or the one its hostname names where that is
      "server", and the votes for it, capped at 100, are the confidence. */
  lemma VoteMeans(env: Env, a: Args, id: NeighborIdentity) returns (winner: string)
    requires Identifies(env, a, id) && OverrideType(env.cat, a.ip, a.inventory) == ""
    requires exists kind :: Votes(env, a, kind) > 0
    ensures MostVotes(env, a, winner)
    ensures id.deviceType ==
              if winner == "server" && NamesRole(env, a) then HostnameType(env.patterns, a.hostname) else winner
    ensures id.confidence == if Votes(env, a, id.deviceType) < 100 then Votes(env, a, id.deviceType) else 100
  {
    var signals := Signals(env.cat, Observe(env, a));
    SignalsIffVotes(env, a);
    winner := Winner(signals, HostnameType(env.patterns, a.hostname), id);
    ElectedHasMost(env, a, winner);
    ScoreMeans(env, a, id.deviceType);
  }

  lemma Winner(signals: seq<Signal>, hostnameType: string, id: NeighborIdentity) returns (winner: string)
    requires exists w :: Concludes(signals, w, hostnameType, id)
    ensures Elected(signals, winner)
    ensures id.deviceType ==
              if winner == "server" && hostnameType != "unknown" && hostnameType != "server" then hostnameType
              else winner
    ensures var score := Score(signals, id.deviceType);
            id.confidence == if score < 100 then score else 100
  {
    winner :| Concludes(signals, winner, hostnameType, id);
  }

  /** A manual type is final: nothing else but the vendor is looked at. */
  lemma ManualMeans(env: Env, a: Args, id: NeighborIdentity)
    requires Identifies(env, a, id) && OverrideType(env.cat, a.ip, a.inventory) != ""
    ensures id.deviceType == OverrideType(env.cat, a.ip, a.inventory)
    ensures id.confidence == 100 && id.sources == ["manual"] && id.detection == "manual"
  {
  }

  /** Among types with equal votes the one suggested first wins. */
  lemma FirstOfEqualsWins(signals: seq<Signal>, winner: string, i: nat)
    requires Elected(signals, winner) && i < |signals|
    requires Score(signals, signals[i].kind) == Score(signals, winner)
    ensures exists j :: 0 <= j <= i && signals[j].kind == winner
  {
    var kind := signals[i].kind;
    assert Supported(signals, kind);
    var j := FirstSeen(signals, winner);
    assert FirstSeen(signals, kind) <= i;
    assert signals[j].kind == winner && j <= i;
  }

  // ---------------------------------------------------------------- the sources

  /** The place of a source in the order "dhcp", "public-ip", "mac", "oui", "service",
      "interface". */
  function Rank(source: string): nat {
    if source == "dhcp" then 0 else if source == "public-ip" then 1 else if source == "mac" then 2
    else if source == "oui" then 3 else if source == "service" then 4 else 5
  }

  predicate Backs(signals: seq<Signal>, source: string, kind: string) {
    exists s :: s in signals && s.source == source && s.kind == kind
  }

  /** Ranks between lo and hi that never fall. */
  predicate Ranked(signals: seq<Signal>, lo: nat, hi: nat) {
    && (forall i :: 0 <= i < |signals| ==> lo <= Rank(signals[i].source) <= hi)
    && (forall i, j :: 0 <= i < j < |signals| ==> Rank(signals[i].source) <= Rank(signals[j].source))
  }

  lemma RankedConcat(x: seq<Signal>, lo: nat, mid: nat, y: seq<Signal>, hi: nat)
    requires Ranked(x, lo, mid) && Ranked(y, mid, hi) && lo <= mid <= hi
    ensures Ranked(x + y, lo, hi)
  {
  }

  lemma BacksConcat(x: seq<Signal>, y: seq<Signal>, source: string, kind: string)
    ensures Backs(x + y, source, kind) <==> Backs(x, source, kind) || Backs(y, source, kind)
  {
    if Backs(x, source, kind) {
      var s :| s in x && s.source == source && s.kind == kind;
      assert s in x + y;
    }
    if Backs(y, source, kind) {
      var s :| s in y && s.source == source && s.kind == kind;
      assert s in x + y;
    }
  }

  lemma BacksOffer(cat: Catalogue, from: string, offered: string, weight: nat, source: string, kind: string)
    ensures Backs(Offer(cat, from, offered, weight), source, kind) <==>
              from == source && offered == kind && IsNetworkType(cat, kind)
  {
    var signals := Offer(cat, from, offered, weight);
    if IsNetworkType(cat, offered) {
      assert signals[0] in signals;
    }
  }

  lemma {:induction false} ServicesBack(cat: Catalogue, hints: map<string, string>, services: seq<string>,
      source: string, kind: string)
    ensures var signals := ServiceSignals(cat, ServiceTypes(hints, services));
            && Ranked(signals, 4, 4)
            && (Backs(signals, source, kind) <==>
                  source == "service" && IsNetworkType(cat, kind) && ServicesFor(hints, services, kind) > 0)
  {
    if services != [] {
      var last := |services| - 1;
      var types := ServiceTypes(hints, services);
      assert types[..last] == ServiceTypes(hints, services[..last]);
      ServicesBack(cat, hints, services[..last], source, kind);
      var init, one := ServiceSignals(cat, types[..last]), Offer(cat, "service", types[last], W_SERVICE);
      BacksConcat(init, one, source, kind);
      BacksOffer(cat, "service", types[last], W_SERVICE, source, kind);
      RankedConcat(init, 4, 4, one, 4);
    }
  }

  lemma FrontBacks(cat: Catalogue, o: Observations, source: string, kind: string)
    requires IsNetworkType(cat, kind)
    ensures Backs(SignalsBeforeServices(cat, o), source, kind) <==>
              || (source == "dhcp" && o.hostnameType == kind)
              || (source == "public-ip" && o.isPublic && kind == "router_wan")
              || (source == "mac" && o.isVirtualMac && kind == "server")
              || (source == "oui" && o.ouiType == kind)
  {
    var dhcp := Offer(cat, "dhcp", o.hostnameType, W_HOSTNAME);
    var wan := if o.isPublic then Offer(cat, "public-ip", "router_wan", W_PUBLIC_IP) else [];
    var mac := if o.isVirtualMac then Offer(cat, "mac", "server", W_VIRTUAL_MAC) else [];
    var oui := Offer(cat, "oui", o.ouiType, W_OUI);
    assert Backs(dhcp, source, kind) <==> source == "dhcp" && o.hostnameType == kind by {
      BacksOffer(cat, "dhcp", o.hostnameType, W_HOSTNAME, source, kind);
    }
    assert Backs(wan, source, kind) <==> source == "public-ip" && o.isPublic && kind == "router_wan" by {
      BacksOffer(cat, "public-ip", "router_wan", W_PUBLIC_IP, source, kind);
    }
    assert Backs(mac, source, kind) <==> source == "mac" && o.isVirtualMac && kind == "server" by {
      BacksOffer(cat, "mac", "server", W_VIRTUAL_MAC, source, kind);
    }
    assert Backs(oui, source, kind) <==> source == "oui" && o.ouiType == kind by {
      BacksOffer(cat, "oui", o.ouiType, W_OUI, source, kind);
    }
    BacksOfFour(dhcp, wan, mac, oui, source, kind);
    assert SignalsBeforeServices(cat, o) == dhcp + wan + mac + oui;
  }

  lemma BacksOfFour(a: seq<Signal>, b: seq<Signal>, c: seq<Signal>, d: seq<Signal>, source: string, kind: string)
    ensures Backs(a + b + c + d, source, kind) <==>
              Backs(a, source, kind) || Backs(b, source, kind) || Backs(c, source, kind) || Backs(d, source, kind)
  {
    BacksConcat(a, b, source, kind);
    BacksConcat(a + b, c, source, kind);
    BacksConcat(a + b + c, d, source, kind);
  }

  lemma OfferRanked(cat: Catalogue, when: bool, from: string, offered: string, weight: nat)
    ensures Ranked(if when then Offer(cat, from, offered, weight) else [], Rank(from), Rank(from))
  {
  }

  lemma FourRanked(a: seq<Signal>, b: seq<Signal>, c: seq<Signal>, d: seq<Signal>)
    requires Ranked(a, 0, 0) && Ranked(b, 1, 1) && Ranked(c, 2, 2) && Ranked(d, 3, 3)
    ensures Ranked(a + b + c + d, 0, 3)
  {
    RankedConcat(a, 0, 1, b, 1);
    RankedConcat(a + b, 0, 2, c, 2);
    RankedConcat(a + b + c, 0, 3, d, 3);
  }

  lemma FrontRanked(cat: Catalogue, o: Observations)
    ensures Ranked(SignalsBeforeServices(cat, o), 0, 3)
  {
    OfferRanked(cat, true, "dhcp", o.hostnameType, W_HOSTNAME);
    OfferRanked(cat, o.isPublic, "public-ip", "router_wan", W_PUBLIC_IP);
    OfferRanked(cat, o.isVirtualMac, "mac", "server", W_VIRTUAL_MAC);
    OfferRanked(cat, true, "oui", o.ouiType, W_OUI);
    FourRanked(Offer(cat, "dhcp", o.hostnameType, W_HOSTNAME),
               if o.isPublic then Offer(cat, "public-ip", "router_wan", W_PUBLIC_IP) else [],
               if o.isVirtualMac then Offer(cat, "mac", "server", W_VIRTUAL_MAC) else [],
               Offer(cat, "oui", o.ouiType, W_OUI));
  }

  /** What speaks for a type, source by source. */
  ghost predicate Speaks(env: Env, a: Args, source: string, kind: string) {
    var m := NormalizeMac(a.mac);
    || (source == "dhcp" && HostnameType(env.patterns, a.hostname) == kind)
    || (source == "public-ip" && env.isPublicAddress(TrimSpace(a.ip)) && kind == "router_wan")
    || (source == "mac" && (if IsHexAddress(m) then m[..8] else "") in env.virtualOuis && kind == "server")
    || (source == "oui" && VendorEntry(env, m).deviceType == kind)
    || (source == "service" && exists i :: 0 <= i < |a.services| && ServiceType(env.hints, a.services[i]) == kind)
    || (source == "interface" && IsVirtualInterface(a.iface) && kind == "server")
  }

  lemma {:induction false} ServicesForIff(hints: map<string, string>, services: seq<string>, kind: string)
    ensures ServicesFor(hints, services, kind) > 0 <==>
              exists i :: 0 <= i < |services| && ServiceType(hints, services[i]) == kind
  {
    if services != [] {
      var last := |services| - 1;
      ServicesForIff(hints, services[..last], kind);
      if ServicesFor(hints, services[..last], kind) > 0 {
        var i :| 0 <= i < last && ServiceType(hints, services[..last][i]) == kind;
        assert ServiceType(hints, services[i]) == kind;
      }
      if exists i :: 0 <= i < |services| && ServiceType(hints, services[i]) == kind {
        var i :| 0 <= i < |services| && ServiceType(hints, services[i]) == kind;
        assert i == last || ServiceType(hints, services[..last][i]) == kind;
      }
    }
  }

  lemma SignalsBack(cat: Catalogue, hints: map<string, string>, services: seq<string>, o: Observations,
      source: string, kind: string)
    requires IsNetworkType(cat, kind) && o.serviceTypes == ServiceTypes(hints, services)
    ensures Backs(Signals(cat, o), source, kind) <==>
              || Backs(SignalsBeforeServices(cat, o), source, kind)
              || (source == "service" && ServicesFor(hints, services, kind) > 0)
              || (source == "interface" && o.isVirtualIface && kind == "server")
  {
    var front, middle, back :=
      SignalsBeforeServices(cat, o), ServiceSignals(cat, o.serviceTypes), SignalsAfterServices(cat, o);
    ServicesBack(cat, hints, services, source, kind);
    BacksOffer(cat, "interface", "server", W_VIRTUAL_IFACE, source, kind);
    BacksConcat(front, middle, source, kind);
    BacksConcat(front + middle, back, source, kind);
  }

  lemma SignalsRanked(cat: Catalogue, hints: map<string, string>, services: seq<string>, o: Observations)
    requires o.serviceTypes == ServiceTypes(hints, services)
    ensures Ranked(Signals(cat, o), 0, 5)
  {
    var front, middle, back :=
      SignalsBeforeServices(cat, o), ServiceSignals(cat, o.serviceTypes), SignalsAfterServices(cat, o);
    FrontRanked(cat, o);
    ServicesBack(cat, hints, services, "", "");
    RankedConcat(front, 0, 4, middle, 4);
    RankedConcat(front + middle, 0, 5, back, 5);
  }

  lemma BacksMeans(env: Env, a: Args, source: string, kind: string)
    requires IsNetworkType(env.cat, kind)
    ensures Backs(Signals(env.cat, Observe(env, a)), source, kind) <==> Speaks(env, a, source, kind)
  {
    var o := Observe(env, a);
    ObserveMeans(env, a);
    SignalsBack(env.cat, env.hints, a.services, o, source, kind);
    FrontBacks(env.cat, o, source, kind);
    ServicesForIff(env.hints, a.services, kind);
  }

  lemma FaithfulBacks(signals: seq<Signal>, kind: string, sources: seq<string>, source: string)
    requires Faithful(signals, kind, sources)
    ensures source in sources <==> Backs(signals, source, kind)
  {
    if Backs(signals, source, kind) {
      var s :| s in signals && s.source == source && s.kind == kind;
      var j :| 0 <= j < |signals| && signals[j] == s;
      EarliestFrom(signals, kind, source);
    }
  }

  lemma FaithfulAscends(signals: seq<Signal>, kind: string, sources: seq<string>, k: nat, l: nat)
    requires Faithful(signals, kind, sources) && Ranked(signals, 0, 5) && k < l < |sources|
    ensures Rank(sources[k]) <= Rank(sources[l]) && sources[k] != sources[l]
  {
    assert sources[k] in sources && sources[l] in sources;
    var i :| FirstFrom(signals, kind, sources[k], i);
    var j :| FirstFrom(signals, kind, sources[l], j);
    assert i < j;
  }

  /** Where the vote decides, the sources of an identity are exactly what speaks for its
      type, each once and always in the same order, and the first of them is reported. */
  lemma SourcesMeans(env: Env, a: Args, id: NeighborIdentity)
    requires Covers(env.cat, env.patterns) && Identifies(env, a, id)
    requires OverrideType(env.cat, a.ip, a.inventory) == "" && id.deviceType != "unknown"
    ensures forall source :: source in id.sources <==> Speaks(env, a, source, id.deviceType)
    ensures forall k, l :: 0 <= k < l < |id.sources| ==>
              Rank(id.sources[k]) <= Rank(id.sources[l]) && id.sources[k] != id.sources[l]
    ensures id.sources != [] && id.detection == id.sources[0]
  {
    IdentitySound(env, a, id);
    var signals := Signals(env.cat, Observe(env, a));
    forall source
      ensures source in id.sources <==> Speaks(env, a, source, id.deviceType)
    {
      BacksMeans(env, a, source, id.deviceType);
      FaithfulBacks(signals, id.deviceType, id.sources, source);
    }
    SignalsRanked(env.cat, env.hints, a.services, Observe(env, a));
    forall k, l | 0 <= k < l < |id.sources|
      ensures Rank(id.sources[k]) <= Rank(id.sources[l]) && id.sources[k] != id.sources[l]
    {
      FaithfulAscends(signals, id.deviceType, id.sources, k, l);
    }
  }
}
