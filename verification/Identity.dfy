/** Identification of a network neighbour: manual inventory first, then the vote. */
module Identity {
  import opened Text
  import opened DeviceTables
  import opened Classifier
  import opened OuiTable

  /** The tables and the address classification are inputs: what follows holds for all of them. */
  datatype Env = Env(
    cat: Catalogue, patterns: seq<Pattern>, hints: map<string, string>,
    virtualOuis: map<string, string>, oui: map<string, Oui>, isPublicAddress: string -> bool)

  datatype Args = Args(ip: string, mac: string, iface: string, inventory: string, hostname: string,
      services: seq<string>)

  /** Confidence in hundredths. */
  datatype NeighborIdentity = NeighborIdentity(
    deviceType: string, vendor: string, confidence: nat, sources: seq<string>, detection: string)

  const W_OVERRIDE: nat := 100
  const W_HOSTNAME: nat := 65
  const W_PUBLIC_IP: nat := 50
  const W_VIRTUAL_MAC: nat := 60
  const W_OUI: nat := 55
  const W_SERVICE: nat := 35
  const W_VIRTUAL_IFACE: nat := 20

  const NO_OUI := Oui("", "")
  const MANUAL := "manual"

  /** Local, multicast and malformed addresses have no vendor; hypervisors are tried first. */
  function LookupOui(env: Env, mac: string): Oui {
    var prefix := OuiPrefix(mac);
    if prefix == "" then NO_OUI
    else if prefix in env.virtualOuis then Oui(env.virtualOuis[prefix], "server")
    else
      var firstByte := HexValue(prefix[0]) * 16 + HexValue(prefix[1]);
      if firstByte % 2 != 0 || firstByte / 2 % 2 != 0 then NO_OUI
      else if prefix in env.oui then env.oui[prefix] else NO_OUI
  }

  // ---------------------------------------------------------------- manual inventory

  predicate IsInventorySeparator(c: char) {
    c == ',' || c == ';' || c == ' ' || c == '\n' || c == '\t'
  }

  /** The type an inventory entry "IP=type" assigns to an address, or "". */
  function EntryType(cat: Catalogue, ip: string, entry: string): string {
    var eq := FirstIndex(entry, '=');
    if eq == |entry| || TrimSpace(entry[..eq]) != ip then ""
    else
      var t := Lower(TrimSpace(entry[eq + 1..]));
      if IsNetworkType(cat, t) then t else ""
  }

  function FirstOverride(cat: Catalogue, ip: string, entries: seq<string>): string {
    if entries == [] then ""
    else if EntryType(cat, ip, entries[0]) != "" then EntryType(cat, ip, entries[0])
    else FirstOverride(cat, ip, entries[1..])
  }

  function OverrideType(cat: Catalogue, ip: string, inventory: string): string {
    FirstOverride(cat, ip, Fields(inventory, IsInventorySeparator))
  }

  // ---------------------------------------------------------------- signals

  /** What the passive observations suggest. */
  datatype Observations = Observations(
    hostnameType: string, isPublic: bool, isVirtualMac: bool, ouiType: string,
    serviceTypes: seq<string>, isVirtualIface: bool)

  function ServiceTypes(hints: map<string, string>, services: seq<string>): (ts: seq<string>)
    ensures |ts| == |services|
    ensures forall i :: 0 <= i < |services| ==> ts[i] == ServiceType(hints, services[i])
  {
    seq(|services|, i requires 0 <= i < |services| => ServiceType(hints, services[i]))
  }

  function Observe(env: Env, a: Args): Observations {
    Observations(
      HostnameType(env.patterns, a.hostname), env.isPublicAddress(TrimSpace(a.ip)), OuiPrefix(a.mac) in env.virtualOuis,
      LookupOui(env, a.mac).deviceType, ServiceTypes(env.hints, a.services), IsVirtualInterface(a.iface))
  }

  /** A signal is recorded only for a type the catalogue accepts. */
  function Offer(cat: Catalogue, source: string, kind: string, weight: nat): seq<Signal> {
    if IsNetworkType(cat, kind) then [Signal(source, kind, weight)] else []
  }

  function ServiceSignals(cat: Catalogue, types: seq<string>): seq<Signal> {
    if types == [] then []
    else ServiceSignals(cat, types[..|types| - 1]) + Offer(cat, "service", types[|types| - 1], W_SERVICE)
  }

  function SignalsBeforeServices(cat: Catalogue, o: Observations): seq<Signal> {
    Offer(cat, "dhcp", o.hostnameType, W_HOSTNAME)
    + (if o.isPublic then Offer(cat, "public-ip", "router_wan", W_PUBLIC_IP) else [])
    + (if o.isVirtualMac then Offer(cat, "mac", "server", W_VIRTUAL_MAC) else [])
    + Offer(cat, "oui", o.ouiType, W_OUI)
  }

  function SignalsAfterServices(cat: Catalogue, o: Observations): seq<Signal> {
    if o.isVirtualIface then Offer(cat, "interface", "server", W_VIRTUAL_IFACE) else []
  }

  function Signals(cat: Catalogue, o: Observations): seq<Signal> {
    SignalsBeforeServices(cat, o) + ServiceSignals(cat, o.serviceTypes) + SignalsAfterServices(cat, o)
  }

  function Cap(n: nat): nat {
    if n > 100 then 100 else n
  }

  ghost predicate Concludes(signals: seq<Signal>, winner: string, hostnameType: string, id: NeighborIdentity) {
    && Elected(signals, winner)
    && id.deviceType == Settle(winner, hostnameType)
    && id.confidence == Cap(Score(signals, id.deviceType))
    && id.sources == Sources(signals, id.deviceType)
  }

  /** The outcome for a manual type ("" when there is none), a vendor and observations. */
  ghost predicate Outcome(cat: Catalogue, manual: string, vendor: string, o: Observations, id: NeighborIdentity) {
    && id.vendor == vendor
    && id.sources != [] && id.detection == id.sources[0]
    && if manual != "" then
         id.deviceType == manual && id.confidence == W_OVERRIDE && id.sources == [MANUAL]
       else if Signals(cat, o) == [] then
         id.deviceType == UNKNOWN && id.confidence == 0 && id.sources == ["arp"]
       else
         exists winner :: Concludes(Signals(cat, o), winner, o.hostnameType, id)
  }

  /** The identity of a neighbour.  The relation is functional (IdentityUnique). */
  ghost predicate Identifies(env: Env, a: Args, id: NeighborIdentity) {
    Outcome(env.cat, OverrideType(env.cat, a.ip, a.inventory), LookupOui(env, a.mac).vendor, Observe(env, a), id)
  }

  /** A hostname suggests nothing, or a type the catalogue accepts. */
  predicate Credible(cat: Catalogue, o: Observations) {
    o.hostnameType == UNKNOWN || IsNetworkType(cat, o.hostnameType)
  }

  lemma ObserveCredible(env: Env, a: Args)
    requires Covers(env.cat, env.patterns)
    ensures Credible(env.cat, Observe(env, a))
  {
  }

  /** The settled type always has a signal of its own, so its first source exists. */
  lemma SettledSupported(cat: Catalogue, o: Observations, winner: string)
    requires Credible(cat, o) && Elected(Signals(cat, o), winner)
    ensures Supported(Signals(cat, o), Settle(winner, o.hostnameType))
  {
    if o.hostnameType != UNKNOWN {
      assert Offer(cat, "dhcp", o.hostnameType, W_HOSTNAME)[0].kind == o.hostnameType;
      assert Signals(cat, o)[0].kind == o.hostnameType;
    }
  }

  lemma NoMore(signals: seq<Signal>)
    ensures signals + [] == signals
  {
  }

  /** The signals that come before the services. */
  method AddFront(cat: Catalogue, o: Observations) returns (signals: seq<Signal>)
    ensures signals == SignalsBeforeServices(cat, o)
  {
    signals := Offer(cat, "dhcp", o.hostnameType, W_HOSTNAME);
    if o.isPublic {
      signals := signals + Offer(cat, "public-ip", "router_wan", W_PUBLIC_IP);
    } else {
      NoMore(signals);
    }
    if o.isVirtualMac {
      signals := signals + Offer(cat, "mac", "server", W_VIRTUAL_MAC);
    } else {
      NoMore(signals);
    }
    signals := signals + Offer(cat, "oui", o.ouiType, W_OUI);
  }

  /** The loop over the observed services. */
  method AddServices(cat: Catalogue, before: seq<Signal>, types: seq<string>) returns (signals: seq<Signal>)
    ensures signals == before + ServiceSignals(cat, types)
  {
    signals := before;
    for i := 0 to |types|
      invariant signals == before + ServiceSignals(cat, types[..i])
    {
      assert types[..i + 1][..i] == types[..i];
      signals := signals + Offer(cat, "service", types[i], W_SERVICE);
    }
    assert types[..|types|] == types;
  }

  /** The signals in the order the code adds them. */
  method CollectSignals(cat: Catalogue, o: Observations) returns (signals: seq<Signal>)
    ensures signals == Signals(cat, o)
  {
    signals := AddFront(cat, o);
    signals := AddServices(cat, signals, o.serviceTypes);
    if o.isVirtualIface {
      signals := signals + Offer(cat, "interface", "server", W_VIRTUAL_IFACE);
    } else {
      NoMore(signals);
    }
  }

  method ComputeNeighborIdentity(env: Env, a: Args) returns (id: NeighborIdentity)
    requires Covers(env.cat, env.patterns)
    ensures Identifies(env, a, id)
  {
    var vendor := LookupOui(env, a.mac).vendor;
    var manual := OverrideType(env.cat, a.ip, a.inventory);
    if manual != "" {
      return NeighborIdentity(manual, vendor, W_OVERRIDE, [MANUAL], MANUAL);
    }
    var o := Observe(env, a);
    ObserveCredible(env, a);
    id := Classify(env.cat, vendor, o);
  }

  method Classify(cat: Catalogue, vendor: string, o: Observations) returns (id: NeighborIdentity)
    requires Credible(cat, o)
    ensures Outcome(cat, "", vendor, o, id)
  {
    var signals := CollectSignals(cat, o);
    if signals == [] {
      return NeighborIdentity(UNKNOWN, vendor, 0, ["arp"], "arp");
    }
    var winner, scores := Elect(signals);
    ghost var elected := winner;
    if o.hostnameType != UNKNOWN && o.hostnameType != "server" && winner == "server" {
      winner := o.hostnameType;
    }
    SettledSupported(cat, o, elected);
    SourcesFaithful(signals, winner);
    var sources := CollectSources(signals, winner);
    id := NeighborIdentity(winner, vendor, Cap(scores[winner]), sources, sources[0]);
    assert Concludes(signals, elected, o.hostnameType, id);
  }
}
