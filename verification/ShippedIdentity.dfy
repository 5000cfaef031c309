/** The identity computation and its memo with the tables the program ships. */
module ShippedIdentity {
  import opened Text
  import opened Classifier
  import opened OuiTable
  import opened DeviceTables
  import opened Identity
  import opened IdentityLaws
  import opened IdentityCache
  import opened IdentityCacheLaws
  import opened IdentityMeaning
  import DeviceMeaning

  /** The shipped tables; the vendor table and the address classification stay open. */
  function Shipped(oui: map<string, Oui>, isPublicAddress: string -> bool): Env {
    Env(SHIPPED, HOSTNAME_PATTERNS, SERVICE_HINTS, VIRTUAL_OUIS, oui, isPublicAddress)
  }

  /** No hint is empty or carries a comma. */
  lemma ShippedPlain()
    ensures PlainHints(SERVICE_HINTS)
  {
  }

  /** What an identity means, for the shipped tables. */
  lemma ShippedSound(oui: map<string, Oui>, isPublicAddress: string -> bool, a: Args, id: NeighborIdentity)
    requires Identifies(Shipped(oui, isPublicAddress), a, id)
    ensures id.deviceType == UNKNOWN || IsNetworkType(SHIPPED, id.deviceType)
    ensures if id.deviceType == UNKNOWN then id.confidence == 0 else 0 < id.confidence <= 100
    ensures OverrideType(SHIPPED, a.ip, a.inventory) == "" ==> MANUAL !in id.sources
    ensures OverrideType(SHIPPED, a.ip, a.inventory) == "" && id.deviceType != UNKNOWN ==>
              var signals := Signals(SHIPPED, Observe(Shipped(oui, isPublicAddress), a));
              && Faithful(signals, id.deviceType, id.sources)
              && (Elected(signals, id.deviceType)
                  || (Elected(signals, "server") && id.deviceType == HostnameType(HOSTNAME_PATTERNS, a.hostname)))
  {
    ShippedCovers();
    IdentitySound(Shipped(oui, isPublicAddress), a, id);
  }

  /** The memo is transparent for the shipped tables. */
  lemma ShippedTransparent(oui: map<string, Oui>, isPublicAddress: string -> bool,
                           trace: seq<System>, es: seq<Event>, n: nat, id: NeighborIdentity)
    requires Run(Shipped(oui, isPublicAddress), trace, es)
    requires forall a :: Called(es, |es|, a) ==> Keyed(Shipped(oui, isPublicAddress), a)
    requires n < |es| && es[n].Begin? && Key(es[n].args) in trace[n].entries
    requires Identifies(Shipped(oui, isPublicAddress), es[n].args, id)
    ensures trace[n].entries[Key(es[n].args)] == id
  {
    ShippedPlain();
    CacheTransparent(Shipped(oui, isPublicAddress), trace, es, n, id);
  }

  /** The program passes no services today: then only separators and a padded address can
      matter. */
  lemma WithoutServices(oui: map<string, Oui>, isPublicAddress: string -> bool, a: Args)
    requires a.services == []
    ensures Keyed(Shipped(oui, isPublicAddress), a) <==> Separable(Shipped(oui, isPublicAddress), a)
  {
  }

  // ---------------------------------------------------------------- a guest

  const GUEST := "52:54:00:12:34:56"

  lemma GuestIsNormal()
    ensures NormalizeMac(GUEST) == GUEST
  {
    DeviceMeaning.BareIsTrimmed(GUEST);
    var m := NormalizeMac(GUEST);
    assert |m| == |GUEST|;
    forall i | 0 <= i < |GUEST|
      ensures m[i] == GUEST[i]
    {
      DeviceMeaning.NormalizeMacMeans(GUEST, i);
      assert LowerChar(GUEST[i]) == GUEST[i] && GUEST[i] != '-';
    }
  }

  lemma GuestIsHex()
    ensures IsHexAddress(GUEST) && GUEST[..8] == "52:54:00"
  {
    assert forall i :: 0 <= i < 17 ==> if i % 3 == 2 then GUEST[i] == ':' else '0' <= GUEST[i] <= '9';
  }

  lemma GuestIsKnown()
    ensures "52:54:00" in VIRTUAL_OUIS && VIRTUAL_OUIS["52:54:00"] == "QEMU/KVM"
  {
    var parallels, hyperV := "00:1c:42", "00:15:5d";
    assert parallels[0] == '0' && hyperV[0] == '0' && "52:54:00"[0] == '5';
  }

  lemma GuestAddress()
    ensures NormalizeMac(GUEST) == GUEST && IsHexAddress(GUEST) && GUEST[..8] == "52:54:00"
    ensures "52:54:00" in VIRTUAL_OUIS && VIRTUAL_OUIS["52:54:00"] == "QEMU/KVM"
  {
    GuestIsNormal();
    GuestIsHex();
    GuestIsKnown();
  }

  lemma NoGuestInterface()
    ensures !IsVirtualInterface("eth0")
  {
    DeviceMeaning.BareIsTrimmed("eth0");
    assert Lower("eth0") == "eth0";
  }

  lemma GuestVotes(env: Env, a: Args, kind: string)
    requires env.cat == SHIPPED && env.virtualOuis == VIRTUAL_OUIS && !env.isPublicAddress(TrimSpace(a.ip))
    requires a == Args(a.ip, GUEST, "eth0", "", "", [])
    ensures Votes(env, a, kind) == if kind == "server" then 115 else 0
    ensures VendorEntry(env, NormalizeMac(a.mac)) == Oui("QEMU/KVM", "server")
  {
    GuestAddress();
    NoGuestInterface();
    DeviceMeaning.NoHostname(env.patterns);
    ServerIsNetworkType();
    UnknownNotNetwork(SHIPPED);
  }

  lemma OneOfTwo(sources: seq<string>, i: nat, j: nat, x: nat)
    requires forall s :: s in sources ==> s == "mac" || s == "oui"
    requires forall k, l :: 0 <= k < l < |sources| ==> sources[k] != sources[l]
    requires i < |sources| && j < |sources| && x < |sources| && sources[i] == "mac" && sources[j] == "oui"
    ensures x == i || x == j
  {
    assert sources[x] in sources;
    if x < i {
      assert sources[x] != sources[i];
    }
    if x < j {
      assert sources[x] != sources[j];
    }
  }

  /** Sources in order: each once, in the order of their ranks. */
  lemma MacThenOui(sources: seq<string>)
    requires forall s :: s in sources <==> s == "mac" || s == "oui"
    requires forall k, l :: 0 <= k < l < |sources| ==> Rank(sources[k]) <= Rank(sources[l]) && sources[k] != sources[l]
    ensures sources == ["mac", "oui"]
  {
    assert "mac" in sources && "oui" in sources;
    var i :| 0 <= i < |sources| && sources[i] == "mac";
    var j :| 0 <= j < |sources| && sources[j] == "oui";
    assert i < j;
    OneOfTwo(sources, i, j, 0);
    OneOfTwo(sources, i, j, 1);
    if |sources| > 2 {
      OneOfTwo(sources, i, j, 2);
    }
  }

  /** A virtual machine of which only a private address and the hardware address are known is
      a server of its hypervisor, beyond doubt, on the word of the address. */
  lemma QemuGuest(oui: map<string, Oui>, isPublicAddress: string -> bool, ip: string, id: NeighborIdentity)
    requires !isPublicAddress(TrimSpace(ip))
    requires Identifies(Shipped(oui, isPublicAddress), Args(ip, "52:54:00:12:34:56", "eth0", "", "", []), id)
    ensures id == NeighborIdentity("server", "QEMU/KVM", 100, ["mac", "oui"], "mac")
  {
    var env, a := Shipped(oui, isPublicAddress), Args(ip, GUEST, "eth0", "", "", []);
    assert Votes(env, a, "server") == 115 by {
      GuestVotes(env, a, "server");
    }
    assert OverrideType(env.cat, a.ip, "") == "" by {
      assert Fields("", IsInventorySeparator) == [];
    }
    GuestAddress();
    VendorMeans(env, a, id);
    var winner := VoteMeans(env, a, id);
    GuestVotes(env, a, winner);
    DeviceMeaning.NoHostname(env.patterns);
    assert id.deviceType == "server" && id.confidence == 100;
    GuestSources(env, a, id);
  }

  lemma GuestSources(env: Env, a: Args, id: NeighborIdentity)
    requires env.cat == SHIPPED && env.patterns == HOSTNAME_PATTERNS && env.virtualOuis == VIRTUAL_OUIS
    requires !env.isPublicAddress(TrimSpace(a.ip)) && a == Args(a.ip, GUEST, "eth0", "", "", [])
    requires Identifies(env, a, id) && OverrideType(env.cat, a.ip, "") == "" && id.deviceType == "server"
    ensures id.sources == ["mac", "oui"] && id.detection == "mac"
  {
    ShippedCovers();
    SourcesMeans(env, a, id);
    GuestAddress();
    NoGuestInterface();
    GuestVotes(env, a, "server");
    DeviceMeaning.NoHostname(env.patterns);
    MacThenOui(id.sources);
  }

  // ---------------------------------------------------------------- two collisions

  /** What is left when nothing but a hostname and services is known. */
  function Seen(hostname: string, services: seq<string>): Args {
    Args("", "", "", "", hostname, services)
  }

  lemma ObserveSeen(env: Env, hostname: string, services: seq<string>)
    requires !env.isPublicAddress("") && "" !in env.virtualOuis
    ensures Observe(env, Seen(hostname, services))
            == Observations(HostnameType(env.patterns, hostname), false, false, "",
                            ServiceTypes(env.hints, services), false)
    ensures OverrideType(env.cat, "", "") == ""
  {
    assert TrimSpace("") == "" && Lower("") == "" && Split("", ':') == [""];
    assert OuiPrefix("") == "";
    assert !IsVirtualInterface("");
  }

  lemma SignalsOfSeen(cat: Catalogue, kind: string, types: seq<string>)
    ensures Signals(cat, Observations(kind, false, false, "", types, false))
            == Offer(cat, "dhcp", kind, W_HOSTNAME) + ServiceSignals(cat, types)
  {
    assert !IsNetworkType(cat, "") by { assert TrimSpace("") == ""; }
    var front := Offer(cat, "dhcp", kind, W_HOSTNAME);
    NoMore(front);
    NoMore(front + ServiceSignals(cat, types));
  }

  lemma NoEmptyPrefix()
    ensures "" !in VIRTUAL_OUIS
  {
  }

  lemma SeenKnownIff(oui: map<string, Oui>, isPublicAddress: string -> bool, hostname: string, services: seq<string>,
      id: NeighborIdentity)
    requires !isPublicAddress("") && Identifies(Shipped(oui, isPublicAddress), Seen(hostname, services), id)
    ensures id.deviceType == UNKNOWN <==>
              !IsNetworkType(SHIPPED, HostnameType(HOSTNAME_PATTERNS, hostname))
                  && Hinted(SHIPPED, SERVICE_HINTS, services) == []
  {
    NoEmptyPrefix();
    ShippedCovers();
    KnownIff(Shipped(oui, isPublicAddress), hostname, services, id);
  }

  lemma KnownIff(env: Env, hostname: string, services: seq<string>, id: NeighborIdentity)
    requires Covers(env.cat, env.patterns) && !env.isPublicAddress("") && "" !in env.virtualOuis
    requires Identifies(env, Seen(hostname, services), id)
    ensures id.deviceType == UNKNOWN <==>
              !IsNetworkType(env.cat, HostnameType(env.patterns, hostname))
                  && Hinted(env.cat, env.hints, services) == []
  {
    var a := Seen(hostname, services);
    ObserveSeen(env, hostname, services);
    SignalsOfSeen(env.cat, HostnameType(env.patterns, hostname), ServiceTypes(env.hints, services));
    ObserveCredible(env, a);
    UnknownWithoutSignals(env.cat, LookupOui(env, a.mac).vendor, Observe(env, a), id);
  }

  lemma ServerIsNetworkType()
    ensures IsNetworkType(SHIPPED, "server")
  {
    NetworkTypeWhen(SHIPPED, "server");
  }

  lemma SshHints()
    ensures Hinted(SHIPPED, SERVICE_HINTS, ["ssh", "rdp"]) != []
  {
    NormalStays("ssh");
    assert ServiceType(SERVICE_HINTS, "ssh") == "server";
    ServerIsNetworkType();
    NothingHintedIff(SHIPPED, SERVICE_HINTS, ["ssh", "rdp"]);
    assert "ssh" in ["ssh", "rdp"];
  }

  lemma JoinedHintsNothing()
    ensures Hinted(SHIPPED, SERVICE_HINTS, ["ssh,rdp"]) == []
  {
    assert "ssh,rdp"[3] == ',';
    ShippedPlain();
    CommaHintsNothing(SERVICE_HINTS, "ssh,rdp");
    HintedOne(SHIPPED, SERVICE_HINTS, "ssh,rdp");
    assert !IsNetworkType(SHIPPED, "") by { assert TrimSpace("") == ""; }
  }

  lemma CommaKeys()
    ensures Key(Seen("", ["ssh,rdp"])) == Key(Seen("", ["ssh", "rdp"]))
  {
    assert Join(["ssh", "rdp"], ',') == "ssh,rdp" by { assert ["ssh", "rdp"][1..] == ["rdp"]; }
    assert Join(["ssh,rdp"], ',') == "ssh,rdp";
  }

  lemma JoinedIsUnknown(oui: map<string, Oui>, isPublicAddress: string -> bool, x: NeighborIdentity)
    requires !isPublicAddress("") && Identifies(Shipped(oui, isPublicAddress), Seen("", ["ssh,rdp"]), x)
    ensures x.deviceType == UNKNOWN
  {
    EmptyHostname();
    JoinedHintsNothing();
    SeenKnownIff(oui, isPublicAddress, "", ["ssh,rdp"], x);
  }

  lemma ApartIsKnown(oui: map<string, Oui>, isPublicAddress: string -> bool, y: NeighborIdentity)
    requires !isPublicAddress("") && Identifies(Shipped(oui, isPublicAddress), Seen("", ["ssh", "rdp"]), y)
    ensures y.deviceType != UNKNOWN
  {
    SshHints();
    SeenKnownIff(oui, isPublicAddress, "", ["ssh", "rdp"], y);
  }

  /** A comma inside a service: two neighbours share a key and have different identities. */
  lemma CommaCollision(oui: map<string, Oui>, isPublicAddress: string -> bool, x: NeighborIdentity, y: NeighborIdentity)
    requires !isPublicAddress("")
    requires Identifies(Shipped(oui, isPublicAddress), Seen("", ["ssh,rdp"]), x)
    requires Identifies(Shipped(oui, isPublicAddress), Seen("", ["ssh", "rdp"]), y)
    ensures Key(Seen("", ["ssh,rdp"])) == Key(Seen("", ["ssh", "rdp"])) && x != y
  {
    CommaKeys();
    JoinedIsUnknown(oui, isPublicAddress, x);
    ApartIsKnown(oui, isPublicAddress, y);
  }

  // A separator that moves between the hostname and the services.

  lemma PatternWords(i: nat, w: string)
    requires i < |HOSTNAME_PATTERNS| && w in HOSTNAME_PATTERNS[i].words
    ensures |w| >= 2
  {
  }

  /** A name of at most one letter is too short for every pattern. */
  lemma ShortHostname(name: string)
    requires |name| <= 1 && !IsHostSeparator('h') && (name == "" || name == "h")
    ensures FirstMatch(HOSTNAME_PATTERNS, name) == UNKNOWN
  {
    forall i | 0 <= i < |HOSTNAME_PATTERNS|
      ensures !Matches(HOSTNAME_PATTERNS[i], name)
    {
      forall w | w in HOSTNAME_PATTERNS[i].words
        ensures !HostnameContains(name, w)
      {
        PatternWords(i, w);
        ShortFields(name);
      }
    }
    NoPatternMatches(HOSTNAME_PATTERNS, name);
  }

  lemma ShortFields(name: string)
    requires name == "" || name == "h"
    ensures forall f :: f in Fields(name, IsHostSeparator) ==> |f| <= 1
  {
    if name == "h" {
      assert TrimLeftBy("h", IsHostSeparator) == "h";
      assert "h"[1..] == "" && FieldLength("h", IsHostSeparator) == 1;
      assert Fields("", IsHostSeparator) == [];
    }
  }

  lemma EmptyHostname()
    ensures HostnameType(HOSTNAME_PATTERNS, "") == UNKNOWN && !IsNetworkType(SHIPPED, UNKNOWN)
  {
    assert HostnameName("") == "";
    ShortHostname("");
    UnknownNotNetwork(SHIPPED);
  }

  lemma {:induction false} MatchFound(patterns: seq<Pattern>, name: string, i: nat) returns (j: nat)
    requires i < |patterns| && Matches(patterns[i], name)
    ensures j < |patterns| && FirstMatch(patterns, name) == patterns[j].deviceType
  {
    if Matches(patterns[0], name) {
      j := 0;
    } else {
      j := MatchFound(patterns[1..], name, i - 1);
      j := j + 1;
    }
  }

  const MOVING := "h\U{1F}synology"
  const TRAILING := "synology\U{1F}"

  lemma MovingName()
    ensures HostnameName(MOVING) == MOVING
  {
    NormalStays(MOVING);
    assert TrimSpace(MOVING) == MOVING && TrimBy(MOVING, IsDot) == MOVING;
  }

  lemma SynologyOccurs()
    ensures HostnameContains(MOVING, "synology")
  {
    assert MOVING[2..10] == "synology";
    assert OccursAt(MOVING, "synology", 2);
  }

  lemma SynologyIsAWord()
    ensures |HOSTNAME_PATTERNS| > 5 && "synology" in HOSTNAME_PATTERNS[5].words
  {
  }

  lemma MovingHostname()
    ensures IsNetworkType(SHIPPED, HostnameType(HOSTNAME_PATTERNS, MOVING))
  {
    MovingName();
    SynologyOccurs();
    SynologyIsAWord();
    assert Matches(HOSTNAME_PATTERNS[5], MOVING);
    var j := MatchFound(HOSTNAME_PATTERNS, MOVING, 5);
    HostnameTypeIsNetworkType(j);
  }

  lemma PlainHostname()
    ensures HostnameType(HOSTNAME_PATTERNS, "h") == UNKNOWN && !IsNetworkType(SHIPPED, UNKNOWN)
  {
    NormalStays("h");
    assert HostnameName("h") == "h";
    ShortHostname("h");
    UnknownNotNetwork(SHIPPED);
  }

  lemma NoSeparatorHints()
    ensures forall h :: h in SERVICE_HINTS ==> SEPARATOR !in h
  {
  }

  lemma TrailingHintsNothing()
    ensures Hinted(SHIPPED, SERVICE_HINTS, [TRAILING]) == []
  {
    NormalStays(TRAILING);
    assert TRAILING[8] == SEPARATOR;
    NoSeparatorHints();
    HintedOne(SHIPPED, SERVICE_HINTS, TRAILING);
    assert !IsNetworkType(SHIPPED, "") by { assert TrimSpace("") == ""; }
  }

  lemma MovingKeys()
    ensures Key(Seen(MOVING, [""])) == Key(Seen("h", [TRAILING]))
  {
    var a, b := Seen(MOVING, [""]), Seen("h", [TRAILING]);
    NormalStays(MOVING);
    NormalStays("h");
    NormalStays(TRAILING);
    assert Lower("") == "" && Lower(TRAILING) == TRAILING;
    assert KeyFields(a)[4] == MOVING && KeyFields(a)[5] == "" && KeyFields(b)[4] == "h" && KeyFields(b)[5] == TRAILING;
    assert MOVING + [SEPARATOR] + "" == "h" + [SEPARATOR] + TRAILING;
    SeparatorMoves(a, b);
  }

  lemma MovingIsKnown(oui: map<string, Oui>, isPublicAddress: string -> bool, x: NeighborIdentity)
    requires !isPublicAddress("") && Identifies(Shipped(oui, isPublicAddress), Seen(MOVING, [""]), x)
    ensures x.deviceType != UNKNOWN
  {
    MovingHostname();
    SeenKnownIff(oui, isPublicAddress, MOVING, [""], x);
  }

  lemma TrailingIsUnknown(oui: map<string, Oui>, isPublicAddress: string -> bool, y: NeighborIdentity)
    requires !isPublicAddress("") && Identifies(Shipped(oui, isPublicAddress), Seen("h", [TRAILING]), y)
    ensures y.deviceType == UNKNOWN
  {
    PlainHostname();
    TrailingHintsNothing();
    SeenKnownIff(oui, isPublicAddress, "h", [TRAILING], y);
  }

  /** A separator inside a hostname and a service: two neighbours share a key and have
      different identities. */
  lemma SeparatorCollision(oui: map<string, Oui>, isPublicAddress: string -> bool, x: NeighborIdentity,
      y: NeighborIdentity)
    requires !isPublicAddress("")
    requires Identifies(Shipped(oui, isPublicAddress), Seen(MOVING, [""]), x)
    requires Identifies(Shipped(oui, isPublicAddress), Seen("h", [TRAILING]), y)
    ensures Key(Seen(MOVING, [""])) == Key(Seen("h", [TRAILING])) && x != y
  {
    MovingKeys();
    MovingIsKnown(oui, isPublicAddress, x);
    TrailingIsUnknown(oui, isPublicAddress, y);
  }
}
