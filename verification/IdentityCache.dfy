/** The bounded memo of identities and why it is transparent. */
module IdentityCache {
  import opened Text
  import opened Classifier
  import opened DeviceTables
  import opened Identity
  import opened IdentityLaws

  const LIMIT: nat := 4096
  const SEPARATOR: char := '\U{1F}'

  function KeyFields(a: Args): seq<string> {
    [TrimSpace(a.ip), NormalizeMac(a.mac), TrimSpace(a.iface), a.inventory,
     Lower(TrimSpace(a.hostname)), Lower(Join(a.services, ','))]
  }

  function Key(a: Args): string {
    Join(KeyFields(a), SEPARATOR)
  }

  /** The second critical section: a full memo is dropped, then the entry is added. */
  function Remember(
    entries: map<string, NeighborIdentity>, key: string, id: NeighborIdentity
  ): map<string, NeighborIdentity> {
    (if |entries| >= LIMIT then map[] else entries)[key := id]
  }

  /** Hints the comma in a joined list of services cannot touch. */
  predicate PlainHints(hints: map<string, string>) {
    forall h :: h in hints ==> h != "" && ',' !in h
  }

  /** No piece of a service that carries a comma hints at a network type. */
  predicate CommasHarmless(cat: Catalogue, hints: map<string, string>, services: seq<string>) {
    forall s, p | s in services && ',' in s && p in Split(s, ',') :: !IsNetworkType(cat, ServiceType(hints, p))
  }

  /** No separator in any field but the hostname, and an address that is trimmed or has no
      manual type once trimmed. */
  predicate Separable(env: Env, a: Args) {
    && SEPARATOR !in a.ip && SEPARATOR !in a.mac && SEPARATOR !in a.iface && SEPARATOR !in a.inventory
    && (forall i :: 0 <= i < |a.services| ==> SEPARATOR !in a.services[i])
    && TrimmedForOverride(env, a)
  }

  /** Arguments the key tells apart as far as the computation does. */
  predicate Keyed(env: Env, a: Args) {
    Separable(env, a) && CommasHarmless(env.cat, env.hints, a.services)
  }

  predicate TrimmedForOverride(env: Env, a: Args) {
    TrimSpace(a.ip) == a.ip || OverrideType(env.cat, TrimSpace(a.ip), a.inventory) == ""
  }

  /** Every entry is the identity of every argument tuple with that key. */
  ghost predicate Consistent(env: Env, entries: map<string, NeighborIdentity>) {
    && |entries| <= LIMIT
    && forall a :: Keyed(env, a) && Key(a) in entries ==> Identifies(env, a, entries[Key(a)])
  }

  class NeighborCache {
    var entries: map<string, NeighborIdentity>

    constructor ()
      ensures entries == map[]
    {
      entries := map[];
    }

    method Put(key: string, id: NeighborIdentity)
      modifies this
      ensures entries == Remember(old(entries), key, id)
    {
      if |entries| >= LIMIT {
        entries := map[];
      }
      entries := entries[key := id];
    }

    /** Undisturbed, the memo returns what the computation would. */
    method NeighborIdentityFor(env: Env, a: Args) returns (id: NeighborIdentity)
      requires Covers(env.cat, env.patterns) && PlainHints(env.hints)
      requires Keyed(env, a) && Consistent(env, entries)
      modifies this
      ensures Identifies(env, a, id) && Consistent(env, entries)
      ensures entries == if Key(a) in old(entries) then old(entries) else Remember(old(entries), Key(a), id)
    {
      var key := Key(a);
      if key in entries {
        return entries[key];
      }
      id := ComputeNeighborIdentity(env, a);
      RememberKeeps(env, entries, a, id);
      Put(key, id);
    }
  }

  // ---------------------------------------------------------------- when two keys are equal

  /** Exactly when two argument tuples share a key: the pieces of their fields agree. */
  lemma KeyEqualIff(a: Args, b: Args)
    ensures Key(a) == Key(b) <==> Pieces(KeyFields(a), SEPARATOR) == Pieces(KeyFields(b), SEPARATOR)
  {
    JoinEqualIff(KeyFields(a), KeyFields(b), SEPARATOR);
  }

  /** A separator in the hostname can move over to the services. */
  lemma SeparatorMoves(a: Args, b: Args)
    requires var f, g := KeyFields(a), KeyFields(b);
             f[..4] == g[..4] && f[4] + [SEPARATOR] + f[5] == g[4] + [SEPARATOR] + g[5]
    ensures Key(a) == Key(b)
  {
    FourThenTwo(KeyFields(a));
    FourThenTwo(KeyFields(b));
  }

  lemma FourThenTwo(f: seq<string>)
    requires |f| == 6
    ensures Join(f, SEPARATOR) == Join(f[..4] + [f[4] + [SEPARATOR] + f[5]], SEPARATOR)
  {
    var g := f[..4] + [f[4] + [SEPARATOR] + f[5]];
    assert f[5..] == [f[5]] && f[4..][1..] == f[5..] && g[4..] == [g[4]];
    assert Join(f[4..], SEPARATOR) == Join(g[4..], SEPARATOR);
    assert f[3..][1..] == f[4..] && g[3..][1..] == g[4..];
    assert Join(f[3..], SEPARATOR) == Join(g[3..], SEPARATOR);
    assert f[2..][1..] == f[3..] && g[2..][1..] == g[3..] && f[1..][1..] == f[2..] && g[1..][1..] == g[2..];
    assert Join(f[1..], SEPARATOR) == Join(g[1..], SEPARATOR);
  }

  lemma {:induction false} LowerJoin(parts: seq<string>)
    ensures Lower(Join(parts, ',')) == Join(LowerAll(parts), ',')
  {
    if |parts| > 1 {
      LowerJoin(parts[1..]);
      assert LowerAll(parts)[1..] == LowerAll(parts[1..]);
      LowerAround(parts[0], ',', Join(parts[1..], ','));
    }
  }

  /** Exactly when two lists of services make the same field: their pieces between commas
      agree up to case. */
  lemma ServicesFieldEqualIff(x: seq<string>, y: seq<string>)
    ensures Lower(Join(x, ',')) == Lower(Join(y, ',')) <==> LowerAll(Cut(x, ',')) == LowerAll(Cut(y, ','))
  {
    LowerJoin(x);
    LowerJoin(y);
    JoinEqualIff(LowerAll(x), LowerAll(y), ',');
    CutLower(x, ',');
    CutLower(y, ',');
  }

  // ---------------------------------------------------------------- the key is injective

  lemma {:induction false} TrimLeftKeeps(s: string, p: char -> bool, c: char)
    requires c !in s
    ensures c !in TrimLeftBy(s, p)
  {
    if s != "" && p(s[0]) {
      TrimLeftKeeps(s[1..], p, c);
    }
  }

  lemma TrimKeepsOut(s: string, c: char)
    requires c !in s
    ensures c !in TrimSpace(s)
  {
    TrimLeftKeeps(s, IsSpace, c);
    TrimRightEnds(TrimLeftBy(s, IsSpace), IsSpace);
  }

  lemma {:induction false} JoinKeepsOut(parts: seq<string>, sep: char, c: char)
    requires c != sep && forall i :: 0 <= i < |parts| ==> c !in parts[i]
    ensures c !in Join(parts, sep)
  {
    if |parts| > 1 {
      JoinKeepsOut(parts[1..], sep, c);
    }
  }

  lemma KeyFieldsClean(env: Env, a: Args)
    requires Separable(env, a)
    ensures var f := KeyFields(a);
            SEPARATOR !in f[0] && SEPARATOR !in f[1] && SEPARATOR !in f[2] && SEPARATOR !in f[3] && SEPARATOR !in f[5]
  {
    TrimKeepsOut(a.ip, SEPARATOR);
    TrimKeepsOut(a.mac, SEPARATOR);
    TrimKeepsOut(a.iface, SEPARATOR);
    LowerKeepsOut(MapChars(TrimSpace(a.mac), Colon), SEPARATOR);
    JoinKeepsOut(a.services, ',', SEPARATOR);
    LowerKeepsOut(Join(a.services, ','), SEPARATOR);
  }

  lemma Six<T>(f: seq<T>)
    requires |f| == 6
    ensures f == [f[0]] + ([f[1]] + ([f[2]] + ([f[3]] + ([f[4]] + ([f[5]] + [])))))
  {
  }

  lemma Regrouped<T>(f: seq<T>, middle: seq<T>)
    requires |f| == 6
    ensures [f[0]] + ([f[1]] + ([f[2]] + ([f[3]] + (middle + ([f[5]] + []))))) == f[..4] + middle + [f[5]]
  {
  }

  /** With separators in the fifth field only, the pieces are the other fields around it. */
  lemma SixPieces(f: seq<string>)
    requires |f| == 6
    requires SEPARATOR !in f[0] && SEPARATOR !in f[1] && SEPARATOR !in f[2] && SEPARATOR !in f[3] && SEPARATOR !in f[5]
    ensures Pieces(f, SEPARATOR) == f[..4] + Split(f[4], SEPARATOR) + [f[5]]
  {
    var last := [f[5]] + [];
    var two := [f[4]] + last;
    var three := [f[3]] + two;
    var four := [f[2]] + three;
    Six(f);
    PiecesCons(f[5], [], SEPARATOR);
    PiecesCons(f[4], last, SEPARATOR);
    PiecesCons(f[3], two, SEPARATOR);
    PiecesCons(f[2], three, SEPARATOR);
    PiecesCons(f[1], four, SEPARATOR);
    PiecesCons(f[0], [f[1]] + four, SEPARATOR);
    Regrouped(f, Split(f[4], SEPARATOR));
  }

  lemma SixFields(f: seq<string>, g: seq<string>)
    requires |f| == |g| == 6
    requires f[..4] + Split(f[4], SEPARATOR) + [f[5]] == g[..4] + Split(g[4], SEPARATOR) + [g[5]]
    ensures f == g
  {
    var x, y := f[..4] + Split(f[4], SEPARATOR) + [f[5]], g[..4] + Split(g[4], SEPARATOR) + [g[5]];
    assert x[..4] == f[..4] && y[..4] == g[..4];
    assert x[|x| - 1] == f[5] && y[|y| - 1] == g[5];
    assert x[4..|x| - 1] == Split(f[4], SEPARATOR) && y[4..|y| - 1] == Split(g[4], SEPARATOR);
    JoinSplit(f[4], SEPARATOR);
    JoinSplit(g[4], SEPARATOR);
    assert f[0] == f[..4][0] && f[1] == f[..4][1] && f[2] == f[..4][2] && f[3] == f[..4][3];
    assert g[0] == g[..4][0] && g[1] == g[..4][1] && g[2] == g[..4][2] && g[3] == g[..4][3];
  }

  /** The same key means the same normalised fields, and services whose pieces differ in case
      only. */
  lemma KeyInjective(env: Env, a: Args, b: Args)
    requires Separable(env, a) && Separable(env, b) && Key(a) == Key(b)
    ensures KeyFields(a) == KeyFields(b)
    ensures LowerAll(Cut(a.services, ',')) == LowerAll(Cut(b.services, ','))
  {
    KeyFieldsClean(env, a);
    KeyFieldsClean(env, b);
    KeyEqualIff(a, b);
    SixPieces(KeyFields(a));
    SixPieces(KeyFields(b));
    SixFields(KeyFields(a), KeyFields(b));
    assert KeyFields(a)[5] == KeyFields(b)[5];
    ServicesFieldEqualIff(a.services, b.services);
  }

  // ---------------------------------------------------------------- the computation ignores what the key drops

  lemma HostnameIgnoresCase(h: string, k: string)
    requires Lower(TrimSpace(h)) == Lower(TrimSpace(k))
    ensures HostnameName(h) == HostnameName(k)
  {
    TrimMap(TrimSpace(h), IsDot, LowerChar);
    TrimMap(TrimSpace(k), IsDot, LowerChar);
  }

  lemma ServiceIgnoresCase(hints: map<string, string>, s: string, t: string)
    requires Lower(s) == Lower(t)
    ensures ServiceType(hints, s) == ServiceType(hints, t)
  {
    LowerTrimCommute(s);
    LowerTrimCommute(t);
  }

  /** The signals a list of services gives. */
  function Hinted(cat: Catalogue, hints: map<string, string>, services: seq<string>): seq<Signal> {
    ServiceSignals(cat, ServiceTypes(hints, services))
  }

  lemma HintedConcat(cat: Catalogue, hints: map<string, string>, x: seq<string>, y: seq<string>)
    ensures Hinted(cat, hints, x + y) == Hinted(cat, hints, x) + Hinted(cat, hints, y)
  {
    assert ServiceTypes(hints, x + y) == ServiceTypes(hints, x) + ServiceTypes(hints, y);
    ServiceSignalsConcat(cat, ServiceTypes(hints, x), ServiceTypes(hints, y));
  }

  lemma HintedOne(cat: Catalogue, hints: map<string, string>, s: string)
    ensures Hinted(cat, hints, [s]) == Offer(cat, "service", ServiceType(hints, s), W_SERVICE)
  {
    var types := ServiceTypes(hints, [s]);
    assert types[..0] == [] && ServiceSignals(cat, []) == [];
  }

  lemma {:induction false} NothingHintedIff(cat: Catalogue, hints: map<string, string>, services: seq<string>)
    ensures Hinted(cat, hints, services) == []
            <==> forall p :: p in services ==> !IsNetworkType(cat, ServiceType(hints, p))
  {
    if services != [] {
      var init, last := services[..|services| - 1], services[|services| - 1];
      NothingHintedIff(cat, hints, init);
      assert services == init + [last];
      HintedConcat(cat, hints, init, [last]);
      HintedOne(cat, hints, last);
      assert last in services && forall p :: p in services <==> p in init || p == last;
    }
  }

  lemma SameCaseHinted(cat: Catalogue, hints: map<string, string>, x: seq<string>, y: seq<string>)
    requires LowerAll(x) == LowerAll(y)
    ensures Hinted(cat, hints, x) == Hinted(cat, hints, y)
  {
    assert |x| == |LowerAll(x)| == |y|;
    forall i | 0 <= i < |x|
      ensures ServiceTypes(hints, x)[i] == ServiceTypes(hints, y)[i]
    {
      assert LowerAll(x)[i] == LowerAll(y)[i];
      ServiceIgnoresCase(hints, x[i], y[i]);
    }
    assert ServiceTypes(hints, x) == ServiceTypes(hints, y);
  }

  lemma {:induction false} TrimLeftLeaves(s: string, p: char -> bool, c: char)
    requires c in s && !p(c)
    ensures c in TrimLeftBy(s, p)
  {
    if p(s[0]) {
      TrimLeftLeaves(s[1..], p, c);
    }
  }

  lemma {:induction false} TrimRightLeaves(s: string, p: char -> bool, c: char)
    requires c in s && !p(c)
    ensures c in TrimRightBy(s, p)
  {
    if p(s[|s| - 1]) {
      assert s == s[..|s| - 1] + [s[|s| - 1]];
      TrimRightLeaves(s[..|s| - 1], p, c);
    }
  }

  /** A service that carries a comma hints at nothing. */
  lemma CommaHintsNothing(hints: map<string, string>, s: string)
    requires PlainHints(hints) && ',' in s
    ensures ServiceType(hints, s) == ""
  {
    TrimLeftLeaves(s, IsSpace, ',');
    TrimRightLeaves(TrimLeftBy(s, IsSpace), IsSpace, ',');
    var t := TrimSpace(s);
    var i :| 0 <= i < |t| && t[i] == ',';
    assert Lower(t)[i] == ',';
  }

  predicate ServiceHarmless(cat: Catalogue, hints: map<string, string>, s: string) {
    ',' in s ==> forall p :: p in Split(s, ',') ==> !IsNetworkType(cat, ServiceType(hints, p))
  }

  lemma OneSplitIff(cat: Catalogue, hints: map<string, string>, s: string)
    requires PlainHints(hints)
    ensures |Hinted(cat, hints, [s])| <= |Hinted(cat, hints, Split(s, ','))|
    ensures Hinted(cat, hints, [s]) == Hinted(cat, hints, Split(s, ',')) <==> ServiceHarmless(cat, hints, s)
  {
    if ',' in s {
      CommaHintsNothing(hints, s);
      HintedOne(cat, hints, s);
      assert !IsNetworkType(cat, "") by { assert TrimSpace("") == ""; }
      NothingHintedIff(cat, hints, Split(s, ','));
    } else {
      SplitWhole(s, ',');
    }
  }

  lemma BothEqual<T>(a: seq<T>, b: seq<T>, x: seq<T>, y: seq<T>)
    requires |a| <= |x| && |b| <= |y|
    ensures a + b == x + y <==> a == x && b == y
  {
    if a + b == x + y {
      assert |a + b| == |a| + |b| && |x + y| == |x| + |y|;
      assert (a + b)[..|a|] == a && (x + y)[..|x|] == x && (a + b)[|a|..] == b && (x + y)[|x|..] == y;
    }
  }

  /** Splitting the services at their commas changes the signals exactly when a piece of one
      that carries a comma hints at a network type. */
  lemma {:induction false} SplitSignalsIff(cat: Catalogue, hints: map<string, string>, services: seq<string>)
    requires PlainHints(hints)
    ensures |Hinted(cat, hints, services)| <= |Hinted(cat, hints, Pieces(services, ','))|
    ensures Hinted(cat, hints, services) == Hinted(cat, hints, Pieces(services, ','))
            <==> CommasHarmless(cat, hints, services)
  {
    if services != [] {
      var s, rest := services[0], services[1..];
      SplitSignalsIff(cat, hints, rest);
      OneSplitIff(cat, hints, s);
      assert services == [s] + rest;
      HintedConcat(cat, hints, [s], rest);
      HintedConcat(cat, hints, Split(s, ','), Pieces(rest, ','));
      BothEqual(Hinted(cat, hints, [s]), Hinted(cat, hints, rest),
                Hinted(cat, hints, Split(s, ',')), Hinted(cat, hints, Pieces(rest, ',')));
      HarmlessCons(cat, hints, s, rest);
    }
  }

  lemma HarmlessCons(cat: Catalogue, hints: map<string, string>, s: string, rest: seq<string>)
    ensures CommasHarmless(cat, hints, [s] + rest)
            <==> ServiceHarmless(cat, hints, s) && CommasHarmless(cat, hints, rest)
  {
    assert forall t :: t in [s] + rest <==> t == s || t in rest;
  }

  /** The same with the empty list, which the key takes for one empty service. */
  lemma CutSignalsIff(cat: Catalogue, hints: map<string, string>, services: seq<string>)
    requires PlainHints(hints)
    ensures Hinted(cat, hints, services) == Hinted(cat, hints, Cut(services, ','))
            <==> CommasHarmless(cat, hints, services)
  {
    if services == [] {
      assert ServiceType(hints, "") == "" by { assert Lower(TrimSpace("")) == ""; }
      assert !IsNetworkType(cat, "") by { assert TrimSpace("") == ""; }
      NothingHintedIff(cat, hints, [""]);
      assert ServiceTypes(hints, []) == [];
    } else {
      SplitSignalsIff(cat, hints, services);
    }
  }

  lemma {:induction false} UntrimmedNeverMatches(cat: Catalogue, ip: string, entries: seq<string>)
    requires TrimSpace(ip) != ip
    ensures FirstOverride(cat, ip, entries) == ""
  {
    if entries != [] {
      var eq := FirstIndex(entries[0], '=');
      TrimIdempotent(entries[0][..eq], IsSpace);
      UntrimmedNeverMatches(cat, ip, entries[1..]);
    }
  }

  lemma SameOverride(env: Env, a: Args)
    requires TrimmedForOverride(env, a)
    ensures OverrideType(env.cat, a.ip, a.inventory) == OverrideType(env.cat, TrimSpace(a.ip), a.inventory)
  {
    if TrimSpace(a.ip) != a.ip {
      UntrimmedNeverMatches(env.cat, a.ip, Fields(a.inventory, IsInventorySeparator));
    }
  }

  lemma SameOutcome(cat: Catalogue, manual: string, vendor: string, o: Observations, q: Observations,
      id: NeighborIdentity)
    requires q == o.(serviceTypes := q.serviceTypes)
    requires ServiceSignals(cat, o.serviceTypes) == ServiceSignals(cat, q.serviceTypes)
    requires Outcome(cat, manual, vendor, o, id)
    ensures Outcome(cat, manual, vendor, q, id)
  {
    assert Signals(cat, o) == Signals(cat, q);
    if manual == "" && Signals(cat, o) != [] {
      var w :| Concludes(Signals(cat, o), w, o.hostnameType, id);
      assert Concludes(Signals(cat, q), w, q.hostnameType, id);
    }
  }

  lemma SameHardware(env: Env, a: Args, b: Args)
    requires NormalizeMac(a.mac) == NormalizeMac(b.mac)
    ensures OuiPrefix(a.mac) == OuiPrefix(b.mac) && LookupOui(env, a.mac) == LookupOui(env, b.mac)
  {
  }

  lemma SameObservations(env: Env, a: Args, b: Args)
    requires KeyFields(a) == KeyFields(b)
    ensures Observe(env, b) == Observe(env, a).(serviceTypes := ServiceTypes(env.hints, b.services))
    ensures LookupOui(env, a.mac) == LookupOui(env, b.mac)
    ensures TrimSpace(a.ip) == TrimSpace(b.ip) && a.inventory == b.inventory
  {
    var x, y := KeyFields(a), KeyFields(b);
    assert x[0] == y[0] && x[1] == y[1] && x[2] == y[2] && x[3] == y[3] && x[4] == y[4];
    HostnameIgnoresCase(a.hostname, b.hostname);
    SameHardware(env, a, b);
  }

  lemma SameServiceSignals(env: Env, a: Args, b: Args)
    requires PlainHints(env.hints)
    requires Keyed(env, a) && Keyed(env, b) && LowerAll(Cut(a.services, ',')) == LowerAll(Cut(b.services, ','))
    ensures Hinted(env.cat, env.hints, a.services) == Hinted(env.cat, env.hints, b.services)
  {
    CutSignalsIff(env.cat, env.hints, a.services);
    CutSignalsIff(env.cat, env.hints, b.services);
    SameCaseHinted(env.cat, env.hints, Cut(a.services, ','), Cut(b.services, ','));
  }

  /** Arguments with one key have one identity. */
  lemma KeyDetermines(env: Env, a: Args, b: Args, id: NeighborIdentity)
    requires PlainHints(env.hints)
    requires Keyed(env, a) && Keyed(env, b) && Key(a) == Key(b)
    requires Identifies(env, a, id)
    ensures Identifies(env, b, id)
  {
    var manual, vendor := OverrideType(env.cat, a.ip, a.inventory), LookupOui(env, a.mac).vendor;
    assert Outcome(env.cat, manual, vendor, Observe(env, a), id);
    KeyInjective(env, a, b);
    SameObservations(env, a, b);
    assert OverrideType(env.cat, b.ip, b.inventory) == manual by {
      SameOverride(env, a);
      SameOverride(env, b);
    }
    assert ServiceSignals(env.cat, Observe(env, a).serviceTypes)
      == ServiceSignals(env.cat, Observe(env, b).serviceTypes) by {
      SameServiceSignals(env, a, b);
    }
    SameOutcome(env.cat, manual, vendor, Observe(env, a), Observe(env, b), id);
  }

  lemma RememberKeeps(env: Env, entries: map<string, NeighborIdentity>, a: Args, id: NeighborIdentity)
    requires PlainHints(env.hints)
    requires Consistent(env, entries) && Keyed(env, a) && Identifies(env, a, id)
    ensures Consistent(env, Remember(entries, Key(a), id))
  {
    var after := Remember(entries, Key(a), id);
    forall b | Keyed(env, b) && Key(b) in after
      ensures Identifies(env, b, after[Key(b)])
    {
      if Key(b) == Key(a) {
        KeyDetermines(env, a, b, id);
      } else {
        assert Key(b) in entries;
      }
    }
  }

  // ---------------------------------------------------------------- the commas, exactly

  ghost predicate SameSignals(env: Env, a: Args, b: Args) {
    Signals(env.cat, Observe(env, a)) == Signals(env.cat, Observe(env, b))
  }

  /** The same arguments with the services split at their commas. */
  function AtCommas(a: Args): Args {
    a.(services := Cut(a.services, ','))
  }

  lemma AtCommasKeyed(env: Env, a: Args)
    requires Separable(env, a)
    ensures Keyed(env, AtCommas(a)) && Key(AtCommas(a)) == Key(a)
  {
    JoinOfCut(a.services, ',');
    PiecesAreClean(a.services, ',');
    var b := AtCommas(a);
    forall i | 0 <= i < |b.services|
      ensures SEPARATOR !in b.services[i] && ',' !in b.services[i]
    {
      assert b.services[i] in b.services;
    }
  }

  lemma SplitSameSignalsIff(env: Env, a: Args)
    requires PlainHints(env.hints)
    ensures SameSignals(env, a, AtCommas(a)) <==> CommasHarmless(env.cat, env.hints, a.services)
  {
    var o, q := Observe(env, a), Observe(env, AtCommas(a));
    var front, back := SignalsBeforeServices(env.cat, o), SignalsAfterServices(env.cat, o);
    CutSignalsIff(env.cat, env.hints, a.services);
    assert SignalsBeforeServices(env.cat, q) == front && SignalsAfterServices(env.cat, q) == back;
    Between(front, Hinted(env.cat, env.hints, a.services), Hinted(env.cat, env.hints, Cut(a.services, ',')), back);
  }

  lemma Between<T>(front: seq<T>, x: seq<T>, y: seq<T>, back: seq<T>)
    ensures front + x + back == front + y + back <==> x == y
  {
    if front + x + back == front + y + back {
      assert |front + x + back| == |front| + |x| + |back| && |front + y + back| == |front| + |y| + |back|;
      assert (front + x + back)[|front|..|front| + |x|] == x && (front + y + back)[|front|..|front| + |y|] == y;
    }
  }

  lemma KeySignals(env: Env, a: Args, b: Args)
    requires PlainHints(env.hints) && Keyed(env, a) && Keyed(env, b) && Key(a) == Key(b)
    ensures SameSignals(env, a, b)
  {
    KeyInjective(env, a, b);
    SameObservations(env, a, b);
    SameServiceSignals(env, a, b);
  }

  /** For arguments without stray separators, the commas in the services are harmless exactly
      when no keyed arguments with the same key give other signals. */
  lemma CommasHarmlessIff(env: Env, a: Args)
    requires PlainHints(env.hints) && Separable(env, a)
    ensures CommasHarmless(env.cat, env.hints, a.services)
            <==> forall b :: Keyed(env, b) && Key(b) == Key(a) ==> SameSignals(env, a, b)
  {
    if Keyed(env, a) {
      forall b | Keyed(env, b) && Key(b) == Key(a)
        ensures SameSignals(env, a, b)
      {
        KeySignals(env, a, b);
      }
    } else {
      AtCommasKeyed(env, a);
      SplitSameSignalsIff(env, a);
    }
  }

  // ---------------------------------------------------------------- all arguments that share a key

  /** Everything the outcome depends on besides what the key fixes anyway. */
  ghost predicate SameInputs(env: Env, a: Args, b: Args) {
    && SameSignals(env, a, b)
    && OverrideType(env.cat, a.ip, a.inventory) == OverrideType(env.cat, b.ip, b.inventory)
  }

  predicate NoSeparators(a: Args) {
    forall f :: f in KeyFields(a) ==> SEPARATOR !in f
  }

  /** A key with just its own separators is made of one tuple of fields only. */
  lemma CleanKeyFields(a: Args, b: Args)
    requires NoSeparators(a) && Key(b) == Key(a)
    ensures KeyFields(b) == KeyFields(a)
  {
    KeyEqualIff(a, b);
    CleanPieces(KeyFields(a), SEPARATOR);
    PiecesCount(KeyFields(b), SEPARATOR);
  }

  lemma {:induction false} CommaSplits(services: seq<string>, s: string)
    requires s in services && ',' in s
    ensures |Pieces(services, ',')| >= 2
  {
    if services[0] == s {
      assert s[..|s|] == s;
      var first, rest := AtFirst(s, ',');
    } else {
      CommaSplits(services[1..], s);
    }
  }

  /** One piece, or none that hints: then the commas of any list with those pieces are
      harmless. */
  lemma FewPieces(cat: Catalogue, hints: map<string, string>, services: seq<string>)
    requires PlainHints(hints)
    requires |Cut(services, ',')| == 1 || Hinted(cat, hints, Cut(services, ',')) == []
    ensures Hinted(cat, hints, services) == Hinted(cat, hints, Cut(services, ','))
  {
    if services != [] {
      SplitSignalsIff(cat, hints, services);
      if |Cut(services, ',')| == 1 {
        forall s | s in services
          ensures ',' !in s
        {
          if ',' in s {
            CommaSplits(services, s);
          }
        }
      }
    } else {
      CutSignalsIff(cat, hints, services);
    }
  }

  predicate Unambiguous(env: Env, a: Args) {
    && OverrideType(env.cat, TrimSpace(a.ip), a.inventory) == ""
    && (|Cut(a.services, ',')| == 1 || Hinted(env.cat, env.hints, Cut(a.services, ',')) == [])
  }

  lemma UnambiguousShared(env: Env, a: Args, b: Args)
    requires PlainHints(env.hints) && Unambiguous(env, a) && KeyFields(b) == KeyFields(a)
    ensures SameInputs(env, a, b)
  {
    SameObservations(env, a, b);
    assert KeyFields(a)[5] == KeyFields(b)[5];
    ServicesFieldEqualIff(a.services, b.services);
    var x, y := Cut(a.services, ','), Cut(b.services, ',');
    assert |x| == |LowerAll(x)| == |LowerAll(y)| == |y|;
    SameCaseHinted(env.cat, env.hints, x, y);
    FewPieces(env.cat, env.hints, a.services);
    FewPieces(env.cat, env.hints, b.services);
    SameOverride(env, a);
    SameOverride(env, b);
  }

  lemma PaddedAddress(ip: string)
    ensures TrimSpace(" " + TrimSpace(ip)) == TrimSpace(ip) && " " + TrimSpace(ip) != TrimSpace(ip)
  {
    TrimIdempotent(ip, IsSpace);
    assert (" " + TrimSpace(ip))[1..] == TrimSpace(ip);
  }

  /** The address with and without padding share a key; only one of them meets its manual
      type. */
  lemma ManualIsAmbiguous(env: Env, a: Args)
    requires OverrideType(env.cat, TrimSpace(a.ip), a.inventory) != ""
    ensures exists b :: Key(b) == Key(a) && !SameInputs(env, a, b)
  {
    var trimmed, padded := a.(ip := TrimSpace(a.ip)), a.(ip := " " + TrimSpace(a.ip));
    TrimIdempotent(a.ip, IsSpace);
    PaddedAddress(a.ip);
    UntrimmedNeverMatches(env.cat, padded.ip, Fields(a.inventory, IsInventorySeparator));
    assert Key(trimmed) == Key(a) && Key(padded) == Key(a);
    assert !SameInputs(env, a, trimmed) || !SameInputs(env, a, padded);
  }

  /** All services in one, and all their pieces apart, share a key; only the second list gives
      the signals of the pieces. */
  lemma HintedPiecesAreAmbiguous(env: Env, a: Args)
    requires PlainHints(env.hints)
    requires |Cut(a.services, ',')| > 1 && Hinted(env.cat, env.hints, Cut(a.services, ',')) != []
    ensures exists b :: Key(b) == Key(a) && !SameInputs(env, a, b)
  {
    var merged := a.(services := [Join(a.services, ',')]);
    var apart := AtCommas(a);
    var all := Join(a.services, ',');
    JoinOfCut(a.services, ',');
    SplitOfJoin(a.services, ',');
    if ',' !in all {
      SplitWhole(all, ',');
    }
    CommaHintsNothing(env.hints, all);
    HintedOne(env.cat, env.hints, all);
    assert !IsNetworkType(env.cat, "") by { assert TrimSpace("") == ""; }
    assert Key(merged) == Key(a) && Key(apart) == Key(a);
    var o := Observe(env, a);
    Between(SignalsBeforeServices(env.cat, o), Hinted(env.cat, env.hints, merged.services),
            Hinted(env.cat, env.hints, apart.services), SignalsAfterServices(env.cat, o));
    assert !SameSignals(env, merged, apart);
    assert !SameInputs(env, a, merged) || !SameInputs(env, a, apart);
  }

  /** For arguments whose key has no stray separator: everybody who shares the key, with any
      arguments at all, computes from the same inputs exactly when the address has no manual
      type and there is one service piece only, or none that hints at a network type. */
  lemma SharedKeyIff(env: Env, a: Args)
    requires PlainHints(env.hints) && NoSeparators(a)
    ensures (forall b :: Key(b) == Key(a) ==> SameInputs(env, a, b)) <==> Unambiguous(env, a)
  {
    if Unambiguous(env, a) {
      forall b | Key(b) == Key(a)
        ensures SameInputs(env, a, b)
      {
        CleanKeyFields(a, b);
        UnambiguousShared(env, a, b);
      }
    } else if OverrideType(env.cat, TrimSpace(a.ip), a.inventory) != "" {
      ManualIsAmbiguous(env, a);
    } else {
      HintedPiecesAreAmbiguous(env, a);
    }
  }

  // ---------------------------------------------------------------- what shares a key, what is kept

  /** Without separators two tuples share a key exactly when they differ in blanks around
      address, interface and hostname, in the way the hardware address is written, in the case
      of hostname and services, and in how the services are cut at commas at most. */
  lemma SameKeyIff(a: Args, b: Args)
    requires NoSeparators(a) && NoSeparators(b)
    ensures Key(a) == Key(b) <==>
              && TrimSpace(a.ip) == TrimSpace(b.ip)
              && NormalizeMac(a.mac) == NormalizeMac(b.mac)
              && TrimSpace(a.iface) == TrimSpace(b.iface)
              && a.inventory == b.inventory
              && Lower(TrimSpace(a.hostname)) == Lower(TrimSpace(b.hostname))
              && LowerAll(Cut(a.services, ',')) == LowerAll(Cut(b.services, ','))
  {
    ServicesFieldEqualIff(a.services, b.services);
    if Key(a) == Key(b) {
      CleanKeyFields(a, b);
      assert KeyFields(a)[0] == KeyFields(b)[0] && KeyFields(a)[1] == KeyFields(b)[1]
          && KeyFields(a)[2] == KeyFields(b)[2] && KeyFields(a)[3] == KeyFields(b)[3]
          && KeyFields(a)[4] == KeyFields(b)[4] && KeyFields(a)[5] == KeyFields(b)[5];
    }
  }

  /** The memo keeps what it has until it holds 4096 identities, and then starts afresh. */
  lemma RememberMeans(entries: map<string, NeighborIdentity>, key: string, id: NeighborIdentity)
    ensures var r := Remember(entries, key, id);
            && key in r && r[key] == id
            && (|entries| < 4096 ==>
                  r.Keys == entries.Keys + {key} && forall k :: k in entries && k != key ==> r[k] == entries[k])
            && (|entries| >= 4096 ==> r.Keys == {key})
  {
  }
}
