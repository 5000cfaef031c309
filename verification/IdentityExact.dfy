/** Exactly when the memo is right about given arguments: a finite check on the ways to read
    their key. */
module IdentityExact {
  import opened Text
  import opened DeviceTables
  import opened Identity
  import opened IdentityLaws
  import opened IdentityCache
  import opened IdentityCacheLaws

  /** Fields that the normalisations of the key leave alone. */
  predicate NormalFields(f: seq<string>)
    requires |f| == 6
  {
    f[0] == TrimSpace(f[0]) && f[1] == NormalizeMac(f[1]) && f[2] == TrimSpace(f[2])
    && f[4] == Lower(TrimSpace(f[4])) && f[5] == Lower(f[5])
  }

  function WithFields(f: seq<string>, services: seq<string>): Args
    requires |f| == 6
  {
    Args(f[0], f[1], f[2], f[3], f[4], services)
  }

  lemma NormalizeMacTwice(mac: string)
    ensures NormalizeMac(NormalizeMac(mac)) == NormalizeMac(mac)
  {
    var t := TrimSpace(mac);
    TrimIdempotent(mac, IsSpace);
    TrimMap(t, IsSpace, Colon);
    TrimMap(MapChars(t, Colon), IsSpace, LowerChar);
    assert MapChars(NormalizeMac(mac), Colon) == NormalizeMac(mac);
  }

  lemma FieldsAreNormal(a: Args)
    ensures NormalFields(KeyFields(a))
  {
    TrimIdempotent(a.ip, IsSpace);
    TrimIdempotent(a.iface, IsSpace);
    TrimIdempotent(a.hostname, IsSpace);
    LowerTrimCommute(TrimSpace(a.hostname));
    NormalizeMacTwice(a.mac);
  }

  lemma FieldsOf(f: seq<string>, services: seq<string>)
    requires |f| == 6 && NormalFields(f) && Join(services, ',') == f[5]
    ensures KeyFields(WithFields(f, services)) == f
  {
  }

  /** A way to read the key of a: six normal fields that join to it. */
  ghost predicate Reading(a: Args, f: seq<string>) {
    f in Groupings(Pieces(KeyFields(a), SEPARATOR), SEPARATOR) && |f| == 6 && NormalFields(f)
  }

  lemma ReadingIff(a: Args, f: seq<string>)
    ensures Reading(a, f) <==> |f| == 6 && NormalFields(f) && Join(f, SEPARATOR) == Key(a)
  {
    PiecesAreClean(KeyFields(a), SEPARATOR);
    GroupingIff(Pieces(KeyFields(a), SEPARATOR), SEPARATOR, f);
    JoinEqualIff(KeyFields(a), f, SEPARATOR);
  }

  /** Every service list with the same pieces gives this identity, and the address has no
      manual type.  The lists are finitely many: what matters is which pieces stand alone. */
  ghost predicate Agrees(env: Env, f: seq<string>, id: NeighborIdentity)
    requires |f| == 6
  {
    && OverrideType(env.cat, f[0], f[3]) == ""
    && forall y :: y in Groupings(Split(f[5], ','), ',') ==> Identifies(env, WithFields(f, y), id)
  }

  lemma ServiceGroupings(field: string, y: seq<string>)
    ensures y in Groupings(Split(field, ','), ',') <==> y != [] && Join(y, ',') == field
  {
    PartsAreClean(field, ',');
    GroupingIff(Split(field, ','), ',', y);
    JoinIsIff(y, ',', field);
  }

  /** The groups of one piece. */
  function StandingAlone(y: seq<string>): seq<string> {
    if y == [] then [] else (if ',' in y[0] then [] else [y[0]]) + StandingAlone(y[1..])
  }

  /** Of a grouping only the pieces that stand alone matter to the vote: a group of several
      carries a comma and hints at nothing. */
  lemma {:induction false} OnlyAloneHints(env: Env, y: seq<string>)
    requires PlainHints(env.hints)
    ensures Hinted(env.cat, env.hints, y) == Hinted(env.cat, env.hints, StandingAlone(y))
  {
    if y != [] {
      var group, rest := y[0], y[1..];
      OnlyAloneHints(env, rest);
      assert y == [group] + rest;
      HintedConcat(env.cat, env.hints, [group], rest);
      if ',' in group {
        GroupHintsNothing(env, group);
        assert StandingAlone(y) == StandingAlone(rest);
      } else {
        assert StandingAlone(y) == [group] + StandingAlone(rest);
        HintedConcat(env.cat, env.hints, [group], StandingAlone(rest));
      }
    }
  }

  lemma GroupHintsNothing(env: Env, group: string)
    requires PlainHints(env.hints) && ',' in group
    ensures Hinted(env.cat, env.hints, [group]) == []
  {
    CommaHintsNothing(env.hints, group);
    HintedOne(env.cat, env.hints, group);
    assert !IsNetworkType(env.cat, "") by { assert TrimSpace("") == ""; }
  }

  // ---------------------------------------------------------------- right, if all readings agree

  /** The services of arguments, as their field lists them. */
  function Listed(a: Args): seq<string> {
    if a.services == [] then [""] else LowerAll(a.services)
  }

  lemma ListedJoins(a: Args)
    ensures Listed(a) != [] && Join(Listed(a), ',') == KeyFields(a)[5]
  {
    LowerJoin(a.services);
  }

  lemma ListedHints(env: Env, a: Args)
    requires PlainHints(env.hints)
    ensures Hinted(env.cat, env.hints, Listed(a)) == Hinted(env.cat, env.hints, a.services)
  {
    if a.services == [] {
      CutSignalsIff(env.cat, env.hints, []);
    } else {
      assert LowerAll(LowerAll(a.services)) == LowerAll(a.services) by {
        assert forall s: string :: Lower(Lower(s)) == Lower(s);
      }
      SameCaseHinted(env.cat, env.hints, LowerAll(a.services), a.services);
    }
  }

  /** Arguments and their normal form have the same identity, if no manual type is in play. */
  lemma NormalFormIdentifies(env: Env, b: Args, id: NeighborIdentity)
    requires PlainHints(env.hints)
    requires OverrideType(env.cat, TrimSpace(b.ip), b.inventory) == ""
    requires Identifies(env, WithFields(KeyFields(b), Listed(b)), id)
    ensures Identifies(env, b, id)
  {
    var f := KeyFields(b);
    var c := WithFields(f, Listed(b));
    FieldsAreNormal(b);
    ListedJoins(b);
    FieldsOf(f, Listed(b));
    SameObservations(env, c, b);
    ListedHints(env, b);
    assert SameSignals(env, c, b);
    SameOverride(env, b);
    SameEverything(env, c, b, id);
  }

  lemma ReadingsSuffice(env: Env, a: Args, id: NeighborIdentity)
    requires Covers(env.cat, env.patterns) && PlainHints(env.hints)
    requires forall f :: Reading(a, f) ==> Agrees(env, f, id)
    ensures OnlyIdentity(env, a, id)
  {
    forall b, other | Key(b) == Key(a) && Identifies(env, b, other)
      ensures other == id
    {
      var f := KeyFields(b);
      FieldsAreNormal(b);
      ReadingIff(a, f);
      ListedJoins(b);
      ServiceGroupings(f[5], Listed(b));
      NormalFormIdentifies(env, b, id);
      IdentityUnique(env, b, id, other);
    }
  }

  // ---------------------------------------------------------------- and only if

  lemma ReadingShares(a: Args, f: seq<string>, y: seq<string>)
    requires Reading(a, f) && y in Groupings(Split(f[5], ','), ',')
    ensures KeyFields(WithFields(f, y)) == f && Key(WithFields(f, y)) == Key(a)
  {
    ServiceGroupings(f[5], y);
    FieldsOf(f, y);
    ReadingIff(a, f);
  }

  lemma ReadingIdentifies(env: Env, a: Args, f: seq<string>, y: seq<string>, id: NeighborIdentity)
    requires Covers(env.cat, env.patterns) && OnlyIdentity(env, a, id)
    requires Reading(a, f) && y in Groupings(Split(f[5], ','), ',')
    ensures Identifies(env, WithFields(f, y), id)
  {
    ReadingShares(a, f, y);
    var other := IdentityExists(env, WithFields(f, y));
  }

  /** A manual type would be seen without padding of the address, and missed with it. */
  lemma ReadingIsNotManual(env: Env, a: Args, f: seq<string>, id: NeighborIdentity)
    requires Covers(env.cat, env.patterns) && OnlyIdentity(env, a, id) && Reading(a, f)
    ensures OverrideType(env.cat, f[0], f[3]) == ""
  {
    var y := [f[5]];
    ServiceGroupings(f[5], y);
    ReadingIdentifies(env, a, f, y, id);
    ReadingShares(a, f, y);
    var plain := WithFields(f, y);
    var padded := plain.(ip := " " + f[0]);
    PaddedAddress(f[0]);
    assert KeyFields(padded) == KeyFields(plain);
    var other := IdentityExists(env, padded);
    assert other == id;
    assert padded.(ip := TrimSpace(padded.ip)) == plain;
    TrimmingTheAddress(env, padded, id, id);
  }

  /** The exact condition, for all arguments: the memo is right about them in every run,
      whatever the other calls, if and only if every way to read their key agrees.  Readings
      and service lists are finitely many, so this can be checked before the call. */
  lemma AlwaysRightIff(env: Env, a: Args, id: NeighborIdentity)
    requires Covers(env.cat, env.patterns) && PlainHints(env.hints)
    ensures AlwaysRight(env, a, id) <==> forall f :: Reading(a, f) ==> Agrees(env, f, id)
  {
    TransparentIff(env, a, id);
    if OnlyIdentity(env, a, id) {
      forall f | Reading(a, f)
        ensures Agrees(env, f, id)
      {
        ReadingIsNotManual(env, a, f, id);
        forall y | y in Groupings(Split(f[5], ','), ',')
          ensures Identifies(env, WithFields(f, y), id)
        {
          ReadingIdentifies(env, a, f, y, id);
        }
      }
    }
    if forall f :: Reading(a, f) ==> Agrees(env, f, id) {
      ReadingsSuffice(env, a, id);
    }
  }

  /** Without stray separators there is one reading only. */
  lemma OneReading(a: Args, f: seq<string>)
    requires NoSeparators(a)
    ensures Reading(a, f) <==> f == KeyFields(a)
  {
    FieldsAreNormal(a);
    CleanPieces(KeyFields(a), SEPARATOR);
    PiecesCount(f, SEPARATOR);
    GroupingIff(KeyFields(a), SEPARATOR, f);
  }

  /** For arguments without stray separators: the memo is always right if and only if the
      trimmed address has no manual type and every grouping of the service pieces gives the
      same identity. */
  lemma CleanAlwaysRightIff(env: Env, a: Args, id: NeighborIdentity)
    requires Covers(env.cat, env.patterns) && PlainHints(env.hints) && NoSeparators(a)
    ensures AlwaysRight(env, a, id) <==> Agrees(env, KeyFields(a), id)
  {
    AlwaysRightIff(env, a, id);
    OneReading(a, KeyFields(a));
    forall f
      ensures Reading(a, f) <==> f == KeyFields(a)
    {
      OneReading(a, f);
    }
  }
}
