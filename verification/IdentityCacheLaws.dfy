/** The memo under every interleaving of its two critical sections. */
module IdentityCacheLaws {
  import opened Text
  import opened DeviceTables
  import opened Identity
  import opened IdentityLaws
  import opened IdentityCache

  /** A call either finds its key at once, or computes between its two critical sections. */
  datatype Event =
    | Begin(thread: nat, args: Args)
    | Finish(thread: nat, id: NeighborIdentity)

  datatype System = System(entries: map<string, NeighborIdentity>, computing: map<nat, Args>)

  ghost predicate Enabled(env: Env, s: System, e: Event) {
    match e
    case Begin(thread, _) => thread !in s.computing
    case Finish(thread, id) => thread in s.computing && Identifies(env, s.computing[thread], id)
  }

  ghost function Step(env: Env, s: System, e: Event): System
    requires Enabled(env, s, e)
  {
    match e
    case Begin(thread, args) =>
      if Key(args) in s.entries then s else s.(computing := s.computing[thread := args])
    case Finish(thread, id) =>
      System(Remember(s.entries, Key(s.computing[thread]), id), s.computing - {thread})
  }

  ghost predicate Moves(env: Env, trace: seq<System>, es: seq<Event>, i: nat)
    requires i < |es| < |trace|
  {
    Enabled(env, trace[i], es[i]) && trace[i + 1] == Step(env, trace[i], es[i])
  }

  /** Any calls whatever, in any interleaving. */
  ghost predicate Run(env: Env, trace: seq<System>, es: seq<Event>) {
    && |trace| == |es| + 1
    && trace[0] == System(map[], map[])
    && (forall i :: 0 <= i < |es| ==> Moves(env, trace, es, i))
  }

  predicate Called(es: seq<Event>, n: nat, a: Args)
    requires n <= |es|
  {
    exists m :: 0 <= m < n && es[m].Begin? && es[m].args == a
  }

  ghost predicate Computed(env: Env, es: seq<Event>, n: nat, key: string, id: NeighborIdentity)
    requires n <= |es|
  {
    exists a :: Called(es, n, a) && Key(a) == key && Identifies(env, a, id)
  }

  /** Every entry was computed for arguments of an earlier call with that key. */
  ghost predicate Inv(env: Env, es: seq<Event>, n: nat, s: System)
    requires n <= |es|
  {
    && |s.entries| <= LIMIT
    && (forall key :: key in s.entries ==> Computed(env, es, n, key, s.entries[key]))
    && (forall t :: t in s.computing ==> Called(es, n, s.computing[t]))
  }

  lemma CalledLater(es: seq<Event>, n: nat, a: Args)
    requires n < |es| && Called(es, n, a)
    ensures Called(es, n + 1, a)
  {
  }

  lemma ComputedLater(env: Env, es: seq<Event>, n: nat, key: string, id: NeighborIdentity)
    requires n < |es| && Computed(env, es, n, key, id)
    ensures Computed(env, es, n + 1, key, id)
  {
    var a :| Called(es, n, a) && Key(a) == key && Identifies(env, a, id);
    CalledLater(es, n, a);
  }

  lemma AllLater(env: Env, es: seq<Event>, n: nat, s: System)
    requires n < |es| && Inv(env, es, n, s)
    ensures Inv(env, es, n + 1, s)
  {
    forall key | key in s.entries
      ensures Computed(env, es, n + 1, key, s.entries[key])
    {
      ComputedLater(env, es, n, key, s.entries[key]);
    }
    forall t | t in s.computing
      ensures Called(es, n + 1, s.computing[t])
    {
      CalledLater(es, n, s.computing[t]);
    }
  }

  lemma AddComputing(env: Env, es: seq<Event>, n: nat, s: System, thread: nat, a: Args)
    requires n <= |es| && Inv(env, es, n, s) && Called(es, n, a)
    ensures Inv(env, es, n, s.(computing := s.computing[thread := a]))
  {
    var computing := s.computing[thread := a];
    forall t | t in computing
      ensures Called(es, n, computing[t])
    {
      if t != thread {
        assert computing[t] == s.computing[t];
      }
    }
  }

  lemma BeginKeeps(env: Env, es: seq<Event>, n: nat, s: System)
    requires n < |es| && es[n].Begin? && Enabled(env, s, es[n]) && Inv(env, es, n, s)
    ensures Inv(env, es, n + 1, Step(env, s, es[n]))
  {
    AllLater(env, es, n, s);
    assert Called(es, n + 1, es[n].args);
    if Key(es[n].args) !in s.entries {
      AddComputing(env, es, n + 1, s, es[n].thread, es[n].args);
    }
  }

  lemma RememberComputed(env: Env, es: seq<Event>, n: nat, entries: map<string, NeighborIdentity>, a: Args,
      id: NeighborIdentity)
    requires n <= |es| && Called(es, n, a) && Identifies(env, a, id) && |entries| <= LIMIT
    requires forall key :: key in entries ==> Computed(env, es, n, key, entries[key])
    ensures var after := Remember(entries, Key(a), id);
            |after| <= LIMIT && forall key :: key in after ==> Computed(env, es, n, key, after[key])
  {
    assert Computed(env, es, n, Key(a), id);
  }

  lemma FinishKeeps(env: Env, es: seq<Event>, n: nat, s: System)
    requires n < |es| && es[n].Finish? && Enabled(env, s, es[n]) && Inv(env, es, n, s)
    ensures Inv(env, es, n + 1, Step(env, s, es[n]))
  {
    AllLater(env, es, n, s);
    RememberComputed(env, es, n + 1, s.entries, s.computing[es[n].thread], es[n].id);
  }

  lemma MoveKeeps(env: Env, trace: seq<System>, es: seq<Event>, n: nat)
    requires n < |es| < |trace| && Moves(env, trace, es, n) && Inv(env, es, n, trace[n])
    ensures Inv(env, es, n + 1, trace[n + 1])
  {
    if es[n].Begin? {
      BeginKeeps(env, es, n, trace[n]);
    } else {
      FinishKeeps(env, es, n, trace[n]);
    }
  }

  /** In every interleaving of calls with any arguments, every entry is the identity of the
      arguments of an earlier call with its key. */
  lemma Reachable(env: Env, trace: seq<System>, es: seq<Event>, n: nat)
    requires Run(env, trace, es) && n <= |es|
    ensures Inv(env, es, n, trace[n])
  {
    for i := 0 to n
      invariant Inv(env, es, i, trace[i])
    {
      assert Moves(env, trace, es, i);
      MoveKeeps(env, trace, es, i);
    }
  }

  /** A call that finds its key gets the identity an earlier call with that key computed. */
  lemma HitComesFrom(env: Env, trace: seq<System>, es: seq<Event>, n: nat, key: string) returns (a: Args)
    requires Run(env, trace, es) && n <= |es| && key in trace[n].entries
    ensures Called(es, n, a) && Key(a) == key && Identifies(env, a, trace[n].entries[key])
  {
    Reachable(env, trace, es, n);
    assert Computed(env, es, n, key, trace[n].entries[key]);
    a :| Called(es, n, a) && Key(a) == key && Identifies(env, a, trace[n].entries[key]);
  }

  /** Transparency: in every interleaving of keyed calls, a call that finds its key gets
      exactly the identity the computation would return. */
  lemma CacheTransparent(env: Env, trace: seq<System>, es: seq<Event>, n: nat, id: NeighborIdentity)
    requires PlainHints(env.hints) && Run(env, trace, es)
    requires forall a :: Called(es, |es|, a) ==> Keyed(env, a)
    requires n < |es| && es[n].Begin? && Key(es[n].args) in trace[n].entries
    requires Identifies(env, es[n].args, id)
    ensures trace[n].entries[Key(es[n].args)] == id
  {
    var a := es[n].args;
    var b := HitComesFrom(env, trace, es, n, Key(a));
    assert Called(es, |es|, a) && Called(es, |es|, b);
    KeyDetermines(env, b, a, trace[n].entries[Key(a)]);
    IdentityUnique(env, a, id, trace[n].entries[Key(a)]);
  }

  /** The identity of a is the only one among all arguments with its key. */
  ghost predicate OnlyIdentity(env: Env, a: Args, id: NeighborIdentity) {
    forall b, other :: Key(b) == Key(a) && Identifies(env, b, other) ==> other == id
  }

  ghost predicate AlwaysRight(env: Env, a: Args, id: NeighborIdentity) {
    forall trace: seq<System>, es: seq<Event>, n: nat
      | Run(env, trace, es) && n <= |es| && Key(a) in trace[n].entries ::
      trace[n].entries[Key(a)] == id
  }

  /** Exactly when the memo is right about given arguments in every run, whatever the other
      calls: all arguments that share their key have their identity. */
  lemma TransparentIff(env: Env, a: Args, id: NeighborIdentity)
    ensures AlwaysRight(env, a, id) <==> OnlyIdentity(env, a, id)
  {
    if OnlyIdentity(env, a, id) {
      forall trace: seq<System>, es: seq<Event>, n: nat | Run(env, trace, es) && n <= |es| && Key(a) in trace[n].entries
        ensures trace[n].entries[Key(a)] == id
      {
        var b := HitComesFrom(env, trace, es, n, Key(a));
      }
    }
    if AlwaysRight(env, a, id) {
      forall b, other | Key(b) == Key(a) && Identifies(env, b, other)
        ensures other == id
      {
        var trace := OneCall(env, b, other);
        assert trace[2].entries[Key(a)] == other;
      }
    }
  }

  /** Arguments nobody can be confused with are answered right in every run, whatever the
      other calls are. */
  lemma UnambiguousAlwaysRight(env: Env, a: Args, id: NeighborIdentity)
    requires PlainHints(env.hints) && NoSeparators(a) && Unambiguous(env, a) && Identifies(env, a, id)
    ensures AlwaysRight(env, a, id)
  {
    forall b, other | Key(b) == Key(a) && Identifies(env, b, other)
      ensures other == id
    {
      SharedKeyIff(env, a);
      CleanKeyFields(a, b);
      SameObservations(env, a, b);
      SameEverything(env, a, b, id);
      IdentityUnique(env, b, id, other);
    }
    TransparentIff(env, a, id);
  }

  lemma SameEverything(env: Env, a: Args, b: Args, id: NeighborIdentity)
    requires KeyFields(a) == KeyFields(b) && SameInputs(env, a, b) && Identifies(env, a, id)
    ensures Identifies(env, b, id)
  {
    SameObservations(env, a, b);
    var o, q := Observe(env, a), Observe(env, b);
    if OverrideType(env.cat, a.ip, a.inventory) == "" && Signals(env.cat, o) != [] {
      var w :| Concludes(Signals(env.cat, o), w, o.hostnameType, id);
      assert Concludes(Signals(env.cat, q), w, q.hostnameType, id);
    }
  }

  lemma OneCall(env: Env, b: Args, id: NeighborIdentity) returns (trace: seq<System>)
    requires Identifies(env, b, id)
    ensures Run(env, trace, [Begin(0, b), Finish(0, id)]) && trace[2].entries == map[Key(b) := id]
  {
    var es := [Begin(0, b), Finish(0, id)];
    trace := [System(map[], map[]), System(map[], map[0 := b]), System(map[Key(b) := id], map[])];
    assert map[0 := b] - {0} == map[];
    forall i | 0 <= i < |es|
      ensures Moves(env, trace, es, i)
    {
    }
  }

  lemma CacheBounded(env: Env, trace: seq<System>, es: seq<Event>, n: nat)
    requires Run(env, trace, es) && n <= |es|
    ensures |trace[n].entries| <= LIMIT
  {
    Reachable(env, trace, es, n);
  }

  // ---------------------------------------------------------------- where the conditions are needed

  /** Trimming the address changes the identity exactly when the trimmed address has a
      manual type: the key trims, the inventory lookup does not. */
  lemma TrimmingTheAddress(env: Env, a: Args, raw: NeighborIdentity, trimmed: NeighborIdentity)
    requires Covers(env.cat, env.patterns)
    requires Identifies(env, a, raw) && Identifies(env, a.(ip := TrimSpace(a.ip)), trimmed)
    ensures raw == trimmed <==> TrimmedForOverride(env, a)
  {
    var b := a.(ip := TrimSpace(a.ip));
    TrimIdempotent(a.ip, IsSpace);
    assert Observe(env, b) == Observe(env, a);
    if TrimmedForOverride(env, a) {
      SameOverride(env, a);
      assert Identifies(env, b, raw);
      IdentityUnique(env, b, raw, trimmed);
    } else {
      UntrimmedNeverMatches(env.cat, a.ip, Fields(a.inventory, IsInventorySeparator));
      IdentitySound(env, a, raw);
      assert MANUAL in trimmed.sources;
    }
  }
}
