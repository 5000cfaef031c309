/** The users file behind the requests: saves may fail, and the process may restart. */
module AdminFile {
  import opened Accounts
  import opened AccountLaws
  import opened LoadPass
  import opened AdminRuns
  import opened RequestLaws

  datatype Store = Store(memory: Table, disk: Table)

  /** A step is served, and its save succeeds or not; or the process restarts and loads the
      file, with the load pass in some order. */
  datatype Event = Served(step: Step, ioOk: bool) | Restart(visits: seq<string>)

  /** The step changes the store without an error, so it is saved. */
  predicate Writes(t: Table, s: Step) {
    match s
    case Request(userId, req) => Succeeds(t, userId, req)
    case OAuth(email, autoCreate) =>
      NormalizeEmail(email) !in t && autoCreate && NormalizeEmail(email) != ""
  }

  function Advance(s: Store, e: Event): Store {
    match e
    case Served(step, ioOk) =>
      var after := Take(s.memory, step);
      Store(after, if ioOk && Writes(s.memory, step) then after else s.disk)
    case Restart(visits) => s.(memory := Rehash(s.disk, visits))
  }

  function Exec(s: Store, es: seq<Event>): Store {
    if es == [] then s else Advance(Exec(s, es[..|es| - 1]), es[|es| - 1])
  }

  ghost predicate Sound(t: Table) {
    Keyed(t) && HasAdmin(t) && RolesPresent(t)
  }

  lemma TakeKeepsSound(t: Table, s: Step)
    requires Sound(t)
    ensures Sound(Take(t, s))
  {
    match s
    case Request(userId, req) =>
      ServeKeeps(t, userId, req);
      ServeKeepsRoles(t, userId, req);
    case OAuth(email, autoCreate) =>
      SignInKeeps(t, email, autoCreate);
  }

  /** The file is the table the store had at some earlier moment of the run. */
  ghost predicate IsEarlier(s: Store, es: seq<Event>, t: Table) {
    exists m :: 0 <= m <= |es| && t == Exec(s, es[..m]).memory
  }

  lemma EarlierStays(s: Store, es: seq<Event>, e: Event, t: Table)
    requires IsEarlier(s, es, t)
    ensures IsEarlier(s, es + [e], t)
  {
    var m :| 0 <= m <= |es| && t == Exec(s, es[..m]).memory;
    assert (es + [e])[..m] == es[..m];
  }

  lemma NowIsEarlier(s: Store, es: seq<Event>)
    ensures IsEarlier(s, es, Exec(s, es).memory)
  {
    assert es[..|es|] == es;
  }

  lemma {:induction false} BothStaySound(s: Store, es: seq<Event>)
    requires Sound(s.memory) && Sound(s.disk)
    ensures Sound(Exec(s, es).memory) && Sound(Exec(s, es).disk)
  {
    if es != [] {
      var before := Exec(s, es[..|es| - 1]);
      BothStaySound(s, es[..|es| - 1]);
      match es[|es| - 1]
      case Served(step, _) => TakeKeepsSound(before.memory, step);
      case Restart(visits) => RehashIdentity(before.disk, visits);
    }
  }

  /** In every run, with any save failures and restarts, the file is a table the store had at
      some earlier moment of the run, or has now. */
  lemma {:induction false} FileIsEarlierTable(s: Store, es: seq<Event>)
    requires s.memory == s.disk
    ensures IsEarlier(s, es, Exec(s, es).disk)
  {
    NowIsEarlier(s, es);
    if es != [] {
      var init, last := es[..|es| - 1], es[|es| - 1];
      FileIsEarlierTable(s, init);
      EarlierStays(s, init, last, Exec(s, init).disk);
      assert es == init + [last];
    }
  }

  /** A restart at any point brings back an earlier table, with an admin, whatever the order
      of the load pass. */
  lemma RestartKeepsAdmin(s: Store, es: seq<Event>, visits: seq<string>)
    requires s.memory == s.disk && Sound(s.disk)
    ensures var loaded := Rehash(Exec(s, es).disk, visits);
            HasAdmin(loaded) && IsEarlier(s, es, loaded)
  {
    FileIsEarlierTable(s, es);
    BothStaySound(s, es);
    RehashIdentity(Exec(s, es).disk, visits);
  }

  // ---------------------------------------------------------------- what the file lacks

  /** Two tables that differ in display names at most. */
  ghost predicate SameButNames(t: Table, r: Table) {
    t.Keys == r.Keys && forall k :: k in t ==> t[k] == r[k].(displayName := t[k].displayName)
  }

  lemma NamesChain(t: Table, r: Table, u: Table)
    requires SameButNames(t, r) && SameButNames(r, u)
    ensures SameButNames(t, u)
  {
    forall k | k in t
      ensures t[k] == u[k].(displayName := t[k].displayName)
    {
      assert r[k] == u[k].(displayName := r[k].displayName);
    }
  }

  lemma FailedOperation(t: Table, op: Operation)
    requires Apply(t, op).error.Some?
    ensures SameButNames(Apply(t, op).table, t)
  {
    if op.SetProfile? {
      SetProfileIff(t, op.email, op.profile);
    }
  }

  /** A request that fails changes one display name at most. */
  lemma FailedRequest(t: Table, userId: string, req: Request)
    requires !Succeeds(t, userId, req)
    ensures SameButNames(Serve(t, userId, req), t)
  {
    if Authenticate(t, userId).Some? {
      var caller := Authenticate(t, userId).value;
      if Allowed(caller.role, req) && Operate(caller, req).Some? {
        FailedOperation(t, Operate(caller, req).value);
      }
    }
  }

  lemma ServedLags(s: Store, step: Step)
    requires SameButNames(s.memory, s.disk)
    ensures var r := Advance(s, Served(step, true));
            SameButNames(r.memory, r.disk)
  {
    match step
    case Request(userId, req) =>
      if !Succeeds(s.memory, userId, req) {
        FailedRequest(s.memory, userId, req);
        NamesChain(Serve(s.memory, userId, req), s.memory, s.disk);
      }
    case OAuth(email, autoCreate) =>
      SignInMeans(s.memory, email, autoCreate);
  }

  /** While saving works, nothing but display names is ever missing from the file, and those
      only after edits that failed. */
  lemma {:induction false} OnlyNamesLag(s: Store, es: seq<Event>)
    requires Sound(s.memory) && s.memory == s.disk
    requires forall e :: e in es ==> e.Served? ==> e.ioOk
    ensures SameButNames(Exec(s, es).memory, Exec(s, es).disk)
  {
    if es != [] {
      var init, last := es[..|es| - 1], es[|es| - 1];
      assert last in es;
      OnlyNamesLag(s, init);
      var before := Exec(s, init);
      match last
      case Served(step, _) =>
        ServedLags(before, step);
      case Restart(visits) =>
        BothStaySound(s, init);
        RehashIdentity(before.disk, visits);
    }
  }

  /** A request that goes through is in the file at once when saving works. */
  lemma SuccessIsSaved(s: Store, userId: string, req: Request)
    requires Succeeds(s.memory, userId, req)
    ensures Advance(s, Served(Step.Request(userId, req), true)).disk == Serve(s.memory, userId, req)
  {
  }
}
