/** The rehash that follows loading: it deletes and inserts while iterating over the map. */
module LoadPass {
  import opened Common
  import opened Accounts

  /** Where an entry belongs, and what it becomes there. */
  function Target(k: string, u: Account): string {
    if NormalizeEmail(u.email) != "" then NormalizeEmail(u.email) else NormalizeEmail(k)
  }

  function Cleaned(k: string, u: Account): Account {
    u.(email := Target(k, u),
       id := if u.id == "" then Target(k, u) else u.id,
       roles := if u.roles == [] then [VIEWER] else u.roles)
  }

  /** Visiting one key; a key that is gone by then is never produced. */
  function Visit(t: Table, k: string): Table {
    if k !in t then t else (t - {k})[Target(k, t[k]) := Cleaned(k, t[k])]
  }

  function Rehash(t: Table, visits: seq<string>): Table {
    if visits == [] then t else Visit(Rehash(t, visits[..|visits| - 1]), visits[|visits| - 1])
  }

  /** An iteration order: every original key is due, keys inserted on the way may come up. */
  ghost predicate Schedule(t: Table, visits: seq<string>) {
    forall k :: k in t ==> k in visits
  }

  /** An order that produces the original keys once each and nothing else. */
  ghost predicate PlainSchedule(t: Table, visits: seq<string>) {
    && Schedule(t, visits)
    && (forall k :: k in visits ==> k in t)
    && Distinct(visits)
  }

  // ---------------------------------------------------------------- the result is always keyed

  lemma TargetFixed(k: string, u: Account)
    ensures NormalizeEmail(Target(k, u)) == Target(k, u)
    ensures Target(Target(k, u), Cleaned(k, u)) == Target(k, u)
    ensures Cleaned(Target(k, u), Cleaned(k, u)) == Cleaned(k, u)
  {
    NormalizeIdempotent(u.email);
    NormalizeIdempotent(k);
  }

  ghost predicate WellFiled(t: Table, k: string) {
    k in t ==> t[k].email == k && NormalizeEmail(k) == k && (t[k].id == "" ==> k == "") && t[k].roles != []
  }

  lemma VisitFiles(t: Table, k: string, other: string)
    ensures WellFiled(Visit(t, k), k)
    ensures WellFiled(t, other) || (k in t && other == Target(k, t[k])) ==> WellFiled(Visit(t, k), other)
    ensures other in Visit(t, k) ==> other in t || WellFiled(Visit(t, k), other)
  {
    if k in t {
      TargetFixed(k, t[k]);
    }
  }

  lemma {:induction false} RehashFiles(t: Table, visits: seq<string>, k: string)
    ensures k in visits || k !in t ==> WellFiled(Rehash(t, visits), k)
  {
    if visits != [] {
      var init, last := visits[..|visits| - 1], visits[|visits| - 1];
      RehashFiles(t, init, k);
      VisitFiles(Rehash(t, init), last, k);
    }
  }

  /** Whatever the order, every key ends up equal to the normalised email of its user. */
  lemma RehashIsKeyed(t: Table, visits: seq<string>)
    requires Schedule(t, visits)
    ensures Keyed(Rehash(t, visits))
    ensures forall k :: k in Rehash(t, visits) ==> Rehash(t, visits)[k].roles != []
  {
    forall k | k in Rehash(t, visits)
      ensures WellFiled(Rehash(t, visits), k)
    {
      RehashFiles(t, visits, k);
    }
  }

  lemma VisitSize(t: Table, k: string)
    ensures |Visit(t, k)| <= |t|
    ensures k in t && Target(k, t[k]) != k && Target(k, t[k]) in t ==> |Visit(t, k)| == |t| - 1
  {
    if k in t {
      var rest, target := t - {k}, Target(k, t[k]);
      assert rest.Keys == t.Keys - {k};
      assert |rest| == |t| - 1;
      assert rest[target := Cleaned(k, t[k])].Keys == rest.Keys + {target};
    }
  }

  /** The pass never adds users. */
  lemma {:induction false} RehashSize(t: Table, visits: seq<string>)
    ensures |Rehash(t, visits)| <= |t|
  {
    if visits != [] {
      RehashSize(t, visits[..|visits| - 1]);
      VisitSize(Rehash(t, visits[..|visits| - 1]), visits[|visits| - 1]);
    }
  }

  // ---------------------------------------------------------------- when nobody is lost

  /** No two entries belong to the same place, and none belongs where another one stands. */
  ghost predicate Separate(t: Table) {
    forall i, j :: i in t && j in t && i != j ==> Target(i, t[i]) != Target(j, t[j]) && Target(i, t[i]) != j
  }

  /** The entries in `done` have been moved to their targets, the others stand where they
      were, and there is nothing else. */
  ghost predicate Placed(t: Table, done: set<string>, now: Table) {
    forall k :: k in t && k in done ==> Target(k, t[k]) in now && now[Target(k, t[k])] == Cleaned(k, t[k])
  }

  ghost predicate Standing(t: Table, done: set<string>, now: Table) {
    forall k :: k in t && k !in done ==> k in now && now[k] == t[k]
  }

  ghost predicate Accounted(t: Table, done: set<string>, x: string) {
    (x in t && x !in done) || exists k :: k in t && k in done && Target(k, t[k]) == x
  }

  ghost predicate NothingElse(t: Table, done: set<string>, now: Table) {
    forall x :: x in now ==> Accounted(t, done, x)
  }

  ghost predicate Moved(t: Table, done: set<string>, now: Table) {
    Placed(t, done, now) && Standing(t, done, now) && NothingElse(t, done, now)
  }

  lemma VisitMoves(t: Table, done: set<string>, now: Table, x: string)
    requires Separate(t) && Moved(t, done, now)
    ensures Moved(t, done + {x}, Visit(now, x))
  {
    if x in t && x !in done {
      MovePlaces(t, done, now, x);
      MoveStands(t, done, now, x);
      MoveAccounts(t, done, now, x);
    } else {
      Revisit(t, done, now, x);
      forall y | Accounted(t, done, y)
        ensures Accounted(t, done + {x}, y)
      {
        MoreAccounted(t, done, x, y);
      }
    }
  }

  lemma MoreAccounted(t: Table, done: set<string>, x: string, y: string)
    requires Accounted(t, done, y) && (x !in t || x in done)
    ensures Accounted(t, done + {x}, y)
  {
    if !(y in t && y !in done) {
      var k :| k in t && k in done && Target(k, t[k]) == y;
      assert k in done + {x};
    }
  }

  /** An entry that was moved is left alone when it comes up again. */
  lemma Revisit(t: Table, done: set<string>, now: Table, x: string)
    requires Moved(t, done, now) && (x !in t || x in done)
    ensures Visit(now, x) == now
  {
    if x in now {
      assert Accounted(t, done, x);
      var k :| k in t && k in done && Target(k, t[k]) == x;
      TargetFixed(k, t[k]);
    }
  }

  lemma MovePlaces(t: Table, done: set<string>, now: Table, x: string)
    requires Separate(t) && Placed(t, done, now) && Standing(t, done, now)
    requires x in t && x !in done
    ensures Placed(t, done + {x}, Visit(now, x))
  {
  }

  lemma MoveStands(t: Table, done: set<string>, now: Table, x: string)
    requires Separate(t) && Standing(t, done, now)
    requires x in t && x !in done
    ensures Standing(t, done + {x}, Visit(now, x))
  {
  }

  lemma MoveAccounts(t: Table, done: set<string>, now: Table, x: string)
    requires Standing(t, done, now) && NothingElse(t, done, now)
    requires x in t && x !in done
    ensures NothingElse(t, done + {x}, Visit(now, x))
  {
    forall y | y in Visit(now, x)
      ensures Accounted(t, done + {x}, y)
    {
      if y == Target(x, t[x]) {
        assert x in done + {x};
      } else {
        assert y in now && Accounted(t, done, y);
        if !(y in t && y !in done) {
          var k :| k in t && k in done && Target(k, t[k]) == y;
          assert k in done + {x};
        }
      }
    }
  }

  function Visited(visits: seq<string>): set<string> {
    set k | k in visits
  }

  lemma {:induction false} RehashMoves(t: Table, visits: seq<string>)
    requires Separate(t)
    ensures Moved(t, Visited(visits), Rehash(t, visits))
  {
    if visits != [] {
      var init, last := visits[..|visits| - 1], visits[|visits| - 1];
      RehashMoves(t, init);
      VisitMoves(t, Visited(init), Rehash(t, init), last);
      assert visits == init + [last];
      assert Visited(visits) == Visited(init) + {last};
    }
  }

  /** Every user is filed, cleaned, under the target of its entry, and nothing else is. */
  ghost predicate AllKept(t: Table, r: Table) {
    && (forall k :: k in t ==> Target(k, t[k]) in r && r[Target(k, t[k])] == Cleaned(k, t[k]))
    && (forall x :: x in r ==> exists k :: k in t && Target(k, t[k]) == x)
  }

  lemma KeptWhenAllMoved(t: Table, done: set<string>, r: Table)
    requires Moved(t, done, r) && forall k :: k in t ==> k in done
    ensures AllKept(t, r)
  {
    forall x | x in r
      ensures exists k :: k in t && Target(k, t[k]) == x
    {
      assert Accounted(t, done, x);
    }
  }

  lemma KeptIsUnique(t: Table, r: Table, s: Table)
    requires AllKept(t, r) && AllKept(t, s)
    ensures r == s
  {
    SameKept(t, r, s);
    SameKept(t, s, r);
  }

  lemma SameKept(t: Table, r: Table, s: Table)
    requires AllKept(t, r) && AllKept(t, s)
    ensures forall x :: x in r ==> x in s && s[x] == r[x]
  {
    forall x | x in r
      ensures x in s && s[x] == r[x]
    {
      var k :| k in t && Target(k, t[k]) == x;
    }
  }

  /** Separate entries survive every order, and all orders give the same table. */
  lemma SeparateIsKept(t: Table, visits: seq<string>, others: seq<string>)
    requires Separate(t) && Schedule(t, visits) && Schedule(t, others)
    ensures AllKept(t, Rehash(t, visits)) && Rehash(t, visits) == Rehash(t, others)
  {
    RehashMoves(t, visits);
    RehashMoves(t, others);
    KeptWhenAllMoved(t, Visited(visits), Rehash(t, visits));
    KeptWhenAllMoved(t, Visited(others), Rehash(t, others));
    KeptIsUnique(t, Rehash(t, visits), Rehash(t, others));
  }

  lemma {:induction false} TargetsCount(t: Table, s: set<string>)
    requires Separate(t) && s <= t.Keys
    ensures |set k | k in s :: Target(k, t[k])| == |s|
    decreases |s|
  {
    if s != {} {
      var x :| x in s;
      TargetsCount(t, s - {x});
      var rest := set k | k in s - {x} :: Target(k, t[k]);
      assert (set k | k in s :: Target(k, t[k])) == rest + {Target(x, t[x])};
      assert Target(x, t[x]) !in rest;
    }
  }

  lemma KeptSize(t: Table, r: Table)
    requires Separate(t) && AllKept(t, r)
    ensures |r| == |t|
  {
    TargetsCount(t, t.Keys);
    assert r.Keys == set k | k in t.Keys :: Target(k, t[k]);
  }

  // ---------------------------------------------------------------- when somebody is lost

  lemma {:induction false} RehashAfter(t: Table, first: seq<string>, rest: seq<string>)
    ensures |Rehash(t, first + rest)| <= |Rehash(t, first)|
  {
    if rest == [] {
      assert first + rest == first;
    } else {
      var init := first + rest[..|rest| - 1];
      RehashAfter(t, first, rest[..|rest| - 1]);
      assert (first + rest)[..|first + rest| - 1] == init;
      VisitSize(Rehash(t, init), rest[|rest| - 1]);
    }
  }

  /** Any start of an order can be completed. */
  lemma {:induction false} Complete(t: Table, first: seq<string>, left: set<string>) returns (rest: seq<string>)
    requires forall k :: k in first ==> k in t
    requires Distinct(first) && left == t.Keys - Visited(first)
    ensures PlainSchedule(t, first + rest)
    decreases left
  {
    if left == {} {
      rest := [];
      assert first + rest == first;
      assert forall k :: k in t ==> k in Visited(first);
    } else {
      var k :| k in left;
      assert Visited(first + [k]) == Visited(first) + {k};
      assert left - {k} == t.Keys - Visited(first + [k]);
      assert k !in first by { assert k !in Visited(first); }
      var more := Complete(t, first + [k], left - {k});
      rest := [k] + more;
      assert first + rest == first + [k] + more;
    }
  }

  /** Two entries that clash lose a user in some plain order. */
  lemma ClashLoses(t: Table, i: string, j: string) returns (visits: seq<string>)
    requires i in t && j in t && i != j
    requires Target(i, t[i]) == Target(j, t[j]) || Target(i, t[i]) == j
    ensures PlainSchedule(t, visits) && |Rehash(t, visits)| < |t|
  {
    var first: seq<string>;
    if Target(i, t[i]) == j {
      first := [i];
      OneVisit(t, i);
      VisitSize(t, i);
    } else if Target(j, t[j]) == i {
      first := [j];
      OneVisit(t, j);
      VisitSize(t, j);
    } else {
      first := [i, j];
      TwoVisits(t, i, j);
      VisitSize(t, i);
      VisitSize(Visit(t, i), j);
    }
    var rest := Complete(t, first, t.Keys - Visited(first));
    RehashAfter(t, first, rest);
    visits := first + rest;
  }

  lemma OneVisit(t: Table, i: string)
    ensures Rehash(t, [i]) == Visit(t, i)
  {
    assert [i][..0] == [];
  }

  lemma TwoVisits(t: Table, i: string, j: string)
    ensures Rehash(t, [i, j]) == Visit(Visit(t, i), j)
  {
    assert [i, j][..1] == [i];
    OneVisit(t, i);
  }

  /** The load pass keeps every user in every order exactly when the entries are separate:
      normalised emails pairwise distinct, none equal to the original key of another entry.
      Without that, an entry not visited yet can be overwritten. */
  lemma NobodyLostIffSeparate(t: Table)
    ensures forall visits :: Schedule(t, visits) ==> |Rehash(t, visits)| <= |t|
    ensures Separate(t) <==> forall visits :: Schedule(t, visits) ==> |Rehash(t, visits)| == |t|
  {
    forall visits | Schedule(t, visits)
      ensures |Rehash(t, visits)| <= |t|
    {
      RehashSize(t, visits);
    }
    if Separate(t) {
      forall visits | Schedule(t, visits)
        ensures |Rehash(t, visits)| == |t|
      {
        SeparateIsKept(t, visits, visits);
        KeptSize(t, Rehash(t, visits));
      }
    } else {
      var i, j :| i in t && j in t && i != j && !(Target(i, t[i]) != Target(j, t[j]) && Target(i, t[i]) != j);
      var visits := ClashLoses(t, i, j);
      assert Schedule(t, visits);
    }
  }

  // ---------------------------------------------------------------- loading what was saved

  ghost predicate RolesPresent(t: Table) {
    forall k :: k in t ==> t[k].roles != []
  }

  lemma {:induction false} RehashIdentity(t: Table, visits: seq<string>)
    requires Keyed(t) && RolesPresent(t)
    ensures Rehash(t, visits) == t
  {
    if visits != [] {
      var init, last := visits[..|visits| - 1], visits[|visits| - 1];
      RehashIdentity(t, init);
      if last in t {
        assert Target(last, t[last]) == last;
        assert Cleaned(last, t[last]) == t[last];
      }
    }
  }
}
