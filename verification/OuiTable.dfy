/** The vendor table built from prefix groups: vendors that claim the same prefix cancel. */
module OuiTable {
  import opened Text

  datatype Oui = Oui(vendor: string, deviceType: string)

  datatype Group = Group(vendor: string, deviceType: string, prefixes: seq<string>)

  /** Some prefix of the group folds to p. */
  predicate Lists(g: Group, p: string) {
    exists i :: 0 <= i < |g.prefixes| && Lower(g.prefixes[i]) == p
  }

  predicate Listed(groups: seq<Group>, p: string) {
    exists i :: 0 <= i < |groups| && Lists(groups[i], p)
  }

  /** Every group that lists p names the same vendor. */
  ghost predicate OneVendor(groups: seq<Group>, p: string) {
    forall i, j :: 0 <= i < |groups| && 0 <= j < |groups| && Lists(groups[i], p) && Lists(groups[j], p) ==>
      groups[i].vendor == groups[j].vendor
  }

  /** The first group that lists p. */
  function FirstLister(groups: seq<Group>, p: string): (i: nat)
    requires Listed(groups, p)
    ensures i < |groups| && Lists(groups[i], p)
    ensures forall j :: 0 <= j < i ==> !Lists(groups[j], p)
  {
    if Lists(groups[0], p) then 0
    else
      assert Listed(groups[1..], p) by {
        var i :| 0 <= i < |groups| && Lists(groups[i], p);
        assert groups[1..][i - 1] == groups[i];
      }
      1 + FirstLister(groups[1..], p)
  }

  function Claim(groups: seq<Group>, p: string): Oui
    requires Listed(groups, p)
  {
    var g := groups[FirstLister(groups, p)];
    Oui(g.vendor, g.deviceType)
  }

  /** What the table promises: a prefix is kept exactly when some group lists it and its
      listers agree on the vendor; vendor and device type are the first lister's. */
  ghost predicate IsTableOf(table: map<string, Oui>, groups: seq<Group>) {
    forall p :: (p in table <==> Listed(groups, p) && OneVendor(groups, p)) &&
                (p in table ==> table[p] == Claim(groups, p))
  }

  /** The table and the conflicts after a part of the groups. */
  ghost predicate Scanned(table: map<string, Oui>, conflicts: set<string>, groups: seq<Group>, p: string) {
    && (p in table <==> Listed(groups, p))
    && (p in table ==> table[p] == Claim(groups, p))
    && (p in conflicts <==> Listed(groups, p) && !OneVendor(groups, p))
  }

  ghost predicate ScannedAll(table: map<string, Oui>, conflicts: set<string>, groups: seq<Group>) {
    forall p :: Scanned(table, conflicts, groups, p)
  }

  /** The first k prefixes of a group. */
  function Part(g: Group, k: nat): Group
    requires k <= |g.prefixes|
  {
    g.(prefixes := g.prefixes[..k])
  }

  lemma PartLists(g: Group, k: nat, p: string)
    requires k < |g.prefixes|
    ensures Lists(Part(g, k + 1), p) <==> Lists(Part(g, k), p) || Lower(g.prefixes[k]) == p
  {
    if Lists(Part(g, k), p) {
      var i :| 0 <= i < k && Lower(Part(g, k).prefixes[i]) == p;
      assert Part(g, k + 1).prefixes[i] == Part(g, k).prefixes[i];
    }
    if Lists(Part(g, k + 1), p) {
      var i :| 0 <= i < k + 1 && Lower(Part(g, k + 1).prefixes[i]) == p;
      assert i < k ==> Part(g, k).prefixes[i] == Part(g, k + 1).prefixes[i];
    }
    assert Part(g, k + 1).prefixes[k] == g.prefixes[k];
  }

  /** What one more prefix changes: whether p is listed, by whom, and with one voice. */
  lemma OneMorePrefix(done: seq<Group>, g: Group, k: nat, p: string)
    requires k < |g.prefixes|
    ensures var before, after := done + [Part(g, k)], done + [Part(g, k + 1)];
            && (Listed(after, p) <==> Listed(before, p) || Lower(g.prefixes[k]) == p)
            && (Listed(before, p) ==> Claim(after, p) == Claim(before, p))
            && (Listed(after, p) && !Listed(before, p) ==> Claim(after, p) == Oui(g.vendor, g.deviceType))
            && (Lower(g.prefixes[k]) != p ==> (OneVendor(after, p) <==> OneVendor(before, p)))
            && (Lower(g.prefixes[k]) == p && Listed(before, p) ==>
                  (OneVendor(after, p) <==> OneVendor(before, p) && Claim(before, p).vendor == g.vendor))
            && (Listed(after, p) && !Listed(before, p) ==> OneVendor(after, p))
  {
    var before, after := done + [Part(g, k)], done + [Part(g, k + 1)];
    PartLists(g, k, p);
    assert forall i :: 0 <= i < |done| ==> before[i] == done[i] && after[i] == done[i];
    assert before[|done|] == Part(g, k) && after[|done|] == Part(g, k + 1);
    SameExceptLast(before, after, p, Lower(g.prefixes[k]) == p);
  }

  lemma SameExceptLast(a: seq<Group>, b: seq<Group>, p: string, added: bool)
    requires |a| == |b| > 0 && a[..|a| - 1] == b[..|a| - 1]
    requires a[|a| - 1].vendor == b[|a| - 1].vendor && a[|a| - 1].deviceType == b[|a| - 1].deviceType
    requires Lists(b[|a| - 1], p) <==> Lists(a[|a| - 1], p) || added
    ensures Listed(b, p) <==> Listed(a, p) || added
    ensures Listed(a, p) ==> Claim(b, p) == Claim(a, p)
    ensures Listed(b, p) && !Listed(a, p) ==>
              Claim(b, p) == Oui(b[|a| - 1].vendor, b[|a| - 1].deviceType) && OneVendor(b, p)
    ensures !added ==> (OneVendor(b, p) <==> OneVendor(a, p))
    ensures added && Listed(a, p) ==>
              (OneVendor(b, p) <==> OneVendor(a, p) && Claim(a, p).vendor == a[|a| - 1].vendor)
  {
    var n := |a| - 1;
    assert forall i :: 0 <= i < n ==> a[i] == a[..n][i] && b[i] == a[i];
    assert Lists(b[n], p) ==> Listed(b, p);
    if Listed(a, p) {
      var i := FirstLister(a, p);
      assert Lists(b[i], p);
      var j := FirstLister(b, p);
      assert i == j;
    }
    if Listed(b, p) {
      var j := FirstLister(b, p);
      assert j < n ==> Lists(a[j], p);
    }
  }

  lemma NoPrefix(done: seq<Group>, g: Group, p: string)
    ensures var more := done + [Part(g, 0)];
            && (Listed(more, p) <==> Listed(done, p))
            && (Listed(done, p) ==> Claim(more, p) == Claim(done, p))
            && (OneVendor(more, p) <==> OneVendor(done, p))
  {
    var more := done + [Part(g, 0)];
    assert !Lists(more[|done|], p);
    assert forall i :: 0 <= i < |done| ==> more[i] == done[i];
    if Listed(done, p) {
      assert Lists(more[FirstLister(done, p)], p);
      assert Lists(done[FirstLister(more, p)], p);
    }
  }

  lemma StartGroup(table: map<string, Oui>, conflicts: set<string>, done: seq<Group>, g: Group)
    requires ScannedAll(table, conflicts, done)
    ensures ScannedAll(table, conflicts, done + [Part(g, 0)])
  {
    var more := done + [Part(g, 0)];
    forall p
      ensures Scanned(table, conflicts, more, p)
    {
      assert Scanned(table, conflicts, done, p);
      NoPrefix(done, g, p);
    }
  }

  lemma ScanPrefix(table: map<string, Oui>, conflicts: set<string>, done: seq<Group>, g: Group, k: nat,
                   table': map<string, Oui>, conflicts': set<string>)
    requires k < |g.prefixes|
    requires ScannedAll(table, conflicts, done + [Part(g, k)])
    requires var prefix := Lower(g.prefixes[k]);
             if prefix in table then
               && table' == table
               && conflicts' == if table[prefix].vendor != g.vendor then conflicts + {prefix} else conflicts
             else
               table' == table[prefix := Oui(g.vendor, g.deviceType)] && conflicts' == conflicts
    ensures ScannedAll(table', conflicts', done + [Part(g, k + 1)])
  {
    var more := done + [Part(g, k + 1)];
    forall p
      ensures Scanned(table', conflicts', more, p)
    {
      assert Scanned(table, conflicts, done + [Part(g, k)], p);
      OneMorePrefix(done, g, k, p);
    }
  }

  method BuildOuiTable(groups: seq<Group>) returns (table: map<string, Oui>)
    ensures IsTableOf(table, groups)
  {
    table := map[];
    var conflicts: set<string> := {};
    for g := 0 to |groups|
      invariant ScannedAll(table, conflicts, groups[..g])
    {
      var group := groups[g];
      StartGroup(table, conflicts, groups[..g], group);
      for k := 0 to |group.prefixes|
        invariant ScannedAll(table, conflicts, groups[..g] + [Part(group, k)])
      {
        var prefix := Lower(group.prefixes[k]);
        ghost var before := (table, conflicts);
        if prefix in table {
          if table[prefix].vendor != group.vendor {
            conflicts := conflicts + {prefix};
          }
          ScanPrefix(before.0, before.1, groups[..g], group, k, table, conflicts);
          continue;
        }
        table := table[prefix := Oui(group.vendor, group.deviceType)];
        ScanPrefix(before.0, before.1, groups[..g], group, k, table, conflicts);
      }
      assert Part(group, |group.prefixes|) == group;
      assert groups[..g] + [group] == groups[..g + 1];
    }
    assert groups[..|groups|] == groups;
    DropConflicts(table, conflicts, groups);
    table := table - conflicts;
  }

  lemma DropConflicts(table: map<string, Oui>, conflicts: set<string>, groups: seq<Group>)
    requires ScannedAll(table, conflicts, groups)
    ensures IsTableOf(table - conflicts, groups)
  {
    var kept := table - conflicts;
    forall p
      ensures (p in kept <==> Listed(groups, p) && OneVendor(groups, p)) && (p in kept ==> kept[p] == Claim(groups, p))
    {
      assert Scanned(table, conflicts, groups, p);
    }
  }

  // ---------------------------------------------------------------- order of the groups

  ghost predicate Permuted(a: seq<Group>, b: seq<Group>) {
    multiset(a) == multiset(b)
  }

  lemma PermutedListed(a: seq<Group>, b: seq<Group>, p: string)
    requires Permuted(a, b)
    ensures Listed(a, p) ==> Listed(b, p)
    ensures OneVendor(b, p) ==> OneVendor(a, p)
  {
    forall i | 0 <= i < |a|
      ensures exists j :: 0 <= j < |b| && b[j] == a[i]
    {
      assert a[i] in multiset(b);
    }
  }

  lemma PermutedVendor(a: seq<Group>, b: seq<Group>, p: string)
    requires Permuted(a, b) && OneVendor(a, p) && Listed(a, p) && Listed(b, p)
    ensures Claim(a, p).vendor == Claim(b, p).vendor
  {
    var g := b[FirstLister(b, p)];
    assert g in multiset(a);
    var i :| 0 <= i < |a| && a[i] == g;
  }

  /** The order of the groups only decides device types: prefixes and vendors of the two
      tables are the same. */
  lemma VendorsIgnoreOrder(t: map<string, Oui>, a: seq<Group>, u: map<string, Oui>, b: seq<Group>)
    requires IsTableOf(t, a) && IsTableOf(u, b) && Permuted(a, b)
    ensures forall p :: p in t <==> p in u
    ensures forall p :: p in t && p in u ==> t[p].vendor == u[p].vendor
  {
    forall p
      ensures p in t <==> p in u
      ensures p in t && p in u ==> t[p].vendor == u[p].vendor
    {
      PermutedListed(a, b, p);
      PermutedListed(b, a, p);
      if p in t {
        PermutedVendor(a, b, p);
      }
    }
  }

  // ---------------------------------------------------------------- single prefixes

  /** Two vendors that list one prefix, in any case, cancel each other out. */
  lemma ConflictRemoves(table: map<string, Oui>, groups: seq<Group>, i: nat, j: nat, x: nat, y: nat)
    requires IsTableOf(table, groups) && i < |groups| && j < |groups|
    requires x < |groups[i].prefixes| && y < |groups[j].prefixes|
    requires Lower(groups[i].prefixes[x]) == Lower(groups[j].prefixes[y]) && groups[i].vendor != groups[j].vendor
    ensures Lower(groups[i].prefixes[x]) !in table
  {
    var p := Lower(groups[i].prefixes[x]);
    assert Lists(groups[i], p) && Lists(groups[j], p);
    assert !OneVendor(groups, p);
  }

  /** A prefix no other vendor lists is kept, lower-cased, for its vendor; and for its device
      type, unless an earlier group of that vendor lists it with another one. */
  lemma LoneVendorStays(table: map<string, Oui>, groups: seq<Group>, i: nat, x: nat)
    requires IsTableOf(table, groups) && i < |groups| && x < |groups[i].prefixes|
    requires forall j, y | 0 <= j < |groups| && 0 <= y < |groups[j].prefixes| ::
               Lower(groups[j].prefixes[y]) == Lower(groups[i].prefixes[x]) ==> groups[j].vendor == groups[i].vendor
    ensures var p := Lower(groups[i].prefixes[x]);
            && p in table && table[p].vendor == groups[i].vendor
            && ((forall j :: 0 <= j < i ==> !Lists(groups[j], p)) ==> table[p].deviceType == groups[i].deviceType)
  {
    var p := Lower(groups[i].prefixes[x]);
    assert Lists(groups[i], p) && Listed(groups, p);
    assert OneVendor(groups, p);
    assert Lists(groups[FirstLister(groups, p)], p);
  }
}
