/** A member's collection assignments, replaced (src/api/org-members.ts). */
module MemberGrants {
  import opened Base
  import opened Memberships
  import opened VaultAccess
  import opened VaultAgreement

  datatype Assignment = Assignment(collectionUuid: Id, access: Access)

  function OrgCollections(db: Db, org: Id): set<Id> {
    set col | col in db.collections && col.orgUuid == org :: col.uuid
  }

  /** The grants that a replacement may touch: the member's own, on his organisation's collections. */
  predicate InScope(db: Db, m: Membership, g: UserGrant) {
    g.userUuid == m.userUuid && g.collectionUuid in OrgCollections(db, m.orgUuid)
  }

  /** No collection of the organisation is assigned twice; a second row would break the primary key. */
  ghost predicate DistinctTargets(db: Db, org: Id, assignments: seq<Assignment>) {
    forall i, j | 0 <= i < j < |assignments| && assignments[i].collectionUuid in OrgCollections(db, org) ::
      assignments[i].collectionUuid != assignments[j].collectionUuid
  }

  /** The grants after a replacement. */
  ghost predicate Replaced(before: Db, m: Membership, assignments: seq<Assignment>, g: UserGrant) {
    if InScope(before, m, g) then Assignment(g.collectionUuid, g.access) in assignments else g in before.userGrants
  }

  ghost predicate GrantKeys(grants: seq<UserGrant>) {
    forall a, b | a in grants && b in grants && a.userUuid == b.userUuid && a.collectionUuid == b.collectionUuid :: a == b
  }

  class GrantTable {
    var db: Db

    /** Deletes the member's grants in the organisation row by row, then inserts the assigned ones. */
    method ReplaceMemberCollections(m: Membership, assignments: seq<Assignment>) returns (r: Outcome)
      requires PrimaryKeys(db)
      modifies this
      ensures PrimaryKeys(db) && db == old(db).(userGrants := db.userGrants)
      ensures r.Done? <==> DistinctTargets(old(db), m.orgUuid, assignments)
      ensures r.Done? ==> forall g :: g in db.userGrants <==> Replaced(old(db), m, assignments, g)
      ensures forall g | !InScope(old(db), m, g) :: g in db.userGrants <==> g in old(db).userGrants
    {
      RemoveExisting(m);
      r := InsertAssigned(m, assignments);
    }

    method RemoveExisting(m: Membership)
      modifies this
      ensures db == old(db).(userGrants := db.userGrants)
      ensures forall g :: g in db.userGrants <==> g in old(db).userGrants && !InScope(old(db), m, g)
    {
      var orgCollections := OrgCollections(db, m.orgUuid);
      var existing := GrantsOf(db, m.userUuid);
      ghost var start := db;
      for i := 0 to |existing|
        invariant db == start.(userGrants := db.userGrants)
        invariant forall g :: g in db.userGrants <==>
                    g in start.userGrants
                    && !(g.userUuid == m.userUuid && g.collectionUuid in orgCollections && HasCollection(existing[..i], g.collectionUuid))
      {
        var row := existing[i];
        CollectionsSoFar(existing, i);
        if row.collectionUuid in orgCollections {
          db := db.(userGrants := Select(db.userGrants,
            (g: UserGrant) => !(g.userUuid == m.userUuid && g.collectionUuid == row.collectionUuid)));
        }
      }
      assert existing[..|existing|] == existing;
      forall g | g in start.userGrants && InScope(start, m, g)
        ensures HasCollection(existing, g.collectionUuid)
      {
        assert g in existing;
      }
    }

    /** Inserts until an assignment repeats a collection; the rows inserted before it stay. */
    method InsertAssigned(m: Membership, assignments: seq<Assignment>) returns (r: Outcome)
      requires GrantKeys(db.userGrants) && forall g | g in db.userGrants :: !InScope(db, m, g)
      modifies this
      ensures db == old(db).(userGrants := db.userGrants) && GrantKeys(db.userGrants)
      ensures r.Done? <==> DistinctTargets(old(db), m.orgUuid, assignments)
      ensures r.Done? ==>
                forall g :: g in db.userGrants <==>
                  g in old(db).userGrants || (InScope(old(db), m, g) && Assignment(g.collectionUuid, g.access) in assignments)
      ensures forall g | !InScope(old(db), m, g) :: g in db.userGrants <==> g in old(db).userGrants
    {
      var orgCollections := OrgCollections(db, m.orgUuid);
      ghost var start := db;
      for i := 0 to |assignments|
        invariant db == start.(userGrants := db.userGrants) && GrantKeys(db.userGrants)
        invariant DistinctTargets(start, m.orgUuid, assignments[..i])
        invariant forall g :: g in db.userGrants <==>
                    g in start.userGrants
                    || (InScope(start, m, g) && Assignment(g.collectionUuid, g.access) in assignments[..i])
      {
        var a := assignments[i];
        assert assignments[..i + 1] == assignments[..i] + [a];
        if a.collectionUuid !in orgCollections { continue; }
        if exists g :: g in db.userGrants && g.userUuid == m.userUuid && g.collectionUuid == a.collectionUuid {
          ghost var g :| g in db.userGrants && g.userUuid == m.userUuid && g.collectionUuid == a.collectionUuid;
          assert Assignment(g.collectionUuid, g.access) in assignments[..i];
          return Failed("UNIQUE constraint failed: users_collections");
        }
        NewTarget(start, db, m, assignments, i);
        db := db.(userGrants := db.userGrants + [UserGrant(m.userUuid, a.collectionUuid, a.access)]);
      }
      assert assignments[..|assignments|] == assignments;
      r := Done;
    }
  }

  predicate HasCollection(rows: seq<UserGrant>, cid: Id) {
    exists g | g in rows :: g.collectionUuid == cid
  }

  lemma CollectionsSoFar(rows: seq<UserGrant>, i: nat)
    requires i < |rows|
    ensures forall cid :: HasCollection(rows[..i + 1], cid) <==> HasCollection(rows[..i], cid) || cid == rows[i].collectionUuid
  {
    assert rows[..i + 1] == rows[..i] + [rows[i]];
    assert rows[i] in rows[..i + 1];
  }

  lemma NewTarget(start: Db, now: Db, m: Membership, assignments: seq<Assignment>, i: nat)
    requires i < |assignments| && DistinctTargets(start, m.orgUuid, assignments[..i])
    requires assignments[i].collectionUuid in OrgCollections(start, m.orgUuid)
    requires forall g | InScope(start, m, g) && Assignment(g.collectionUuid, g.access) in assignments[..i] :: g in now.userGrants
    requires !exists g :: g in now.userGrants && g.userUuid == m.userUuid && g.collectionUuid == assignments[i].collectionUuid
    ensures DistinctTargets(start, m.orgUuid, assignments[..i + 1])
  {
    var a := assignments[i];
    forall k | 0 <= k < i
      ensures assignments[k].collectionUuid != a.collectionUuid
    {
      var b := assignments[k];
      assert b in assignments[..i];
      assert b.collectionUuid in OrgCollections(start, m.orgUuid) ==>
          UserGrant(m.userUuid, b.collectionUuid, b.access) in now.userGrants;
    }
  }

  // ---------------------------------------------------------------------
  // What the replacement means for access
  // ---------------------------------------------------------------------

  ghost predicate IsReplacement(before: Db, after: Db, m: Membership, assignments: seq<Assignment>) {
    && after == before.(userGrants := after.userGrants)
    && forall g :: g in after.userGrants <==> Replaced(before, m, assignments, g)
  }

  /** The accesses that the request assigns on the collections of a cipher. */
  ghost function AssignedOn(db: Db, m: Membership, assignments: seq<Assignment>, cipherUuid: Id): set<Access> {
    set l, a | l in db.cipherLinks && l.cipherUuid == cipherUuid && a in assignments
               && a.collectionUuid == l.collectionUuid && l.collectionUuid in OrgCollections(db, m.orgUuid) :: a.access
  }

  ghost function GroupsOn(db: Db, u: Id, cipherUuid: Id): set<Access> {
    set l, a | l in db.cipherLinks && l.cipherUuid == cipherUuid && a in GroupRows(db, u, l.collectionUuid) :: a
  }

  /** Rows out of scope are the same, so whoever reaches a cipher only through them keeps his access. */
  lemma SameGrants(before: Db, after: Db, m: Membership, assignments: seq<Assignment>, u: Id, c: Cipher)
    requires IsReplacement(before, after, m, assignments)
    requires u != m.userUuid
             || forall l | l in before.cipherLinks && l.cipherUuid == c.uuid :: l.collectionUuid !in OrgCollections(before, m.orgUuid)
    ensures RawGrants(after, u, c.uuid) == RawGrants(before, u, c.uuid)
  {
    forall l | l in before.cipherLinks && l.cipherUuid == c.uuid
      ensures DirectRows(after, u, l.collectionUuid) == DirectRows(before, u, l.collectionUuid)
      ensures GroupRows(after, u, l.collectionUuid) == GroupRows(before, u, l.collectionUuid)
    {
      forall g: UserGrant | g.userUuid == u && g.collectionUuid == l.collectionUuid
        ensures g in after.userGrants <==> g in before.userGrants
      {
        assert !InScope(before, m, g);
      }
    }
  }

  lemma SameFlat(before: Db, after: Db, u: Id, c: Cipher)
    requires after == before.(userGrants := after.userGrants)
    requires RawGrants(after, u, c.uuid) == RawGrants(before, u, c.uuid)
    ensures FlatRestrictions(after, u, c) == FlatRestrictions(before, u, c)
  {
    if c.organizationUuid.Some? {
      var org := c.organizationUuid.value;
      forall m ensures ConfirmedMember(after, u, org, m) <==> ConfirmedMember(before, u, org, m) {
      }
    }
  }

  /** Replacing one member's assignments changes nobody else's access, and his own only in that organisation. */
  lemma ReplacementSparesOthers(before: Db, after: Db, m: Membership, assignments: seq<Assignment>, u: Id, c: Cipher)
    requires Decidable(before) && Decidable(after) && c in before.ciphers
    requires IsReplacement(before, after, m, assignments)
    requires u != m.userUuid || c.organizationUuid != Some(m.orgUuid)
    ensures Restrictions(c, u, SyncData(after, u, None)) == Restrictions(c, u, SyncData(before, u, None))
  {
    TwoLevelMergeIsFlat(before, u, c, None);
    TwoLevelMergeIsFlat(after, u, c, None);
    if u == m.userUuid && c.organizationUuid.Some? {
    }
    if u != m.userUuid || c.organizationUuid.Some? {
      SameGrants(before, after, m, assignments, u, c);
      SameFlat(before, after, u, c);
    }
  }

  /** The member himself then reaches the organisation's ciphers by what was assigned and by his groups, and by nothing else. */
  lemma ReplacementGrantsExactly(before: Db, after: Db, m: Membership, assignments: seq<Assignment>, c: Cipher)
    requires Decidable(before) && Decidable(after) && c in before.ciphers
    requires IsReplacement(before, after, m, assignments)
    requires c.organizationUuid == Some(m.orgUuid) && c.userUuid != Some(m.userUuid)
    requires ConfirmedMember(before, m.userUuid, m.orgUuid, m) && !HasFullAccess(m.atype, m.accessAll)
    ensures Restrictions(c, m.userUuid, SyncData(after, m.userUuid, None))
            == Flatten(AssignedOn(before, m, assignments, c.uuid) + GroupsOn(before, m.userUuid, c.uuid))
  {
    var u := m.userUuid;
    TwoLevelMergeIsFlat(after, u, c, None);
    assert ConfirmedMember(after, u, m.orgUuid, m);
    assert forall k | ConfirmedMember(after, u, m.orgUuid, k) :: k == m;
    GrantsAreAssigned(before, after, m, assignments, c);
  }

  lemma GrantsAreAssigned(before: Db, after: Db, m: Membership, assignments: seq<Assignment>, c: Cipher)
    requires PrimaryKeys(before) && LinksInside(before) && c in before.ciphers && c.organizationUuid == Some(m.orgUuid)
    requires IsReplacement(before, after, m, assignments)
    ensures RawGrants(after, m.userUuid, c.uuid)
            == AssignedOn(before, m, assignments, c.uuid) + GroupsOn(before, m.userUuid, c.uuid)
  {
    var u := m.userUuid;
    forall l | l in before.cipherLinks && l.cipherUuid == c.uuid
      ensures l.collectionUuid in OrgCollections(before, m.orgUuid)
      ensures GroupRows(after, u, l.collectionUuid) == GroupRows(before, u, l.collectionUuid)
      ensures forall x :: x in DirectRows(after, u, l.collectionUuid) <==> Assignment(l.collectionUuid, x) in assignments
    {
      assert LinkInsideOrg(before, l, m.orgUuid);
      forall x
        ensures x in DirectRows(after, u, l.collectionUuid) <==> Assignment(l.collectionUuid, x) in assignments
      {
        var g := UserGrant(u, l.collectionUuid, x);
        assert g in after.userGrants <==> Replaced(before, m, assignments, g);
      }
    }
    forall x
      ensures x in RawGrants(after, u, c.uuid) <==>
              x in AssignedOn(before, m, assignments, c.uuid) || x in GroupsOn(before, u, c.uuid)
    {
      if x in RawGrants(after, u, c.uuid) {
        var l :| l in before.cipherLinks && l.cipherUuid == c.uuid
                 && x in DirectRows(after, u, l.collectionUuid) + GroupRows(after, u, l.collectionUuid);
        assert x in DirectRows(after, u, l.collectionUuid) ==> Assignment(l.collectionUuid, x) in assignments;
      }
      if x in AssignedOn(before, m, assignments, c.uuid) {
        var l, a :| l in before.cipherLinks && l.cipherUuid == c.uuid && a in assignments
                    && a.collectionUuid == l.collectionUuid && a.access == x;
        assert a == Assignment(l.collectionUuid, x);
        assert x in DirectRows(after, u, l.collectionUuid) + GroupRows(after, u, l.collectionUuid);
      }
      if x in GroupsOn(before, u, c.uuid) {
        var l :| l in before.cipherLinks && l.cipherUuid == c.uuid && x in GroupRows(before, u, l.collectionUuid);
        assert x in DirectRows(after, u, l.collectionUuid) + GroupRows(after, u, l.collectionUuid);
      }
    }
  }
}
