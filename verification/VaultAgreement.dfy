/** The forward check and the list query read one flat relation off the grant rows. */
module VaultAgreement {
  import opened Base
  import opened Memberships
  import opened VaultAccess

  // ---------------------------------------------------------------------
  // A fold summarises the set of rows it has absorbed
  // ---------------------------------------------------------------------

  lemma AbsorbIsUnion(a: set<Access>, b: set<Access>)
    ensures Absorb(Flatten(a), Flatten(b)) == Flatten(a + b)
  {
    if a == {} {
      assert a + b == b;
    } else if b == {} {
      assert a + b == a;
    } else {
      var x :| x in a;
      assert x in a + b;
    }
  }

  lemma FlattenOne(a: Access)
    ensures Flatten({a}) == Some(a)
  {
    assert a in {a};
  }

  /** Rows of one direct-grant table are keyed by collection, so a map entry is that one row. */
  lemma {:induction false} DirectEntry(rows: seq<UserGrant>, cid: Id)
    requires forall a, b | a in rows && b in rows && a.collectionUuid == b.collectionUuid :: a == b
    ensures Get(DirectByCollection(rows), cid)
         == Flatten(set g | g in rows && g.collectionUuid == cid :: g.access)
  {
    var all := set g | g in rows && g.collectionUuid == cid :: g.access;
    if rows == [] {
      assert all == {};
    } else {
      var init, last := rows[..|rows| - 1], rows[|rows| - 1];
      assert rows == init + [last];
      DirectEntry(init, cid);
      if last.collectionUuid == cid {
        assert all == {last.access};
        FlattenOne(last.access);
      } else {
        assert all == set g | g in init && g.collectionUuid == cid :: g.access;
      }
    }
  }

  /** Merging group rows one by one gives the summary of all of them. */
  lemma {:induction false} GroupEntry(rows: seq<(GroupGrant, GroupMember)>, cid: Id)
    ensures Get(GroupsByCollection(rows), cid)
         == Flatten(set p | p in rows && p.0.collectionUuid == cid :: p.0.access)
  {
    var all := set p | p in rows && p.0.collectionUuid == cid :: p.0.access;
    if rows == [] {
      assert all == {};
    } else {
      var init, last := rows[..|rows| - 1], rows[|rows| - 1];
      assert rows == init + [last];
      GroupEntry(init, cid);
      var before := set p | p in init && p.0.collectionUuid == cid :: p.0.access;
      if last.0.collectionUuid == cid {
        assert all == before + {last.0.access};
        FlattenOne(last.0.access);
        AbsorbIsUnion(before, {last.0.access});
      } else {
        assert all == before;
      }
    }
  }

  lemma {:induction false} MembersEntry(rows: seq<Membership>, org: Id)
    ensures org in MembersByOrg(rows) <==> exists m :: m in rows && m.orgUuid == org
    ensures org in MembersByOrg(rows) ==> MembersByOrg(rows)[org] in rows && MembersByOrg(rows)[org].orgUuid == org
  {
    if rows != [] {
      var init, last := rows[..|rows| - 1], rows[|rows| - 1];
      assert rows == init + [last];
      MembersEntry(init, org);
      assert forall m :: m in rows <==> m in init || m == last;
    }
  }

  lemma {:induction false} CollectionsEntry(rows: seq<CipherLink>, c: Id, cid: Id)
    ensures cid in (if c in CollectionsByCipher(rows) then CollectionsByCipher(rows)[c] else [])
       <==> CipherLink(c, cid) in rows
  {
    if rows != [] {
      var init, last := rows[..|rows| - 1], rows[|rows| - 1];
      assert rows == init + [last];
      CollectionsEntry(init, c, cid);
      assert forall l :: l in rows <==> l in init || l == last;
      if last.cipherUuid == c && last.collectionUuid == cid {
        assert last == CipherLink(c, cid);
      }
    }
  }

  // ---------------------------------------------------------------------
  // The two-level merge equals the flat reading
  // ---------------------------------------------------------------------

  ghost function RowsOn(db: Db, userUuid: Id, cid: Id): set<Access> {
    DirectRows(db, userUuid, cid) + GroupRows(db, userUuid, cid)
  }

  ghost function RowsOver(db: Db, userUuid: Id, ids: seq<Id>): set<Access> {
    set cid, a | cid in ids && a in RowsOn(db, userUuid, cid) :: a
  }

  lemma RowsOverSnoc(db: Db, userUuid: Id, init: seq<Id>, cid: Id)
    ensures RowsOver(db, userUuid, init + [cid]) == RowsOver(db, userUuid, init) + RowsOn(db, userUuid, cid)
  {
    var ids := init + [cid];
    forall a | a in RowsOver(db, userUuid, ids)
      ensures a in RowsOver(db, userUuid, init) + RowsOn(db, userUuid, cid)
    {
      var k :| k in ids && a in RowsOn(db, userUuid, k);
      assert k in init || k == cid;
    }
    assert forall k | k in init :: k in ids;
    assert cid in ids;
  }

  lemma {:induction false} FoldIsFlat(db: Db, userUuid: Id, ids: seq<Id>, sync: CipherSyncData)
    requires forall cid | cid in ids ::
               && Get(sync.userCollections, cid) == Flatten(DirectRows(db, userUuid, cid))
               && Get(sync.userCollectionsGroups, cid) == Flatten(GroupRows(db, userUuid, cid))
    ensures FoldSources(ids, sync) == Flatten(RowsOver(db, userUuid, ids))
  {
    if ids == [] {
      assert RowsOver(db, userUuid, ids) == {};
    } else {
      var init, cid := ids[..|ids| - 1], ids[|ids| - 1];
      assert ids == init + [cid];
      FoldIsFlat(db, userUuid, init, sync);
      RowsOverSnoc(db, userUuid, init, cid);
      var before := RowsOver(db, userUuid, init);
      var direct, groups := DirectRows(db, userUuid, cid), GroupRows(db, userUuid, cid);
      AbsorbIsUnion(before, direct);
      AbsorbIsUnion(before + direct, groups);
      assert before + direct + groups == before + RowsOn(db, userUuid, cid);
    }
  }

  lemma DirectSource(db: Db, u: Id, cid: Id)
    requires PrimaryKeys(db)
    ensures Get(DirectByCollection(GrantsOf(db, u)), cid) == Flatten(DirectRows(db, u, cid))
  {
    DirectEntry(GrantsOf(db, u), cid);
    assert DirectRows(db, u, cid) == set g | g in GrantsOf(db, u) && g.collectionUuid == cid :: g.access;
  }

  lemma GroupSource(db: Db, u: Id, cid: Id)
    ensures Get(GroupsByCollection(GroupGrantsOf(db, MemberIds(ConfirmedOf(db, u)))), cid) == Flatten(GroupRows(db, u, cid))
  {
    var rows := GroupGrantsOf(db, MemberIds(ConfirmedOf(db, u)));
    GroupEntry(rows, cid);
    var viaRows := set p | p in rows && p.0.collectionUuid == cid :: p.0.access;
    forall a | a in GroupRows(db, u, cid) ensures a in viaRows {
      var g, gm :| g in db.groupGrants && gm in db.groupMembers && g.groupUuid == gm.groupUuid
                   && g.collectionUuid == cid && ViaGroup(db, u, gm) && g.access == a;
      assert (g, gm) in rows;
    }
    forall a | a in viaRows ensures a in GroupRows(db, u, cid) {
      var p :| p in rows && p.0.collectionUuid == cid && p.0.access == a;
      assert ViaGroup(db, u, p.1);
    }
    assert viaRows == GroupRows(db, u, cid);
  }

  /** Keys, one membership per user and organisation, and links inside the cipher's organisation. */
  ghost predicate Decidable(db: Db) {
    PrimaryKeys(db) && OneMembership(db) && LinksInside(db)
  }

  /** The snapshot is one the server builds for this cipher: a "user" load, or an "org" load of its organisation. */
  ghost predicate LoadCovers(c: Cipher, orgUuid: Option<Id>) {
    orgUuid.None? || orgUuid == c.organizationUuid
  }

  lemma RawRowsOver(db: Db, u: Id, c: Cipher, ids: seq<Id>)
    requires forall cid :: cid in ids <==> CipherLink(c.uuid, cid) in db.cipherLinks
    ensures RowsOver(db, u, ids) == RawGrants(db, u, c.uuid)
  {
    forall a | a in RowsOver(db, u, ids) ensures a in RawGrants(db, u, c.uuid) {
      var cid :| cid in ids && a in RowsOn(db, u, cid);
      var l := CipherLink(c.uuid, cid);
      assert l in db.cipherLinks && l.cipherUuid == c.uuid && a in DirectRows(db, u, l.collectionUuid) + GroupRows(db, u, l.collectionUuid);
    }
    forall a | a in RawGrants(db, u, c.uuid) ensures a in RowsOver(db, u, ids) {
      var l :| l in db.cipherLinks && l.cipherUuid == c.uuid
               && a in DirectRows(db, u, l.collectionUuid) + GroupRows(db, u, l.collectionUuid);
      assert l == CipherLink(c.uuid, l.collectionUuid);
      assert a in RowsOn(db, u, l.collectionUuid);
    }
  }

  /** A member's snapshot lists exactly the collections linked to the cipher. */
  lemma LinkedCollections(db: Db, u: Id, c: Cipher, org: Id, orgIds: seq<Id>, cid: Id)
    requires LinksInside(db) && c in db.ciphers && c.organizationUuid == Some(org) && org in orgIds
    ensures cid in (var m := CollectionsByCipher(LinksInOrgs(db, orgIds)); if c.uuid in m then m[c.uuid] else [])
       <==> CipherLink(c.uuid, cid) in db.cipherLinks
  {
    CollectionsEntry(LinksInOrgs(db, orgIds), c.uuid, cid);
    var l := CipherLink(c.uuid, cid);
    if l in db.cipherLinks {
      assert LinkInsideOrg(db, l, org);
    }
  }

  /** The two grant maps of a member's snapshot, collection by collection. */
  lemma SourcesAreFlat(db: Db, u: Id, orgUuid: Option<Id>, ids: seq<Id>)
    requires PrimaryKeys(db) && ConfirmedOf(db, u) != []
    ensures var sync := SyncData(db, u, orgUuid);
            forall cid | cid in ids ::
              && Get(sync.userCollections, cid) == Flatten(DirectRows(db, u, cid))
              && Get(sync.userCollectionsGroups, cid) == Flatten(GroupRows(db, u, cid))
  {
    assert OrgIds(ConfirmedOf(db, u)) != [];
    forall cid | cid in ids
      ensures Get(DirectByCollection(GrantsOf(db, u)), cid) == Flatten(DirectRows(db, u, cid))
      ensures Get(GroupsByCollection(GroupGrantsOf(db, MemberIds(ConfirmedOf(db, u)))), cid)
              == Flatten(GroupRows(db, u, cid))
    {
      DirectSource(db, u, cid);
      GroupSource(db, u, cid);
    }
  }

  /** What the fold yields for a member. */
  lemma MemberFoldIsFlat(db: Db, u: Id, c: Cipher, org: Id, orgUuid: Option<Id>)
    requires PrimaryKeys(db) && LinksInside(db) && c in db.ciphers && c.organizationUuid == Some(org)
    requires LoadCovers(c, orgUuid) && exists m :: ConfirmedMember(db, u, org, m)
    ensures var sync := SyncData(db, u, orgUuid);
            FoldSources(CollectionsOf(sync, c.uuid), sync) == Flatten(RawGrants(db, u, c.uuid))
  {
    var rows, sync := ConfirmedOf(db, u), SyncData(db, u, orgUuid);
    var m :| ConfirmedMember(db, u, org, m);
    assert m in rows;
    var orgIds := if orgUuid.Some? then [orgUuid.value] else OrgIds(rows);
    assert org in orgIds;
    var ids := CollectionsOf(sync, c.uuid);
    forall cid ensures cid in ids <==> CipherLink(c.uuid, cid) in db.cipherLinks {
      LinkedCollections(db, u, c, org, orgIds, cid);
    }
    SourcesAreFlat(db, u, orgUuid, ids);
    FoldIsFlat(db, u, ids, sync);
    RawRowsOver(db, u, c, ids);
  }

  /** The snapshot's members are the confirmed memberships, one per organisation. */
  lemma MemberOfSnapshot(db: Db, u: Id, org: Id, orgUuid: Option<Id>)
    requires OneMembership(db)
    ensures var members := SyncData(db, u, orgUuid).members;
            forall m :: org in members && members[org] == m <==> ConfirmedMember(db, u, org, m)
  {
    MembersEntry(ConfirmedOf(db, u), org);
    assert forall m :: m in ConfirmedOf(db, u) && m.orgUuid == org <==> ConfirmedMember(db, u, org, m);
  }

  /**
   The result of the loops over maps equals one flat reading of the raw rows, for both kinds of load:
   restricted iff every row restricts, manage iff some row manages, nothing iff there is no row.
   */
  lemma TwoLevelMergeIsFlat(db: Db, u: Id, c: Cipher, orgUuid: Option<Id>)
    requires Decidable(db) && c in db.ciphers && LoadCovers(c, orgUuid)
    ensures Restrictions(c, u, SyncData(db, u, orgUuid)) == FlatRestrictions(db, u, c)
  {
    if c.userUuid == Some(u) || c.organizationUuid.None? { return; }
    var org := c.organizationUuid.value;
    MemberOfSnapshot(db, u, org, orgUuid);
    if org in SyncData(db, u, orgUuid).members {
      assert ConfirmedMember(db, u, org, SyncData(db, u, orgUuid).members[org]);
      MemberFoldIsFlat(db, u, c, org, orgUuid);
    }
  }

  // ---------------------------------------------------------------------
  // The decision in wire values: status 2 is Confirmed, types 0 and 1 are Owner and Admin
  // ---------------------------------------------------------------------

  /** One's own cipher is never restricted. */
  lemma OwnCipherIsOpen(db: Db, u: Id, c: Cipher, orgUuid: Option<Id>)
    requires c.userUuid == Some(u)
    ensures Restrictions(c, u, SyncData(db, u, orgUuid)) == Some(Access(false, false, true))
  {
  }

  /**
   A confirmed member: open for Owners, Admins and members with access to all; for anyone else, Managers
   included, what the grant rows say.
   */
  lemma MemberAccess(db: Db, u: Id, c: Cipher, orgUuid: Option<Id>, m: Membership)
    requires Decidable(db) && c in db.ciphers && LoadCovers(c, orgUuid) && c.userUuid != Some(u)
    requires m in db.members && m.userUuid == u && c.organizationUuid == Some(m.orgUuid) && m.status == 2
    ensures Restrictions(c, u, SyncData(db, u, orgUuid)) ==
            if m.accessAll || m.atype in {0, 1} then Some(Access(false, false, true))
            else Flatten(RawGrants(db, u, c.uuid))
  {
    TwoLevelMergeIsFlat(db, u, c, orgUuid);
    MemberIsFlat(db, u, c, m);
  }

  lemma MemberIsFlat(db: Db, u: Id, c: Cipher, m: Membership)
    requires OneMembership(db) && c.userUuid != Some(u)
    requires m in db.members && m.userUuid == u && c.organizationUuid == Some(m.orgUuid) && m.status == 2
    ensures FlatRestrictions(db, u, c) ==
            if m.accessAll || m.atype in {0, 1} then Some(Access(false, false, true))
            else Flatten(RawGrants(db, u, c.uuid))
  {
    assert ConfirmedMember(db, u, m.orgUuid, m);
    assert forall k | ConfirmedMember(db, u, m.orgUuid, k) :: k == m;
  }

  /** A grant row that connects the user to the cipher, directly or through a group of a confirmed membership of his. */
  ghost predicate Connects(db: Db, u: Id, c: Cipher, a: Access) {
    exists l :: l in db.cipherLinks && l.cipherUuid == c.uuid
                && (UserGrant(u, l.collectionUuid, a) in db.userGrants || ConnectsViaGroup(db, u, l.collectionUuid, a))
  }

  ghost predicate ConnectsViaGroup(db: Db, u: Id, cid: Id, a: Access) {
    exists group, m :: m in db.members && m.userUuid == u && m.status == 2
                       && GroupMember(group, m.uuid) in db.groupMembers && GroupGrant(cid, group, a) in db.groupGrants
  }

  lemma GroupRowIff(db: Db, u: Id, cid: Id, a: Access)
    ensures a in GroupRows(db, u, cid) <==> ConnectsViaGroup(db, u, cid, a)
  {
    if a in GroupRows(db, u, cid) {
      var g, gm :| g in db.groupGrants && gm in db.groupMembers && g.groupUuid == gm.groupUuid
                   && g.collectionUuid == cid && ViaGroup(db, u, gm) && g.access == a;
      var m :| m in db.members && m.userUuid == u && m.status == CONFIRMED && m.uuid == gm.memberUuid;
      assert GroupMember(g.groupUuid, m.uuid) == gm && GroupGrant(cid, g.groupUuid, a) == g;
    }
    if ConnectsViaGroup(db, u, cid, a) {
      var group, m :| m in db.members && m.userUuid == u && m.status == 2
                      && GroupMember(group, m.uuid) in db.groupMembers && GroupGrant(cid, group, a) in db.groupGrants;
      assert ViaGroup(db, u, GroupMember(group, m.uuid));
    }
  }

  lemma RawGrantIff(db: Db, u: Id, c: Cipher, a: Access)
    ensures a in RawGrants(db, u, c.uuid) <==> Connects(db, u, c, a)
  {
    forall l | l in db.cipherLinks && l.cipherUuid == c.uuid
      ensures a in DirectRows(db, u, l.collectionUuid) + GroupRows(db, u, l.collectionUuid) <==>
                UserGrant(u, l.collectionUuid, a) in db.userGrants || ConnectsViaGroup(db, u, l.collectionUuid, a)
    {
      GroupRowIff(db, u, l.collectionUuid, a);
      assert a in DirectRows(db, u, l.collectionUuid) <==> UserGrant(u, l.collectionUuid, a) in db.userGrants;
    }
  }

  /**
   A member without full access, row by row: access iff some row connects him to the cipher, read-only or hiding
   passwords iff all that do are, and managing iff one of them manages.
   */
  lemma GrantedAccessByRows(db: Db, u: Id, c: Cipher, orgUuid: Option<Id>, m: Membership)
    requires Decidable(db) && c in db.ciphers && LoadCovers(c, orgUuid) && c.userUuid != Some(u)
    requires m in db.members && m.userUuid == u && c.organizationUuid == Some(m.orgUuid) && m.status == 2
    requires !m.accessAll && m.atype !in {0, 1}
    ensures var r := Restrictions(c, u, SyncData(db, u, orgUuid));
            && (r.Some? <==> exists a :: Connects(db, u, c, a))
            && (r.Some? ==>
                  && (r.value.readOnly <==> forall a | Connects(db, u, c, a) :: a.readOnly)
                  && (r.value.hidePasswords <==> forall a | Connects(db, u, c, a) :: a.hidePasswords)
                  && (r.value.manage <==> exists a :: Connects(db, u, c, a) && a.manage))
  {
    MemberAccess(db, u, c, orgUuid, m);
    forall a ensures a in RawGrants(db, u, c.uuid) <==> Connects(db, u, c, a) {
      RawGrantIff(db, u, c, a);
    }
  }

  /** Nobody else has any access. */
  lemma StrangerHasNone(db: Db, u: Id, c: Cipher, orgUuid: Option<Id>)
    requires Decidable(db) && c in db.ciphers && LoadCovers(c, orgUuid) && c.userUuid != Some(u)
    requires forall m | m in db.members && m.userUuid == u && c.organizationUuid == Some(m.orgUuid) :: m.status != 2
    ensures Restrictions(c, u, SyncData(db, u, orgUuid)) == None
  {
    TwoLevelMergeIsFlat(db, u, c, orgUuid);
    if c.organizationUuid.Some? {
      var org := c.organizationUuid.value;
      assert forall m | ConfirmedMember(db, u, org, m) :: m in db.members && m.userUuid == u;
    }
  }

  /** An "org" load and a "user" load decide that organisation's ciphers alike. */
  lemma OrgModeIsUserMode(db: Db, u: Id, c: Cipher, org: Id)
    requires Decidable(db) && c in db.ciphers && c.organizationUuid == Some(org)
    ensures Restrictions(c, u, SyncData(db, u, Some(org))) == Restrictions(c, u, SyncData(db, u, None))
  {
    TwoLevelMergeIsFlat(db, u, c, Some(org));
    TwoLevelMergeIsFlat(db, u, c, None);
  }

  // ---------------------------------------------------------------------
  // Row order does not matter; more grants never restrict
  // ---------------------------------------------------------------------

  ghost predicate SameRows<T(!new)>(a: seq<T>, b: seq<T>) {
    forall x :: x in a <==> x in b
  }

  ghost predicate MoreRows<T(!new)>(a: seq<T>, b: seq<T>) {
    forall x | x in a :: x in b
  }

  ghost predicate SameTables(a: Db, b: Db) {
    && SameRows(a.ciphers, b.ciphers) && SameRows(a.members, b.members) && SameRows(a.collections, b.collections)
    && SameRows(a.cipherLinks, b.cipherLinks) && SameRows(a.userGrants, b.userGrants)
    && SameRows(a.groupGrants, b.groupGrants) && SameRows(a.groupMembers, b.groupMembers)
  }

  /** `b` is `a` with grants added: to users, to groups, or by adding members to groups. */
  ghost predicate GrantsAdded(a: Db, b: Db) {
    && SameRows(a.members, b.members) && SameRows(a.cipherLinks, b.cipherLinks)
    && MoreRows(a.userGrants, b.userGrants) && MoreRows(a.groupGrants, b.groupGrants)
    && MoreRows(a.groupMembers, b.groupMembers)
  }

  lemma MoreGrantsMoreRows(a: Db, b: Db, u: Id, cipherUuid: Id)
    requires GrantsAdded(a, b)
    ensures RawGrants(a, u, cipherUuid) <= RawGrants(b, u, cipherUuid)
  {
    forall x | x in RawGrants(a, u, cipherUuid) ensures x in RawGrants(b, u, cipherUuid) {
      var l :| l in a.cipherLinks && l.cipherUuid == cipherUuid
               && x in DirectRows(a, u, l.collectionUuid) + GroupRows(a, u, l.collectionUuid);
      var cid := l.collectionUuid;
      if x in GroupRows(a, u, cid) {
        var g, gm :| g in a.groupGrants && gm in a.groupMembers && g.groupUuid == gm.groupUuid
                     && g.collectionUuid == cid && ViaGroup(a, u, gm) && g.access == x;
        assert ViaGroup(b, u, gm);
        assert x in GroupRows(b, u, cid);
      } else {
        assert x in DirectRows(b, u, cid);
      }
      assert l in b.cipherLinks && x in DirectRows(b, u, l.collectionUuid) + GroupRows(b, u, l.collectionUuid);
    }
  }

  /** At most as restricted: whatever `a` allows, `b` allows. */
  ghost predicate AtLeastAsPermissive(a: Option<Access>, b: Option<Access>) {
    a.Some? ==>
      && b.Some?
      && (b.value.readOnly ==> a.value.readOnly)
      && (b.value.hidePasswords ==> a.value.hidePasswords)
      && (a.value.manage ==> b.value.manage)
  }

  lemma FlatMonotone(a: Db, b: Db, u: Id, c: Cipher)
    requires GrantsAdded(a, b)
    ensures AtLeastAsPermissive(FlatRestrictions(a, u, c), FlatRestrictions(b, u, c))
  {
    MoreGrantsMoreRows(a, b, u, c.uuid);
    if c.organizationUuid.Some? {
      var org := c.organizationUuid.value;
      forall m ensures ConfirmedMember(a, u, org, m) <==> ConfirmedMember(b, u, org, m) {
      }
    }
  }

  lemma AddingGrantsNeverRestricts(a: Db, b: Db, u: Id, c: Cipher)
    requires Decidable(a) && Decidable(b) && c in a.ciphers && c in b.ciphers && GrantsAdded(a, b)
    ensures AtLeastAsPermissive(Restrictions(c, u, SyncData(a, u, None)), Restrictions(c, u, SyncData(b, u, None)))
  {
    TwoLevelMergeIsFlat(a, u, c, None);
    TwoLevelMergeIsFlat(b, u, c, None);
    FlatMonotone(a, b, u, c);
  }

  lemma RowOrderIsIrrelevant(a: Db, b: Db, u: Id, c: Cipher)
    requires Decidable(a) && Decidable(b) && c in a.ciphers && SameTables(a, b)
    ensures Restrictions(c, u, SyncData(a, u, None)) == Restrictions(c, u, SyncData(b, u, None))
  {
    TwoLevelMergeIsFlat(a, u, c, None);
    TwoLevelMergeIsFlat(b, u, c, None);
    FlatMonotone(a, b, u, c);
    FlatMonotone(b, a, u, c);
  }
}
