/** Owners, revisions and collection links of a cipher: the writes beside the access check. */
module CipherWrites {
  import opened Base
  import opened Memberships
  import opened VaultAccess
  import opened VaultAgreement
  import opened CipherAudience

  predicate CollectionInOrg(db: Db, cid: Id, org: Id) {
    exists col :: col in db.collections && col.uuid == cid && col.orgUuid == org
  }

  /** The snapshot lets its user change links to this collection. */
  predicate AccessibleCollection(sync: CipherSyncData, org: Id, cid: Id) {
    || (org in sync.members && HasFullAccess(sync.members[org].atype, sync.members[org].accessAll))
    || cid in sync.userCollections
    || cid in sync.userCollectionsGroups
  }

  ghost predicate Changeable(db: Db, userUuid: Id, org: Id, cid: Id) {
    CollectionInOrg(db, cid, org) && AccessibleCollection(SyncData(db, userUuid, None), org, cid)
  }

  /** For a member, changeable means full access or some raw grant row on that collection. */
  lemma ChangeableIsGranted(db: Db, u: Id, org: Id, cid: Id)
    requires PrimaryKeys(db) && OneMembership(db) && MemberIn(db, org, u)
    ensures Changeable(db, u, org, cid) <==>
              CollectionInOrg(db, cid, org) && (FullAccessIn(db, org, u) || RowsOn(db, u, cid) != {})
  {
    var rows := ConfirmedOf(db, u);
    var m :| ConfirmedMember(db, u, org, m);
    assert m in rows;
    MembersEntry(rows, org);
    var found := MembersByOrg(rows)[org];
    assert ConfirmedMember(db, u, org, found) && found == m;
    assert OrgIds(rows) != [];
    DirectSource(db, u, cid);
    GroupSource(db, u, cid);
    assert RowsOn(db, u, cid) == {} <==> DirectRows(db, u, cid) == {} && GroupRows(db, u, cid) == {};
  }

  /** The links of one cipher after a request: (current minus changeable) plus (requested and changeable). */
  ghost predicate LinkReconciled(db: Db, userUuid: Id, c: Cipher, requested: seq<Id>, l: CipherLink)
    requires c.organizationUuid.Some?
  {
    if l.cipherUuid == c.uuid && Changeable(db, userUuid, c.organizationUuid.value, l.collectionUuid)
    then l.collectionUuid in requested
    else l in db.cipherLinks
  }

  function FindConfirmedMembership(db: Db, userUuid: Id, org: Id): (r: Option<Membership>)
    ensures r.Some? ==> ConfirmedMember(db, userUuid, org, r.value)
    ensures r.None? ==> !MemberIn(db, org, userUuid)
  {
    var rows := Select(db.members, (m: Membership) => m.userUuid == userUuid && m.orgUuid == org && m.status == CONFIRMED);
    if rows == [] then
      assert forall m | ConfirmedMember(db, userUuid, org, m) :: m in rows;
      None
    else
      assert rows[0] in rows;
      Some(rows[0])
  }

  function FindCipher(db: Db, uuid: Id): Option<Cipher> {
    var rows := Select(db.ciphers, (c: Cipher) => c.uuid == uuid);
    if rows == [] then None else Some(rows[0])
  }

  /** `new Set([...a, ...b])`: the elements in order of first appearance. */
  function DistinctIds(ids: seq<Id>): (r: seq<Id>)
    ensures NoDuplicates(r)
    ensures forall x :: x in r <==> x in ids
  {
    if ids == [] then []
    else
      assert ids == ids[..|ids| - 1] + [ids[|ids| - 1]];
      Insert(DistinctIds(ids[..|ids| - 1]), ids[|ids| - 1])
  }

  /** The links of one cipher when the targets in `done` have been looked at. */
  ghost predicate PartlyReconciled(before: seq<CipherLink>, after: seq<CipherLink>, cipherUuid: Id,
                                   may: iset<Id>, done: seq<Id>, requested: seq<Id>) {
    forall l :: l in after <==>
      if l.cipherUuid == cipherUuid && l.collectionUuid in done && l.collectionUuid in may
      then l.collectionUuid in requested
      else l in before
  }

  lemma SkippedStep(before: seq<CipherLink>, links: seq<CipherLink>, cipherUuid: Id,
                    may: iset<Id>, done: seq<Id>, target: Id, requested: seq<Id>)
    requires PartlyReconciled(before, links, cipherUuid, may, done, requested)
    ensures target !in may ==> PartlyReconciled(before, links, cipherUuid, may, done + [target], requested)
  {
  }

  lemma ReconciledStep(before: seq<CipherLink>, links: seq<CipherLink>, after: seq<CipherLink>, cipherUuid: Id,
                       may: iset<Id>, done: seq<Id>, target: Id, requested: seq<Id>)
    requires PartlyReconciled(before, links, cipherUuid, may, done, requested) && target in may
    requires forall l :: l in after <==> if l == CipherLink(cipherUuid, target) then target in requested else l in links
    ensures PartlyReconciled(before, after, cipherUuid, may, done + [target], requested)
  {
  }

  lemma AllReconciled(before: seq<CipherLink>, after: seq<CipherLink>, cipherUuid: Id,
                      may: iset<Id>, targets: seq<Id>, requested: seq<Id>)
    requires PartlyReconciled(before, after, cipherUuid, may, targets, requested)
    requires forall x | x in requested :: x in targets
    requires forall l | l in before && l.cipherUuid == cipherUuid :: l.collectionUuid in targets
    ensures forall l :: l in after <==>
              if l.cipherUuid == cipherUuid && l.collectionUuid in may then l.collectionUuid in requested else l in before
  {
  }

  lemma CurrentIds(db: Db, cipher: Cipher)
    ensures forall cid :: cid in CollectionIds(LinksOf(db, cipher)) <==> CipherLink(cipher.uuid, cid) in db.cipherLinks
  {
    var links := LinksOf(db, cipher);
    var current := CollectionIds(links);
    forall cid | CipherLink(cipher.uuid, cid) in db.cipherLinks
      ensures cid in current
    {
      assert CipherLink(cipher.uuid, cid) in links;
    }
    forall cid | cid in current
      ensures CipherLink(cipher.uuid, cid) in db.cipherLinks
    {
      var l :| l in links && l.collectionUuid == cid;
      assert l == CipherLink(cipher.uuid, cid);
    }
  }

  /** Every requested collection is in the organisation and writable by the member. */
  method CheckCollections(db: Db, userUuid: Id, org: Id, sync: CipherSyncData, collectionIds: seq<Id>) returns (r: Outcome)
    requires OneMembership(db) && sync == SyncData(db, userUuid, Some(org))
    ensures r.Done? <==> MemberIn(db, org, userUuid)
                         && forall cid | cid in collectionIds :: BulkWritable(db, userUuid, org, cid)
  {
    var found := FindConfirmedMembership(db, userUuid, org);
    if found.None? {
      return Failed("You need to be a Member of the Organization to call this endpoint");
    }
    var member := found.value;
    assert HasFullAccess(member.atype, member.accessAll) <==> FullAccessIn(db, org, userUuid);
    for i := 0 to |collectionIds|
      invariant forall cid | cid in collectionIds[..i] :: BulkWritable(db, userUuid, org, cid)
    {
      assert collectionIds[..i + 1] == collectionIds[..i] + [collectionIds[i]];
      var cid := collectionIds[i];
      var writable := HasFullAccess(member.atype, member.accessAll)
                      || (cid in sync.userCollections && !sync.userCollections[cid].readOnly)
                      || (cid in sync.userCollectionsGroups && !sync.userCollectionsGroups[cid].readOnly);
      if !CollectionInOrg(db, cid, org) || !writable {
        assert !BulkWritable(db, userUuid, org, cid);
        return Failed("Resource not found");
      }
    }
    assert collectionIds[..|collectionIds|] == collectionIds;
    r := Done;
  }

  // ---------------------------------------------------------------------
  // Who may write, read off the rows
  // ---------------------------------------------------------------------

  /** A confirmed member of the organisation who is an Owner, an Admin, or has access to all. */
  ghost predicate FullByRows(db: Db, u: Id, org: Id) {
    exists m :: m in db.members && m.userUuid == u && m.orgUuid == org && m.status == 2
                && (m.accessAll || m.atype in {0, 1})
  }

  ghost predicate MemberByRows(db: Db, u: Id, org: Id) {
    exists m :: m in db.members && m.userUuid == u && m.orgUuid == org && m.status == 2
  }

  /** His own cipher, or one of an organisation of his where he has full access or some row that is not read-only. */
  ghost predicate MayWriteByRows(db: Db, c: Cipher, u: Id) {
    || c.userUuid == Some(u)
    || (&& c.organizationUuid.Some? && MemberByRows(db, u, c.organizationUuid.value)
        && (FullByRows(db, u, c.organizationUuid.value) || exists a :: a in RawGrants(db, u, c.uuid) && !a.readOnly))
  }

  lemma SomeRowWrites(rows: set<Access>)
    ensures Flatten(rows).Some? && !Flatten(rows).value.readOnly <==> exists a :: a in rows && !a.readOnly
  {
  }

  lemma TheMembership(db: Db, u: Id, m: Membership)
    requires OneMembership(db) && m in db.members && m.userUuid == u && m.status == 2
    ensures FullByRows(db, u, m.orgUuid) <==> m.accessAll || m.atype in {0, 1}
  {
  }

  lemma WritableMember(db: Db, c: Cipher, u: Id, orgUuid: Option<Id>, m: Membership)
    requires Decidable(db) && c in db.ciphers && LoadCovers(c, orgUuid) && c.userUuid != Some(u)
    requires m in db.members && m.userUuid == u && c.organizationUuid == Some(m.orgUuid) && m.status == 2
    ensures IsWriteAccessible(c, u, SyncData(db, u, orgUuid)) <==>
              FullByRows(db, u, m.orgUuid) || exists a :: a in RawGrants(db, u, c.uuid) && !a.readOnly
  {
    MemberAccess(db, u, c, orgUuid, m);
    TheMembership(db, u, m);
    SomeRowWrites(RawGrants(db, u, c.uuid));
  }

  /** The write check of both kinds of load: one row that is not read-only is enough, and no read-only one is. */
  lemma WritableIff(db: Db, c: Cipher, u: Id, orgUuid: Option<Id>)
    requires Decidable(db) && c in db.ciphers && LoadCovers(c, orgUuid)
    ensures IsWriteAccessible(c, u, SyncData(db, u, orgUuid)) <==> MayWriteByRows(db, c, u)
  {
    if c.userUuid == Some(u) {
      OwnCipherIsOpen(db, u, c, orgUuid);
    } else if c.organizationUuid.Some? && MemberByRows(db, u, c.organizationUuid.value) {
      var m :| m in db.members && m.userUuid == u && c.organizationUuid == Some(m.orgUuid) && m.status == 2;
      WritableMember(db, c, u, orgUuid, m);
    } else {
      StrangerHasNone(db, u, c, orgUuid);
    }
  }

  /** A bulk request's collections: full access, or a row on it, direct or through a group, that is not read-only. */
  lemma BulkWritableIff(db: Db, u: Id, org: Id, cid: Id)
    requires PrimaryKeys(db) && MemberByRows(db, u, org)
    ensures BulkWritable(db, u, org, cid) <==>
              && CollectionInOrg(db, cid, org)
              && (FullByRows(db, u, org) || exists a :: a in RowsOn(db, u, cid) && !a.readOnly)
  {
    var m :| m in db.members && m.userUuid == u && m.orgUuid == org && m.status == 2;
    assert m in ConfirmedOf(db, u);
    DirectSource(db, u, cid);
    GroupSource(db, u, cid);
    assert FullByRows(db, u, org) <==> FullAccessIn(db, org, u);
    assert forall a :: a in RowsOn(db, u, cid) <==> a in DirectRows(db, u, cid) || a in GroupRows(db, u, cid);
  }

  /**
   The single request in raw rows: a changeable collection, one of the organisation's on which the writer has
   full access or any row, is linked iff it was requested; every other link stays as it was.
   */
  lemma RelinkedByRows(db: Db, after: Db, u: Id, c: Cipher, requested: seq<Id>, l: CipherLink)
    requires Decidable(db) && OneOwnerKind(db) && c in db.ciphers && c.organizationUuid.Some? && MayWriteByRows(db, c, u)
    requires forall k :: k in after.cipherLinks <==> LinkReconciled(db, u, c, requested, k)
    ensures var org := c.organizationUuid.value;
            l in after.cipherLinks <==>
              if l.cipherUuid == c.uuid
                 && (exists col :: col in db.collections && col.uuid == l.collectionUuid && col.orgUuid == org)
                 && (FullByRows(db, u, org) || RowsOn(db, u, l.collectionUuid) != {})
              then l.collectionUuid in requested
              else l in db.cipherLinks
  {
    var org := c.organizationUuid.value;
    var m :| m in db.members && m.userUuid == u && m.orgUuid == org && m.status == 2;
    assert ConfirmedMember(db, u, org, m);
    ChangeableIsGranted(db, u, org, l.collectionUuid);
    assert FullByRows(db, u, org) <==> FullAccessIn(db, org, u);
  }

  /** The bulk request in raw rows: exactly the requested links of the organisation's ciphers that the actor may write. */
  lemma BulkRelinkedByRows(before: Db, after: Db, u: Id, org: Id, cipherIds: seq<Id>, collectionIds: seq<Id>,
                           removeCollections: bool, c: Cipher, cid: Id)
    requires Decidable(before) && c in before.ciphers
    requires BulkReconciled(before, after, u, org, cipherIds, collectionIds, removeCollections)
    ensures CipherLink(c.uuid, cid) in after.cipherLinks <==>
              if c.uuid in cipherIds && c.organizationUuid == Some(org) && MayWriteByRows(before, c, u) && cid in collectionIds
              then !removeCollections
              else CipherLink(c.uuid, cid) in before.cipherLinks
  {
    var found := FindCipher(before, c.uuid);
    CipherIsFound(before, c);
    if c.organizationUuid == Some(org) {
      WritableIff(before, c, u, Some(org));
    }
  }

  lemma CipherIsFound(db: Db, c: Cipher)
    requires PrimaryKeys(db) && c in db.ciphers
    ensures FindCipher(db, c.uuid) == Some(c)
  {
    var rows := Select(db.ciphers, (k: Cipher) => k.uuid == c.uuid);
    assert c in rows && rows[0] in rows;
  }

  /** A member all of whose rows on a cipher are read-only changes none of its links, one by one or in bulk. */
  lemma ReadersChangeNothing(db: Db, after: Db, u: Id, c: Cipher, org: Id, cipherIds: seq<Id>, collectionIds: seq<Id>,
                             removeCollections: bool, cid: Id)
    requires Decidable(db) && OneOwnerKind(db) && c in db.ciphers && c.organizationUuid.Some?
    requires !FullByRows(db, u, c.organizationUuid.value) && forall a | a in RawGrants(db, u, c.uuid) :: a.readOnly
    ensures !IsWriteAccessible(c, u, SyncData(db, u, None))
    ensures BulkReconciled(db, after, u, org, cipherIds, collectionIds, removeCollections) ==>
              (CipherLink(c.uuid, cid) in after.cipherLinks <==> CipherLink(c.uuid, cid) in db.cipherLinks)
  {
    WritableIff(db, c, u, None);
    if BulkReconciled(db, after, u, org, cipherIds, collectionIds, removeCollections) {
      BulkRelinkedByRows(db, after, u, org, cipherIds, collectionIds, removeCollections, c, cid);
    }
  }

  /** The cipher is shared to collections, or his own, or he may write it. */
  ghost predicate Entitled(db: Db, cipher: Cipher, shared: bool, userUuid: Id) {
    || shared || cipher.userUuid == Some(userUuid)
    || IsWriteAccessible(cipher, userUuid, SyncData(db, userUuid, None))
  }

  /** Decided on the first confirmed membership found. */
  ghost predicate MayAdd(db: Db, cipher: Cipher, org: Id, shared: bool, userUuid: Id) {
    var found := FindConfirmedMembership(db, userUuid, org);
    found.Some? && (HasFullAccess(found.value.atype, found.value.accessAll) || Entitled(db, cipher, shared, userUuid))
  }

  /**
   With one membership per user and organisation: any member with full access, and any member who shares the
   cipher, owns it, or may write it where it is.
   */
  lemma MayAddIffEntitledMember(db: Db, cipher: Cipher, org: Id, shared: bool, userUuid: Id)
    requires OneMembership(db)
    ensures MayAdd(db, cipher, org, shared, userUuid) <==>
              && MemberByRows(db, userUuid, org)
              && (|| FullByRows(db, userUuid, org) || shared || cipher.userUuid == Some(userUuid)
                  || IsWriteAccessible(cipher, userUuid, SyncData(db, userUuid, None)))
    ensures Decidable(db) && cipher in db.ciphers ==>
              (MayAdd(db, cipher, org, shared, userUuid) <==>
                && MemberByRows(db, userUuid, org)
                && (FullByRows(db, userUuid, org) || shared || MayWriteByRows(db, cipher, userUuid)))
  {
    var found := FindConfirmedMembership(db, userUuid, org);
    if found.Some? {
      assert ConfirmedMember(db, userUuid, org, found.value);
    } else {
      forall m ensures !(m in db.members && m.userUuid == userUuid && m.orgUuid == org && m.status == 2) {
        assert !ConfirmedMember(db, userUuid, org, m);
      }
    }
    if Decidable(db) && cipher in db.ciphers {
      WritableIff(db, cipher, userUuid, None);
    }
  }

  /** Who may move a cipher into an organisation. */
  method MayAddToOrg(db: Db, cipher: Cipher, org: Id, shared: bool, userUuid: Id) returns (r: Outcome)
    ensures r.Done? <==> MayAdd(db, cipher, org, shared, userUuid)
  {
    var found := FindConfirmedMembership(db, userUuid, org);
    if found.None? { return Failed("You don't have permission to add item to organization"); }
    var member := found.value;
    var sync := LoadCipherSyncData(db, userUuid, None);
    var access := GetAccessRestrictions(cipher, userUuid, sync);
    var writable := shared || HasFullAccess(member.atype, member.accessAll) || cipher.userUuid == Some(userUuid)
                    || (access.Some? && !access.value.readOnly);
    if !writable { return Failed("You don't have permission to add cipher directly to organization"); }
    r := Done;
  }

  /** The two checks that come before the membership is looked at. */
  method CheckOwnerChange(cipher: Cipher, organizationId: Option<Id>, ownershipPolicy: bool) returns (r: Outcome)
    ensures r.Done? <==>
              && (organizationId.None? ==> !ownershipPolicy)
              && (cipher.organizationUuid.None? || cipher.organizationUuid == organizationId)
  {
    if organizationId.None? && ownershipPolicy {
      return Failed("Due to an Enterprise Policy, you are restricted from saving items to your personal vault.");
    }
    if cipher.organizationUuid.Some? && cipher.organizationUuid != organizationId {
      return Failed("Organization mismatch. Please resync the client before updating the cipher");
    }
    r := Done;
  }

  class VaultStore {
    var db: Db
    /** users.updated_at, by user. */
    var revisions: map<Id, int>

    /** Bumps exactly the users whose vaults include the cipher. */
    method UpdateUsersRevisionForCipher(cipher: Cipher, now: int) returns (affected: seq<Id>)
      requires PrimaryKeys(db)
      modifies this`revisions
      ensures forall u :: u in affected <==> Reached(db, cipher, u)
      ensures revisions.Keys == old(revisions.Keys)
      ensures forall u | u in revisions :: revisions[u] == if Reached(db, cipher, u) then now else old(revisions)[u]
    {
      affected := UsersWithCipherAccess(db, cipher);
      var batches := Chunk(affected, BATCH);
      ghost var before := revisions;
      for i := 0 to |batches|
        invariant db == old(db)
        invariant revisions.Keys == before.Keys
        invariant forall u | u in revisions ::
                    revisions[u] == if exists b :: b in batches[..i] && u in b then now else before[u]
      {
        assert batches[..i + 1] == batches[..i] + [batches[i]];
        revisions := map u | u in revisions :: if u in batches[i] then now else revisions[u];
      }
      assert batches[..|batches|] == batches;
    }

    /** Replaces the requested links among those the actor may change, and only those. */
    method UpdateCipherCollections(userUuid: Id, cipherUuid: Id, collectionIds: seq<Id>, now: int) returns (r: Outcome)
      requires PrimaryKeys(db)
      modifies this
      ensures db == old(db).(cipherLinks := db.cipherLinks)
      ensures r.Failed? ==> db == old(db) && revisions == old(revisions)
      ensures var c := FindCipher(old(db), cipherUuid);
              r.Done? <==> c.Some? && IsWriteAccessible(c.value, userUuid, SyncData(old(db), userUuid, None))
                           && c.value.organizationUuid.Some?
      ensures r.Done? ==>
                var c := FindCipher(old(db), cipherUuid).value;
                && (forall l :: l in db.cipherLinks <==> LinkReconciled(old(db), userUuid, c, collectionIds, l))
                && revisions.Keys == old(revisions.Keys)
                && (forall u | u in revisions ::
                      revisions[u] == if Reached(db, c, u) then now else old(revisions)[u])
    {
      var found := FindCipher(db, cipherUuid);
      if found.None? { return Failed("Cipher doesn't exist"); }
      var cipher := found.value;
      var sync := LoadCipherSyncData(db, userUuid, None);
      var access := GetAccessRestrictions(cipher, userUuid, sync);
      if access.None? { return Failed("Cipher is not owned by user"); }
      if access.value.readOnly { return Failed("Cipher is not write accessible"); }
      if cipher.organizationUuid.None? { return Failed("Cipher is not organization owned"); }
      var org := cipher.organizationUuid.value;
      ReconcileLinks(cipher, org, sync, collectionIds, iset cid | Changeable(db, userUuid, org, cid));
      var affected := UpdateUsersRevisionForCipher(cipher, now);
      r := Done;
    }

    /** The loop over the requested and the current collections; `may` are those the actor may change. */
    method ReconcileLinks(
      cipher: Cipher, org: Id, sync: CipherSyncData, collectionIds: seq<Id>, ghost may: iset<Id>)
      requires forall cid :: cid in may <==> CollectionInOrg(db, cid, org) && AccessibleCollection(sync, org, cid)
      modifies this`db
      ensures db == old(db).(cipherLinks := db.cipherLinks)
      ensures forall l :: l in db.cipherLinks <==>
                if l.cipherUuid == cipher.uuid && l.collectionUuid in may
                then l.collectionUuid in collectionIds
                else l in old(db).cipherLinks
    {
      var current := CollectionIds(LinksOf(db, cipher));
      CurrentIds(db, cipher);
      var targets := DistinctIds(collectionIds + current);
      ghost var before := db.cipherLinks;
      for i := 0 to |targets|
        invariant db == old(db).(cipherLinks := db.cipherLinks)
        invariant PartlyReconciled(before, db.cipherLinks, cipher.uuid, may, targets[..i], collectionIds)
      {
        var target := targets[i];
        ghost var links := db.cipherLinks;
        assert targets[..i + 1] == targets[..i] + [target];
        SkippedStep(before, links, cipher.uuid, may, targets[..i], target, collectionIds);
        if !CollectionInOrg(db, target, org) { continue; }
        if !AccessibleCollection(sync, org, target) { continue; }
        assert CipherLink(cipher.uuid, target) in links <==>
               (if target in targets[..i] then target in collectionIds else target in current);
        ReconcileOne(CipherLink(cipher.uuid, target), target in collectionIds, target in current);
        ReconciledStep(before, links, db.cipherLinks, cipher.uuid, may, targets[..i], target, collectionIds);
      }
      assert targets[..|targets|] == targets;
      AllReconciled(before, db.cipherLinks, cipher.uuid, may, targets, collectionIds);
    }

    /** Adds a link that is wanted and missing, removes one that is there and not wanted. */
    method ReconcileOne(link: CipherLink, wanted: bool, linked: bool)
      requires wanted == linked ==> (linked <==> link in db.cipherLinks)
      modifies this`db
      ensures db == old(db).(cipherLinks := db.cipherLinks)
      ensures forall l :: l in db.cipherLinks <==> if l == link then wanted else l in old(db).cipherLinks
    {
      if wanted && !linked {
        if link !in db.cipherLinks {
          db := db.(cipherLinks := db.cipherLinks + [link]);
        }
      } else if !wanted && linked {
        db := db.(cipherLinks := Select(db.cipherLinks, (l: CipherLink) => l != link));
      }
    }

    /** Assigns many ciphers to (or removes them from) the same collections of one organisation. */
    method BulkCollections(userUuid: Id, org: Id, cipherIds: seq<Id>, collectionIds: seq<Id>, removeCollections: bool)
      returns (r: Outcome)
      requires PrimaryKeys(db) && OneMembership(db)
      modifies this`db
      ensures r.Done? <==> MemberIn(old(db), org, userUuid)
                           && forall cid | cid in collectionIds :: BulkWritable(old(db), userUuid, org, cid)
      ensures r.Failed? ==> db == old(db)
      ensures r.Done? ==> BulkReconciled(old(db), db, userUuid, org, cipherIds, collectionIds, removeCollections)
    {
      var sync := LoadCipherSyncData(db, userUuid, Some(org));
      r := CheckCollections(db, userUuid, org, sync, collectionIds);
      if r.Failed? { return; }
      ghost var start := db;
      for i := 0 to |cipherIds|
        invariant BulkReconciled(start, db, userUuid, org, cipherIds[..i], collectionIds, removeCollections)
      {
        ghost var before := db;
        assert cipherIds[..i + 1] == cipherIds[..i] + [cipherIds[i]];
        var cipher := FindCipher(db, cipherIds[i]);
        assert cipher == FindCipher(start, cipherIds[i]);
        BulkSkips(start, db, userUuid, org, cipherIds[..i], cipherIds[i], collectionIds, removeCollections);
        if cipher.None? || cipher.value.organizationUuid != Some(org) { continue; }
        if !IsWriteAccessible(cipher.value, userUuid, sync) { continue; }
        SetLinks(cipherIds[i], collectionIds, removeCollections);
        BulkSets(start, before, db, userUuid, org, cipherIds[..i], cipherIds[i], collectionIds, removeCollections);
      }
      assert cipherIds[..|cipherIds|] == cipherIds;
    }

    /** The inner loop over the collections of one cipher. */
    method SetLinks(cipherUuid: Id, collectionIds: seq<Id>, removeCollections: bool)
      modifies this`db
      ensures db == old(db).(cipherLinks := db.cipherLinks)
      ensures forall l :: l in db.cipherLinks <==>
                if l.cipherUuid == cipherUuid && l.collectionUuid in collectionIds
                then !removeCollections
                else l in old(db).cipherLinks
    {
      for k := 0 to |collectionIds|
        invariant db == old(db).(cipherLinks := db.cipherLinks)
        invariant forall l :: l in db.cipherLinks <==>
                    if l.cipherUuid == cipherUuid && l.collectionUuid in collectionIds[..k]
                    then !removeCollections
                    else l in old(db).cipherLinks
      {
        assert collectionIds[..k + 1] == collectionIds[..k] + [collectionIds[k]];
        var link := CipherLink(cipherUuid, collectionIds[k]);
        if removeCollections {
          db := db.(cipherLinks := Select(db.cipherLinks, (l: CipherLink) => l != link));
        } else if link !in db.cipherLinks {
          db := db.(cipherLinks := db.cipherLinks + [link]);
        }
      }
      assert collectionIds[..|collectionIds|] == collectionIds;
    }

    /**
     The owner a saved cipher ends up with. `shared` says the save comes from sharing to collections,
     `ownershipPolicy` that a personal-ownership policy binds the user.
     */
    method AssignOwner(cipher: Cipher, organizationId: Option<Id>, shared: bool, userUuid: Id, ownershipPolicy: bool)
      returns (r: Outcome, saved: Cipher)
      ensures r.Done? <==>
                if organizationId.None? then !ownershipPolicy && cipher.organizationUuid.None?
                else (cipher.organizationUuid.None? || cipher.organizationUuid == organizationId)
                     && MayAdd(db, cipher, organizationId.value, shared, userUuid)
      ensures saved == if r.Failed? then cipher
                       else if organizationId.None? then Cipher(cipher.uuid, Some(userUuid), None)
                       else Cipher(cipher.uuid, None, organizationId)
    {
      saved := cipher;
      r := CheckOwnerChange(cipher, organizationId, ownershipPolicy);
      if r.Failed? { return; }
      if organizationId.Some? {
        r := MayAddToOrg(db, cipher, organizationId.value, shared, userUuid);
        if r.Done? {
          saved := saved.(organizationUuid := organizationId);
          saved := saved.(userUuid := None);
        }
      } else {
        saved := saved.(userUuid := Some(userUuid));
      }
    }
  }

  ghost predicate BulkWritable(db: Db, userUuid: Id, org: Id, cid: Id) {
    var sync := SyncData(db, userUuid, Some(org));
    && CollectionInOrg(db, cid, org)
    && (|| FullAccessIn(db, org, userUuid)
        || (cid in sync.userCollections && !sync.userCollections[cid].readOnly)
        || (cid in sync.userCollectionsGroups && !sync.userCollectionsGroups[cid].readOnly))
  }

  ghost predicate BulkEligible(db: Db, userUuid: Id, org: Id, cipherUuid: Id) {
    var c := FindCipher(db, cipherUuid);
    c.Some? && c.value.organizationUuid == Some(org) && IsWriteAccessible(c.value, userUuid, SyncData(db, userUuid, Some(org)))
  }

  /** The links after a bulk request over the listed ciphers. */
  ghost predicate BulkReconciled(before: Db, after: Db, userUuid: Id, org: Id,
                                 cipherIds: seq<Id>, collectionIds: seq<Id>, removeCollections: bool) {
    && after == before.(cipherLinks := after.cipherLinks)
    && forall l :: l in after.cipherLinks <==>
         if l.cipherUuid in cipherIds && BulkEligible(before, userUuid, org, l.cipherUuid)
            && l.collectionUuid in collectionIds
         then !removeCollections
         else l in before.cipherLinks
  }

  lemma BulkSkips(start: Db, now: Db, userUuid: Id, org: Id, done: seq<Id>, id: Id,
                  collectionIds: seq<Id>, removeCollections: bool)
    requires BulkReconciled(start, now, userUuid, org, done, collectionIds, removeCollections)
    ensures !BulkEligible(start, userUuid, org, id) ==>
              BulkReconciled(start, now, userUuid, org, done + [id], collectionIds, removeCollections)
  {
  }

  lemma BulkSets(start: Db, before: Db, after: Db, userUuid: Id, org: Id, done: seq<Id>, id: Id,
                 collectionIds: seq<Id>, removeCollections: bool)
    requires BulkReconciled(start, before, userUuid, org, done, collectionIds, removeCollections)
    requires BulkEligible(start, userUuid, org, id) && after == before.(cipherLinks := after.cipherLinks)
    requires forall l :: l in after.cipherLinks <==>
               if l.cipherUuid == id && l.collectionUuid in collectionIds then !removeCollections
               else l in before.cipherLinks
    ensures BulkReconciled(start, after, userUuid, org, done + [id], collectionIds, removeCollections)
  {
  }

  /** Reconciling links, one cipher or many, keeps every link inside its cipher's organisation. */
  lemma ReconcilingKeepsLinksInside(before: Db, after: Db, userUuid: Id, c: Cipher, requested: seq<Id>)
    requires PrimaryKeys(before) && LinksInside(before) && c in before.ciphers && c.organizationUuid.Some?
    requires after == before.(cipherLinks := after.cipherLinks)
    requires forall l :: l in after.cipherLinks <==> LinkReconciled(before, userUuid, c, requested, l)
    ensures LinksInside(after)
  {
    forall k, l | k in after.ciphers && l in after.cipherLinks && k.organizationUuid.Some? && l.cipherUuid == k.uuid
      ensures LinkInsideOrg(after, l, k.organizationUuid.value)
    {
      assert LinkReconciled(before, userUuid, c, requested, l);
      if l.cipherUuid == c.uuid && Changeable(before, userUuid, c.organizationUuid.value, l.collectionUuid) {
        assert k == c;
        assert LinkInsideOrg(before, l, c.organizationUuid.value);
      } else {
        assert LinkInsideOrg(before, l, k.organizationUuid.value);
      }
    }
  }

  lemma BulkKeepsLinksInside(before: Db, after: Db, userUuid: Id, org: Id,
                             cipherIds: seq<Id>, collectionIds: seq<Id>, removeCollections: bool)
    requires PrimaryKeys(before) && LinksInside(before)
    requires forall cid | cid in collectionIds :: BulkWritable(before, userUuid, org, cid)
    requires BulkReconciled(before, after, userUuid, org, cipherIds, collectionIds, removeCollections)
    ensures LinksInside(after)
  {
    forall k, l | k in after.ciphers && l in after.cipherLinks && k.organizationUuid.Some? && l.cipherUuid == k.uuid
      ensures LinkInsideOrg(after, l, k.organizationUuid.value)
    {
      if l.cipherUuid in cipherIds && BulkEligible(before, userUuid, org, l.cipherUuid) && l.collectionUuid in collectionIds {
        var c := FindCipher(before, l.cipherUuid).value;
        assert c in before.ciphers && c == k;
        assert BulkWritable(before, userUuid, org, l.collectionUuid);
        assert LinkInsideOrg(before, l, org);
      } else {
        assert LinkInsideOrg(before, l, k.organizationUuid.value);
      }
    }
  }
}
