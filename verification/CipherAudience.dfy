/** The reverse index of a cipher (src/services/ciphers.ts), and the agreement theorem. */
module CipherAudience {
  import opened Base
  import opened Memberships
  import opened VaultAccess
  import opened VaultAgreement

  const BATCH: nat := 90

  // ---------------------------------------------------------------------
  // What the reverse query should return, read off the tables
  // ---------------------------------------------------------------------

  ghost predicate Touches(db: Db, org: Id, cid: Id, u: Id) {
    || (exists g :: g in db.userGrants && g.collectionUuid == cid && g.userUuid == u)
    || (exists p, m :: p in GroupJoin(db.groupGrants, db.groupMembers) && p.0.collectionUuid == cid
                       && ConfirmedMember(db, u, org, m) && m.uuid == p.1.memberUuid)
  }

  ghost predicate TouchedBy(db: Db, org: Id, ids: seq<Id>, u: Id) {
    exists cid :: cid in ids && Touches(db, org, cid, u)
  }

  ghost predicate FullAccessIn(db: Db, org: Id, u: Id) {
    exists m :: ConfirmedMember(db, u, org, m) && HasFullAccess(m.atype, m.accessAll)
  }

  ghost predicate MemberIn(db: Db, org: Id, u: Id) {
    exists m :: ConfirmedMember(db, u, org, m)
  }

  function CollectionIds(rows: seq<CipherLink>): (r: seq<Id>)
    ensures forall cid :: cid in r <==> exists l :: l in rows && l.collectionUuid == cid
  {
    if rows == [] then [] else [rows[0].collectionUuid] + CollectionIds(rows[1..])
  }

  function LinksOf(db: Db, c: Cipher): seq<CipherLink> {
    Select(db.cipherLinks, (l: CipherLink) => l.cipherUuid == c.uuid)
  }

  ghost predicate Reached(db: Db, c: Cipher, u: Id) {
    if c.userUuid.Some? then u == c.userUuid.value
    else if c.organizationUuid.None? then false
    else
      var org := c.organizationUuid.value;
      MemberIn(db, org, u) && (FullAccessIn(db, org, u) || TouchedBy(db, org, CollectionIds(LinksOf(db, c)), u))
  }

  // ---------------------------------------------------------------------
  // The batched query
  // ---------------------------------------------------------------------

  /** Insertion into an insertion-ordered set. */
  function Insert(s: seq<Id>, x: Id): (r: seq<Id>)
    requires NoDuplicates(s)
    ensures NoDuplicates(r)
    ensures forall y :: y in r <==> y in s || y == x
  {
    if x in s then s else s + [x]
  }

  function UserSet(rows: seq<Membership>): (r: seq<Id>)
    ensures NoDuplicates(r)
    ensures forall u :: u in r <==> exists m :: m in rows && m.userUuid == u
  {
    if rows == [] then []
    else
      assert rows == rows[..|rows| - 1] + [rows[|rows| - 1]];
      Insert(UserSet(rows[..|rows| - 1]), rows[|rows| - 1].userUuid)
  }

  /** The Map from membership id to user id. */
  function UserByMember(rows: seq<Membership>): (r: map<Id, Id>)
    requires forall a, b | a in rows && b in rows && a.uuid == b.uuid :: a == b
    ensures forall k :: k in r <==> exists m :: m in rows && m.uuid == k
    ensures forall m | m in rows :: r[m.uuid] == m.userUuid
  {
    if rows == [] then map[]
    else
      assert rows == rows[..|rows| - 1] + [rows[|rows| - 1]];
      UserByMember(rows[..|rows| - 1])[rows[|rows| - 1].uuid := rows[|rows| - 1].userUuid]
  }

  method AddDirect(result: seq<Id>, rows: seq<UserGrant>) returns (r: seq<Id>)
    requires NoDuplicates(result)
    ensures NoDuplicates(r)
    ensures forall u :: u in r <==> u in result || exists g :: g in rows && g.userUuid == u
  {
    r := result;
    for i := 0 to |rows|
      invariant NoDuplicates(r)
      invariant forall u :: u in r <==> u in result || exists g :: g in rows[..i] && g.userUuid == u
    {
      assert rows[..i + 1] == rows[..i] + [rows[i]];
      r := Insert(r, rows[i].userUuid);
    }
    assert rows[..|rows|] == rows;
  }

  ghost predicate Resolves(memberByUuid: map<Id, Id>, p: (GroupGrant, GroupMember), u: Id) {
    p.1.memberUuid in memberByUuid && memberByUuid[p.1.memberUuid] == u
  }

  method AddViaGroups(result: seq<Id>, rows: seq<(GroupGrant, GroupMember)>, memberByUuid: map<Id, Id>)
    returns (r: seq<Id>)
    requires NoDuplicates(result)
    ensures NoDuplicates(r)
    ensures forall u ::
              u in r <==> (u in result || exists p :: p in rows && Resolves(memberByUuid, p, u))
  {
    r := result;
    for i := 0 to |rows|
      invariant NoDuplicates(r)
      invariant forall u ::
                  u in r <==> (u in result || exists p :: p in rows[..i] && Resolves(memberByUuid, p, u))
    {
      assert forall p :: p in rows[..i + 1] <==> p in rows[..i] || p == rows[i] by {
        assert rows[..i + 1] == rows[..i] + [rows[i]];
      }
      if rows[i].1.memberUuid in memberByUuid {
        r := Insert(r, memberByUuid[rows[i].1.memberUuid]);
        assert Resolves(memberByUuid, rows[i], memberByUuid[rows[i].1.memberUuid]);
      }
    }
    assert rows[..|rows|] == rows;
  }

  /** One batch adds exactly the users its collections touch. */
  method AddBatch(db: Db, org: Id, members: seq<Membership>, memberByUuid: map<Id, Id>, batch: seq<Id>, result: seq<Id>)
    returns (r: seq<Id>)
    requires PrimaryKeys(db) && members == ConfirmedIn(db, org) && memberByUuid == UserByMember(members)
    requires NoDuplicates(result)
    ensures NoDuplicates(r)
    ensures forall u :: u in r <==> u in result || TouchedBy(db, org, batch, u)
  {
    var direct := Select(db.userGrants, (g: UserGrant) => g.collectionUuid in batch);
    r := AddDirect(result, direct);
    var viaGroups := Select(GroupJoin(db.groupGrants, db.groupMembers),
                            (p: (GroupGrant, GroupMember)) => p.0.collectionUuid in batch);
    ghost var afterDirect := r;
    r := AddViaGroups(r, viaGroups, memberByUuid);
    forall u ensures u in r <==> u in result || TouchedBy(db, org, batch, u) {
      if u in r && u !in result {
        if u in afterDirect {
          var g :| g in direct && g.userUuid == u;
          assert Touches(db, org, g.collectionUuid, u);
        } else {
          var p :| p in viaGroups && Resolves(memberByUuid, p, u);
          var m :| m in members && m.uuid == p.1.memberUuid;
          assert ConfirmedMember(db, u, org, m);
          assert Touches(db, org, p.0.collectionUuid, u);
        }
      }
      if TouchedBy(db, org, batch, u) {
        var cid :| cid in batch && Touches(db, org, cid, u);
        if g :| g in db.userGrants && g.collectionUuid == cid && g.userUuid == u {
          assert g in direct;
        } else {
          var p, m :| p in GroupJoin(db.groupGrants, db.groupMembers) && p.0.collectionUuid == cid
                      && ConfirmedMember(db, u, org, m) && m.uuid == p.1.memberUuid;
          assert p in viaGroups && m in members && Resolves(memberByUuid, p, u);
        }
      }
    }
  }

  ghost predicate Covers(covered: seq<Id>, batches: seq<seq<Id>>) {
    forall cid :: cid in covered <==> exists b :: b in batches && cid in b
  }

  lemma CoversMore(covered: seq<Id>, batches: seq<seq<Id>>, i: nat)
    requires i < |batches| && Covers(covered, batches[..i])
    ensures Covers(covered + batches[i], batches[..i + 1])
  {
    assert batches[..i + 1] == batches[..i] + [batches[i]];
  }

  /** The batches together add exactly the users some collection touches. */
  method AddBatches(db: Db, org: Id, members: seq<Membership>, collectionIds: seq<Id>, result: seq<Id>)
    returns (r: seq<Id>)
    requires PrimaryKeys(db) && members == ConfirmedIn(db, org)
    requires NoDuplicates(result)
    ensures NoDuplicates(r)
    ensures forall u :: u in r <==> u in result || TouchedBy(db, org, collectionIds, u)
  {
    var memberByUuid := UserByMember(members);
    var batches := Chunk(collectionIds, BATCH);
    ghost var covered: seq<Id> := [];
    r := result;
    for i := 0 to |batches|
      invariant NoDuplicates(r)
      invariant Covers(covered, batches[..i])
      invariant forall u :: u in r <==> u in result || TouchedBy(db, org, covered, u)
    {
      r := AddBatch(db, org, members, memberByUuid, batches[i], r);
      CoversMore(covered, batches, i);
      TouchedByEither(db, org, covered, batches[i]);
      covered := covered + batches[i];
    }
    assert batches[..|batches|] == batches;
    SameCollections(db, org, covered, collectionIds);
  }

  lemma MembersOfOrg(db: Db, org: Id)
    ensures forall u :: MemberIn(db, org, u) <==> exists m :: m in ConfirmedIn(db, org) && m.userUuid == u
    ensures forall u :: FullAccessIn(db, org, u) <==>
              exists m :: m in ConfirmedIn(db, org) && HasFullAccess(m.atype, m.accessAll) && m.userUuid == u
  {
    forall u
      ensures MemberIn(db, org, u) <==> exists m :: m in ConfirmedIn(db, org) && m.userUuid == u
      ensures FullAccessIn(db, org, u) <==>
                exists m :: m in ConfirmedIn(db, org) && HasFullAccess(m.atype, m.accessAll) && m.userUuid == u
    {
      forall m ensures m in ConfirmedIn(db, org) && m.userUuid == u <==> ConfirmedMember(db, u, org, m) {}
    }
  }

  /** Users whose vaults include this cipher, in batches of 90 collections. */
  method UsersWithCipherAccess(db: Db, cipher: Cipher) returns (users: seq<Id>)
    requires PrimaryKeys(db)
    ensures NoDuplicates(users)
    ensures forall u :: u in users <==> Reached(db, cipher, u)
  {
    if cipher.userUuid.Some? { return [cipher.userUuid.value]; }
    if cipher.organizationUuid.None? { return []; }
    var org := cipher.organizationUuid.value;

    var members := ConfirmedIn(db, org);
    MembersOfOrg(db, org);
    var collectionIds := CollectionIds(LinksOf(db, cipher));

    var fullAccess := Select(members, (m: Membership) => HasFullAccess(m.atype, m.accessAll));
    var needCheck := Select(members, (m: Membership) => !HasFullAccess(m.atype, m.accessAll));
    var result := UserSet(fullAccess);
    assert forall u :: u in result <==> FullAccessIn(db, org, u);

    if |needCheck| > 0 && |collectionIds| > 0 {
      result := AddBatches(db, org, members, collectionIds, result);
    } else {
      OnlyFullAccess(db, org, members, collectionIds) by {
        if |needCheck| == 0 {
          assert forall m | m in members :: m !in needCheck;
        }
      }
    }

    var memberUserIds := UserSet(members);
    users := Select(result, (u: Id) => u in memberUserIds);
    SelectKeepsNoDuplicates(result, (u: Id) => u in memberUserIds);
  }

  lemma TouchedByEither(db: Db, org: Id, a: seq<Id>, b: seq<Id>)
    ensures forall u :: TouchedBy(db, org, a + b, u) <==> TouchedBy(db, org, a, u) || TouchedBy(db, org, b, u)
  {
  }

  lemma SameCollections(db: Db, org: Id, a: seq<Id>, b: seq<Id>)
    requires forall cid :: cid in a <==> cid in b
    ensures forall u :: TouchedBy(db, org, a, u) <==> TouchedBy(db, org, b, u)
  {
  }

  /** Skipping the collection query is sound: nobody needs it, or the cipher is in no collection. */
  lemma OnlyFullAccess(db: Db, org: Id, members: seq<Membership>, collectionIds: seq<Id>)
    requires members == ConfirmedIn(db, org)
    requires collectionIds == [] || forall m | m in members :: HasFullAccess(m.atype, m.accessAll)
    ensures forall u | MemberIn(db, org, u) && TouchedBy(db, org, collectionIds, u) :: FullAccessIn(db, org, u)
  {
    forall u | MemberIn(db, org, u) && TouchedBy(db, org, collectionIds, u) ensures FullAccessIn(db, org, u) {
      var m :| ConfirmedMember(db, u, org, m);
      assert m in members;
    }
  }

  // ---------------------------------------------------------------------
  // Forward check, list query and reverse index
  // ---------------------------------------------------------------------

  /** A group that the user joined through his membership of `org` has a row on the collection. */
  ghost predicate GroupReaches(db: Db, u: Id, org: Id, cid: Id) {
    exists g, gm, m ::
      && g in db.groupGrants && gm in db.groupMembers && g.groupUuid == gm.groupUuid && g.collectionUuid == cid
      && ConfirmedMember(db, u, org, m) && m.uuid == gm.memberUuid
  }

  /** A direct row, or a row of a group joined through `org`. */
  ghost predicate OwnRowOn(db: Db, u: Id, org: Id, cid: Id) {
    (exists g :: g in db.userGrants && g.userUuid == u && g.collectionUuid == cid) || GroupReaches(db, u, org, cid)
  }

  /** A row of a group joined through another organisation. */
  ghost predicate StrayRowOn(db: Db, u: Id, org: Id, cid: Id) {
    exists other :: other != org && GroupReaches(db, u, other, cid)
  }

  ghost predicate Linked(db: Db, c: Cipher, l: CipherLink) {
    l in db.cipherLinks && l.cipherUuid == c.uuid
  }

  /** A member without full access whom only stray rows connect to the cipher. */
  ghost predicate OnlyStray(db: Db, c: Cipher, u: Id) {
    && c.organizationUuid.Some?
    && var org := c.organizationUuid.value;
    && MemberIn(db, org, u) && !FullAccessIn(db, org, u)
    && (forall l | Linked(db, c, l) :: !OwnRowOn(db, u, org, l.collectionUuid))
    && (exists l :: Linked(db, c, l) && StrayRowOn(db, u, org, l.collectionUuid))
  }

  lemma TouchIsOwnRow(db: Db, org: Id, cid: Id, u: Id)
    ensures Touches(db, org, cid, u) <==> OwnRowOn(db, u, org, cid)
  {
    if GroupReaches(db, u, org, cid) {
      var g, gm, m :| g in db.groupGrants && gm in db.groupMembers && g.groupUuid == gm.groupUuid
                      && g.collectionUuid == cid && ConfirmedMember(db, u, org, m) && m.uuid == gm.memberUuid;
      assert (g, gm) in GroupJoin(db.groupGrants, db.groupMembers);
    }
  }

  lemma GroupRowReaches(db: Db, cid: Id, u: Id, a: Access)
    requires a in GroupRows(db, u, cid)
    ensures exists org :: GroupReaches(db, u, org, cid)
  {
    var g, gm :| g in db.groupGrants && gm in db.groupMembers && g.groupUuid == gm.groupUuid
                 && g.collectionUuid == cid && ViaGroup(db, u, gm) && g.access == a;
    var m :| m in db.members && m.userUuid == u && m.status == CONFIRMED && m.uuid == gm.memberUuid;
    assert ConfirmedMember(db, u, m.orgUuid, m);
    assert GroupReaches(db, u, m.orgUuid, cid);
  }

  lemma ReachingHasRow(db: Db, cid: Id, u: Id, org: Id)
    requires GroupReaches(db, u, org, cid)
    ensures GroupRows(db, u, cid) != {}
  {
    var g, gm, m :| g in db.groupGrants && gm in db.groupMembers && g.groupUuid == gm.groupUuid
                    && g.collectionUuid == cid && ConfirmedMember(db, u, org, m) && m.uuid == gm.memberUuid;
    assert ViaGroup(db, u, gm);
    assert g.access in GroupRows(db, u, cid);
  }

  /** The forward check reads own and stray rows alike. */
  lemma RowsAreOwnOrStray(db: Db, org: Id, cid: Id, u: Id)
    ensures RowsOn(db, u, cid) != {} <==> OwnRowOn(db, u, org, cid) || StrayRowOn(db, u, org, cid)
  {
    if g :| g in db.userGrants && g.userUuid == u && g.collectionUuid == cid {
      assert g.access in DirectRows(db, u, cid);
    }
    if a :| a in GroupRows(db, u, cid) {
      GroupRowReaches(db, cid, u, a);
    }
    if o :| GroupReaches(db, u, o, cid) {
      ReachingHasRow(db, cid, u, o);
    }
  }

  lemma TouchedIffOwnRow(db: Db, c: Cipher, org: Id, u: Id)
    ensures TouchedBy(db, org, CollectionIds(LinksOf(db, c)), u)
       <==> exists l :: Linked(db, c, l) && OwnRowOn(db, u, org, l.collectionUuid)
  {
    if cid :| cid in CollectionIds(LinksOf(db, c)) && Touches(db, org, cid, u) {
      var l :| l in LinksOf(db, c) && l.collectionUuid == cid;
      TouchIsOwnRow(db, org, cid, u);
      assert Linked(db, c, l);
    }
    if l :| Linked(db, c, l) && OwnRowOn(db, u, org, l.collectionUuid) {
      TouchIsOwnRow(db, org, l.collectionUuid, u);
      assert l in LinksOf(db, c);
    }
  }

  lemma GrantedIffSomeRow(db: Db, c: Cipher, org: Id, u: Id)
    ensures RawGrants(db, u, c.uuid) != {}
       <==> exists l :: Linked(db, c, l)
                        && (OwnRowOn(db, u, org, l.collectionUuid) || StrayRowOn(db, u, org, l.collectionUuid))
  {
    if a :| a in RawGrants(db, u, c.uuid) {
      var l :| l in db.cipherLinks && l.cipherUuid == c.uuid
               && a in DirectRows(db, u, l.collectionUuid) + GroupRows(db, u, l.collectionUuid);
      assert a in RowsOn(db, u, l.collectionUuid);
      RowsAreOwnOrStray(db, org, l.collectionUuid, u);
      assert Linked(db, c, l);
    }
    if l :| Linked(db, c, l) && (OwnRowOn(db, u, org, l.collectionUuid) || StrayRowOn(db, u, org, l.collectionUuid)) {
      RowsAreOwnOrStray(db, org, l.collectionUuid, u);
      var a :| a in RowsOn(db, u, l.collectionUuid);
      assert a in RawGrants(db, u, c.uuid);
    }
  }

  lemma ReachedIsAccessIffNotStray(db: Db, c: Cipher, u: Id)
    requires OneOwnerKind(db) && c in db.ciphers
    ensures (Reached(db, c, u) <==> FlatRestrictions(db, u, c).Some?) <==> !OnlyStray(db, c, u)
  {
    if c.organizationUuid.Some? {
      var org := c.organizationUuid.value;
      if MemberIn(db, org, u) && !FullAccessIn(db, org, u) {
        TouchedIffOwnRow(db, c, org, u);
        GrantedIffSomeRow(db, c, org, u);
      }
    }
  }

  lemma ListedIsAccess(db: Db, c: Cipher, u: Id)
    requires c in db.ciphers
    ensures c in FindCiphersVisibleToUser(db, u, SyncData(db, u, None)) <==> Restrictions(c, u, SyncData(db, u, None)).Some?
  {
  }

  /**
   The agreement theorem without the condition on groups, which the handlers do not enforce: the reverse index
   agrees with the forward check and with the list query on exactly the pairs that no stray row alone connects.
   */
  lemma AgreementIffNotOnlyStray(db: Db, c: Cipher, u: Id)
    requires Decidable(db) && OneOwnerKind(db) && c in db.ciphers
    ensures (Reached(db, c, u) <==> Restrictions(c, u, SyncData(db, u, None)).Some?) <==> !OnlyStray(db, c, u)
    ensures (Reached(db, c, u) <==> c in FindCiphersVisibleToUser(db, u, SyncData(db, u, None))) <==> !OnlyStray(db, c, u)
  {
    ReachedIsAccessIffNotStray(db, c, u);
    TwoLevelMergeIsFlat(db, u, c, None);
    ListedIsAccess(db, c, u);
  }

  /**
   The reverse index in wire values: the owner of a personal cipher; of an organisation's, its Owners, Admins
   and members with access to all, and the members, Managers included, whom an own row connects to it.
   */
  lemma ReachedByRows(db: Db, c: Cipher, u: Id)
    requires OneMembership(db)
    ensures Reached(db, c, u) <==>
              if c.userUuid.Some? then c.userUuid == Some(u)
              else exists m :: m in db.members && m.userUuid == u && c.organizationUuid == Some(m.orgUuid) && m.status == 2
                               && (m.accessAll || m.atype in {0, 1}
                                   || exists l :: Linked(db, c, l) && OwnRowOn(db, u, m.orgUuid, l.collectionUuid))
  {
    if c.userUuid.None? && c.organizationUuid.Some? {
      var org := c.organizationUuid.value;
      TouchedIffOwnRow(db, c, org, u);
      forall m ensures ConfirmedMember(db, u, org, m) <==>
                         m in db.members && m.userUuid == u && m.orgUuid == org && m.status == 2
      {
      }
    }
  }

  // ---------------------------------------------------------------------
  // On well-formed databases they describe one relation
  // ---------------------------------------------------------------------

  /** A row on a collection of the organisation reaches a user only through his membership of it. */
  lemma NoStrayRow(db: Db, c: Cipher, org: Id, l: CipherLink, u: Id)
    requires WellFormed(db) && c in db.ciphers && c.organizationUuid == Some(org) && Linked(db, c, l)
    ensures !StrayRowOn(db, u, org, l.collectionUuid)
  {
    assert LinkInsideOrg(db, l, org);
  }

  lemma TouchedIsGranted(db: Db, c: Cipher, org: Id, u: Id)
    requires WellFormed(db) && c in db.ciphers && c.organizationUuid == Some(org)
    ensures TouchedBy(db, org, CollectionIds(LinksOf(db, c)), u) <==> RawGrants(db, u, c.uuid) != {}
  {
    TouchedIffOwnRow(db, c, org, u);
    GrantedIffSomeRow(db, c, org, u);
    forall l | Linked(db, c, l) ensures !StrayRowOn(db, u, org, l.collectionUuid) {
      NoStrayRow(db, c, org, l, u);
    }
  }

  lemma NoneOnlyStray(db: Db, c: Cipher, u: Id)
    requires WellFormed(db) && c in db.ciphers
    ensures !OnlyStray(db, c, u)
  {
    if c.organizationUuid.Some? {
      forall l | Linked(db, c, l) ensures !StrayRowOn(db, u, c.organizationUuid.value, l.collectionUuid) {
        NoStrayRow(db, c, c.organizationUuid.value, l, u);
      }
    }
  }

  lemma ReachedIsAccess(db: Db, c: Cipher, u: Id)
    requires WellFormed(db) && c in db.ciphers
    ensures Reached(db, c, u) <==> FlatRestrictions(db, u, c).Some?
  {
    NoneOnlyStray(db, c, u);
    ReachedIsAccessIffNotStray(db, c, u);
  }

  /**
   On every well-formed database three algorithms name the same pairs: the forward check on the user's
   snapshot, the list of visible ciphers, and the reverse index.
   */
  lemma AccessAgreement(db: Db, c: Cipher, u: Id)
    requires WellFormed(db) && c in db.ciphers
    ensures Reached(db, c, u) <==> Restrictions(c, u, SyncData(db, u, None)).Some?
    ensures Reached(db, c, u) <==> c in FindCiphersVisibleToUser(db, u, SyncData(db, u, None))
  {
    NoneOnlyStray(db, c, u);
    AgreementIffNotOnlyStray(db, c, u);
  }

  // ---------------------------------------------------------------------
  // The condition on groups is needed
  // ---------------------------------------------------------------------

  /** Everything but the one-organisation condition on groups holds, yet the two directions differ. */
  ghost predicate AgreementFails(db: Db, c: Cipher, u: Id) {
    && Decidable(db) && OneOwnerKind(db) && c in db.ciphers
    && Restrictions(c, u, SyncData(db, u, None)).Some?
    && !Reached(db, c, u)
  }

  const STRAY_CIPHER := Cipher("c", None, Some("o1"))
  const OWN := Membership("m1", "u", "o1", CONFIRMED, USER, false)
  const OTHER := Membership("m2", "u", "o2", CONFIRMED, USER, false)
  const STRAY_LINK := CipherLink("c", "k")
  const STRAY_GRANT := GroupGrant("k", "g", Access(false, false, false))
  const STRAY_MEMBER := GroupMember("g", "m2")

  /** User u belongs to o1 and o2; a group joined through o2 grants a collection of o1. */
  ghost function StrayDb(): Db {
    Db([STRAY_CIPHER], [OWN, OTHER], [Collection("k", "o1")], [STRAY_LINK], [], [STRAY_GRANT], [STRAY_MEMBER])
  }

  lemma StrayIsDecidable()
    ensures Decidable(StrayDb()) && OneOwnerKind(StrayDb())
  {
    assert Collection("k", "o1") in StrayDb().collections;
    assert LinkInsideOrg(StrayDb(), STRAY_LINK, "o1");
  }

  lemma StrayIsVisible()
    ensures FlatRestrictions(StrayDb(), "u", STRAY_CIPHER).Some?
  {
    var db, a := StrayDb(), STRAY_GRANT.access;
    assert ConfirmedMember(db, "u", "o1", OWN);
    assert OTHER in db.members && ViaGroup(db, "u", STRAY_MEMBER);
    assert STRAY_GRANT in db.groupGrants && STRAY_MEMBER in db.groupMembers;
    assert a in GroupRows(db, "u", "k");
    assert STRAY_LINK in db.cipherLinks && a in DirectRows(db, "u", STRAY_LINK.collectionUuid) + GroupRows(db, "u", STRAY_LINK.collectionUuid);
    assert a in RawGrants(db, "u", "c");
  }

  lemma StrayIsMissed()
    ensures !Reached(StrayDb(), STRAY_CIPHER, "u")
  {
    var db := StrayDb();
    forall m | ConfirmedMember(db, "u", "o1", m) ensures m == OWN {
      assert m == OWN || m == OTHER;
      assert OTHER.orgUuid[1] != "o1"[1];
    }
    forall cid ensures !Touches(db, "o1", cid, "u") {
      forall p, m | p in GroupJoin(db.groupGrants, db.groupMembers) && ConfirmedMember(db, "u", "o1", m)
        ensures m.uuid != p.1.memberUuid
      {
        assert p.1 == STRAY_MEMBER && m == OWN;
        assert OWN.uuid[1] != STRAY_MEMBER.memberUuid[1];
      }
    }
  }

  /**
   A group of another organisation that lists this organisation's collection opens the cipher to its
   member, whom the reverse index misses.
   */
  lemma CrossOrgGroupBreaksAgreement()
    ensures exists db: Db, c: Cipher, u: Id :: AgreementFails(db, c, u) && OnlyStray(db, c, u)
  {
    StrayIsDecidable();
    StrayIsVisible();
    StrayIsMissed();
    TwoLevelMergeIsFlat(StrayDb(), "u", STRAY_CIPHER, None);
    AgreementIffNotOnlyStray(StrayDb(), STRAY_CIPHER, "u");
    assert AgreementFails(StrayDb(), STRAY_CIPHER, "u") && OnlyStray(StrayDb(), STRAY_CIPHER, "u");
  }
}
