/** The access tables, the snapshot of them, and the forward check (src/services/vault.ts). */
module VaultAccess {
  import opened Base
  import opened Memberships

  datatype Access = Access(readOnly: bool, hidePasswords: bool, manage: bool)

  datatype Cipher = Cipher(uuid: Id, userUuid: Option<Id>, organizationUuid: Option<Id>)
  datatype Membership = Membership(uuid: Id, userUuid: Id, orgUuid: Id, status: int, atype: int, accessAll: bool)
  datatype Collection = Collection(uuid: Id, orgUuid: Id)
  datatype CipherLink = CipherLink(cipherUuid: Id, collectionUuid: Id)
  datatype UserGrant = UserGrant(userUuid: Id, collectionUuid: Id, access: Access)
  datatype GroupGrant = GroupGrant(collectionUuid: Id, groupUuid: Id, access: Access)
  datatype GroupMember = GroupMember(groupUuid: Id, memberUuid: Id)

  /** The tables; a query returns its rows in table order, which nothing below relies on. */
  datatype Db = Db(
    ciphers: seq<Cipher>,
    members: seq<Membership>,
    collections: seq<Collection>,
    cipherLinks: seq<CipherLink>,
    userGrants: seq<UserGrant>,
    groupGrants: seq<GroupGrant>,
    groupMembers: seq<GroupMember>)

  /** The part of the snapshot that access decisions read. */
  datatype CipherSyncData = CipherSyncData(
    cipherCollections: map<Id, seq<Id>>,
    members: map<Id, Membership>,
    userCollections: map<Id, Access>,
    userCollectionsGroups: map<Id, Access>)

  const FULL := Access(false, false, true)

  // ---------------------------------------------------------------------
  // What the schema guarantees, and what it does not
  // ---------------------------------------------------------------------

  /** The primary keys the schema enforces. */
  ghost predicate PrimaryKeys(db: Db) {
    && (forall a, b | a in db.ciphers && b in db.ciphers && a.uuid == b.uuid :: a == b)
    && (forall a, b | a in db.collections && b in db.collections && a.uuid == b.uuid :: a == b)
    && (forall a, b | a in db.members && b in db.members && a.uuid == b.uuid :: a == b)
    && (forall a, b | a in db.userGrants && b in db.userGrants
                      && a.userUuid == b.userUuid && a.collectionUuid == b.collectionUuid :: a == b)
  }

  ghost predicate LinkInsideOrg(db: Db, link: CipherLink, org: Id) {
    exists col :: col in db.collections && col.uuid == link.collectionUuid && col.orgUuid == org
  }

  ghost predicate OneOwnerKind(db: Db) {
    forall c | c in db.ciphers :: c.userUuid.None? || c.organizationUuid.None?
  }

  ghost predicate OneMembership(db: Db) {
    forall a, b | a in db.members && b in db.members
                  && a.userUuid == b.userUuid && a.orgUuid == b.orgUuid :: a == b
  }

  /** A cipher of an organisation is linked only to collections of that organisation. */
  ghost predicate LinksInside(db: Db) {
    forall c, l | c in db.ciphers && l in db.cipherLinks && c.organizationUuid.Some? && l.cipherUuid == c.uuid ::
      LinkInsideOrg(db, l, c.organizationUuid.value)
  }

  /** A group grants its members only collections of their membership's organisation. */
  ghost predicate GroupsInside(db: Db) {
    forall g, gm, m, col | g in db.groupGrants && gm in db.groupMembers && m in db.members && col in db.collections
                           && g.groupUuid == gm.groupUuid && gm.memberUuid == m.uuid && g.collectionUuid == col.uuid ::
      m.orgUuid == col.orgUuid
  }

  ghost predicate WellFormed(db: Db) {
    PrimaryKeys(db) && OneOwnerKind(db) && OneMembership(db) && LinksInside(db) && GroupsInside(db)
  }

  // ---------------------------------------------------------------------
  // Queries
  // ---------------------------------------------------------------------

  function ConfirmedOf(db: Db, userUuid: Id): seq<Membership> {
    Select(db.members, (m: Membership) => m.userUuid == userUuid && m.status == CONFIRMED)
  }

  function ConfirmedIn(db: Db, orgUuid: Id): seq<Membership> {
    Select(db.members, (m: Membership) => m.orgUuid == orgUuid && m.status == CONFIRMED)
  }

  /** ciphers_collections joined with collections, on the collection's organisation. */
  function LinksInOrgs(db: Db, orgIds: seq<Id>): seq<CipherLink> {
    Select(db.cipherLinks,
           (l: CipherLink) => exists col :: col in db.collections && col.uuid == l.collectionUuid && col.orgUuid in orgIds)
  }

  function GrantsOf(db: Db, userUuid: Id): seq<UserGrant> {
    Select(db.userGrants, (g: UserGrant) => g.userUuid == userUuid)
  }

  function PairAll(g: GroupGrant, members: seq<GroupMember>): (r: seq<(GroupGrant, GroupMember)>)
    ensures forall p :: p in r <==> p.0 == g && p.1 in members
  {
    if members == [] then [] else [(g, members[0])] + PairAll(g, members[1..])
  }

  /** collections_groups joined with groups_users on the group. */
  function GroupJoin(grants: seq<GroupGrant>, members: seq<GroupMember>): (r: seq<(GroupGrant, GroupMember)>)
    ensures forall p :: p in r <==> p.0 in grants && p.1 in members && p.0.groupUuid == p.1.groupUuid
  {
    if grants == [] then []
    else
      PairAll(grants[0], Select(members, (gm: GroupMember) => gm.groupUuid == grants[0].groupUuid))
      + GroupJoin(grants[1..], members)
  }

  function GroupGrantsOf(db: Db, memberUuids: seq<Id>): seq<(GroupGrant, GroupMember)> {
    Select(GroupJoin(db.groupGrants, db.groupMembers), (p: (GroupGrant, GroupMember)) => p.1.memberUuid in memberUuids)
  }

  function OrgIds(rows: seq<Membership>): (r: seq<Id>)
    ensures forall o :: o in r <==> exists m :: m in rows && m.orgUuid == o
  {
    if rows == [] then [] else [rows[0].orgUuid] + OrgIds(rows[1..])
  }

  function MemberIds(rows: seq<Membership>): (r: seq<Id>)
    ensures forall u :: u in r <==> exists m :: m in rows && m.uuid == u
  {
    if rows == [] then [] else [rows[0].uuid] + MemberIds(rows[1..])
  }

  // ---------------------------------------------------------------------
  // The snapshot, as folds over the query results
  // ---------------------------------------------------------------------

  function Merge(a: Access, b: Access): Access {
    Access(a.readOnly && b.readOnly, a.hidePasswords && b.hidePasswords, a.manage || b.manage)
  }

  function Absorb(acc: Option<Access>, source: Option<Access>): Option<Access> {
    if source.None? then acc
    else if acc.None? then source
    else Some(Merge(acc.value, source.value))
  }

  function Get<V>(m: map<Id, V>, k: Id): Option<V> {
    if k in m then Some(m[k]) else None
  }

  function MembersByOrg(rows: seq<Membership>): map<Id, Membership> {
    if rows == [] then map[]
    else MembersByOrg(rows[..|rows| - 1])[rows[|rows| - 1].orgUuid := rows[|rows| - 1]]
  }

  function CollectionsByCipher(rows: seq<CipherLink>): map<Id, seq<Id>> {
    if rows == [] then map[]
    else
      var before := CollectionsByCipher(rows[..|rows| - 1]);
      var l := rows[|rows| - 1];
      var list := if l.cipherUuid in before then before[l.cipherUuid] else [];
      before[l.cipherUuid := list + [l.collectionUuid]]
  }

  function DirectByCollection(rows: seq<UserGrant>): map<Id, Access> {
    if rows == [] then map[]
    else DirectByCollection(rows[..|rows| - 1])[rows[|rows| - 1].collectionUuid := rows[|rows| - 1].access]
  }

  function GroupsByCollection(rows: seq<(GroupGrant, GroupMember)>): map<Id, Access> {
    if rows == [] then map[]
    else
      var before := GroupsByCollection(rows[..|rows| - 1]);
      var g := rows[|rows| - 1].0;
      before[g.collectionUuid := if g.collectionUuid in before then Merge(before[g.collectionUuid], g.access) else g.access]
  }

  /** `orgUuid` is None for a "user" load and the organisation for an "org" load. */
  function SyncData(db: Db, userUuid: Id, orgUuid: Option<Id>): CipherSyncData {
    var rows := ConfirmedOf(db, userUuid);
    var orgIds := if orgUuid.Some? then [orgUuid.value] else OrgIds(rows);
    if orgIds == [] then CipherSyncData(map[], MembersByOrg(rows), map[], map[])
    else
      CipherSyncData(
        CollectionsByCipher(LinksInOrgs(db, orgIds)),
        MembersByOrg(rows),
        DirectByCollection(GrantsOf(db, userUuid)),
        if rows == [] then map[] else GroupsByCollection(GroupGrantsOf(db, MemberIds(rows))))
  }

  method FillMembers(rows: seq<Membership>) returns (byOrg: map<Id, Membership>)
    ensures byOrg == MembersByOrg(rows)
  {
    byOrg := map[];
    for i := 0 to |rows|
      invariant byOrg == MembersByOrg(rows[..i])
    {
      assert rows[..i + 1][..i] == rows[..i];
      byOrg := byOrg[rows[i].orgUuid := rows[i]];
    }
    assert rows[..|rows|] == rows;
  }

  method FillCollections(links: seq<CipherLink>) returns (byCipher: map<Id, seq<Id>>)
    ensures byCipher == CollectionsByCipher(links)
  {
    byCipher := map[];
    for i := 0 to |links|
      invariant byCipher == CollectionsByCipher(links[..i])
    {
      assert links[..i + 1][..i] == links[..i];
      var l := links[i];
      var list := if l.cipherUuid in byCipher then byCipher[l.cipherUuid] else [];
      byCipher := byCipher[l.cipherUuid := list + [l.collectionUuid]];
    }
    assert links[..|links|] == links;
  }

  method FillDirect(rows: seq<UserGrant>) returns (byCollection: map<Id, Access>)
    ensures byCollection == DirectByCollection(rows)
  {
    byCollection := map[];
    for i := 0 to |rows|
      invariant byCollection == DirectByCollection(rows[..i])
    {
      assert rows[..i + 1][..i] == rows[..i];
      byCollection := byCollection[rows[i].collectionUuid := rows[i].access];
    }
    assert rows[..|rows|] == rows;
  }

  method FillGroups(rows: seq<(GroupGrant, GroupMember)>) returns (byCollection: map<Id, Access>)
    ensures byCollection == GroupsByCollection(rows)
  {
    byCollection := map[];
    for i := 0 to |rows|
      invariant byCollection == GroupsByCollection(rows[..i])
    {
      assert rows[..i + 1][..i] == rows[..i];
      var g := rows[i].0;
      var merged :=
        if g.collectionUuid in byCollection then Merge(byCollection[g.collectionUuid], g.access) else g.access;
      byCollection := byCollection[g.collectionUuid := merged];
    }
    assert rows[..|rows|] == rows;
  }

  /** Fills the four maps row by row, as the loader does. */
  method LoadCipherSyncData(db: Db, userUuid: Id, orgUuid: Option<Id>) returns (data: CipherSyncData)
    ensures data == SyncData(db, userUuid, orgUuid)
  {
    data := CipherSyncData(map[], map[], map[], map[]);
    var memberRows := ConfirmedOf(db, userUuid);
    var members := FillMembers(memberRows);
    data := data.(members := members);

    var orgIds := if orgUuid.Some? then [orgUuid.value] else OrgIds(memberRows);
    if |orgIds| > 0 {
      var links := FillCollections(LinksInOrgs(db, orgIds));
      data := data.(cipherCollections := links);
      var direct := FillDirect(GrantsOf(db, userUuid));
      data := data.(userCollections := direct);
      if |memberRows| > 0 {
        var viaGroups := FillGroups(GroupGrantsOf(db, MemberIds(memberRows)));
        data := data.(userCollectionsGroups := viaGroups);
      }
    }
  }

  // ---------------------------------------------------------------------
  // The forward check
  // ---------------------------------------------------------------------

  /** Everything the two grant maps say about the listed collections, folded left to right. */
  function FoldSources(ids: seq<Id>, sync: CipherSyncData): Option<Access> {
    if ids == [] then None
    else
      var cid := ids[|ids| - 1];
      Absorb(Absorb(FoldSources(ids[..|ids| - 1], sync), Get(sync.userCollections, cid)),
             Get(sync.userCollectionsGroups, cid))
  }

  function CollectionsOf(sync: CipherSyncData, cipherUuid: Id): seq<Id> {
    if cipherUuid in sync.cipherCollections then sync.cipherCollections[cipherUuid] else []
  }

  function Restrictions(cipher: Cipher, userUuid: Id, sync: CipherSyncData): Option<Access> {
    if cipher.userUuid == Some(userUuid) then Some(FULL)
    else if cipher.organizationUuid.None? then None
    else
      var org := cipher.organizationUuid.value;
      if org !in sync.members then None
      else if HasFullAccess(sync.members[org].atype, sync.members[org].accessAll) then Some(FULL)
      else FoldSources(CollectionsOf(sync, cipher.uuid), sync)
  }

  method GetAccessRestrictions(cipher: Cipher, userUuid: Id, sync: CipherSyncData) returns (r: Option<Access>)
    ensures r == Restrictions(cipher, userUuid, sync)
  {
    if cipher.userUuid == Some(userUuid) { return Some(Access(false, false, true)); }
    if cipher.organizationUuid.None? { return None; }
    var org := cipher.organizationUuid.value;
    if org !in sync.members { return None; }
    var member := sync.members[org];
    if HasFullAccess(member.atype, member.accessAll) { return Some(Access(false, false, true)); }

    var ids := CollectionsOf(sync, cipher.uuid);
    var found := false;
    var agg := Access(true, true, false);
    for i := 0 to |ids|
      invariant FoldSources(ids[..i], sync) == if found then Some(agg) else None
      invariant !found ==> agg == Access(true, true, false)
    {
      assert ids[..i + 1][..i] == ids[..i];
      var sources := [Get(sync.userCollections, ids[i]), Get(sync.userCollectionsGroups, ids[i])];
      ghost var before := FoldSources(ids[..i], sync);
      for k := 0 to 2
        invariant (if found then Some(agg) else None) ==
                  if k == 0 then before
                  else if k == 1 then Absorb(before, sources[0])
                  else Absorb(Absorb(before, sources[0]), sources[1])
        invariant !found ==> agg == Access(true, true, false)
      {
        if sources[k].None? { continue; }
        found := true;
        agg := Access(agg.readOnly && sources[k].value.readOnly,
                      agg.hidePasswords && sources[k].value.hidePasswords,
                      agg.manage || sources[k].value.manage);
      }
    }
    assert ids[..|ids|] == ids;
    r := if found then Some(agg) else None;
  }

  predicate IsWriteAccessible(cipher: Cipher, userUuid: Id, sync: CipherSyncData) {
    var access := Restrictions(cipher, userUuid, sync);
    access.Some? && !access.value.readOnly
  }

  /** The list form: owned ciphers and those of the user's organisations that pass the check. */
  function FindCiphersVisibleToUser(db: Db, userUuid: Id, sync: CipherSyncData): seq<Cipher> {
    var rows := Select(db.ciphers,
      (c: Cipher) => c.userUuid == Some(userUuid) || (c.organizationUuid.Some? && c.organizationUuid.value in sync.members));
    Select(rows, (c: Cipher) =>
      c.userUuid == Some(userUuid) || (c.organizationUuid.Some? && Restrictions(c, userUuid, sync).Some?))
  }

  // ---------------------------------------------------------------------
  // One flat reading of the raw grant rows
  // ---------------------------------------------------------------------

  ghost function DirectRows(db: Db, userUuid: Id, cid: Id): set<Access> {
    set g | g in db.userGrants && g.userUuid == userUuid && g.collectionUuid == cid :: g.access
  }

  ghost predicate ViaGroup(db: Db, userUuid: Id, gm: GroupMember) {
    exists m :: m in db.members && m.userUuid == userUuid && m.status == CONFIRMED && m.uuid == gm.memberUuid
  }

  ghost function GroupRows(db: Db, userUuid: Id, cid: Id): set<Access> {
    set g, gm | g in db.groupGrants && gm in db.groupMembers && g.groupUuid == gm.groupUuid
                && g.collectionUuid == cid && ViaGroup(db, userUuid, gm) :: g.access
  }

  /** Every raw grant row, direct or through a group, that reaches this cipher. */
  ghost function RawGrants(db: Db, userUuid: Id, cipherUuid: Id): set<Access> {
    set l, a | l in db.cipherLinks && l.cipherUuid == cipherUuid
               && a in DirectRows(db, userUuid, l.collectionUuid) + GroupRows(db, userUuid, l.collectionUuid) :: a
  }

  /** Restricted only when every row restricts; manage as soon as one row manages. */
  ghost function Flatten(rows: set<Access>): Option<Access> {
    if rows == {} then None
    else Some(Access(forall a | a in rows :: a.readOnly,
                     forall a | a in rows :: a.hidePasswords,
                     exists a | a in rows :: a.manage))
  }

  ghost predicate ConfirmedMember(db: Db, userUuid: Id, orgUuid: Id, m: Membership) {
    m in db.members && m.userUuid == userUuid && m.orgUuid == orgUuid && m.status == CONFIRMED
  }

  ghost function FlatRestrictions(db: Db, userUuid: Id, c: Cipher): Option<Access> {
    if c.userUuid == Some(userUuid) then Some(FULL)
    else if c.organizationUuid.None? then None
    else if !exists m :: ConfirmedMember(db, userUuid, c.organizationUuid.value, m) then None
    else if exists m :: ConfirmedMember(db, userUuid, c.organizationUuid.value, m) && HasFullAccess(m.atype, m.accessAll)
    then Some(FULL)
    else Flatten(RawGrants(db, userUuid, c.uuid))
  }
}
