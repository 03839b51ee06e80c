/** Membership rows, and every operation that changes them, as functions on one state. */
module OrgLifecycle {
  import opened Base
  import opened Memberships

  const TWO_FACTOR_POLICY: int := 0
  const SINGLE_ORG_POLICY: int := 3

  datatype Member = Member(userUuid: Id, orgUuid: Id, status: int, atype: int, accessAll: bool, akey: string, externalId: Option<string>)

  datatype State = State(
    users: set<Id>,
    orgs: set<Id>,
    members: map<Id, Member>,
    /** Enabled policies, by organisation and type. */
    policies: set<(Id, int)>,
    /** Users with some two-step login method. */
    with2fa: set<Id>)

  // ---------------------------------------------------------------------
  // Look-ups
  // ---------------------------------------------------------------------

  /** `requireMember`: the actor is a confirmed member of at least this type. */
  predicate ActorIs(s: State, actor: Id, org: Id, minimum: int) {
    exists id :: id in s.members && s.members[id].userUuid == actor && s.members[id].orgUuid == org
                 && s.members[id].status == CONFIRMED && IsAtLeast(s.members[id].atype, minimum)
  }

  predicate IsConfirmedOwner(m: Member, org: Id) {
    m.orgUuid == org && m.atype == OWNER && m.status == CONFIRMED
  }

  function ConfirmedOwners(s: State, org: Id): set<Id> {
    set id | id in s.members && IsConfirmedOwner(s.members[id], org)
  }

  function MembershipsOf(s: State, user: Id, org: Id): set<Id> {
    set id | id in s.members && s.members[id].userUuid == user && s.members[id].orgUuid == org
  }

  predicate InOrg(s: State, id: Id, org: Id) {
    id in s.members && s.members[id].orgUuid == org
  }

  /** Losing this row's Owner standing would leave the organisation without a confirmed Owner. */
  predicate LastConfirmedOwner(s: State, id: Id)
    requires id in s.members
  {
    IsConfirmedOwner(s.members[id], s.members[id].orgUuid) && |ConfirmedOwners(s, s.members[id].orgUuid)| <= 1
  }

  predicate MemberElsewhere(s: State, user: Id, org: Id) {
    exists id :: id in s.members && s.members[id].userUuid == user && s.members[id].orgUuid != org
                 && s.members[id].status >= ACCEPTED
  }

  /** Custom (4) is the wire name of Manager; anything else outside 0..3 is refused. */
  function ParseMemberType(n: int): Option<int> {
    if n == 4 then Some(MANAGER) else if 0 <= n <= 3 then Some(n) else None
  }

  function SetStatus(s: State, id: Id, status: int): State
    requires id in s.members
  {
    s.(members := s.members[id := s.members[id].(status := status)])
  }

  // ---------------------------------------------------------------------
  // One row at a time
  // ---------------------------------------------------------------------

  predicate MayCreateOrg(s: State, user: Id, org: Id, id: Id) {
    user in s.users && org !in s.orgs && id !in s.members
  }

  function CreateOrg(s: State, user: Id, org: Id, id: Id, key: string): State {
    if !MayCreateOrg(s, user, org, id) then s
    else s.(orgs := s.orgs + {org},
            members := s.members[id := Member(user, org, CONFIRMED, OWNER, true, key, None)])
  }

  predicate MayAccept(s: State, user: Id, org: Id, id: Id, tokenOk: bool) {
    && InOrg(s, id, org)
    && s.members[id].userUuid == user
    && s.members[id].status == INVITED
    && tokenOk
    && (user in s.with2fa || (org, TWO_FACTOR_POLICY) !in s.policies || IsAtLeast(s.members[id].atype, ADMIN))
    && ((org, SINGLE_ORG_POLICY) !in s.policies || IsAtLeast(s.members[id].atype, ADMIN) || !MemberElsewhere(s, user, org))
  }

  function Accept(s: State, user: Id, org: Id, id: Id, tokenOk: bool): State {
    if MayAccept(s, user, org, id, tokenOk) then SetStatus(s, id, ACCEPTED) else s
  }

  predicate MayConfirm(s: State, actor: Id, org: Id, id: Id) {
    && InOrg(s, id, org)
    && s.members[id].status == ACCEPTED
    && (s.members[id].atype == OWNER ==> ActorIs(s, actor, org, OWNER))
  }

  function Confirm(s: State, actor: Id, org: Id, id: Id, key: string): State {
    if MayConfirm(s, actor, org, id)
    then s.(members := s.members[id := s.members[id].(status := CONFIRMED, akey := key)])
    else s
  }

  predicate MayEdit(s: State, actor: Id, org: Id, id: Id, newType: int) {
    && ActorIs(s, actor, org, ADMIN)
    && InOrg(s, id, org)
    && ParseMemberType(newType).Some?
    && (ParseMemberType(newType).value == OWNER || s.members[id].atype == OWNER ==> ActorIs(s, actor, org, OWNER))
    && (ParseMemberType(newType).value == OWNER || !LastConfirmedOwner(s, id))
  }

  function Edit(s: State, actor: Id, org: Id, id: Id, newType: int, accessAll: bool): State {
    if MayEdit(s, actor, org, id, newType)
    then s.(members := s.members[id := s.members[id].(atype := ParseMemberType(newType).value, accessAll := accessAll)])
    else s
  }

  predicate MayRemove(s: State, actor: Id, org: Id, id: Id) {
    && InOrg(s, id, org)
    && (s.members[id].atype == OWNER ==> ActorIs(s, actor, org, OWNER) && !LastConfirmedOwner(s, id))
  }

  function Remove(s: State, actor: Id, org: Id, id: Id): State {
    if MayRemove(s, actor, org, id) then s.(members := s.members - {id}) else s
  }

  predicate MayLeave(s: State, user: Id, org: Id, id: Id) {
    id in MembershipsOf(s, user, org) && !LastConfirmedOwner(s, id)
  }

  /** `id` is the row found for this user and organisation. */
  function Leave(s: State, user: Id, org: Id, id: Id): State {
    if MayLeave(s, user, org, id) then s.(members := s.members - {id}) else s
  }

  predicate MaySetRevoked(s: State, actor: Id, org: Id, id: Id, revoke: bool) {
    && InOrg(s, id, org)
    && (if revoke
        then s.members[id].status >= INVITED
             && (s.members[id].atype == OWNER ==> ActorIs(s, actor, org, OWNER) && !LastConfirmedOwner(s, id))
        else s.members[id].status < INVITED)
  }

  function SetRevoked(s: State, actor: Id, org: Id, id: Id, revoke: bool): State {
    if MaySetRevoked(s, actor, org, id, revoke)
    then SetStatus(s, id, if revoke then s.members[id].status - 128 else s.members[id].status + 128)
    else s
  }

  predicate MayRetype(s: State, user: Id, org: Id, id: Id, newType: int) {
    && id in MembershipsOf(s, user, org)
    && 0 <= newType <= 3
    && (s.members[id].atype == OWNER && newType != OWNER ==> |ConfirmedOwners(s, org)| > 1)
  }

  /** The server administrator's retyping. */
  function Retype(s: State, user: Id, org: Id, id: Id, newType: int): State {
    if MayRetype(s, user, org, id, newType)
    then s.(members := s.members[id := s.members[id].(atype := newType)])
    else s
  }

  // ---------------------------------------------------------------------
  // Many rows at a time
  // ---------------------------------------------------------------------

  /** Setting the first password, or registering on an invitation, accepts the user's open invitations. */
  function AcceptInvitations(s: State, user: Id): State {
    s.(members := map id | id in s.members ::
      if s.members[id].userUuid == user && s.members[id].status == INVITED
      then s.members[id].(status := ACCEPTED) else s.members[id])
  }

  predicate PolicyHits(s: State, org: Id, ptype: int, m: Member) {
    && m.orgUuid == org && !IsAtLeast(m.atype, ADMIN) && m.status >= ACCEPTED
    && (|| (ptype == TWO_FACTOR_POLICY && m.userUuid !in s.with2fa)
        || (ptype == SINGLE_ORG_POLICY && MemberElsewhere(s, m.userUuid, org)))
  }

  function PutPolicy(s: State, actor: Id, org: Id, ptype: int, enabled: bool): State {
    if !ActorIs(s, actor, org, ADMIN) then s
    else if !enabled then s.(policies := s.policies - {(org, ptype)})
    else s.(policies := s.policies + {(org, ptype)},
            members := map id | id in s.members ::
              if PolicyHits(s, org, ptype, s.members[id])
              then s.members[id].(status := s.members[id].status - 128) else s.members[id])
  }

  predicate LoginHits(s: State, user: Id, m: Member) {
    m.userUuid == user && (m.orgUuid, TWO_FACTOR_POLICY) in s.policies && m.atype > ADMIN && m.status >= ACCEPTED
  }

  /** `enforce2faPolicy` at login: a plain Revoked, whatever the status was. */
  function EnforceAtLogin(s: State, user: Id): State {
    if user in s.with2fa then s
    else s.(members := map id | id in s.members ::
      if LoginHits(s, user, s.members[id]) then s.members[id].(status := REVOKED) else s.members[id])
  }

  function DeleteOrg(s: State, actor: Id, org: Id): State {
    if !ActorIs(s, actor, org, OWNER) then s
    else s.(orgs := s.orgs - {org}, members := map id | id in s.members && s.members[id].orgUuid != org :: s.members[id])
  }

  /** Deleting an account cascades into its memberships without looking at owners. */
  function DeleteAccount(s: State, user: Id): State {
    s.(users := s.users - {user},
       members := map id | id in s.members && s.members[id].userUuid != user :: s.members[id])
  }

  // ---------------------------------------------------------------------
  // Loops over request entries, failures skipped or fatal as in the handlers
  // ---------------------------------------------------------------------

  datatype Invitee = Invitee(userUuid: Id, memberUuid: Id)

  /** None when the loop aborts at this entry; earlier entries stay. */
  function InviteOne(s: State, org: Id, e: Invitee, atype: int, accessAll: bool, mail: bool, invitationsAllowed: bool): Option<State> {
    if e.userUuid !in s.users && !invitationsAllowed then None
    else if e.userUuid in s.users && MembershipsOf(s, e.userUuid, org) != {} then None
    else if e.memberUuid in s.members then None
    else
      Some(s.(users := s.users + {e.userUuid},
              members := s.members[e.memberUuid :=
                Member(e.userUuid, org, if mail then INVITED else ACCEPTED, atype, accessAll, "", None)]))
  }

  function InviteEach(s: State, org: Id, entries: seq<Invitee>, atype: int, accessAll: bool, mail: bool, invitationsAllowed: bool): (State, bool)
    decreases |entries|
  {
    if entries == [] then (s, true)
    else
      var t := InviteOne(s, org, entries[0], atype, accessAll, mail, invitationsAllowed);
      if t.None? then (s, false)
      else InviteEach(t.value, org, entries[1..], atype, accessAll, mail, invitationsAllowed)
  }

  predicate MayInvite(s: State, actor: Id, org: Id, entries: seq<Invitee>, atype: int) {
    && ActorIs(s, actor, org, ADMIN)
    && ParseMemberType(atype).Some?
    && entries != []
    && (ParseMemberType(atype).value == OWNER ==> ActorIs(s, actor, org, OWNER))
  }

  function Invite(s: State, actor: Id, org: Id, entries: seq<Invitee>, atype: int, accessAll: bool, mail: bool, invitationsAllowed: bool): State {
    if MayInvite(s, actor, org, entries, atype)
    then InviteEach(s, org, entries, ParseMemberType(atype).value, accessAll, mail, invitationsAllowed).0
    else s
  }

  function ConfirmEach(s: State, actor: Id, org: Id, keys: seq<(Id, string)>): State
    decreases |keys|
  {
    if keys == [] then s else ConfirmEach(Confirm(s, actor, org, keys[0].0, keys[0].1), actor, org, keys[1..])
  }

  function RemoveEach(s: State, actor: Id, org: Id, ids: seq<Id>): State
    decreases |ids|
  {
    if ids == [] then s else RemoveEach(Remove(s, actor, org, ids[0]), actor, org, ids[1..])
  }

  function SetRevokedEach(s: State, actor: Id, org: Id, ids: seq<Id>, revoke: bool): State
    decreases |ids|
  {
    if ids == [] then s else SetRevokedEach(SetRevoked(s, actor, org, ids[0], revoke), actor, org, ids[1..], revoke)
  }

  /** One directory entry; `shell` says the account, where it exists, has no password yet. */
  datatype Entry = Entry(userUuid: Id, memberUuid: Id, externalId: Option<string>, deleted: bool, shell: bool)

  /** `row` is the membership found for the entry's user, if any. */
  function ImportOne(s: State, org: Id, e: Entry, row: Option<Id>, mail: bool): State
    requires row.Some? ==> row.value in s.members
  {
    if e.deleted then
      if row.None? then s
      else
        var m := s.members[row.value];
        if (m.atype != OWNER || m.status != CONFIRMED || |ConfirmedOwners(s, org)| > 1) && m.status >= INVITED
        then s.(members := s.members[row.value := m.(status := m.status - 128, externalId := e.externalId)])
        else s
    else if row.Some? then
      var m := s.members[row.value];
      s.(members := s.members[row.value :=
        m.(status := if m.status < INVITED then m.status + 128 else m.status, externalId := e.externalId)])
    else if e.memberUuid in s.members then s
    else
      s.(users := s.users + {e.userUuid},
         members := s.members[e.memberUuid :=
           Member(e.userUuid, org, if mail || e.shell || e.userUuid !in s.users then INVITED else ACCEPTED, USER, false, "", e.externalId)])
  }

  /** The row the import's query finds; unique wherever one user has one membership per organisation. */
  ghost function RowOf(s: State, user: Id, org: Id): (r: Option<Id>)
    ensures r.Some? ==> r.value in MembershipsOf(s, user, org)
    ensures r.None? ==> MembershipsOf(s, user, org) == {}
  {
    if MembershipsOf(s, user, org) == {} then None
    else
      var id :| id in MembershipsOf(s, user, org);
      Some(id)
  }

  ghost function ImportEach(s: State, org: Id, entries: seq<Entry>, mail: bool): State
    decreases |entries|
  {
    if entries == [] then s
    else ImportEach(ImportOne(s, org, entries[0], RowOf(s, entries[0].userUuid, org), mail), org, entries[1..], mail)
  }

  // ---------------------------------------------------------------------
  // Runs
  // ---------------------------------------------------------------------

  datatype Event =
    | ECreateOrg(user: Id, org: Id, id: Id, key: string)
    | EInvite(actor: Id, org: Id, invitees: seq<Invitee>, atype: int, accessAll: bool, mail: bool, invitationsAllowed: bool)
    | EAccept(user: Id, org: Id, id: Id, tokenOk: bool)
    | EConfirm(actor: Id, org: Id, keys: seq<(Id, string)>)
    | EEdit(actor: Id, org: Id, id: Id, atype: int, accessAll: bool)
    | ERemove(actor: Id, org: Id, ids: seq<Id>)
    | ELeave(user: Id, org: Id)
    | ESetRevoked(actor: Id, org: Id, ids: seq<Id>, revoke: bool)
    | EPutPolicy(actor: Id, org: Id, ptype: int, enabled: bool)
    | EImport(org: Id, entries: seq<Entry>, mail: bool)
    | ERetype(user: Id, org: Id, atype: int)
    | ELogin(user: Id)
    | EAcceptInvitations(user: Id)
    | ESet2fa(user: Id, on: bool)
    | EDeleteOrg(actor: Id, org: Id)

  /** One request, taken as one atomic step. Bulk and single routes share an event. */
  ghost function Step(s: State, e: Event): State {
    match e
    case ECreateOrg(u, o, id, key) => CreateOrg(s, u, o, id, key)
    case EInvite(a, o, es, t, all, mail, allowed) => Invite(s, a, o, es, t, all, mail, allowed)
    case EAccept(u, o, id, ok) => Accept(s, u, o, id, ok)
    case EConfirm(a, o, keys) => if ActorIs(s, a, o, ADMIN) then ConfirmEach(s, a, o, keys) else s
    case EEdit(a, o, id, t, all) => Edit(s, a, o, id, t, all)
    case ERemove(a, o, ids) => if ActorIs(s, a, o, ADMIN) then RemoveEach(s, a, o, ids) else s
    case ELeave(u, o) => if RowOf(s, u, o).Some? then Leave(s, u, o, RowOf(s, u, o).value) else s
    case ESetRevoked(a, o, ids, revoke) => if ActorIs(s, a, o, ADMIN) then SetRevokedEach(s, a, o, ids, revoke) else s
    case EPutPolicy(a, o, t, on) => PutPolicy(s, a, o, t, on)
    case EImport(o, es, mail) => if o in s.orgs then ImportEach(s, o, es, mail) else s
    case ERetype(u, o, t) => if RowOf(s, u, o).Some? then Retype(s, u, o, RowOf(s, u, o).value, t) else s
    case ELogin(u) => EnforceAtLogin(s, u)
    case EAcceptInvitations(u) => AcceptInvitations(s, u)
    case ESet2fa(u, on) => s.(with2fa := if on then s.with2fa + {u} else s.with2fa - {u})
    case EDeleteOrg(a, o) => DeleteOrg(s, a, o)
  }

  ghost function Run(s: State, events: seq<Event>): State
    decreases |events|
  {
    if events == [] then s else Run(Step(s, events[0]), events[1..])
  }
}
