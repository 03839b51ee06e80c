/** What each membership request does and who may make it, read off the rows. */
module OrgAuthority {
  // Wire values are written out: types 0 Owner, 1 Admin, 2 User, 3 Manager; statuses 0 Invited, 1 Accepted, 2 Confirmed.
  import opened Base
  import opened Memberships
  import opened OrgLifecycle
  import opened Revocation

  // ---------------------------------------------------------------------
  // Standing
  // ---------------------------------------------------------------------

  /** The user has a confirmed row of this organisation with one of the types. */
  ghost predicate Stands(s: State, user: Id, org: Id, types: set<int>) {
    exists k :: k in s.members && s.members[k].userUuid == user && s.members[k].orgUuid == org
                && s.members[k].status == 2 && s.members[k].atype in types
  }

  /** Some other row of the same organisation is a confirmed Owner's. */
  ghost predicate AnotherOwnerThan(s: State, id: Id)
    requires id in s.members
  {
    exists k :: k in s.members && k != id && s.members[k].orgUuid == s.members[id].orgUuid
                && s.members[k].status == 2 && s.members[k].atype == 0
  }

  /** The ranks order the wire values Owner, Admin, Manager, User. */
  lemma PrivilegeOrder(a: int, b: int)
    requires 0 <= a <= 3 && 0 <= b <= 3
    ensures IsAtLeast(a, b) <==> a == 0 || b == 2 || (a == 1 && b != 0) || (a == 3 && b == 3)
  {
  }

  lemma OwnerStands(s: State, user: Id, org: Id)
    ensures ActorIs(s, user, org, OWNER) <==> Stands(s, user, org, {0})
  {
  }

  lemma AdminStands(s: State, user: Id, org: Id)
    ensures ActorIs(s, user, org, ADMIN) <==> Stands(s, user, org, {0, 1})
  {
  }

  lemma AtMostOneOwner(s: State, org: Id, id: Id)
    requires id in ConfirmedOwners(s, org)
    ensures |ConfirmedOwners(s, org)| <= 1 <==> forall k | k in ConfirmedOwners(s, org) :: k == id
  {
    var rest := ConfirmedOwners(s, org) - {id};
    assert |rest| == |ConfirmedOwners(s, org)| - 1;
    if rest != {} {
      var k :| k in rest;
    }
  }

  lemma LastOwnerIff(s: State, id: Id)
    requires id in s.members
    ensures LastConfirmedOwner(s, id) <==>
              s.members[id].status == 2 && s.members[id].atype == 0 && !AnotherOwnerThan(s, id)
  {
    var org := s.members[id].orgUuid;
    if IsConfirmedOwner(s.members[id], org) {
      AtMostOneOwner(s, org, id);
      forall k | k in s.members && k != id
        ensures k in ConfirmedOwners(s, org) <==>
                  s.members[k].orgUuid == org && s.members[k].status == 2 && s.members[k].atype == 0
      {
      }
    }
  }

  lemma TwoOwnersIff(s: State, org: Id)
    ensures |ConfirmedOwners(s, org)| > 1 <==>
              exists j, k :: j != k && j in ConfirmedOwners(s, org) && k in ConfirmedOwners(s, org)
  {
    var owners := ConfirmedOwners(s, org);
    if owners != {} {
      var j :| j in owners;
      AtMostOneOwner(s, org, j);
    }
  }

  // ---------------------------------------------------------------------
  // One row
  // ---------------------------------------------------------------------

  ghost predicate RowOfOrg(s: State, id: Id, org: Id) {
    id in s.members && s.members[id].orgUuid == org
  }

  /** The state with one row replaced. */
  ghost function WithRow(s: State, id: Id, row: Member): State {
    s.(members := s.members[id := row])
  }

  /** An Admin edits; only an Owner gives or takes Owner; the last confirmed Owner stays one; 4 is stored as 3. */
  lemma EditDecided(s: State, actor: Id, org: Id, id: Id, newType: int, accessAll: bool)
    ensures MayEdit(s, actor, org, id, newType) <==>
              && Stands(s, actor, org, {0, 1}) && RowOfOrg(s, id, org) && 0 <= newType <= 4
              && (newType == 0 || s.members[id].atype == 0 ==> Stands(s, actor, org, {0}))
              && (s.members[id].status == 2 && s.members[id].atype == 0 && newType != 0 ==> AnotherOwnerThan(s, id))
    ensures var t := Step(s, EEdit(actor, org, id, newType, accessAll));
            if !MayEdit(s, actor, org, id, newType) then t == s
            else
              var m, stored := s.members[id], if newType == 4 then 3 else newType;
              t == WithRow(s, id, Member(m.userUuid, m.orgUuid, m.status, stored, accessAll, m.akey, m.externalId))
  {
    OwnerStands(s, actor, org);
    AdminStands(s, actor, org);
    if id in s.members {
      LastOwnerIff(s, id);
    }
  }

  ghost predicate RemovalAllowed(s: State, actor: Id, org: Id, id: Id) {
    && RowOfOrg(s, id, org)
    && (s.members[id].atype == 0 ==>
          Stands(s, actor, org, {0}) && (s.members[id].status == 2 ==> AnotherOwnerThan(s, id)))
  }

  /** An Owner's row is removed only by an Owner, and the last confirmed one not at all. */
  lemma RemoveDecided(s: State, actor: Id, org: Id, id: Id)
    ensures MayRemove(s, actor, org, id) <==> RemovalAllowed(s, actor, org, id)
    ensures Remove(s, actor, org, id) ==
            if RemovalAllowed(s, actor, org, id) then s.(members := s.members - {id}) else s
  {
    OwnerStands(s, actor, org);
    if id in s.members {
      LastOwnerIff(s, id);
    }
  }

  /** A member leaves unless he is the last confirmed Owner. */
  lemma LeaveDecided(s: State, user: Id, org: Id, id: Id)
    requires id in MembershipsOf(s, user, org)
    ensures MayLeave(s, user, org, id) <==>
              (s.members[id].status == 2 && s.members[id].atype == 0 ==> AnotherOwnerThan(s, id))
    ensures Leave(s, user, org, id) ==
            if MayLeave(s, user, org, id) then s.(members := s.members - {id}) else s
  {
    LastOwnerIff(s, id);
  }

  ghost predicate RevocationAllowed(s: State, actor: Id, org: Id, id: Id, revoke: bool) {
    && RowOfOrg(s, id, org)
    && (if revoke
        then s.members[id].status >= 0
             && (s.members[id].atype == 0 ==>
                   Stands(s, actor, org, {0}) && (s.members[id].status == 2 ==> AnotherOwnerThan(s, id)))
        else s.members[id].status < 0)
  }

  /** Revoking an Owner takes an Owner and leaves another one; restoring takes no more than being an Admin. */
  lemma SetRevokedDecided(s: State, actor: Id, org: Id, id: Id, revoke: bool)
    ensures MaySetRevoked(s, actor, org, id, revoke) <==> RevocationAllowed(s, actor, org, id, revoke)
    ensures SetRevoked(s, actor, org, id, revoke) ==
            if !RevocationAllowed(s, actor, org, id, revoke) then s
            else
              var m := s.members[id];
              WithRow(s, id, m.(status := if revoke then m.status - 128 else m.status + 128))
  {
    OwnerStands(s, actor, org);
    if id in s.members {
      LastOwnerIff(s, id);
    }
  }

  /** Only an accepted row is confirmed, an Owner's only by an Owner; the row then holds the key. */
  lemma ConfirmDecided(s: State, actor: Id, org: Id, id: Id, key: string)
    ensures MayConfirm(s, actor, org, id) <==>
              && RowOfOrg(s, id, org) && s.members[id].status == 1
              && (s.members[id].atype == 0 ==> Stands(s, actor, org, {0}))
    ensures Confirm(s, actor, org, id, key) ==
            if MayConfirm(s, actor, org, id) then WithRow(s, id, s.members[id].(status := 2, akey := key)) else s
  {
    OwnerStands(s, actor, org);
  }

  /** A row of the user in another organisation that he has accepted. */
  ghost predicate AcceptedElsewhere(s: State, user: Id, org: Id) {
    exists k :: k in s.members && s.members[k].userUuid == user && s.members[k].orgUuid != org && s.members[k].status >= 1
  }

  /** Accepting needs an open invitation of one's own, a token, and, below Admin, what the two policies ask for. */
  lemma AcceptDecided(s: State, user: Id, org: Id, id: Id, tokenOk: bool)
    ensures MayAccept(s, user, org, id, tokenOk) <==>
              && RowOfOrg(s, id, org) && s.members[id].userUuid == user && s.members[id].status == 0 && tokenOk
              && (s.members[id].atype !in {0, 1} ==>
                    && ((org, 0) in s.policies ==> user in s.with2fa)
                    && ((org, 3) in s.policies ==> !AcceptedElsewhere(s, user, org)))
    ensures Step(s, EAccept(user, org, id, tokenOk)) ==
            if MayAccept(s, user, org, id, tokenOk) then WithRow(s, id, s.members[id].(status := 1)) else s
  {
  }

  /** The administrator's retyping: a row that is an Owner's loses that type only while there are two confirmed Owners. */
  lemma RetypeDecided(s: State, user: Id, org: Id, id: Id, newType: int)
    requires id in MembershipsOf(s, user, org)
    ensures MayRetype(s, user, org, id, newType) <==>
              && 0 <= newType <= 3
              && (s.members[id].atype == 0 && newType != 0 ==>
                    exists j, k :: j != k && j in ConfirmedOwners(s, org) && k in ConfirmedOwners(s, org))
    ensures Retype(s, user, org, id, newType) ==
            if MayRetype(s, user, org, id, newType) then WithRow(s, id, s.members[id].(atype := newType)) else s
  {
    TwoOwnersIff(s, org);
  }

  /** A new organisation has its creator as its only member: a confirmed Owner with full access. */
  lemma CreateDecided(s: State, user: Id, org: Id, id: Id, key: string)
    ensures Step(s, ECreateOrg(user, org, id, key)) ==
            if user in s.users && org !in s.orgs && id !in s.members
            then WithRow(s.(orgs := s.orgs + {org}), id, Member(user, org, 2, 0, true, key, None))
            else s
  {
  }

  /** Only Admins invite, and only Owners invite Owners. */
  lemma InviteDecided(s: State, actor: Id, org: Id, entries: seq<Invitee>, atype: int)
    ensures MayInvite(s, actor, org, entries, atype) <==>
              && Stands(s, actor, org, {0, 1}) && 0 <= atype <= 4 && entries != []
              && (atype == 0 ==> Stands(s, actor, org, {0}))
  {
    OwnerStands(s, actor, org);
    AdminStands(s, actor, org);
  }

  /** An invited user gets one row, open while mail can ask him and accepted otherwise. */
  lemma InvitedRow(s: State, org: Id, e: Invitee, atype: int, accessAll: bool, mail: bool, allowed: bool)
    ensures InviteOne(s, org, e, atype, accessAll, mail, allowed) ==
            if (e.userUuid in s.users
                && exists k :: k in s.members && s.members[k].userUuid == e.userUuid && s.members[k].orgUuid == org)
               || (e.userUuid !in s.users && !allowed) || e.memberUuid in s.members
            then None
            else Some(WithRow(s.(users := s.users + {e.userUuid}), e.memberUuid,
                              Member(e.userUuid, org, if mail then 0 else 1, atype, accessAll, "", None)))
  {
    if k :| k in s.members && s.members[k].userUuid == e.userUuid && s.members[k].orgUuid == org {
      assert k in MembershipsOf(s, e.userUuid, org);
    }
  }

  /**
   An entry of the directory import. A deleted one ends up revoked, except a confirmed Owner without another;
   a known one ends up restored; an unknown one gets a User's row.
   */
  lemma ImportDecided(s: State, org: Id, e: Entry, row: Option<Id>, mail: bool)
    requires row.Some? ==> row.value in s.members && s.members[row.value].orgUuid == org
    ensures var t := ImportOne(s, org, e, row, mail);
            if row.Some? then
              var m := s.members[row.value];
              var spared := m.status < 0 || (m.atype == 0 && m.status == 2 && !AnotherOwnerThan(s, row.value));
              t == if e.deleted && spared then s
                   else WithRow(s, row.value, m.(
                          status := if e.deleted then m.status - 128 else if m.status < 0 then m.status + 128 else m.status,
                          externalId := e.externalId))
            else if e.deleted || e.memberUuid in s.members then t == s
            else
              var open := mail || e.shell || e.userUuid !in s.users;
              t == WithRow(s.(users := s.users + {e.userUuid}), e.memberUuid,
                           Member(e.userUuid, org, if open then 0 else 1, 2, false, "", e.externalId))
  {
    if row.Some? {
      LastOwnerIff(s, row.value);
    }
  }

  // ---------------------------------------------------------------------
  // Many rows
  // ---------------------------------------------------------------------

  ghost predicate PolicyCatches(s: State, org: Id, ptype: int, m: Member) {
    && m.orgUuid == org && m.atype !in {0, 1} && m.status >= 1
    && ((ptype == 0 && m.userUuid !in s.with2fa) || (ptype == 3 && AcceptedElsewhere(s, m.userUuid, org)))
  }

  /** Enabling a policy revokes the accepted members below Admin who do not meet it, and nobody else. */
  lemma PolicyDecided(s: State, actor: Id, org: Id, ptype: int, enabled: bool)
    ensures var t := Step(s, EPutPolicy(actor, org, ptype, enabled));
            if !Stands(s, actor, org, {0, 1}) then t == s
            else
              && t.users == s.users && t.orgs == s.orgs && t.with2fa == s.with2fa && t.members.Keys == s.members.Keys
              && t.policies == (if enabled then s.policies + {(org, ptype)} else s.policies - {(org, ptype)})
              && forall id | id in s.members ::
                   t.members[id] == if enabled && PolicyCatches(s, org, ptype, s.members[id])
                                    then s.members[id].(status := s.members[id].status - 128) else s.members[id]
  {
    AdminStands(s, actor, org);
  }

  /** A login without two-step login spoils the accepted rows below Admin under a two-factor policy, and nothing else. */
  lemma LoginDecided(s: State, user: Id)
    ensures var t := Step(s, ELogin(user));
            && t == s.(members := t.members) && t.members.Keys == s.members.Keys
            && forall id | id in s.members ::
                 var m := s.members[id];
                 t.members[id] == if user !in s.with2fa && m.userUuid == user && (m.orgUuid, 0) in s.policies
                                     && m.atype > 1 && m.status >= 1
                                  then m.(status := -1) else m
  {
  }

  lemma AcceptInvitationsDecided(s: State, user: Id)
    ensures var t := Step(s, EAcceptInvitations(user));
            && t == s.(members := t.members) && t.members.Keys == s.members.Keys
            && forall id | id in s.members ::
                 var m := s.members[id];
                 t.members[id] == if m.userUuid == user && m.status == 0 then m.(status := 1) else m
  {
  }

  lemma DeleteOrgDecided(s: State, actor: Id, org: Id)
    ensures var t := Step(s, EDeleteOrg(actor, org));
            if !Stands(s, actor, org, {0}) then t == s
            else
              && t == s.(orgs := s.orgs - {org}, members := t.members)
              && (forall id :: id in t.members <==> id in s.members && s.members[id].orgUuid != org)
              && forall id | id in t.members :: t.members[id] == s.members[id]
  {
    OwnerStands(s, actor, org);
  }

  // ---------------------------------------------------------------------
  // Loops: removing, revoking, confirming
  // ---------------------------------------------------------------------

  /** `t` has no rows but those of `s`. */
  ghost predicate FewerRows(s: State, t: State) {
    forall k | k in t.members :: k in s.members && t.members[k] == s.members[k]
  }

  lemma StandsBefore(s: State, t: State, user: Id, org: Id, types: set<int>)
    requires FewerRows(s, t) && Stands(t, user, org, types)
    ensures Stands(s, user, org, types)
  {
  }

  lemma {:induction false} RemoveEachShrinks(s: State, actor: Id, org: Id, ids: seq<Id>)
    ensures FewerRows(s, RemoveEach(s, actor, org, ids))
    ensures RemoveEach(s, actor, org, ids) == s.(members := RemoveEach(s, actor, org, ids).members)
    decreases |ids|
  {
    if ids != [] {
      RemoveEachShrinks(Remove(s, actor, org, ids[0]), actor, org, ids[1..]);
    }
  }

  /** The row stays although it is listed: an Owner's, with no Owner acting or no other Owner left. */
  ghost predicate Spared(t: State, actor: Id, org: Id, id: Id)
    requires id in t.members
  {
    t.members[id].atype == 0
    && (!Stands(t, actor, org, {0}) || (t.members[id].status == 2 && !AnotherOwnerThan(t, id)))
  }

  /**
   Bulk removal: a row goes only if it is listed, an Owner's only when an Owner acts; and every listed row of
   the organisation is gone, except Owners' rows that are spared.
   */
  lemma {:induction false} RemovedAreGone(s: State, actor: Id, org: Id, ids: seq<Id>, id: Id)
    requires RowOfOrg(s, id, org)
    ensures var t := RemoveEach(s, actor, org, ids);
            && (id !in t.members ==> id in ids && (s.members[id].atype == 0 ==> Stands(s, actor, org, {0})))
            && (id in t.members && id in ids ==> Spared(t, actor, org, id))
    decreases |ids|
  {
    if ids != [] {
      var u, t := Remove(s, actor, org, ids[0]), RemoveEach(s, actor, org, ids);
      RemoveDecided(s, actor, org, ids[0]);
      RemoveEachShrinks(u, actor, org, ids[1..]);
      assert FewerRows(s, u);
      if id in u.members {
        RemovedAreGone(u, actor, org, ids[1..], id);
        if id !in t.members && s.members[id].atype == 0 {
          StandsBefore(s, u, actor, org, {0});
        }
        if id == ids[0] && id in t.members {
          SparedStays(s, t, actor, org, id);
        }
      }
    }
  }

  lemma SparedStays(s: State, t: State, actor: Id, org: Id, id: Id)
    requires FewerRows(s, t) && RowOfOrg(s, id, org) && id in t.members && !RemovalAllowed(s, actor, org, id)
    ensures Spared(t, actor, org, id)
  {
    if Stands(t, actor, org, {0}) {
      StandsBefore(s, t, actor, org, {0});
    }
  }

  /** Rows of other organisations are out of reach. */
  lemma {:induction false} OthersStay(s: State, actor: Id, org: Id, ids: seq<Id>, id: Id)
    requires id in s.members && s.members[id].orgUuid != org
    ensures id in RemoveEach(s, actor, org, ids).members
    decreases |ids|
  {
    if ids != [] {
      OthersStay(Remove(s, actor, org, ids[0]), actor, org, ids[1..], id);
    }
  }

  /** No status outgrows a byte; `Revocation.RunKeepsStatuses` proves more of every run. */
  ghost predicate ByteBound(s: State) {
    forall k | k in s.members :: s.members[k].status <= 127
  }

  /** Bulk revoking: only listed, unrevoked rows of the organisation, and an Owner's only when an Owner acts. */
  lemma {:induction false} RevokedByWhom(s: State, actor: Id, org: Id, ids: seq<Id>, id: Id)
    requires id in s.members && ByteBound(s)
    ensures var t := SetRevokedEach(s, actor, org, ids, true);
            && id in t.members && t.members[id] == s.members[id].(status := t.members[id].status)
            && (t.members[id] != s.members[id] ==>
                  && id in ids && s.members[id].orgUuid == org && s.members[id].status >= 0
                  && (s.members[id].atype == 0 ==> Stands(s, actor, org, {0})))
    decreases |ids|
  {
    if ids != [] {
      var u := SetRevoked(s, actor, org, ids[0], true);
      SetRevokedDecided(s, actor, org, ids[0], true);
      RevokedByWhom(u, actor, org, ids[1..], id);
      if Stands(u, actor, org, {0}) {
        StandsBeforeRevoking(s, u, actor, org, ids[0]);
      }
    }
  }

  lemma StandsBeforeRevoking(s: State, u: State, actor: Id, org: Id, id: Id)
    requires ByteBound(s) && u == SetRevoked(s, actor, org, id, true) && Stands(u, actor, org, {0})
    ensures Stands(s, actor, org, {0})
  {
  }

  lemma {:induction false} RestoredRow(s: State, actor: Id, org: Id, ids: seq<Id>, id: Id)
    requires id in s.members
    ensures var t := SetRevokedEach(s, actor, org, ids, false);
            && id in t.members && t.members[id] == s.members[id].(status := t.members[id].status)
            && (t.members[id] != s.members[id] ==> s.members[id].status < 0)
    decreases |ids|
  {
    if ids != [] {
      RestoredRow(SetRevoked(s, actor, org, ids[0], false), actor, org, ids[1..], id);
    }
  }

  /** Bulk confirming: only listed, accepted rows of the organisation, and an Owner's only when an Owner acts. */
  lemma {:induction false} ConfirmedByWhom(s: State, actor: Id, org: Id, keys: seq<(Id, string)>, id: Id)
    requires id in s.members
    ensures var t := ConfirmEach(s, actor, org, keys);
            && id in t.members
            && t.members[id] == s.members[id].(status := t.members[id].status, akey := t.members[id].akey)
            && (t.members[id] != s.members[id] ==>
                  && (id, t.members[id].akey) in keys && t.members[id].status == 2
                  && s.members[id].orgUuid == org && s.members[id].status == 1
                  && (s.members[id].atype == 0 ==> Stands(s, actor, org, {0})))
    decreases |keys|
  {
    if keys != [] {
      var u := Confirm(s, actor, org, keys[0].0, keys[0].1);
      ConfirmDecided(s, actor, org, keys[0].0, keys[0].1);
      ConfirmedByWhom(u, actor, org, keys[1..], id);
      if Stands(u, actor, org, {0}) {
        StandsBeforeConfirming(s, u, actor, org, keys[0].0, keys[0].1);
      }
    }
  }

  lemma StandsBeforeConfirming(s: State, u: State, actor: Id, org: Id, id: Id, key: string)
    requires u == Confirm(s, actor, org, id, key) && Stands(u, actor, org, {0})
    ensures Stands(s, actor, org, {0})
  {
    ConfirmDecided(s, actor, org, id, key);
    var k :| k in u.members && u.members[k].userUuid == actor && u.members[k].orgUuid == org
             && u.members[k].status == 2 && u.members[k].atype in {0};
    if k == id && MayConfirm(s, actor, org, id) {
      assert s.members[id].atype == 0;
    } else {
      assert s.members[k] == u.members[k];
    }
  }

  /** Every listed row below Owner that is not revoked ends up revoked; repeating it changes nothing. */
  lemma {:induction false} ListedAreRevoked(s: State, actor: Id, org: Id, ids: seq<Id>, id: Id)
    requires ByteBound(s) && RowOfOrg(s, id, org) && s.members[id].atype != 0 && s.members[id].status >= 0
    ensures var t := SetRevokedEach(s, actor, org, ids, true);
            id in t.members && t.members[id].status == s.members[id].status - if id in ids then 128 else 0
    decreases |ids|
  {
    RevokedByWhom(s, actor, org, ids, id);
    if ids != [] {
      var u := SetRevoked(s, actor, org, ids[0], true);
      SetRevokedDecided(s, actor, org, ids[0], true);
      if ids[0] == id {
        RevokedByWhom(u, actor, org, ids[1..], id);
      } else {
        ListedAreRevoked(u, actor, org, ids[1..], id);
      }
    }
  }

  /** Every listed revoked row ends up restored. */
  lemma {:induction false} ListedAreRestored(s: State, actor: Id, org: Id, ids: seq<Id>, id: Id)
    requires RowOfOrg(s, id, org) && -128 <= s.members[id].status < 0
    ensures var t := SetRevokedEach(s, actor, org, ids, false);
            id in t.members && t.members[id].status == s.members[id].status + if id in ids then 128 else 0
    decreases |ids|
  {
    if ids != [] {
      var u := SetRevoked(s, actor, org, ids[0], false);
      if ids[0] == id {
        RestoredRow(u, actor, org, ids[1..], id);
      } else {
        ListedAreRestored(u, actor, org, ids[1..], id);
      }
    }
  }

  /** Every listed accepted row below Owner ends up confirmed, with the first key listed for it. */
  lemma {:induction false} ListedAreConfirmed(s: State, actor: Id, org: Id, keys: seq<(Id, string)>, i: nat)
    requires i < |keys| && forall j | 0 <= j < i :: keys[j].0 != keys[i].0
    requires RowOfOrg(s, keys[i].0, org) && s.members[keys[i].0].status == 1 && s.members[keys[i].0].atype != 0
    ensures var t, id := ConfirmEach(s, actor, org, keys), keys[i].0;
            id in t.members && t.members[id] == s.members[id].(status := 2, akey := keys[i].1)
    decreases i
  {
    var u := Confirm(s, actor, org, keys[0].0, keys[0].1);
    if i == 0 {
      ConfirmedByWhom(u, actor, org, keys[1..], keys[0].0);
    } else {
      ListedAreConfirmed(u, actor, org, keys[1..], i - 1);
    }
  }

  lemma {:induction false} ImportedRow(s: State, org: Id, es: seq<Entry>, mail: bool, id: Id)
    ensures var t := ImportEach(s, org, es, mail);
            && (id in s.members ==>
                  id in t.members
                  && t.members[id] == s.members[id].(status := t.members[id].status, externalId := t.members[id].externalId))
            && (id !in s.members && id in t.members ==> t.members[id].atype == 2)
    decreases |es|
  {
    if es != [] {
      ImportedRow(ImportOne(s, org, es[0], RowOf(s, es[0].userUuid, org), mail), org, es[1..], mail, id);
    }
  }

  lemma {:induction false} InvitedRows(s: State, org: Id, es: seq<Invitee>, atype: int, all: bool, mail: bool, allowed: bool, id: Id)
    ensures var t := InviteEach(s, org, es, atype, all, mail, allowed).0;
            && (id in s.members ==> id in t.members && t.members[id] == s.members[id])
            && (id !in s.members && id in t.members ==> t.members[id].atype == atype)
    decreases |es|
  {
    if es != [] {
      var t := InviteOne(s, org, es[0], atype, all, mail, allowed);
      if t.Some? { InvitedRows(t.value, org, es[1..], atype, all, mail, allowed, id); }
    }
  }

  // ---------------------------------------------------------------------
  // Laws of every request
  // ---------------------------------------------------------------------

  /** The requests of an organisation's administration change nothing unless a confirmed Owner or Admin makes them. */
  lemma OnlyAdminsAct(s: State, e: Event)
    requires e.EInvite? || e.EConfirm? || e.EEdit? || e.ERemove? || e.ESetRevoked? || e.EPutPolicy?
    ensures Step(s, e) != s ==> Stands(s, e.actor, e.org, {0, 1})
  {
    AdminStands(s, e.actor, e.org);
  }

  /** Which request may change which column of a row that survives it. */
  lemma ColumnsHaveTheirRequests(s: State, e: Event, id: Id)
    requires ByteBound(s) && id in s.members && id in Step(s, e).members
    ensures var m, n := s.members[id], Step(s, e).members[id];
            && n.userUuid == m.userUuid && n.orgUuid == m.orgUuid
            && (n.atype != m.atype ==>
                  (e.EEdit? && e.id == id) || (e.ERetype? && n.atype == e.atype && id in MembershipsOf(s, e.user, e.org)))
            && (n.accessAll != m.accessAll ==> e.EEdit? && e.id == id)
            && (n.akey != m.akey ==> e.EConfirm?)
            && (n.externalId != m.externalId ==> e.EImport?)
  {
    match e
    case EConfirm(a, o, keys) => ConfirmedByWhom(s, a, o, keys, id);
    case ERemove(a, o, ids) => RemoveEachShrinks(s, a, o, ids);
    case ESetRevoked(a, o, ids, revoke) => if revoke { RevokedByWhom(s, a, o, ids, id); } else { RestoredRow(s, a, o, ids, id); }
    case EImport(o, es, mail) => ImportedRow(s, o, es, mail, id);
    case EInvite(a, o, es, t, all, mail, allowed) =>
      if MayInvite(s, a, o, es, t) { InvitedRows(s, o, es, ParseMemberType(t).value, all, mail, allowed, id); }
    case _ =>
  }

  /** The administrator apart, a row becomes or stops being an Owner's only by an edit that an Owner makes. */
  lemma OnlyOwnersGiveOwner(s: State, e: Event, id: Id)
    requires ByteBound(s) && id in s.members && id in Step(s, e).members
    requires (s.members[id].atype == 0) != (Step(s, e).members[id].atype == 0)
    ensures || (e.ERetype? && id in MembershipsOf(s, e.user, e.org) && Step(s, e).members[id].atype == e.atype)
            || (e.EEdit? && e.id == id && Stands(s, e.actor, s.members[id].orgUuid, {0}))
  {
    ColumnsHaveTheirRequests(s, e, id);
    if e.EEdit? {
      EditDecided(s, e.actor, e.org, e.id, e.atype, e.accessAll);
    }
  }

  /** A new Owner's row is its organisation's first, or an Owner invited it. */
  lemma OnlyOwnersInviteOwners(s: State, e: Event, id: Id)
    requires id !in s.members && id in Step(s, e).members && Step(s, e).members[id].atype == 0
    ensures (e.ECreateOrg? && e.id == id) || (e.EInvite? && Stands(s, e.actor, e.org, {0}))
  {
    match e
    case EConfirm(a, o, keys) => ConfirmKeepsKeys(s, a, o, keys);
    case ERemove(a, o, ids) => RemoveEachShrinks(s, a, o, ids);
    case ESetRevoked(a, o, ids, revoke) => RevokeKeepsKeys(s, a, o, ids, revoke);
    case EImport(o, es, mail) => ImportedRow(s, o, es, mail, id);
    case EInvite(a, o, es, t, all, mail, allowed) =>
      if MayInvite(s, a, o, es, t) {
        InvitedRows(s, o, es, ParseMemberType(t).value, all, mail, allowed, id);
        InviteDecided(s, a, o, es, t);
      }
    case _ =>
  }

  lemma {:induction false} ConfirmKeepsKeys(s: State, actor: Id, org: Id, keys: seq<(Id, string)>)
    ensures ConfirmEach(s, actor, org, keys).members.Keys == s.members.Keys
    decreases |keys|
  {
    if keys != [] { ConfirmKeepsKeys(Confirm(s, actor, org, keys[0].0, keys[0].1), actor, org, keys[1..]); }
  }

  lemma {:induction false} RevokeKeepsKeys(s: State, actor: Id, org: Id, ids: seq<Id>, revoke: bool)
    ensures SetRevokedEach(s, actor, org, ids, revoke).members.Keys == s.members.Keys
    decreases |ids|
  {
    if ids != [] { RevokeKeepsKeys(SetRevoked(s, actor, org, ids[0], revoke), actor, org, ids[1..], revoke); }
  }

  /** An Owner's row disappears only when an Owner removes it, its user leaves, or an Owner deletes the organisation. */
  lemma OnlyOwnersRemoveOwners(s: State, e: Event, id: Id)
    requires id in s.members && s.members[id].atype == 0 && id !in Step(s, e).members
    ensures var m := s.members[id];
            || (e.ERemove? && id in e.ids && Stands(s, e.actor, m.orgUuid, {0}))
            || (e.ELeave? && e.user == m.userUuid && e.org == m.orgUuid)
            || (e.EDeleteOrg? && e.org == m.orgUuid && Stands(s, e.actor, m.orgUuid, {0}))
  {
    match e
    case EConfirm(a, o, keys) => ConfirmKeepsKeys(s, a, o, keys);
    case ERemove(a, o, ids) =>
      if s.members[id].orgUuid == o { RemovedAreGone(s, a, o, ids, id); } else { OthersStay(s, a, o, ids, id); }
    case ESetRevoked(a, o, ids, revoke) => RevokeKeepsKeys(s, a, o, ids, revoke);
    case EImport(o, es, mail) => ImportedRow(s, o, es, mail, id);
    case EInvite(a, o, es, t, all, mail, allowed) =>
      if MayInvite(s, a, o, es, t) { InvitedRows(s, o, es, ParseMemberType(t).value, all, mail, allowed, id); }
    case EDeleteOrg(a, o) => DeleteOrgDecided(s, a, o);
    case _ =>
  }

  /** An Owner's row is revoked only by an Owner, or by the import. */
  lemma OnlyOwnersRevokeOwners(s: State, e: Event, id: Id)
    requires ByteBound(s) && id in s.members && s.members[id].atype == 0 && s.members[id].status >= 0
    requires id in Step(s, e).members && Step(s, e).members[id].status < 0
    ensures e.EImport? || (e.ESetRevoked? && e.revoke && id in e.ids && Stands(s, e.actor, s.members[id].orgUuid, {0}))
  {
    match e
    case EConfirm(a, o, keys) => ConfirmedByWhom(s, a, o, keys, id);
    case ERemove(a, o, ids) => RemoveEachShrinks(s, a, o, ids);
    case ESetRevoked(a, o, ids, revoke) => if revoke { RevokedByWhom(s, a, o, ids, id); } else { RestoredRow(s, a, o, ids, id); }
    case EInvite(a, o, es, t, all, mail, allowed) =>
      if MayInvite(s, a, o, es, t) { InvitedRows(s, o, es, ParseMemberType(t).value, all, mail, allowed, id); }
    case _ =>
  }

  /** An accepted row is confirmed only by a request for it, and an Owner's only by an Owner. */
  lemma OnlyOwnersConfirmOwners(s: State, e: Event, id: Id)
    requires ByteStatuses(s) && id in s.members && s.members[id].status == 1
    requires id in Step(s, e).members && Step(s, e).members[id].status == 2
    ensures e.EConfirm? && (id, Step(s, e).members[id].akey) in e.keys && Stands(s, e.actor, s.members[id].orgUuid, {0, 1})
    ensures s.members[id].atype == 0 ==> Stands(s, e.actor, s.members[id].orgUuid, {0})
  {
    match e
    case EConfirm(a, o, keys) => {
      ConfirmedByWhom(s, a, o, keys, id);
      AdminStands(s, a, o);
    }
    case ERemove(a, o, ids) => RemoveEachShrinks(s, a, o, ids);
    case ESetRevoked(a, o, ids, revoke) => SetRevokedEachMoves(s, a, o, ids, revoke, id);
    case EImport(o, es, mail) => ImportEachMoves(s, o, es, mail, id);
    case EInvite(a, o, es, t, all, mail, allowed) =>
      if MayInvite(s, a, o, es, t) { InvitedRows(s, o, es, ParseMemberType(t).value, all, mail, allowed, id); }
    case _ =>
  }

  // ---------------------------------------------------------------------
  // Runs
  // ---------------------------------------------------------------------

  /** This request may have made the row an Owner's: the founder, the administrator, or an Owner of that moment. */
  ghost predicate MakesOwner(s: State, e: Event, id: Id) {
    || (e.ECreateOrg? && e.id == id)
    || (e.ERetype? && e.atype == 0 && id in MembershipsOf(s, e.user, e.org))
    || (e.EEdit? && e.id == id && Stands(s, e.actor, e.org, {0}))
    || (e.EInvite? && Stands(s, e.actor, e.org, {0}))
  }

  ghost predicate OwnerWasMade(s: State, events: seq<Event>, id: Id)
    decreases |events|
  {
    events != [] && (MakesOwner(s, events[0], id) || OwnerWasMade(Step(s, events[0]), events[1..], id))
  }

  lemma StepMakesOwner(s: State, e: Event, id: Id)
    requires ByteBound(s) && (id in s.members ==> s.members[id].atype != 0)
    requires id in Step(s, e).members && Step(s, e).members[id].atype == 0
    ensures MakesOwner(s, e, id)
  {
    if id in s.members {
      OnlyOwnersGiveOwner(s, e, id);
      if e.EEdit? { EditDecided(s, e.actor, e.org, e.id, e.atype, e.accessAll); }
    } else {
      OnlyOwnersInviteOwners(s, e, id);
    }
  }

  /** In every run, whoever is Owner at the end was made one in it: nobody below Owner ever makes himself one. */
  lemma {:induction false} OwnersStemFromOwners(s: State, events: seq<Event>, id: Id)
    requires KnownStatuses(s, true) && (id in s.members ==> s.members[id].atype != 0)
    requires id in Run(s, events).members && Run(s, events).members[id].atype == 0
    ensures OwnerWasMade(s, events, id)
    decreases |events|
  {
    if events != [] {
      var t := Step(s, events[0]);
      StepKeepsStatuses(s, events[0], true);
      if id in t.members && t.members[id].atype == 0 {
        StepMakesOwner(s, events[0], id);
      } else {
        OwnersStemFromOwners(t, events[1..], id);
      }
    }
  }
}
