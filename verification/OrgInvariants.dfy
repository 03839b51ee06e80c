/** What every run of membership operations keeps. */
module OrgInvariants {
  import opened Base
  import opened Memberships
  import opened OrgLifecycle

  // ---------------------------------------------------------------------
  // The invariants
  // ---------------------------------------------------------------------

  ghost predicate RowsRefer(s: State) {
    forall id | id in s.members ::
      s.members[id].orgUuid in s.orgs && s.members[id].userUuid in s.users && 0 <= s.members[id].atype <= 3
  }

  /** One membership per user and organisation; the schema does not enforce it, the handlers do. */
  ghost predicate OneRowEach(s: State) {
    forall a, b | a in s.members && b in s.members && s.members[a].userUuid == s.members[b].userUuid
                  && s.members[a].orgUuid == s.members[b].orgUuid :: a == b
  }

  ghost predicate EveryOrgOwned(s: State) {
    forall o | o in s.orgs :: ConfirmedOwners(s, o) != {}
  }

  ghost predicate Inv(s: State) {
    RowsRefer(s) && OneRowEach(s) && EveryOrgOwned(s)
  }

  // ---------------------------------------------------------------------
  // Keeping an owner when rows change
  // ---------------------------------------------------------------------

  lemma AnotherOwner(s: State, org: Id, x: Id)
    requires |ConfirmedOwners(s, org)| > 1
    ensures exists y :: y != x && y in ConfirmedOwners(s, org)
  {
    var rest := ConfirmedOwners(s, org) - {x};
    if x in ConfirmedOwners(s, org) {
      assert |rest| == |ConfirmedOwners(s, org)| - 1;
    } else {
      assert rest == ConfirmedOwners(s, org);
    }
    var y :| y in rest;
  }

  /** Row `x` may change freely only if its organisation has another confirmed Owner, or it stays one. */
  lemma OneRowChanged(s: State, t: State, x: Id)
    requires EveryOrgOwned(s) && t.orgs == s.orgs
    requires forall id | id in s.members && id != x :: id in t.members && t.members[id] == s.members[id]
    requires forall o | x in s.members && IsConfirmedOwner(s.members[x], o) ::
               |ConfirmedOwners(s, o)| > 1 || (x in t.members && IsConfirmedOwner(t.members[x], o))
    ensures EveryOrgOwned(t)
  {
    forall o | o in t.orgs ensures ConfirmedOwners(t, o) != {} {
      var y :| y in ConfirmedOwners(s, o);
      if y == x && |ConfirmedOwners(s, o)| > 1 {
        AnotherOwner(s, o, x);
        var z :| z != x && z in ConfirmedOwners(s, o);
        assert z in ConfirmedOwners(t, o);
      } else {
        assert y in ConfirmedOwners(t, o);
      }
    }
  }

  /** No confirmed Owner row of a surviving organisation is lost. */
  lemma OwnersSurvive(s: State, t: State)
    requires EveryOrgOwned(s) && t.orgs <= s.orgs
    requires forall id, o | o in t.orgs && id in ConfirmedOwners(s, o) :: id in ConfirmedOwners(t, o)
    ensures EveryOrgOwned(t)
  {
    forall o | o in t.orgs ensures ConfirmedOwners(t, o) != {} {
      var y :| y in ConfirmedOwners(s, o);
      assert y in ConfirmedOwners(t, o);
    }
  }

  /** Changing other columns than user and organisation, or deleting rows, keeps every reference and key. */
  lemma SameStandings(s: State, t: State)
    requires RowsRefer(s) && OneRowEach(s)
    requires t.users == s.users && t.orgs == s.orgs
    requires forall id | id in t.members ::
               && id in s.members && t.members[id].userUuid == s.members[id].userUuid
               && t.members[id].orgUuid == s.members[id].orgUuid && 0 <= t.members[id].atype <= 3
    ensures RowsRefer(t) && OneRowEach(t)
  {
  }

  /** A first membership for this user and organisation. */
  lemma AddRowKeeps(s: State, t: State, id: Id, m: Member)
    requires Inv(s) && id !in s.members && m.orgUuid in s.orgs && 0 <= m.atype <= 3
    requires MembershipsOf(s, m.userUuid, m.orgUuid) == {}
    requires t == s.(users := s.users + {m.userUuid}, members := s.members[id := m])
    ensures Inv(t)
  {
    assert EveryOrgOwned(t) by { OneRowChanged(s, t, id); }
    assert OneRowEach(t) by {
      forall k | k in s.members ensures s.members[k].userUuid != m.userUuid || s.members[k].orgUuid != m.orgUuid {
        assert k !in MembershipsOf(s, m.userUuid, m.orgUuid);
      }
    }
  }

  lemma CreateOrgKeeps(s: State, user: Id, org: Id, id: Id, key: string)
    requires Inv(s)
    ensures Inv(CreateOrg(s, user, org, id, key))
  {
    var t := CreateOrg(s, user, org, id, key);
    if MayCreateOrg(s, user, org, id) {
      assert id in ConfirmedOwners(t, org);
    }
  }

  lemma AcceptKeeps(s: State, user: Id, org: Id, id: Id, tokenOk: bool)
    requires Inv(s)
    ensures Inv(Accept(s, user, org, id, tokenOk))
  {
    if MayAccept(s, user, org, id, tokenOk) { OneRowChanged(s, Accept(s, user, org, id, tokenOk), id); }
  }

  lemma EditKeeps(s: State, actor: Id, org: Id, id: Id, newType: int, accessAll: bool)
    requires Inv(s)
    ensures Inv(Edit(s, actor, org, id, newType, accessAll))
  {
    if MayEdit(s, actor, org, id, newType) {
      var was := s.members[id];
      RetypedRowKeeps(s, id, was.(atype := ParseMemberType(newType).value, accessAll := accessAll));
    }
  }

  /** A row may get any type, unless it is the last confirmed Owner's and stops being an Owner's. */
  lemma RetypedRowKeeps(s: State, id: Id, row: Member)
    requires Inv(s) && id in s.members && 0 <= row.atype <= 3
    requires row.userUuid == s.members[id].userUuid && row.orgUuid == s.members[id].orgUuid
    requires row.status == s.members[id].status
    requires row.atype == OWNER || !IsConfirmedOwner(s.members[id], row.orgUuid)
             || |ConfirmedOwners(s, row.orgUuid)| > 1
    ensures Inv(s.(members := s.members[id := row]))
  {
    var t := s.(members := s.members[id := row]);
    assert RowsRefer(t) && OneRowEach(t) by { SameStandings(s, t); }
    assert EveryOrgOwned(t) by { OneRowChanged(s, t, id); }
  }

  lemma RemoveKeeps(s: State, actor: Id, org: Id, id: Id)
    requires Inv(s)
    ensures Inv(Remove(s, actor, org, id))
  {
    if MayRemove(s, actor, org, id) { OneRowChanged(s, Remove(s, actor, org, id), id); }
  }

  lemma LeaveKeeps(s: State, user: Id, org: Id, id: Id)
    requires Inv(s)
    ensures Inv(Leave(s, user, org, id))
  {
    if MayLeave(s, user, org, id) { OneRowChanged(s, Leave(s, user, org, id), id); }
  }

  lemma SetRevokedKeeps(s: State, actor: Id, org: Id, id: Id, revoke: bool)
    requires Inv(s)
    ensures Inv(SetRevoked(s, actor, org, id, revoke))
  {
    if MaySetRevoked(s, actor, org, id, revoke) { OneRowChanged(s, SetRevoked(s, actor, org, id, revoke), id); }
  }

  lemma RetypeKeeps(s: State, user: Id, org: Id, id: Id, newType: int)
    requires Inv(s)
    ensures Inv(Retype(s, user, org, id, newType))
  {
    if MayRetype(s, user, org, id, newType) { RetypedRowKeeps(s, id, s.members[id].(atype := newType)); }
  }

  lemma ImportOneKeeps(s: State, org: Id, e: Entry, mail: bool)
    requires Inv(s) && org in s.orgs
    ensures Inv(ImportOne(s, org, e, RowOf(s, e.userUuid, org), mail))
    ensures ImportOne(s, org, e, RowOf(s, e.userUuid, org), mail).orgs == s.orgs
  {
    var row := RowOf(s, e.userUuid, org);
    var t := ImportOne(s, org, e, row, mail);
    if row.Some? {
      ImportKnownKeeps(s, org, e, row.value, mail);
    } else if !e.deleted && e.memberUuid !in s.members {
      AddRowKeeps(s, t, e.memberUuid, t.members[e.memberUuid]);
    }
  }

  lemma ImportKnownKeeps(s: State, org: Id, e: Entry, id: Id, mail: bool)
    requires Inv(s) && id in MembershipsOf(s, e.userUuid, org)
    ensures Inv(ImportOne(s, org, e, Some(id), mail))
  {
    var t := ImportOne(s, org, e, Some(id), mail);
    assert RowsRefer(t) && OneRowEach(t) by { SameStandings(s, t); }
    OneRowChanged(s, t, id);
  }

  lemma InviteOneKeeps(s: State, org: Id, e: Invitee, atype: int, accessAll: bool, mail: bool, allowed: bool)
    requires Inv(s) && org in s.orgs && 0 <= atype <= 3
    requires InviteOne(s, org, e, atype, accessAll, mail, allowed).Some?
    ensures Inv(InviteOne(s, org, e, atype, accessAll, mail, allowed).value)
    ensures InviteOne(s, org, e, atype, accessAll, mail, allowed).value.orgs == s.orgs
  {
    var t := InviteOne(s, org, e, atype, accessAll, mail, allowed).value;
    assert MembershipsOf(s, e.userUuid, org) == {} by {
      if e.userUuid !in s.users {
        assert forall id | id in s.members :: s.members[id].userUuid in s.users;
      }
    }
    AddRowKeeps(s, t, e.memberUuid, t.members[e.memberUuid]);
  }

  // ---------------------------------------------------------------------
  // Loops
  // ---------------------------------------------------------------------

  lemma {:induction false} InviteEachKeeps(s: State, org: Id, es: seq<Invitee>, atype: int, accessAll: bool, mail: bool, allowed: bool)
    requires Inv(s) && org in s.orgs && 0 <= atype <= 3
    ensures Inv(InviteEach(s, org, es, atype, accessAll, mail, allowed).0)
    decreases |es|
  {
    if es != [] {
      var t := InviteOne(s, org, es[0], atype, accessAll, mail, allowed);
      if t.Some? {
        InviteOneKeeps(s, org, es[0], atype, accessAll, mail, allowed);
        InviteEachKeeps(t.value, org, es[1..], atype, accessAll, mail, allowed);
      }
    }
  }

  lemma {:induction false} ConfirmEachKeeps(s: State, actor: Id, org: Id, keys: seq<(Id, string)>)
    requires Inv(s)
    ensures Inv(ConfirmEach(s, actor, org, keys))
    decreases |keys|
  {
    if keys != [] {
      ConfirmEachKeeps(Confirm(s, actor, org, keys[0].0, keys[0].1), actor, org, keys[1..]);
    }
  }

  lemma {:induction false} RemoveEachKeeps(s: State, actor: Id, org: Id, ids: seq<Id>)
    requires Inv(s)
    ensures Inv(RemoveEach(s, actor, org, ids))
    decreases |ids|
  {
    if ids != [] {
      RemoveKeeps(s, actor, org, ids[0]);
      RemoveEachKeeps(Remove(s, actor, org, ids[0]), actor, org, ids[1..]);
    }
  }

  lemma {:induction false} SetRevokedEachKeeps(s: State, actor: Id, org: Id, ids: seq<Id>, revoke: bool)
    requires Inv(s)
    ensures Inv(SetRevokedEach(s, actor, org, ids, revoke))
    decreases |ids|
  {
    if ids != [] {
      SetRevokedKeeps(s, actor, org, ids[0], revoke);
      SetRevokedEachKeeps(SetRevoked(s, actor, org, ids[0], revoke), actor, org, ids[1..], revoke);
    }
  }

  lemma {:induction false} ImportEachKeeps(s: State, org: Id, es: seq<Entry>, mail: bool)
    requires Inv(s) && org in s.orgs
    ensures Inv(ImportEach(s, org, es, mail))
    decreases |es|
  {
    if es != [] {
      ImportOneKeeps(s, org, es[0], mail);
      ImportEachKeeps(ImportOne(s, org, es[0], RowOf(s, es[0].userUuid, org), mail), org, es[1..], mail);
    }
  }

  // ---------------------------------------------------------------------
  // Steps and runs
  // ---------------------------------------------------------------------

  lemma AcceptInvitationsKeeps(s: State, user: Id)
    requires Inv(s)
    ensures Inv(AcceptInvitations(s, user))
  {
    var t := AcceptInvitations(s, user);
    assert RowsRefer(t) && OneRowEach(t) by { SameStandings(s, t); }
    assert EveryOrgOwned(t) by { OwnersSurvive(s, t); }
  }

  lemma PutPolicyKeeps(s: State, actor: Id, org: Id, ptype: int, enabled: bool)
    requires Inv(s)
    ensures Inv(PutPolicy(s, actor, org, ptype, enabled))
  {
    var t := PutPolicy(s, actor, org, ptype, enabled);
    assert RowsRefer(t) && OneRowEach(t) by { SameStandings(s, t); }
    assert EveryOrgOwned(t) by { OwnersSurvive(s, t); }
  }

  lemma LoginKeeps(s: State, user: Id)
    requires Inv(s)
    ensures Inv(EnforceAtLogin(s, user))
  {
    var t := EnforceAtLogin(s, user);
    assert RowsRefer(t) && OneRowEach(t) by { SameStandings(s, t); }
    assert EveryOrgOwned(t) by { OwnersSurvive(s, t); }
  }

  lemma DeleteOrgKeeps(s: State, actor: Id, org: Id)
    requires Inv(s)
    ensures Inv(DeleteOrg(s, actor, org))
  {
    OwnersSurvive(s, DeleteOrg(s, actor, org));
  }

  lemma StepKeepsInv(s: State, e: Event)
    requires Inv(s)
    ensures Inv(Step(s, e))
  {
    match e
    case ECreateOrg(u, o, id, key) => CreateOrgKeeps(s, u, o, id, key);
    case EInvite(a, o, es, t, all, mail, allowed) =>
      if MayInvite(s, a, o, es, t) { InviteEachKeeps(s, o, es, ParseMemberType(t).value, all, mail, allowed); }
    case EAccept(u, o, id, ok) => AcceptKeeps(s, u, o, id, ok);
    case EConfirm(a, o, keys) => ConfirmEachKeeps(s, a, o, keys);
    case EEdit(a, o, id, t, all) => EditKeeps(s, a, o, id, t, all);
    case ERemove(a, o, ids) => RemoveEachKeeps(s, a, o, ids);
    case ELeave(u, o) => if RowOf(s, u, o).Some? { LeaveKeeps(s, u, o, RowOf(s, u, o).value); }
    case ESetRevoked(a, o, ids, revoke) => SetRevokedEachKeeps(s, a, o, ids, revoke);
    case EImport(o, es, mail) => if o in s.orgs { ImportEachKeeps(s, o, es, mail); }
    case ERetype(u, o, t) => if RowOf(s, u, o).Some? { RetypeKeeps(s, u, o, RowOf(s, u, o).value, t); }
    case EPutPolicy(a, o, t, on) => PutPolicyKeeps(s, a, o, t, on);
    case ELogin(u) => LoginKeeps(s, u);
    case EAcceptInvitations(u) => AcceptInvitationsKeeps(s, u);
    case ESet2fa(u, on) => OwnersSurvive(s, Step(s, e));
    case EDeleteOrg(a, o) => DeleteOrgKeeps(s, a, o);
  }

  /** A server with accounts but no organisation yet. */
  ghost predicate Fresh(s: State) {
    s.orgs == {} && s.members == map[]
  }

  lemma {:induction false} RunKeepsInv(s: State, events: seq<Event>)
    requires Inv(s)
    ensures Inv(Run(s, events))
    decreases |events|
  {
    if events != [] {
      StepKeepsInv(s, events[0]);
      RunKeepsInv(Step(s, events[0]), events[1..]);
    }
  }

  /** Whatever runs from a fresh server, every organisation has a confirmed Owner at the end of every request. */
  lemma EveryReachableOrgIsOwned(s: State, events: seq<Event>, org: Id)
    requires Fresh(s) && org in Run(s, events).orgs
    ensures exists id :: id in Run(s, events).members && IsConfirmedOwner(Run(s, events).members[id], org)
  {
    RunKeepsInv(s, events);
    var id :| id in ConfirmedOwners(Run(s, events), org);
  }

  /** Account deletion keeps the invariant exactly when no organisation has that user as its only confirmed Owner. */
  lemma AccountDeletionKeepsOwnersIff(s: State, user: Id)
    requires Inv(s)
    ensures EveryOrgOwned(DeleteAccount(s, user)) <==>
              forall o | o in s.orgs :: exists id :: id in ConfirmedOwners(s, o) && s.members[id].userUuid != user
  {
    var t := DeleteAccount(s, user);
    forall o | o in s.orgs
      ensures ConfirmedOwners(t, o) != {} <==> exists id :: id in ConfirmedOwners(s, o) && s.members[id].userUuid != user
    {
      forall id ensures id in ConfirmedOwners(t, o) <==> id in ConfirmedOwners(s, o) && s.members[id].userUuid != user {}
    }
  }

  /** And a failing state is reachable: the creator of an organisation deletes his account. */
  lemma CreatorDeletionOrphansOrg(s: State, user: Id, org: Id, id: Id, key: string)
    requires Fresh(s) && user in s.users
    ensures var t := DeleteAccount(Run(s, [ECreateOrg(user, org, id, key)]), user);
            org in t.orgs && ConfirmedOwners(t, org) == {}
  {
    var events := [ECreateOrg(user, org, id, key)];
    assert events[1..] == [];
    var t := Run(s, events);
    assert t == Run(CreateOrg(s, user, org, id, key), []) == CreateOrg(s, user, org, id, key);
    assert t.members == map[id := Member(user, org, CONFIRMED, OWNER, true, key, None)];
  }
}
