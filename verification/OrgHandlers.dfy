/** The membership handlers, changing the table in place. */
module OrgHandlers {
  import opened Base
  import opened Memberships
  import opened OrgLifecycle
  import opened OrgInvariants
  import opened Text

  /** org_creation_users: everybody, nobody, or a comma list of addresses. */
  predicate MayCreateOrgs(setting: string, email: string) {
    && setting != "none"
    && (setting == "all" || setting == "" || exists p | p in Split(setting, ',') :: Trim(p) == email)
  }

  /** A list of trimmed addresses admits exactly those on it, unless it spells one of the three words. */
  lemma ListedMayCreateOrgs(emails: seq<string>, email: string)
    requires forall x | x in emails :: ',' !in x && IsTrimmed(x)
    requires emails != [] && Join(emails, ',') !in {"", "all", "none"}
    ensures MayCreateOrgs(Join(emails, ','), email) <==> email in emails
  {
    SplitOfJoin(emails, ',');
    forall x | x in emails ensures Trim(x) == x {
      TrimmedStays(x);
    }
  }

  /** The three words and the blank. */
  lemma WordsOfCreation(email: string)
    ensures MayCreateOrgs("all", email) && MayCreateOrgs("", email) && !MayCreateOrgs("none", email)
  {
  }

  /** The row that a query for this user and organisation takes, one of them if there are several. */
  ghost predicate Finds(s: State, user: Id, org: Id, row: Option<Id>) {
    if row.Some? then row.value in MembershipsOf(s, user, org) else MembershipsOf(s, user, org) == {}
  }

  /** The import, whichever rows its queries take. */
  ghost predicate Imported(s: State, org: Id, entries: seq<Entry>, mail: bool, t: State)
    decreases |entries|
  {
    if entries == [] then t == s
    else exists row :: Finds(s, entries[0].userUuid, org, row)
                       && Imported(ImportOne(s, org, entries[0], row, mail), org, entries[1..], mail, t)
  }

  /** The invited addresses that are looked at before refused grants end the request. */
  function Served(entries: seq<Invitee>, repeats: bool): seq<Invitee> {
    if repeats && entries != [] then entries[..1] else entries
  }

  /** With one row per user and organisation there is nothing to choose. */
  lemma FoundIsRowOf(s: State, user: Id, org: Id, row: Option<Id>)
    requires OneRowEach(s) && Finds(s, user, org, row)
    ensures row == RowOf(s, user, org)
  {
  }

  lemma {:induction false} ImportedAppend(s: State, org: Id, entries: seq<Entry>, mail: bool, t: State, e: Entry, row: Option<Id>)
    requires Imported(s, org, entries, mail, t) && Finds(t, e.userUuid, org, row)
    ensures Imported(s, org, entries + [e], mail, ImportOne(t, org, e, row, mail))
    decreases |entries|
  {
    var all, u := entries + [e], ImportOne(t, org, e, row, mail);
    if entries == [] {
      assert all[0] == e && all[1..] == [];
      assert Imported(u, org, all[1..], mail, u);
    } else {
      var first :| Finds(s, entries[0].userUuid, org, first)
                   && Imported(ImportOne(s, org, entries[0], first, mail), org, entries[1..], mail, t);
      assert all[0] == entries[0] && all[1..] == entries[1..] + [e];
      ImportedAppend(ImportOne(s, org, entries[0], first, mail), org, entries[1..], mail, t, e, row);
    }
  }

  lemma {:induction false} ImportedIsImportEach(s: State, org: Id, entries: seq<Entry>, mail: bool, t: State)
    requires Inv(s) && org in s.orgs && Imported(s, org, entries, mail, t)
    ensures t == ImportEach(s, org, entries, mail)
    decreases |entries|
  {
    if entries != [] {
      var row :| Finds(s, entries[0].userUuid, org, row)
                 && Imported(ImportOne(s, org, entries[0], row, mail), org, entries[1..], mail, t);
      FoundIsRowOf(s, entries[0].userUuid, org, row);
      ImportOneKeeps(s, org, entries[0], mail);
      ImportedIsImportEach(ImportOne(s, org, entries[0], row, mail), org, entries[1..], mail, t);
    }
  }

  class OrgServer {
    var s: State

    method CountConfirmedOwners(org: Id) returns (n: nat)
      ensures n == |ConfirmedOwners(s, org)|
    {
      var owners := set id | id in s.members && s.members[id].orgUuid == org
                             && s.members[id].atype == OWNER && s.members[id].status == CONFIRMED;
      assert owners == ConfirmedOwners(s, org);
      n := |owners|;
    }

    method FindMembership(user: Id, org: Id) returns (row: Option<Id>)
      ensures Finds(s, user, org, row)
    {
      var rows := MembershipsOf(s, user, org);
      if rows == {} { return None; }
      var id :| id in rows;
      row := Some(id);
    }

    method CreateOrganization(user: Id, email: string, setting: string, org: Id, id: Id, name: string, key: string)
      returns (r: Outcome)
      modifies this
      ensures r.Done? <==>
                MayCreateOrgs(setting, email) && name != "" && key != "" && MayCreateOrg(old(s), user, org, id)
      ensures s == if r.Done? then Step(old(s), ECreateOrg(user, org, id, key)) else old(s)
    {
      var allowed := setting == "all" || setting == "" || exists p | p in Split(setting, ',') :: Trim(p) == email;
      if !allowed || setting == "none" { return Failed("User not allowed to create organizations"); }
      if name == "" || key == "" { return Failed("Missing required fields"); }
      if user !in s.users || org in s.orgs || id in s.members { return Failed("Constraint failed"); }
      s := s.(orgs := s.orgs + {org});
      s := s.(members := s.members[id := Member(user, org, CONFIRMED, OWNER, true, key, None)]);
      r := Done;
    }

    /** One address: find or create the account, then add its row. */
    method InviteOneAddress(org: Id, e: Invitee, atype: int, accessAll: bool, mail: bool, invitationsAllowed: bool)
      returns (r: Outcome)
      modifies this
      ensures var t := InviteOne(old(s), org, e, atype, accessAll, mail, invitationsAllowed);
              && (r.Done? <==> t.Some?)
              && s == if t.Some? then t.value else old(s)
    {
      if e.userUuid !in s.users {
        if !invitationsAllowed { return Failed("User does not exist"); }
      } else if MembershipsOf(s, e.userUuid, org) != {} {
        return Failed("User already in organization");
      }
      if e.memberUuid in s.members { return Failed("Primary key exists"); }
      s := s.(users := s.users + {e.userUuid});
      var status := if mail then INVITED else ACCEPTED;
      s := s.(members := s.members[e.memberUuid := Member(e.userUuid, org, status, atype, accessAll, "", None)]);
      r := Done;
    }

    /**
     `repeats` says that a member without access to all is assigned some collection twice, so that his grants
     are refused (MemberGrants) when his row is already there: the first address is then the last one served.
     */
    method InviteMembers(actor: Id, org: Id, entries: seq<Invitee>, atype: int, accessAll: bool, mail: bool,
                         invitationsAllowed: bool, repeats: bool)
      returns (r: Outcome)
      modifies this
      ensures s == Invite(old(s), actor, org, Served(entries, repeats), atype, accessAll, mail, invitationsAllowed)
      ensures r.Done? <==>
                && !repeats
                && MayInvite(old(s), actor, org, entries, atype)
                && InviteEach(old(s), org, entries, ParseMemberType(atype).value, accessAll, mail, invitationsAllowed).1
    {
      if !ActorIs(s, actor, org, ADMIN) { return Failed("You do not have permission to perform this action"); }
      var parsed := ParseMemberType(atype);
      if parsed.None? { return Failed("Invalid membership type"); }
      if |entries| == 0 { return Failed("No email addresses provided"); }
      if parsed.value == OWNER && !ActorIs(s, actor, org, OWNER) { return Failed("Only Owners can invite Owners"); }
      ghost var start, served := s, Served(entries, repeats);
      for i := 0 to |entries|
        invariant i > 0 ==> !repeats
        invariant InviteEach(s, org, served[i..], parsed.value, accessAll, mail, invitationsAllowed)
               == InviteEach(start, org, served, parsed.value, accessAll, mail, invitationsAllowed)
      {
        assert served[i..][0] == entries[i] && served[i..][1..] == served[i + 1..];
        r := InviteOneAddress(org, entries[i], parsed.value, accessAll, mail, invitationsAllowed);
        if r.Failed? { return; }
        if repeats { return Failed("UNIQUE constraint failed: users_collections"); }
      }
      r := Done;
    }

    method AcceptInvite(user: Id, org: Id, id: Id, tokenOk: bool) returns (r: Outcome)
      modifies this
      ensures s == Accept(old(s), user, org, id, tokenOk)
      ensures r.Done? <==> MayAccept(old(s), user, org, id, tokenOk)
    {
      if !InOrg(s, id, org) || s.members[id].userUuid != user { return Failed("User not found in organization"); }
      if s.members[id].status != INVITED { return Failed("User already accepted the invitation"); }
      if !tokenOk { return Failed("Invalid invite token"); }
      if user !in s.with2fa && (org, TWO_FACTOR_POLICY) in s.policies && !IsAtLeast(s.members[id].atype, ADMIN) {
        return Failed("You cannot join this organization until you enable two-step login on your user account");
      }
      if (org, SINGLE_ORG_POLICY) in s.policies && !IsAtLeast(s.members[id].atype, ADMIN) {
        if MemberElsewhere(s, user, org) { return Failed("You are a member of another organization which forbids it"); }
      }
      s := s.(members := s.members[id := s.members[id].(status := ACCEPTED)]);
      r := Done;
    }

    method ConfirmMember(actor: Id, org: Id, id: Id, key: string) returns (r: Outcome)
      modifies this
      ensures s == Confirm(old(s), actor, org, id, key)
      ensures r.Done? <==> MayConfirm(old(s), actor, org, id)
    {
      if !InOrg(s, id, org) { return Failed("The specified user isn't a member of the organization"); }
      if s.members[id].status != ACCEPTED { return Failed("The specified user isn't in an Accepted state"); }
      if s.members[id].atype == OWNER && !ActorIs(s, actor, org, OWNER) { return Failed("Only Owners can confirm Owners"); }
      s := s.(members := s.members[id := s.members[id].(status := CONFIRMED, akey := key)]);
      r := Done;
    }

    method ConfirmMembers(actor: Id, org: Id, keys: seq<(Id, string)>) returns (r: Outcome)
      modifies this
      ensures s == Step(old(s), EConfirm(actor, org, keys))
    {
      if !ActorIs(s, actor, org, ADMIN) { return Failed("You do not have permission to perform this action"); }
      ghost var start := s;
      for i := 0 to |keys|
        invariant ConfirmEach(s, actor, org, keys[i..]) == ConfirmEach(start, actor, org, keys)
      {
        assert keys[i..][1..] == keys[i + 1..];
        var error := ConfirmMember(actor, org, keys[i].0, keys[i].1);
      }
      r := Done;
    }

    /** The row is written before the grants, so it stays written when those are refused. */
    method EditMember(actor: Id, org: Id, id: Id, newType: int, accessAll: bool, repeats: bool) returns (r: Outcome)
      modifies this
      ensures s == Edit(old(s), actor, org, id, newType, accessAll)
      ensures r.Done? <==> MayEdit(old(s), actor, org, id, newType) && !repeats
    {
      if !ActorIs(s, actor, org, ADMIN) { return Failed("You do not have permission to perform this action"); }
      if !InOrg(s, id, org) { return Failed("The specified user isn't a member of the organization"); }
      var parsed := ParseMemberType(newType);
      if parsed.None? { return Failed("Invalid membership type"); }
      if (parsed.value == OWNER || s.members[id].atype == OWNER) && !ActorIs(s, actor, org, OWNER) {
        return Failed("Only Owners can grant and remove Owner privileges");
      }
      if s.members[id].atype == OWNER && parsed.value != OWNER && s.members[id].status == CONFIRMED {
        var owners := CountConfirmedOwners(org);
        if owners <= 1 { return Failed("Can't delete the last owner"); }
      }
      s := s.(members := s.members[id := s.members[id].(atype := parsed.value, accessAll := accessAll)]);
      if repeats { return Failed("UNIQUE constraint failed: users_collections"); }
      r := Done;
    }

    method RemoveMember(actor: Id, org: Id, id: Id) returns (r: Outcome)
      modifies this
      ensures s == Remove(old(s), actor, org, id)
      ensures r.Done? <==> MayRemove(old(s), actor, org, id)
    {
      if !InOrg(s, id, org) { return Failed("User to delete isn't member of the organization"); }
      if s.members[id].atype == OWNER {
        if !ActorIs(s, actor, org, OWNER) { return Failed("Only Owners can delete Admins and Owners"); }
        if s.members[id].status == CONFIRMED {
          var owners := CountConfirmedOwners(org);
          if owners <= 1 { return Failed("Can't delete the last owner"); }
        }
      }
      s := s.(members := s.members - {id});
      r := Done;
    }

    method RemoveMembers(actor: Id, org: Id, ids: seq<Id>) returns (r: Outcome)
      modifies this
      ensures s == Step(old(s), ERemove(actor, org, ids))
    {
      if !ActorIs(s, actor, org, ADMIN) { return Failed("You do not have permission to perform this action"); }
      ghost var start := s;
      for i := 0 to |ids|
        invariant RemoveEach(s, actor, org, ids[i..]) == RemoveEach(start, actor, org, ids)
      {
        assert ids[i..][1..] == ids[i + 1..];
        var error := RemoveMember(actor, org, ids[i]);
      }
      r := Done;
    }

    method LeaveOrganization(user: Id, org: Id) returns (r: Outcome, ghost row: Option<Id>)
      modifies this
      ensures Finds(old(s), user, org, row)
      ensures r.Done? <==> row.Some? && MayLeave(old(s), user, org, row.value)
      ensures s == if row.Some? then Leave(old(s), user, org, row.value) else old(s)
      ensures OneRowEach(old(s)) ==> s == Step(old(s), ELeave(user, org))
    {
      var found := FindMembership(user, org);
      row := found;
      if found.None? { return Failed("User not part of organization"), row; }
      var m := s.members[found.value];
      if m.atype == OWNER && m.status == CONFIRMED {
        var owners := CountConfirmedOwners(org);
        if owners <= 1 { return Failed("The last owner can not leave the organization"), row; }
      }
      s := s.(members := s.members - {found.value});
      r := Done;
    }

    method SetRevokedOne(actor: Id, org: Id, id: Id, revoke: bool) returns (r: Outcome)
      modifies this
      ensures s == SetRevoked(old(s), actor, org, id, revoke)
      ensures r.Done? <==> MaySetRevoked(old(s), actor, org, id, revoke)
    {
      if !InOrg(s, id, org) { return Failed("User isn't member of the organization"); }
      var m := s.members[id];
      if revoke {
        if m.status < INVITED { return Failed("User is already revoked"); }
        if m.atype == OWNER {
          if !ActorIs(s, actor, org, OWNER) { return Failed("Only owners can revoke other owners"); }
          if m.status == CONFIRMED {
            var owners := CountConfirmedOwners(org);
            if owners <= 1 { return Failed("Organization must have at least one confirmed owner"); }
          }
        }
        s := s.(members := s.members[id := m.(status := m.status - 128)]);
      } else {
        if m.status >= INVITED { return Failed("User is not revoked"); }
        s := s.(members := s.members[id := m.(status := m.status + 128)]);
      }
      r := Done;
    }

    method SetRevokedBulk(actor: Id, org: Id, ids: seq<Id>, revoke: bool) returns (r: Outcome)
      modifies this
      ensures s == Step(old(s), ESetRevoked(actor, org, ids, revoke))
    {
      if !ActorIs(s, actor, org, ADMIN) { return Failed("You do not have permission to perform this action"); }
      ghost var start := s;
      for i := 0 to |ids|
        invariant SetRevokedEach(s, actor, org, ids[i..], revoke) == SetRevokedEach(start, actor, org, ids, revoke)
      {
        assert ids[i..][1..] == ids[i + 1..];
        var error := SetRevokedOne(actor, org, ids[i], revoke);
      }
      r := Done;
    }

    /** Row by row over a snapshot of the organisation's members. */
    method RevokePolicyHits(org: Id, ptype: int)
      modifies this
      ensures s == old(s).(members := map id | id in old(s).members ::
                             if PolicyHits(old(s), org, ptype, old(s).members[id])
                             then old(s).members[id].(status := old(s).members[id].status - 128)
                             else old(s).members[id])
    {
      var start := s;
      var todo := set id | id in s.members && s.members[id].orgUuid == org;
      ghost var mine := todo;
      while todo != {}
        invariant todo <= mine && s == start.(members := s.members) && s.members.Keys == start.members.Keys
        invariant forall id | id in start.members ::
                    s.members[id] == if id !in todo && PolicyHits(start, org, ptype, start.members[id])
                                     then start.members[id].(status := start.members[id].status - 128)
                                     else start.members[id]
      {
        var id :| id in todo;
        todo := todo - {id};
        var m := start.members[id];
        if IsAtLeast(m.atype, ADMIN) || m.status < ACCEPTED { continue; }
        SameElsewhere(start, s, m.userUuid, org);
        if (ptype == TWO_FACTOR_POLICY && m.userUuid !in s.with2fa)
           || (ptype == SINGLE_ORG_POLICY && MemberElsewhere(s, m.userUuid, org)) {
          s := s.(members := s.members[id := m.(status := m.status - 128)]);
        }
      }
    }

    /** Enabling a policy first revokes the members it hits, then stores it. */
    method PutPolicyHandler(actor: Id, org: Id, ptype: int, enabled: bool) returns (r: Outcome)
      modifies this
      ensures s == PutPolicy(old(s), actor, org, ptype, enabled)
      ensures r.Done? <==> ActorIs(old(s), actor, org, ADMIN)
    {
      if !ActorIs(s, actor, org, ADMIN) { return Failed("You do not have permission to perform this action"); }
      if enabled {
        RevokePolicyHits(org, ptype);
        s := s.(policies := s.policies + {(org, ptype)});
      } else {
        s := s.(policies := s.policies - {(org, ptype)});
      }
      r := Done;
    }

    /** One directory member: revoke, restore, or add. */
    method ImportMember(org: Id, e: Entry, mail: bool) returns (ghost row: Option<Id>)
      modifies this
      ensures Finds(old(s), e.userUuid, org, row)
      ensures s == ImportOne(old(s), org, e, row, mail)
    {
      var found := FindMembership(e.userUuid, org);
      row := found;
      if e.deleted {
        if found.Some? {
          var m := s.members[found.value];
          var owners := CountConfirmedOwners(org);
          var canRevoke := m.atype != OWNER || m.status != CONFIRMED || owners > 1;
          if canRevoke && m.status >= INVITED {
            s := s.(members := s.members[found.value := m.(status := m.status - 128, externalId := e.externalId)]);
          }
        }
        return;
      }
      if found.Some? {
        var m := s.members[found.value];
        if m.status < INVITED {
          s := s.(members := s.members[found.value := m.(status := m.status + 128, externalId := e.externalId)]);
        } else {
          s := s.(members := s.members[found.value := m.(externalId := e.externalId)]);
        }
        return;
      }
      if e.memberUuid in s.members { return; }
      var status := if mail || e.shell || e.userUuid !in s.users then INVITED else ACCEPTED;
      s := s.(users := s.users + {e.userUuid},
              members := s.members[e.memberUuid := Member(e.userUuid, org, status, USER, false, "", e.externalId)]);
    }

    method ImportMembers(org: Id, entries: seq<Entry>, mail: bool)
      modifies this
      ensures Imported(old(s), org, entries, mail, s)
    {
      ghost var start := s;
      for i := 0 to |entries|
        invariant Imported(start, org, entries[..i], mail, s)
      {
        ghost var before := s;
        ghost var row := ImportMember(org, entries[i], mail);
        assert entries[..i + 1] == entries[..i] + [entries[i]];
        ImportedAppend(start, org, entries[..i], mail, before, entries[i], row);
      }
      assert entries[..|entries|] == entries;
    }

    method ImportDirectory(org: Id, entries: seq<Entry>, mail: bool) returns (r: Outcome)
      modifies this
      ensures r.Done? <==> org in old(s).orgs
      ensures if r.Done? then Imported(old(s), org, entries, mail, s) else s == old(s)
      ensures r.Done? && Inv(old(s)) ==> s == ImportEach(old(s), org, entries, mail)
    {
      if org !in s.orgs { return Failed("Error looking up organization"); }
      ImportMembers(org, entries, mail);
      if Inv(old(s)) {
        ImportedIsImportEach(old(s), org, entries, mail, s);
      }
      r := Done;
    }

    method RetypeMember(user: Id, org: Id, newType: int) returns (r: Outcome, ghost row: Option<Id>)
      modifies this
      ensures Finds(old(s), user, org, row)
      ensures r.Done? <==> row.Some? && MayRetype(old(s), user, org, row.value, newType)
      ensures s == if row.Some? then Retype(old(s), user, org, row.value, newType) else old(s)
      ensures OneRowEach(old(s)) ==> s == Step(old(s), ERetype(user, org, newType))
    {
      var found := FindMembership(user, org);
      row := found;
      if found.None? { return Failed("The specified user isn't member of the organization"), row; }
      if newType < OWNER || newType > MANAGER { return Failed("Invalid type"), row; }
      if s.members[found.value].atype == OWNER && newType != OWNER {
        var owners := CountConfirmedOwners(org);
        if owners <= 1 { return Failed("Can't change the type of the last owner"), row; }
      }
      s := s.(members := s.members[found.value := s.members[found.value].(atype := newType)]);
      r := Done;
    }

    /** Login of a user without two-step login: a plain Revoked on every membership a 2FA policy covers. */
    method EnforceTwoFactorPolicy(user: Id)
      modifies this
      ensures s == EnforceAtLogin(old(s), user)
    {
      if user in s.with2fa { return; }
      var start := s;
      var todo := set id | id in s.members && s.members[id].userUuid == user
                           && (s.members[id].orgUuid, TWO_FACTOR_POLICY) in s.policies;
      while todo != {}
        invariant todo <= s.members.Keys && s == start.(members := s.members) && s.members.Keys == start.members.Keys
        invariant forall id | id in todo :: start.members[id].userUuid == user && (start.members[id].orgUuid, TWO_FACTOR_POLICY) in start.policies
        invariant forall id | id in start.members ::
                    s.members[id] ==
                      if id !in todo && LoginHits(start, user, start.members[id])
                      then start.members[id].(status := REVOKED)
                      else start.members[id]
      {
        var id :| id in todo;
        todo := todo - {id};
        if start.members[id].atype <= ADMIN { continue; }
        if start.members[id].status < ACCEPTED { continue; }
        s := s.(members := s.members[id := s.members[id].(status := REVOKED)]);
      }
      assert s.members == EnforceAtLogin(start, user).members;
    }
  }

  /** Revoking rows of one organisation does not change who is a member elsewhere. */
  lemma SameElsewhere(start: State, s: State, user: Id, org: Id)
    requires s.members.Keys == start.members.Keys
    requires forall id | id in start.members ::
               s.members[id].userUuid == start.members[id].userUuid && s.members[id].orgUuid == start.members[id].orgUuid
               && (start.members[id].orgUuid != org ==> s.members[id] == start.members[id])
    ensures MemberElsewhere(s, user, org) <==> MemberElsewhere(start, user, org)
  {
  }
}
