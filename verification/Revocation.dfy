/** What the two codings of revocation preserve over whole runs. */
module Revocation {
  import opened Base
  import opened Memberships
  import opened OrgLifecycle

  // ---------------------------------------------------------------------
  // How one row's status moves in one request
  // ---------------------------------------------------------------------

  /** Any number of coded revocations and restorations. */
  predicate Toggled(a: int, b: int) {
    b == a || (a >= INVITED && b == a - 128) || (a < INVITED && b == a + 128)
  }

  /** One request: toggling, accepting, confirming, or the login-time revocation. */
  predicate Moves(a: int, b: int) {
    Toggled(a, b) || (a == INVITED && b == ACCEPTED) || (a == ACCEPTED && b == CONFIRMED) || (a >= ACCEPTED && b == REVOKED)
  }

  predicate ByteStatus(st: int) {
    -128 <= st <= 127
  }

  ghost predicate ByteStatuses(s: State) {
    forall id | id in s.members :: ByteStatus(s.members[id].status)
  }

  /** The row lives through the change, its user and organisation fixed, its status related by `r`. */
  ghost predicate Related(s: State, t: State, id: Id, r: (int, int) -> bool) {
    id in s.members && id in t.members ==>
      && t.members[id].userUuid == s.members[id].userUuid && t.members[id].orgUuid == s.members[id].orgUuid
      && r(s.members[id].status, t.members[id].status)
  }

  lemma {:induction false} ConfirmEachMoves(s: State, actor: Id, org: Id, keys: seq<(Id, string)>, id: Id)
    ensures id in s.members <==> id in ConfirmEach(s, actor, org, keys).members
    ensures Related(s, ConfirmEach(s, actor, org, keys), id, (a, b) => a == b || (a == ACCEPTED && b == CONFIRMED))
    decreases |keys|
  {
    if keys != [] {
      ConfirmEachMoves(Confirm(s, actor, org, keys[0].0, keys[0].1), actor, org, keys[1..], id);
    }
  }

  lemma {:induction false} RemoveEachMoves(s: State, actor: Id, org: Id, ids: seq<Id>, id: Id)
    ensures id in RemoveEach(s, actor, org, ids).members ==>
              id in s.members && RemoveEach(s, actor, org, ids).members[id] == s.members[id]
    decreases |ids|
  {
    if ids != [] {
      RemoveEachMoves(Remove(s, actor, org, ids[0]), actor, org, ids[1..], id);
    }
  }

  lemma {:induction false} SetRevokedEachMoves(s: State, actor: Id, org: Id, ids: seq<Id>, revoke: bool, id: Id)
    requires ByteStatuses(s)
    ensures id in s.members <==> id in SetRevokedEach(s, actor, org, ids, revoke).members
    ensures Related(s, SetRevokedEach(s, actor, org, ids, revoke), id, Toggled)
    decreases |ids|
  {
    if ids != [] {
      SetRevokedEachMoves(SetRevoked(s, actor, org, ids[0], revoke), actor, org, ids[1..], revoke, id);
    }
  }

  lemma {:induction false} ImportEachMoves(s: State, org: Id, es: seq<Entry>, mail: bool, id: Id)
    requires ByteStatuses(s)
    ensures id in s.members ==> id in ImportEach(s, org, es, mail).members
    ensures Related(s, ImportEach(s, org, es, mail), id, Toggled)
    ensures id in ImportEach(s, org, es, mail).members && id !in s.members ==>
              ImportEach(s, org, es, mail).members[id].status in {INVITED, ACCEPTED, INVITED - 128, ACCEPTED - 128}
    decreases |es|
  {
    if es != [] {
      var t := ImportOne(s, org, es[0], RowOf(s, es[0].userUuid, org), mail);
      ImportEachMoves(t, org, es[1..], mail, id);
    }
  }

  lemma {:induction false} InviteEachMoves(s: State, org: Id, es: seq<Invitee>, atype: int, all: bool, mail: bool, allowed: bool, id: Id)
    ensures var t := InviteEach(s, org, es, atype, all, mail, allowed).0;
            && (id in s.members ==> id in t.members && t.members[id] == s.members[id])
            && (id in t.members && id !in s.members ==> t.members[id].status in {INVITED, ACCEPTED})
    decreases |es|
  {
    if es != [] {
      var t := InviteOne(s, org, es[0], atype, all, mail, allowed);
      if t.Some? { InviteEachMoves(t.value, org, es[1..], atype, all, mail, allowed, id); }
    }
  }

  /** What one request does to one row's status; only a login writes a plain Revoked. */
  ghost predicate StatusMoved(s: State, t: State, id: Id, login: bool) {
    && Related(s, t, id, Moves)
    && (!login && id in s.members && id in t.members ==>
          var a, b := s.members[id].status, t.members[id].status;
          Toggled(a, b) || (a == INVITED && b == ACCEPTED) || (a == ACCEPTED && b == CONFIRMED))
    && (id !in s.members && id in t.members ==>
          t.members[id].status in {INVITED, ACCEPTED, CONFIRMED, INVITED - 128, ACCEPTED - 128})
  }

  predicate IsLoop(e: Event) {
    e.EConfirm? || e.ERemove? || e.ESetRevoked? || e.EImport? || e.EInvite?
  }

  /** Requests that go through a list of rows. */
  lemma LoopMoves(s: State, e: Event, id: Id)
    requires ByteStatuses(s) && IsLoop(e)
    ensures StatusMoved(s, Step(s, e), id, e.ELogin?)
  {
    match e
    case EConfirm(a, o, keys) => ConfirmEachMoves(s, a, o, keys, id);
    case ERemove(a, o, ids) => RemoveEachMoves(s, a, o, ids, id);
    case ESetRevoked(a, o, ids, revoke) => SetRevokedEachMoves(s, a, o, ids, revoke, id);
    case EImport(o, es, mail) => ImportEachMoves(s, o, es, mail, id);
    case EInvite(a, o, es, t, all, mail, allowed) =>
      if MayInvite(s, a, o, es, t) { InviteEachMoves(s, o, es, ParseMemberType(t).value, all, mail, allowed, id); }
  }

  /** Requests on one row, and those that write the same to many. */
  lemma DirectMoves(s: State, e: Event, id: Id)
    requires ByteStatuses(s) && !IsLoop(e)
    ensures StatusMoved(s, Step(s, e), id, e.ELogin?)
  {
  }

  /** A request moves each surviving row's status in one of the listed ways. */
  lemma StepMoves(s: State, e: Event, id: Id)
    requires ByteStatuses(s)
    ensures StatusMoved(s, Step(s, e), id, e.ELogin?)
  {
    if IsLoop(e) {
      LoopMoves(s, e, id);
    } else {
      DirectMoves(s, e, id);
    }
  }

  // ---------------------------------------------------------------------
  // Which statuses occur
  // ---------------------------------------------------------------------

  /** The six coded statuses, and with login-time revocation also -1 and 127. */
  predicate KnownStatus(st: int, logins: bool) {
    st in {0, 1, 2, -128, -127, -126} || (logins && st in {-1, 127})
  }

  ghost predicate KnownStatuses(s: State, logins: bool) {
    forall id | id in s.members :: KnownStatus(s.members[id].status, logins)
  }

  lemma StepKeepsStatuses(s: State, e: Event, logins: bool)
    requires KnownStatuses(s, logins) && (e.ELogin? ==> logins)
    ensures KnownStatuses(Step(s, e), logins)
  {
    forall id | id in Step(s, e).members ensures KnownStatus(Step(s, e).members[id].status, logins) {
      StepMoves(s, e, id);
    }
  }

  lemma {:induction false} RunKeepsStatuses(s: State, events: seq<Event>, logins: bool)
    requires KnownStatuses(s, logins) && (!logins ==> forall e | e in events :: !e.ELogin?)
    ensures KnownStatuses(Run(s, events), logins)
    decreases |events|
  {
    if events != [] {
      assert events[0] in events;
      StepKeepsStatuses(s, events[0], logins);
      RunKeepsStatuses(Step(s, events[0]), events[1..], logins);
    }
  }

  // ---------------------------------------------------------------------
  // Revoke ... restore
  // ---------------------------------------------------------------------

  /** The row exists and satisfies `p` before, between and after all the requests. */
  ghost predicate Throughout(s: State, events: seq<Event>, id: Id, p: int -> bool)
    decreases |events|
  {
    && id in s.members && p(s.members[id].status)
    && (events != [] ==> Throughout(Step(s, events[0]), events[1..], id, p))
  }

  lemma {:induction false} FrozenWhileRevoked(s: State, events: seq<Event>, id: Id)
    requires KnownStatuses(s, true) && Throughout(s, events, id, st => st < INVITED)
    ensures id in Run(s, events).members && Run(s, events).members[id].status == s.members[id].status
    ensures KnownStatuses(Run(s, events), true)
    decreases |events|
  {
    if events != [] {
      StepMoves(s, events[0], id);
      StepKeepsStatuses(s, events[0], true);
      FrozenWhileRevoked(Step(s, events[0]), events[1..], id);
    }
  }

  /**
   A request revokes a row, any requests follow during which it stays revoked, and a request restores it:
   the row has the status it was revoked with, exactly when the revocation was not the login-time one
   (or hit a row that an earlier login-time revocation had already spoiled).
   */
  lemma RestoreReturnsHeldStatus(s: State, revoking: Event, between: seq<Event>, restoring: Event, id: Id)
    requires KnownStatuses(s, true)
    requires id in s.members && s.members[id].status >= INVITED
    requires Throughout(Step(s, revoking), between, id, st => st < INVITED)
    requires var t := Step(Run(Step(s, revoking), between), restoring);
             id in t.members && t.members[id].status >= INVITED
    ensures var restored := Step(Run(Step(s, revoking), between), restoring).members[id].status;
            && (restored == s.members[id].status <==> (revoking.ELogin? ==> s.members[id].status == 127))
            && (revoking.ELogin? ==> restored == 127)
  {
    StepMoves(s, revoking, id);
    StepKeepsStatuses(s, revoking, true);
    FrozenWhileRevoked(Step(s, revoking), between, id);
    StepMoves(Run(Step(s, revoking), between), restoring, id);
  }

  /**
   A row once hit by the login-time revocation alternates between -1 and 127 for as long as it exists:
   no request ever makes it Confirmed again.
   */
  lemma {:induction false} LoginRevocationIsPermanent(s: State, events: seq<Event>, id: Id)
    requires KnownStatuses(s, true) && id in s.members && s.members[id].status in {-1, 127}
    requires Throughout(s, events, id, st => true)
    ensures id in Run(s, events).members && Run(s, events).members[id].status in {-1, 127}
    decreases |events|
  {
    if events != [] {
      StepMoves(s, events[0], id);
      StepKeepsStatuses(s, events[0], true);
      LoginRevocationIsPermanent(Step(s, events[0]), events[1..], id);
    }
  }

  // ---------------------------------------------------------------------
  // Each of the eight statuses is reached from a fresh server
  // ---------------------------------------------------------------------

  const OWNER_ID: Id := "a"
  const USER_ID: Id := "b"
  const ORG_ID: Id := "o"

  /** One organisation whose only other row, "m", belongs to the user with the given status. */
  ghost function TwoRows(status: int, twoFactor: bool, akey: string): State {
    State({OWNER_ID, USER_ID}, {ORG_ID},
          map["n" := Member(OWNER_ID, ORG_ID, CONFIRMED, OWNER, true, "", None),
              "m" := Member(USER_ID, ORG_ID, status, USER, false, akey, None)],
          if twoFactor then {(ORG_ID, TWO_FACTOR_POLICY)} else {}, {})
  }

  lemma OwnerActs(status: int, policy: bool, akey: string, minimum: int)
    requires minimum in {OWNER, ADMIN}
    ensures ActorIs(TwoRows(status, policy, akey), OWNER_ID, ORG_ID, minimum)
  {
    var s := TwoRows(status, policy, akey);
    assert "n" in s.members && s.members["n"].userUuid == OWNER_ID && s.members["n"].orgUuid == ORG_ID
           && s.members["n"].status == CONFIRMED && IsAtLeast(s.members["n"].atype, minimum);
  }

  /** Revoking and restoring the row, by the Owner. */
  lemma ToggleRow(status: int, policy: bool, akey: string, revoke: bool)
    requires revoke <==> status >= INVITED
    ensures Step(TwoRows(status, policy, akey), ESetRevoked(OWNER_ID, ORG_ID, ["m"], revoke))
         == TwoRows(if revoke then status - 128 else status + 128, policy, akey)
  {
    var s := TwoRows(status, policy, akey);
    OwnerActs(status, policy, akey, ADMIN);
    assert "m" != "n" by { assert "m"[0] != "n"[0]; }
    assert MaySetRevoked(s, OWNER_ID, ORG_ID, "m", revoke);
    var t := SetRevoked(s, OWNER_ID, ORG_ID, "m", revoke);
    assert ["m"][1..] == [];
    assert SetRevokedEach(s, OWNER_ID, ORG_ID, ["m"], revoke) == SetRevokedEach(t, OWNER_ID, ORG_ID, [], revoke);
    assert t.members == TwoRows(if revoke then status - 128 else status + 128, policy, akey).members;
  }

  ghost predicate Reaches(s: State, t: State) {
    exists events :: Run(s, events) == t
  }

  lemma OneMore(s: State, t: State, e: Event)
    requires Reaches(s, t)
    ensures Reaches(s, Step(t, e))
  {
    var events :| Run(s, events) == t;
    RunAppend(s, events, e);
  }

  /** From any fresh server that knows the two accounts, the eight statuses all occur. */
  lemma EightStatusesOccur(s: State, status: int)
    requires s == State({OWNER_ID, USER_ID}, {}, map[], {}, {})
    requires KnownStatus(status, true)
    ensures exists events :: "m" in Run(s, events).members && Run(s, events).members["m"].status == status
  {
    CommonStatusesOccur(s);
    LoginStatusesOccur(s);
    var policy := status in {-1, 127};
    var akey := if status in {2, -126, -1, 127} then "k" else "";
    assert Reaches(s, TwoRows(status, policy, akey));
    var events :| Run(s, events) == TwoRows(status, policy, akey);
  }

  lemma CommonStatusesOccur(s: State)
    requires s == State({OWNER_ID, USER_ID}, {}, map[], {}, {})
    ensures Reaches(s, TwoRows(INVITED, false, "")) && Reaches(s, TwoRows(INVITED - 128, false, ""))
    ensures Reaches(s, TwoRows(ACCEPTED, false, "")) && Reaches(s, TwoRows(ACCEPTED - 128, false, ""))
    ensures Reaches(s, TwoRows(CONFIRMED, false, "k")) && Reaches(s, TwoRows(CONFIRMED - 128, false, "k"))
  {
    InvitedOccurs(s);
    AcceptAndConfirm();
    OneMore(s, TwoRows(INVITED, false, ""), EAccept(USER_ID, ORG_ID, "m", true));
    OneMore(s, TwoRows(ACCEPTED, false, ""), EConfirm(OWNER_ID, ORG_ID, [("m", "k")]));
    ToggleFrom(s, INVITED, false, "");
    ToggleFrom(s, ACCEPTED, false, "");
    ToggleFrom(s, CONFIRMED, false, "k");
  }

  /** The policy revokes the member, and he is restored. */
  lemma RestoredUnderPolicy(s: State)
    requires s == State({OWNER_ID, USER_ID}, {}, map[], {}, {})
    ensures Reaches(s, TwoRows(CONFIRMED, true, "k"))
  {
    CommonStatusesOccur(s);
    PolicyRevokes();
    OneMore(s, TwoRows(CONFIRMED, false, "k"), EPutPolicy(OWNER_ID, ORG_ID, TWO_FACTOR_POLICY, true));
    ToggleFrom(s, CONFIRMED - 128, true, "k");
  }

  /** His login then revokes him the other way. */
  lemma LoginStatusesOccur(s: State)
    requires s == State({OWNER_ID, USER_ID}, {}, map[], {}, {})
    ensures Reaches(s, TwoRows(REVOKED, true, "k")) && Reaches(s, TwoRows(REVOKED + 128, true, "k"))
  {
    RestoredUnderPolicy(s);
    LoginRevokes();
    OneMore(s, TwoRows(CONFIRMED, true, "k"), ELogin(USER_ID));
    ToggleFrom(s, REVOKED, true, "k");
  }

  lemma LoginRevokes()
    ensures Step(TwoRows(CONFIRMED, true, "k"), ELogin(USER_ID)) == TwoRows(REVOKED, true, "k")
  {
    assert "m" != "n" by { assert "m"[0] != "n"[0]; }
    assert USER_ID != OWNER_ID by { assert USER_ID[0] != OWNER_ID[0]; }
    assert EnforceAtLogin(TwoRows(CONFIRMED, true, "k"), USER_ID).members == TwoRows(REVOKED, true, "k").members;
  }

  lemma ToggleFrom(s: State, status: int, policy: bool, akey: string)
    requires Reaches(s, TwoRows(status, policy, akey))
    ensures Reaches(s, TwoRows(if status >= INVITED then status - 128 else status + 128, policy, akey))
  {
    ToggleRow(status, policy, akey, status >= INVITED);
    OneMore(s, TwoRows(status, policy, akey), ESetRevoked(OWNER_ID, ORG_ID, ["m"], status >= INVITED));
  }

  lemma InvitedOccurs(s: State)
    requires s == State({OWNER_ID, USER_ID}, {}, map[], {}, {})
    ensures Reaches(s, TwoRows(INVITED, false, ""))
  {
    assert Run(s, []) == s;
    var create := ECreateOrg(OWNER_ID, ORG_ID, "n", "");
    OneMore(s, s, create);
    var t := Step(s, create);
    assert "n" in t.members && ActorIs(t, OWNER_ID, ORG_ID, ADMIN);
    var es := [Invitee(USER_ID, "m")];
    var invite := EInvite(OWNER_ID, ORG_ID, es, USER, false, true, true);
    assert "m" != "n" by { assert "m"[0] != "n"[0]; }
    assert USER_ID != OWNER_ID by { assert USER_ID[0] != OWNER_ID[0]; }
    assert MembershipsOf(t, USER_ID, ORG_ID) == {};
    var u := InviteOne(t, ORG_ID, es[0], USER, false, true, true).value;
    assert es[1..] == [];
    assert InviteEach(t, ORG_ID, es, USER, false, true, true) == InviteEach(u, ORG_ID, [], USER, false, true, true);
    assert u == TwoRows(INVITED, false, "");
    OneMore(s, t, invite);
  }

  lemma AcceptAndConfirm()
    ensures Step(TwoRows(INVITED, false, ""), EAccept(USER_ID, ORG_ID, "m", true)) == TwoRows(ACCEPTED, false, "")
    ensures Step(TwoRows(ACCEPTED, false, ""), EConfirm(OWNER_ID, ORG_ID, [("m", "k")])) == TwoRows(CONFIRMED, false, "k")
  {
    assert "m" != "n" by { assert "m"[0] != "n"[0]; }
    assert Accept(TwoRows(INVITED, false, ""), USER_ID, ORG_ID, "m", true).members == TwoRows(ACCEPTED, false, "").members;
    var s, keys := TwoRows(ACCEPTED, false, ""), [("m", "k")];
    OwnerActs(ACCEPTED, false, "", ADMIN);
    var t := Confirm(s, OWNER_ID, ORG_ID, "m", "k");
    assert keys[1..] == [];
    assert ConfirmEach(s, OWNER_ID, ORG_ID, keys) == ConfirmEach(t, OWNER_ID, ORG_ID, []);
    assert t.members == TwoRows(CONFIRMED, false, "k").members;
  }

  lemma PolicyRevokes()
    ensures Step(TwoRows(CONFIRMED, false, "k"), EPutPolicy(OWNER_ID, ORG_ID, TWO_FACTOR_POLICY, true))
            == TwoRows(CONFIRMED - 128, true, "k")
  {
    assert "m" != "n" by { assert "m"[0] != "n"[0]; }
    assert USER_ID != OWNER_ID by { assert USER_ID[0] != OWNER_ID[0]; }
    OwnerActs(CONFIRMED, false, "k", ADMIN);
    var t := PutPolicy(TwoRows(CONFIRMED, false, "k"), OWNER_ID, ORG_ID, TWO_FACTOR_POLICY, true);
    assert t.members == TwoRows(CONFIRMED - 128, true, "k").members;
  }

  lemma {:induction false} RunAppend(s: State, events: seq<Event>, e: Event)
    ensures Run(s, events + [e]) == Step(Run(s, events), e)
    decreases |events|
  {
    if events == [] {
      assert ([e])[1..] == [];
      assert Run(s, [e]) == Run(Step(s, e), []);
      assert [] + [e] == [e];
    } else {
      assert (events + [e])[1..] == events[1..] + [e];
      RunAppend(Step(s, events[0]), events[1..], e);
    }
  }
}
