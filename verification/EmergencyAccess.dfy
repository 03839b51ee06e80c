/** The emergency-access protocol (src/api/emergency-access.ts). */
module EmergencyAccess {
  import opened Base

  const INVITED: int := 0
  const ACCEPTED: int := 1
  const CONFIRMED: int := 2
  const RECOVERY_INITIATED: int := 3
  const RECOVERY_APPROVED: int := 4

  const VIEW: int := 0
  const TAKEOVER: int := 1

  datatype Row = Row(
    grantor: Id,
    grantee: Option<Id>,
    email: Option<string>,
    key: Option<string>,
    atype: int,
    status: int,
    waitTimeDays: int,
    recoveryInitiatedAt: Option<int>)

  type Table = map<Id, Row>

  datatype Event =
    | Invite(grantor: Id, grantorEmail: string, id: Id, email: string, account: Option<Id>, atype: int, waitTimeDays: int, mail: bool)
    | Update(actor: Id, id: Id, atype: int, waitTimeDays: int)
    | Delete(actor: Id, id: Id)
    | Accept(actor: Id, actorEmail: string, id: Id, mail: bool, tokenOk: bool)
    | Confirm(actor: Id, id: Id, key: string)
    | Initiate(actor: Id, id: Id, now: int)
    | Approve(actor: Id, id: Id)
    | Reject(actor: Id, id: Id)
    | View(actor: Id, id: Id)
    | Takeover(actor: Id, id: Id)
    | Password(actor: Id, id: Id, hash: string, key: string)
    /** Registration without mail picks up the invitations addressed to the new account. */
    | Register(user: Id, newEmail: string, mail: bool)
    /** Key rotation rewrites the keys the grantor lists. */
    | RotateKeys(actor: Id, keys: seq<(Id, string)>)
    | DeleteAccount(user: Id)

  predicate Grantor(t: Table, id: Id, actor: Id) {
    id in t && t[id].grantor == actor
  }

  predicate Grantee(t: Table, id: Id, actor: Id) {
    id in t && t[id].grantee == Some(actor)
  }

  predicate IsValidRequest(r: Row, actor: Id, atype: int) {
    r.grantee == Some(actor) && r.status == RECOVERY_APPROVED && r.atype == atype
  }

  /** The handler finishes without raising an error. */
  predicate Succeeds(t: Table, e: Event) {
    match e
    case Invite(_, own, id, email, _, _, wait, _) => email != "" && email != own && wait >= 1 && id !in t
    case Update(a, id, _, wait) => Grantor(t, id, a) && wait >= 1
    case Delete(_, _) => true
    case Accept(_, own, id, mail, tokenOk) =>
      && id in t && t[id].status == INVITED
      && (if mail then tokenOk else t[id].email.None? || t[id].email.value == own)
    case Confirm(a, id, key) => Grantor(t, id, a) && t[id].status == ACCEPTED && key != ""
    case Initiate(a, id, _) => Grantee(t, id, a) && t[id].status == CONFIRMED
    case Approve(a, id) => Grantor(t, id, a) && t[id].status == RECOVERY_INITIATED
    case Reject(a, id) => Grantor(t, id, a) && t[id].status in {RECOVERY_INITIATED, RECOVERY_APPROVED}
    case View(a, id) => Grantee(t, id, a) && IsValidRequest(t[id], a, VIEW)
    case Takeover(a, id) => Grantee(t, id, a) && IsValidRequest(t[id], a, TAKEOVER)
    case Password(a, id, hash, key) => Grantee(t, id, a) && IsValidRequest(t[id], a, TAKEOVER) && hash != "" && key != ""
    case Register(_, _, _) => true
    case RotateKeys(_, _) => true
    case DeleteAccount(_) => true
  }

  function RotateEach(t: Table, actor: Id, keys: seq<(Id, string)>): Table
    decreases |keys|
  {
    if keys == [] then t
    else
      var (id, key) := keys[0];
      RotateEach(if key != "" && Grantor(t, id, actor) then t[id := t[id].(key := Some(key))] else t, actor, keys[1..])
  }

  /** The invitation now belongs to an account. */
  function Claimed(r: Row, user: Id): Row {
    r.(grantee := Some(user), email := None, status := ACCEPTED)
  }

  function Step(t: Table, e: Event): Table {
    if !Succeeds(t, e) then t
    else match e
      case Invite(g, _, id, email, account, atype, wait, mail) =>
        t[id := Row(g, account, if account.Some? then None else Some(email), None, atype,
                    if account.Some? && !mail then ACCEPTED else INVITED, wait, None)]
      case Update(_, id, atype, wait) => t[id := t[id].(atype := atype, waitTimeDays := wait)]
      case Delete(a, id) => if Grantor(t, id, a) || Grantee(t, id, a) then t - {id} else t
      case Accept(a, _, id, _, _) => t[id := Claimed(t[id], a)]
      case Confirm(_, id, key) => t[id := t[id].(key := Some(key), status := CONFIRMED)]
      case Initiate(_, id, now) => t[id := t[id].(status := RECOVERY_INITIATED, recoveryInitiatedAt := Some(now))]
      case Approve(_, id) => t[id := t[id].(status := RECOVERY_APPROVED)]
      case Reject(_, id) => t[id := t[id].(status := CONFIRMED, recoveryInitiatedAt := None)]
      case Register(u, email, mail) =>
        if mail then t else map id | id in t :: if t[id].email == Some(email) then Claimed(t[id], u) else t[id]
      case RotateKeys(a, keys) => RotateEach(t, a, keys)
      case DeleteAccount(u) => map id | id in t && t[id].grantor != u && t[id].grantee != Some(u) :: t[id]
      case _ => t
  }

  function Run(events: seq<Event>): Table {
    if events == [] then map[] else Step(Run(events[..|events| - 1]), events[|events| - 1])
  }

  // ---------------------------------------------------------------------
  // The invariant of a row
  // ---------------------------------------------------------------------

  ghost predicate RowOk(r: Row) {
    && INVITED <= r.status <= RECOVERY_APPROVED
    && (r.grantee.Some? <==> r.email.None?)
    && (r.email.Some? ==> r.status == INVITED)
    && (r.status >= CONFIRMED ==> r.key.Some?)
    && (r.recoveryInitiatedAt.Some? <==> r.status >= RECOVERY_INITIATED)
    && r.waitTimeDays >= 1
  }

  ghost predicate TableOk(t: Table) {
    forall id | id in t :: RowOk(t[id])
  }

  /** Rotation changes keys of the grantor's rows and nothing else, and never removes a key. */
  lemma {:induction false} RotateChangesKeysOnly(t: Table, actor: Id, keys: seq<(Id, string)>, id: Id)
    ensures id in t <==> id in RotateEach(t, actor, keys)
    ensures id in t ==>
              var r := RotateEach(t, actor, keys)[id];
              r == t[id].(key := r.key) && (t[id].key.Some? ==> r.key.Some?) && (r != t[id] ==> t[id].grantor == actor)
    decreases |keys|
  {
    if keys != [] {
      var (k, key) := keys[0];
      var u := if key != "" && Grantor(t, k, actor) then t[k := t[k].(key := Some(key))] else t;
      RotateChangesKeysOnly(u, actor, keys[1..], id);
    }
  }

  /** The last key listed for one of his own rows is the one stored; blank ones do not count. */
  lemma {:induction false} ListedKeyIsStored(t: Table, actor: Id, keys: seq<(Id, string)>, i: nat)
    requires i < |keys| && keys[i].1 != "" && Grantor(t, keys[i].0, actor)
    requires forall j | i < j < |keys| :: keys[j].0 != keys[i].0 || keys[j].1 == ""
    ensures var id := keys[i].0;
            id in RotateEach(t, actor, keys) && RotateEach(t, actor, keys)[id] == t[id].(key := Some(keys[i].1))
    decreases i
  {
    var (id, key) := keys[0];
    var u := if key != "" && Grantor(t, id, actor) then t[id := t[id].(key := Some(key))] else t;
    if i > 0 {
      ListedKeyIsStored(u, actor, keys[1..], i - 1);
    } else {
      UnlistedKeyStays(u, actor, keys[1..], id);
    }
  }

  /** A row for which no key is listed, or that is not his own, stays as it is. */
  lemma {:induction false} UnlistedKeyStays(t: Table, actor: Id, keys: seq<(Id, string)>, id: Id)
    requires id in t && (t[id].grantor != actor || forall j | 0 <= j < |keys| :: keys[j].0 != id || keys[j].1 == "")
    ensures id in RotateEach(t, actor, keys) && RotateEach(t, actor, keys)[id] == t[id]
    decreases |keys|
  {
    if keys != [] {
      var (k, key) := keys[0];
      var u := if key != "" && Grantor(t, k, actor) then t[k := t[k].(key := Some(key))] else t;
      UnlistedKeyStays(u, actor, keys[1..], id);
    }
  }

  lemma StepKeepsTable(t: Table, e: Event)
    requires TableOk(t)
    ensures TableOk(Step(t, e))
  {
    if e.RotateKeys? {
      forall id | id in Step(t, e) ensures RowOk(Step(t, e)[id]) {
        RotateChangesKeysOnly(t, e.actor, e.keys, id);
      }
    }
  }

  lemma {:induction false} RunKeepsTable(events: seq<Event>)
    ensures TableOk(Run(events))
  {
    if events != [] {
      RunKeepsTable(events[..|events| - 1]);
      StepKeepsTable(Run(events[..|events| - 1]), events[|events| - 1]);
    }
  }

  /** A row that survives a request keeps its grantor, and from Accepted on its grantee; its status moves only along the protocol. */
  lemma StepMovesRow(t: Table, e: Event, id: Id)
    requires TableOk(t) && id in t && id in Step(t, e)
    ensures var r, q := t[id], Step(t, e)[id];
            && q.grantor == r.grantor
            && (r.status >= ACCEPTED ==> q.grantee == r.grantee)
            && (q.status == r.status
                || (q.status == ACCEPTED && r.status == INVITED)
                || (e.Confirm? && e.id == id && Succeeds(t, e) && r.status == ACCEPTED && q.status == CONFIRMED)
                || (e.Initiate? && e.id == id && Succeeds(t, e) && r.status == CONFIRMED && q.status == RECOVERY_INITIATED)
                || (e.Approve? && e.id == id && Succeeds(t, e) && r.status == RECOVERY_INITIATED && q.status == RECOVERY_APPROVED)
                || (e.Reject? && e.id == id && Succeeds(t, e) && q.status == CONFIRMED))
            && (e.Reject? && e.id == id && Succeeds(t, e) ==> q.status == CONFIRMED)
  {
    if e.RotateKeys? { RotateChangesKeysOnly(t, e.actor, e.keys, id); }
  }

  // ---------------------------------------------------------------------
  // Who may do what to a row, in wire values
  // ---------------------------------------------------------------------

  /** Every way in which a request changes a row, with the one who may make it and the row it leaves. */
  ghost predicate RowChange(r: Row, q: Row, e: Event, id: Id) {
    match e
    case Update(a, i, atype, wait) => i == id && a == r.grantor && wait >= 1 && q == r.(atype := atype, waitTimeDays := wait)
    case Accept(a, own, i, mail, tokenOk) =>
      && i == id && r.status == 0 && (if mail then tokenOk else r.email.None? || r.email == Some(own))
      && q == r.(grantee := Some(a), email := None, status := 1)
    case Confirm(a, i, key) =>
      i == id && a == r.grantor && r.status == 1 && key != "" && q == r.(key := Some(key), status := 2)
    case Initiate(a, i, now) =>
      i == id && Some(a) == r.grantee && r.status == 2 && q == r.(status := 3, recoveryInitiatedAt := Some(now))
    case Approve(a, i) => i == id && a == r.grantor && r.status == 3 && q == r.(status := 4)
    case Reject(a, i) =>
      i == id && a == r.grantor && r.status in {3, 4} && q == r.(status := 2, recoveryInitiatedAt := None)
    case Register(u, email, mail) => !mail && r.email == Some(email) && q == r.(grantee := Some(u), email := None, status := 1)
    case RotateKeys(a, keys) => a == r.grantor && q == r.(key := q.key)
    case _ => false
  }

  lemma RowsChangeByRule(t: Table, e: Event, id: Id)
    requires id in t && id in Step(t, e) && Step(t, e)[id] != t[id]
    ensures RowChange(t[id], Step(t, e)[id], e, id)
  {
    if e.RotateKeys? { RotateChangesKeysOnly(t, e.actor, e.keys, id); }
  }

  /** Rows begin with an invitation to somebody else, and end with either party's deletion or account. */
  lemma RowsBeginAndEnd(t: Table, e: Event, id: Id)
    ensures id !in t && id in Step(t, e) ==>
              && e.Invite? && e.id == id && e.email != "" && e.email != e.grantorEmail && e.waitTimeDays >= 1
              && Step(t, e)[id] == Row(e.grantor, e.account, if e.account.Some? then None else Some(e.email), None, e.atype,
                                       if e.account.Some? && !e.mail then 1 else 0, e.waitTimeDays, None)
    ensures id in t && id !in Step(t, e) ==>
              && (e.Delete? || e.DeleteAccount?) && (e.Delete? ==> e.id == id)
              && var who := if e.Delete? then e.actor else e.user; who == t[id].grantor || Some(who) == t[id].grantee
  {
    if e.RotateKeys? { RotateChangesKeysOnly(t, e.actor, e.keys, id); }
  }

  /** Whoever may make these requests has them take effect. */
  lemma RequestsTakeEffect(t: Table, id: Id, atype: int, wait: int)
    requires id in t
    ensures wait >= 1 ==> Step(t, Update(t[id].grantor, id, atype, wait)) == t[id := t[id].(atype := atype, waitTimeDays := wait)]
    ensures Step(t, Delete(t[id].grantor, id)) == t - {id}
    ensures t[id].grantee.Some? ==> Step(t, Delete(t[id].grantee.value, id)) == t - {id}
    ensures id !in Step(t, DeleteAccount(t[id].grantor))
    ensures t[id].grantee.Some? ==> id !in Step(t, DeleteAccount(t[id].grantee.value))
  {
  }

  /** Inviting somebody else with a waiting time makes a row, and registering without mail claims those addressed to one. */
  lemma InvitationsTakeEffect(t: Table, e: Event, id: Id)
    ensures e.Invite? && e.id == id && e.email != "" && e.email != e.grantorEmail && e.waitTimeDays >= 1 && id !in t ==>
              id in Step(t, e)
    ensures e.Register? && !e.mail && id in t && t[id].email == Some(e.newEmail) ==>
              id in Step(t, e) && Step(t, e)[id].grantee == Some(e.user) && Step(t, e)[id].status == 1
  {
  }

  /** An invitation is picked up by its account, or without mail by whoever has its address. */
  lemma InvitationIsAccepted(t: Table, id: Id, user: Id, email: string, tokenOk: bool, mail: bool)
    requires id in t && t[id].status == 0 && (if mail then tokenOk else t[id].email.None? || t[id].email == Some(email))
    ensures var q := Step(t, Accept(user, email, id, mail, tokenOk));
            id in q && q[id].status == 1 && q[id].grantee == Some(user)
  {
  }

  /**
   From Accepted the protocol goes through: confirmed, initiated and approved by the right parties, the row
   opens to its grantee for what it was granted for, and for nothing else; a rejection closes it again.
   */
  lemma ProtocolGoesThrough(t: Table, id: Id, grantee: Id, key: string, now: int)
    requires id in t && t[id].grantee == Some(grantee) && t[id].status == 1 && key != ""
    ensures var g := t[id].grantor;
            var u := Step(Step(t, Confirm(g, id, key)), Initiate(grantee, id, now));
            var v := Step(u, Approve(g, id));
            && v == t[id := t[id].(key := Some(key), status := 4, recoveryInitiatedAt := Some(now))]
            && (Succeeds(v, View(grantee, id)) <==> t[id].atype == 0)
            && (Succeeds(v, Takeover(grantee, id)) <==> t[id].atype == 1)
            && (forall hash, k :: Succeeds(v, Password(grantee, id, hash, k)) <==> t[id].atype == 1 && hash != "" && k != "")
            && Step(u, Reject(g, id)) == Step(v, Reject(g, id)) == t[id := t[id].(key := Some(key), status := 2, recoveryInitiatedAt := None)]
  {
  }

  /** Only an approved row opens, only to its grantee, and only for the type it was granted for. */
  lemma OnlyApprovedRowsOpen(t: Table, e: Event)
    requires (e.View? || e.Takeover? || e.Password?) && Succeeds(t, e)
    ensures e.id in t && t[e.id].grantee == Some(e.actor) && t[e.id].status == 4
    ensures t[e.id].atype == if e.View? then 0 else 1
  {
  }

  // ---------------------------------------------------------------------
  // Access is earned
  // ---------------------------------------------------------------------

  /** Request `i` of the run is `e` and succeeds. */
  ghost predicate Did(events: seq<Event>, i: nat, e: Event) {
    i < |events| && events[i] == e && Succeeds(Run(events[..i]), e)
  }

  /** From after request `i` to the end of the run the row exists. */
  ghost predicate AliveSince(events: seq<Event>, i: nat, id: Id) {
    forall k | i < k <= |events| :: id in Run(events[..k])
  }

  ghost predicate NoRejectSince(events: seq<Event>, i: nat, id: Id) {
    forall k, a | i < k < |events| :: !Did(events, k, Reject(a, id))
  }

  ghost predicate ConfirmedAt(events: seq<Event>, id: Id, grantor: Id, i: nat) {
    exists key :: Did(events, i, Confirm(grantor, id, key)) && AliveSince(events, i, id)
  }

  ghost predicate InitiatedAt(events: seq<Event>, id: Id, grantor: Id, grantee: Id, i: nat, j: nat) {
    && i < j && ConfirmedAt(events, id, grantor, i)
    && exists now :: Did(events, j, Initiate(grantee, id, now)) && NoRejectSince(events, j, id)
  }

  ghost predicate ApprovedAt(events: seq<Event>, id: Id, grantor: Id, grantee: Id, i: nat, j: nat, l: nat) {
    InitiatedAt(events, id, grantor, grantee, i, j) && j < l && Did(events, l, Approve(grantor, id))
  }

  /** What a row's status says about the run so far. */
  ghost predicate Justified(events: seq<Event>, id: Id, r: Row) {
    && (r.status >= CONFIRMED ==> exists i :: ConfirmedAt(events, id, r.grantor, i))
    && (r.status >= RECOVERY_INITIATED ==>
          r.grantee.Some? && exists i, j :: InitiatedAt(events, id, r.grantor, r.grantee.value, i, j))
    && (r.status == RECOVERY_APPROVED ==>
          r.grantee.Some? && exists i, j, l :: ApprovedAt(events, id, r.grantor, r.grantee.value, i, j, l))
  }

  lemma DidCarries(events: seq<Event>, e: Event, i: nat, d: Event)
    requires i < |events|
    ensures Did(events + [e], i, d) <==> Did(events, i, d)
  {
    assert (events + [e])[..i] == events[..i];
  }

  lemma ConfirmedCarries(events: seq<Event>, e: Event, id: Id, grantor: Id, i: nat)
    requires ConfirmedAt(events, id, grantor, i) && id in Run(events + [e])
    ensures ConfirmedAt(events + [e], id, grantor, i)
  {
    var key :| Did(events, i, Confirm(grantor, id, key)) && AliveSince(events, i, id);
    var longer := events + [e];
    DidCarries(events, e, i, Confirm(grantor, id, key));
    forall k | i < k <= |longer| ensures id in Run(longer[..k]) {
      if k <= |events| {
        assert longer[..k] == events[..k];
      } else {
        assert longer[..k] == longer;
      }
    }
  }

  lemma InitiatedCarries(events: seq<Event>, e: Event, id: Id, grantor: Id, grantee: Id, i: nat, j: nat)
    requires InitiatedAt(events, id, grantor, grantee, i, j) && id in Run(events + [e])
    requires !(e.Reject? && e.id == id && Succeeds(Run(events), e))
    ensures InitiatedAt(events + [e], id, grantor, grantee, i, j)
  {
    var now :| Did(events, j, Initiate(grantee, id, now)) && NoRejectSince(events, j, id);
    var longer := events + [e];
    ConfirmedCarries(events, e, id, grantor, i);
    DidCarries(events, e, j, Initiate(grantee, id, now));
    forall k, a | j < k < |longer| ensures !Did(longer, k, Reject(a, id)) {
      if k < |events| {
        DidCarries(events, e, k, Reject(a, id));
      } else {
        assert longer[..k] == events && longer[k] == e;
      }
    }
  }

  lemma ApprovedCarries(events: seq<Event>, e: Event, id: Id, grantor: Id, grantee: Id, i: nat, j: nat, l: nat)
    requires ApprovedAt(events, id, grantor, grantee, i, j, l) && id in Run(events + [e])
    requires !(e.Reject? && e.id == id && Succeeds(Run(events), e))
    ensures ApprovedAt(events + [e], id, grantor, grantee, i, j, l)
  {
    InitiatedCarries(events, e, id, grantor, grantee, i, j);
    DidCarries(events, e, l, Approve(grantor, id));
  }

  lemma JustifiedStep(events: seq<Event>, e: Event, id: Id)
    requires id in Run(events + [e])
    requires id in Run(events) ==> Justified(events, id, Run(events)[id])
    ensures Justified(events + [e], id, Run(events + [e])[id])
  {
    var t, longer := Run(events), events + [e];
    assert longer[..|longer| - 1] == events;
    var q := Step(t, e)[id];
    RunKeepsTable(events);
    if id in t {
      var r := t[id];
      StepMovesRow(t, e, id);
      if q.status >= CONFIRMED {
        JustifiedConfirmed(events, e, id);
      }
      if q.status >= RECOVERY_INITIATED {
        JustifiedInitiated(events, e, id);
      }
      if q.status == RECOVERY_APPROVED {
        JustifiedApproved(events, e, id);
      }
    } else {
      if e.RotateKeys? { RotateChangesKeysOnly(t, e.actor, e.keys, id); }
      assert q.status <= ACCEPTED;
    }
  }

  lemma JustifiedConfirmed(events: seq<Event>, e: Event, id: Id)
    requires id in Run(events) && id in Run(events + [e])
    requires Run(events + [e]) == Step(Run(events), e)
    requires Justified(events, id, Run(events)[id])
    requires Run(events + [e])[id].status >= CONFIRMED
    ensures exists i :: ConfirmedAt(events + [e], id, Run(events + [e])[id].grantor, i)
  {
    var t, longer := Run(events), events + [e];
    RunKeepsTable(events);
    StepMovesRow(t, e, id);
    var r, q := t[id], Step(t, e)[id];
    if r.status >= CONFIRMED {
      var i :| ConfirmedAt(events, id, r.grantor, i);
      ConfirmedCarries(events, e, id, r.grantor, i);
    } else {
      assert e == Confirm(q.grantor, id, e.key);
      forall k | |events| < k <= |longer| ensures id in Run(longer[..k]) {
        assert longer[..k] == longer;
      }
      assert ConfirmedAt(longer, id, q.grantor, |events|);
    }
  }

  lemma JustifiedInitiated(events: seq<Event>, e: Event, id: Id)
    requires id in Run(events) && id in Run(events + [e])
    requires Run(events + [e]) == Step(Run(events), e)
    requires Justified(events, id, Run(events)[id])
    requires Run(events + [e])[id].status >= RECOVERY_INITIATED
    ensures var q := Run(events + [e])[id];
            q.grantee.Some? && exists i, j :: InitiatedAt(events + [e], id, q.grantor, q.grantee.value, i, j)
  {
    var t, longer := Run(events), events + [e];
    RunKeepsTable(events);
    StepMovesRow(t, e, id);
    var r, q := t[id], Step(t, e)[id];
    if r.status >= RECOVERY_INITIATED {
      var i, j :| InitiatedAt(events, id, r.grantor, r.grantee.value, i, j);
      InitiatedCarries(events, e, id, r.grantor, r.grantee.value, i, j);
    } else {
      var i :| ConfirmedAt(events, id, r.grantor, i);
      ConfirmedCarries(events, e, id, r.grantor, i);
      assert NoRejectSince(longer, |events|, id);
      assert InitiatedAt(longer, id, q.grantor, q.grantee.value, i, |events|);
    }
  }

  lemma JustifiedApproved(events: seq<Event>, e: Event, id: Id)
    requires id in Run(events) && id in Run(events + [e])
    requires Run(events + [e]) == Step(Run(events), e)
    requires Justified(events, id, Run(events)[id])
    requires Run(events + [e])[id].status == RECOVERY_APPROVED
    ensures var q := Run(events + [e])[id];
            q.grantee.Some? && exists i, j, l :: ApprovedAt(events + [e], id, q.grantor, q.grantee.value, i, j, l)
  {
    var t, longer := Run(events), events + [e];
    RunKeepsTable(events);
    StepMovesRow(t, e, id);
    var r, q := t[id], Step(t, e)[id];
    if r.status == RECOVERY_APPROVED {
      var i, j, l :| ApprovedAt(events, id, r.grantor, r.grantee.value, i, j, l);
      ApprovedCarries(events, e, id, r.grantor, r.grantee.value, i, j, l);
    } else {
      var i, j :| InitiatedAt(events, id, r.grantor, r.grantee.value, i, j);
      InitiatedCarries(events, e, id, r.grantor, r.grantee.value, i, j);
      assert ApprovedAt(longer, id, q.grantor, q.grantee.value, i, j, |events|);
    }
  }

  lemma {:induction false} RunIsJustified(events: seq<Event>, id: Id)
    requires id in Run(events)
    ensures Justified(events, id, Run(events)[id])
  {
    if events != [] {
      var init, e := events[..|events| - 1], events[|events| - 1];
      assert events == init + [e];
      if id in Run(init) { RunIsJustified(init, id); }
      JustifiedStep(init, e, id);
    }
  }

  /** Request `i` of the run gives the row its type: an invitation, or an update by its grantor. */
  ghost predicate SetType(events: seq<Event>, i: nat, id: Id, atype: int) {
    i < |events| && (events[i].Invite? || events[i].Update?) && events[i].id == id && events[i].atype == atype
    && Did(events, i, events[i])
  }

  /** ... and no later request gives it another. */
  ghost predicate TypeStands(events: seq<Event>, i: nat, id: Id, atype: int) {
    SetType(events, i, id, atype) && forall k, other | i < k < |events| :: !SetType(events, k, id, other)
  }

  lemma TypeCarries(events: seq<Event>, e: Event, id: Id, i: nat, atype: int)
    requires TypeStands(events, i, id, atype)
    requires !((e.Invite? || e.Update?) && e.id == id && Succeeds(Run(events), e))
    ensures TypeStands(events + [e], i, id, atype)
  {
    var longer := events + [e];
    DidCarries(events, e, i, events[i]);
    forall k, other | i < k < |longer| ensures !SetType(longer, k, id, other) {
      if k < |events| {
        DidCarries(events, e, k, events[k]);
        assert !SetType(events, k, id, other);
      } else {
        assert longer[..k] == events && longer[k] == e;
      }
    }
  }

  /** The type of a row is the one that its invitation, or the latest update of it, gave it. */
  lemma {:induction false} TypeIsLastSet(events: seq<Event>, id: Id)
    requires id in Run(events)
    ensures exists i :: TypeStands(events, i, id, Run(events)[id].atype)
  {
    var init, e := events[..|events| - 1], events[|events| - 1];
    var t := Run(init);
    assert events == init + [e];
    if (e.Invite? || e.Update?) && e.id == id && Succeeds(t, e) {
      assert SetType(events, |init|, id, e.atype);
      assert TypeStands(events, |init|, id, e.atype);
    } else {
      assert id in t by {
        if id !in t { RowsBeginAndEnd(t, e, id); }
      }
      assert Run(events)[id].atype == t[id].atype by {
        if Run(events)[id] != t[id] { RowsChangeByRule(t, e, id); }
      }
      TypeIsLastSet(init, id);
      var i :| TypeStands(init, i, id, t[id].atype);
      TypeCarries(init, e, id, i, t[id].atype);
    }
  }

  /**
   In every run, a successful view, takeover or password step by `actor` comes after a confirmation by the
   grantor, an initiation by that same actor and an approval by the grantor, in this order, on a row that
   existed all along, with no rejection since the initiation; and the latest request that set the type of
   the row, its invitation or an update, set it to 0 for a view and to 1 for a takeover or a new password.
   */
  lemma EmergencyAccessIsEarned(events: seq<Event>, e: Event)
    requires (e.View? || e.Takeover? || e.Password?) && Succeeds(Run(events), e)
    ensures exists grantor, i, j, l :: ApprovedAt(events, e.id, grantor, e.actor, i, j, l)
    ensures e.View? ==> exists i :: TypeStands(events, i, e.id, 0)
    ensures !e.View? ==> exists i :: TypeStands(events, i, e.id, 1)
  {
    RunIsJustified(events, e.id);
    TypeIsLastSet(events, e.id);
    OnlyApprovedRowsOpen(Run(events), e);
    var r := Run(events)[e.id];
    var i, j, l :| ApprovedAt(events, e.id, r.grantor, r.grantee.value, i, j, l);
  }

  // ---------------------------------------------------------------------
  // The handlers
  // ---------------------------------------------------------------------

  class EmergencyServer {
    var rows: Table

    method LoadForGrantor(actor: Id, id: Id) returns (r: Option<Row>)
      ensures r == if Grantor(rows, id, actor) then Some(rows[id]) else None
    {
      if id in rows && rows[id].grantor == actor { return Some(rows[id]); }
      r := None;
    }

    method LoadForGrantee(actor: Id, id: Id) returns (r: Option<Row>)
      ensures r == if Grantee(rows, id, actor) then Some(rows[id]) else None
    {
      if id in rows && rows[id].grantee == Some(actor) { return Some(rows[id]); }
      r := None;
    }

    method InviteContact(grantor: Id, grantorEmail: string, id: Id, email: string, account: Option<Id>,
                         atype: int, waitTimeDays: int, mail: bool) returns (r: Outcome)
      modifies this
      ensures var e := Invite(grantor, grantorEmail, id, email, account, atype, waitTimeDays, mail);
              rows == Step(old(rows), e) && (r.Done? <==> Succeeds(old(rows), e))
    {
      if email == "" { return Failed("Email is required"); }
      if email == grantorEmail { return Failed("You cannot use yourself as an emergency contact"); }
      if waitTimeDays < 1 { return Failed("Wait time must be at least 1 day"); }
      if id in rows { return Failed("Primary key exists"); }
      var row := Row(grantor, account, if account.Some? then None else Some(email), None, atype, INVITED, waitTimeDays, None);
      if !mail && account.Some? {
        row := row.(grantee := account, email := None, status := ACCEPTED);
      }
      rows := rows[id := row];
      r := Done;
    }

    method AcceptInvite(actor: Id, actorEmail: string, id: Id, mail: bool, tokenOk: bool) returns (r: Outcome)
      modifies this
      ensures var e := Accept(actor, actorEmail, id, mail, tokenOk);
              rows == Step(old(rows), e) && (r.Done? <==> Succeeds(old(rows), e))
    {
      if id !in rows { return Failed("Emergency access not valid."); }
      if rows[id].status != INVITED { return Failed("Emergency access already accepted or confirmed."); }
      if mail {
        if !tokenOk { return Failed("Invalid invite token"); }
      } else if rows[id].email.Some? && rows[id].email.value != actorEmail {
        return Failed("Invitation does not match");
      }
      rows := rows[id := rows[id].(grantee := Some(actor), email := None, status := ACCEPTED)];
      r := Done;
    }

    method ConfirmContact(actor: Id, id: Id, key: string) returns (r: Outcome)
      modifies this
      ensures var e := Confirm(actor, id, key); rows == Step(old(rows), e) && (r.Done? <==> Succeeds(old(rows), e))
    {
      var ea := LoadForGrantor(actor, id);
      if ea.None? { return Failed("Emergency access not valid."); }
      if ea.value.status != ACCEPTED { return Failed("Emergency access not in accepted state."); }
      if key == "" { return Failed("Key required"); }
      rows := rows[id := ea.value.(key := Some(key), status := CONFIRMED)];
      r := Done;
    }

    method InitiateRecovery(actor: Id, id: Id, now: int) returns (r: Outcome)
      modifies this
      ensures var e := Initiate(actor, id, now); rows == Step(old(rows), e) && (r.Done? <==> Succeeds(old(rows), e))
    {
      var ea := LoadForGrantee(actor, id);
      if ea.None? { return Failed("Emergency access not valid."); }
      if ea.value.status != CONFIRMED { return Failed("Emergency access not confirmed."); }
      rows := rows[id := ea.value.(status := RECOVERY_INITIATED, recoveryInitiatedAt := Some(now))];
      r := Done;
    }

    method ApproveRecovery(actor: Id, id: Id) returns (r: Outcome)
      modifies this
      ensures var e := Approve(actor, id); rows == Step(old(rows), e) && (r.Done? <==> Succeeds(old(rows), e))
    {
      var ea := LoadForGrantor(actor, id);
      if ea.None? { return Failed("Emergency access not valid."); }
      if ea.value.status != RECOVERY_INITIATED { return Failed("Emergency access not in recovery-initiated state."); }
      rows := rows[id := ea.value.(status := RECOVERY_APPROVED)];
      r := Done;
    }

    method RejectRecovery(actor: Id, id: Id) returns (r: Outcome)
      modifies this
      ensures var e := Reject(actor, id); rows == Step(old(rows), e) && (r.Done? <==> Succeeds(old(rows), e))
    {
      var ea := LoadForGrantor(actor, id);
      if ea.None? { return Failed("Emergency access not valid."); }
      if ea.value.status != RECOVERY_INITIATED && ea.value.status != RECOVERY_APPROVED {
        return Failed("Emergency access not in recovery state.");
      }
      rows := rows[id := ea.value.(status := CONFIRMED, recoveryInitiatedAt := None)];
      r := Done;
    }

    /** The encrypted key is handed out only to a grantee whose view request is approved. */
    method ViewVault(actor: Id, id: Id) returns (r: Outcome, key: Option<string>)
      requires TableOk(rows)
      ensures r.Done? <==> Succeeds(rows, View(actor, id))
      ensures r.Done? ==> key.Some? && key == rows[id].key
      ensures r.Failed? ==> key == None
    {
      var ea := LoadForGrantee(actor, id);
      if ea.None? { return Failed("Emergency access not valid."), None; }
      if !IsValidRequest(ea.value, actor, VIEW) { return Failed("Emergency access not valid."), None; }
      return Done, ea.value.key;
    }

    method RotateGrantorKeys(actor: Id, keys: seq<(Id, string)>)
      modifies this
      ensures rows == Step(old(rows), RotateKeys(actor, keys))
    {
      ghost var start := rows;
      for i := 0 to |keys|
        invariant RotateEach(rows, actor, keys[i..]) == RotateEach(start, actor, keys)
      {
        assert keys[i..][1..] == keys[i + 1..];
        var (id, key) := keys[i];
        if key == "" { continue; }
        if id in rows && rows[id].grantor == actor {
          rows := rows[id := rows[id].(key := Some(key))];
        }
      }
    }
  }
}
