/** The organisation always has an owner, and its audit log explains every role. */
module MembershipSafety {
  import opened Events
  import opened Membership

  // ----- Replaying the audit log -----------------------------------------------------------------

  function ReplayEntry(m: map<User, Role>, e: Entry): map<User, Role> {
    match e.action
    case OrganizationCreated => m[e.actor := Owner]
    case InvitationAccepted => if e.next.Some? then m[e.actor := e.next.value] else m
    case RoleChanged => if e.resource.OfUser? && e.next.Some? then m[e.resource.user := e.next.value] else m
    case MemberRemoved => if e.resource.OfUser? then m - {e.resource.user} else m
    case _ => m
  }

  /** Membership as the log tells it. */
  function Replay(log: seq<Entry>): map<User, Role> {
    if log == [] then map[] else ReplayEntry(Replay(log[..|log| - 1]), log[|log| - 1])
  }

  ghost predicate OwnerThen(log: seq<Entry>, i: nat, u: User)
    requires i <= |log|
  {
    u in Replay(log[..i]) && Replay(log[..i])[u] == Owner
  }

  ghost predicate CreatedAt(log: seq<Entry>, j: nat, id: InvitationId) {
    j < |log| && log[j].action == InvitationCreated && log[j].resource == OfInvitation(id)
  }

  ghost predicate AcceptedAt(log: seq<Entry>, j: nat, id: InvitationId) {
    j < |log| && log[j].action == InvitationAccepted && log[j].resource == OfInvitation(id)
  }

  ghost predicate RevokedAt(log: seq<Entry>, j: nat, id: InvitationId) {
    j < |log| && log[j].action == InvitationRevoked && log[j].resource == OfInvitation(id)
  }

  /** The invitation of this id was created at `j` with this role. */
  ghost predicate InvitedAt(log: seq<Entry>, j: nat, id: InvitationId, role: Role) {
    CreatedAt(log, j, id) && log[j].next == Some(role)
  }

  /** Who may manage whom: an owner anyone, an admin whoever is not and does not become an owner, others nobody. */
  predicate Outranks(actor: Role, target: Role, next: Option<Role>) {
    match actor
    case Owner => true
    case Admin => target != Owner && next != Some(Owner)
    case Member => false
    case Viewer => false
  }

  /**
   * Entry `i` was legitimate when it was written: its actor's role at that moment allowed it, the previous role
   * it records was the true one, and someone who joined had been invited with that role.
   */
  ghost predicate Explained(log: seq<Entry>, i: nat)
    requires i < |log|
  {
    var e := log[i];
    var roles := Replay(log[..i]);
    match e.action
    case OrganizationCreated => i == 0
    case RoleChanged => ChangeExplained(roles, e) && e.next.Some?
    case MemberRemoved => ChangeExplained(roles, e) && e.next.None?
    case InvitationCreated => e.next.Some? && e.actor in roles && Outranks(roles[e.actor], e.next.value, None)
    case InvitationRevoked => e.previous.Some? && e.actor in roles && Outranks(roles[e.actor], e.previous.value, None)
    case InvitationAccepted =>
      e.resource.OfInvitation? && e.next.Some? && e.actor !in roles
      && exists j :: 0 <= j < i && InvitedAt(log, j, e.resource.id, e.next.value)
    case Unrelated => true
  }

  ghost predicate ChangeExplained(roles: map<User, Role>, e: Entry) {
    && e.resource.OfUser? && e.resource.user in roles && e.previous == Some(roles[e.resource.user]) && e.next != e.previous
    && e.actor in roles && Outranks(roles[e.actor], roles[e.resource.user], e.next)
  }

  ghost predicate HasOwner(org: Organization) {
    exists u :: u in org.members && org.members[u] == Owner
  }

  ghost predicate HasActiveOwner(w: World) {
    exists u :: u in w.org.members && w.org.members[u] == Owner && Active(w.people, u)
  }

  /** Membership and the history of every invitation agree with the log. */
  ghost predicate LogOk(org: Organization) {
    && org.members == Replay(org.log)
    && (forall i :: 0 <= i < |org.log| ==> Explained(org.log, i))
    && (forall id :: id in org.invitations ==> exists j :: 0 <= j < |org.log| && InvitedAt(org.log, j, id, org.invitations[id].role))
    && (forall j, id :: AcceptedAt(org.log, j, id) ==> id in org.invitations && org.invitations[id].accepted)
    && (forall j, id :: RevokedAt(org.log, j, id) ==> id in org.invitations && org.invitations[id].revoked)
    && (forall i, j, id :: AcceptedAt(org.log, i, id) && AcceptedAt(org.log, j, id) ==> i == j)
  }

  ghost predicate InvitationsOk(org: Organization) {
    && (forall id :: id in org.invitations ==> !(org.invitations[id].accepted && org.invitations[id].revoked))
    && (forall a, b, email :: PendingFor(org, a, email) && PendingFor(org, b, email) ==> a == b)
  }

  ghost predicate PendingFor(org: Organization, id: InvitationId, email: Email) {
    id in org.invitations && Pending(org.invitations[id]) && org.invitations[id].email == email
  }

  // ----- What each stage of a transaction knows ----------------------------------------------------

  /** Another owner than `target` is there; `strict` asks for one whose account is active. */
  ghost predicate OtherOwner(w: World, target: User, strict: bool) {
    exists u :: u in w.org.members && u != target && w.org.members[u] == Owner && (strict ==> Active(w.people, u))
  }

  ghost predicate ManagerIs(w: World, actor: User, role: Role) {
    actor in w.org.members && w.org.members[actor] == role
  }

  ghost predicate MayChange(w: World, tx: Tx, role: Role)
    requires tx.request.MutateMember?
  {
    var r := tx.request;
    && r.target in w.org.members && w.org.members[r.target] == role && r.next != Some(role)
    && MayManage(w, r.actor, role, r.next)
  }

  ghost predicate MayManage(w: World, actor: User, role: Role, next: Option<Role>) {
    actor in w.org.members && CanManage(w.org.members[actor], role, next)
  }

  ghost predicate MayInvite(w: World, tx: Tx)
    requires tx.request.CreateInvitation?
  {
    MayManage(w, tx.request.actor, tx.request.role, None)
  }

  ghost predicate NoneLiveFor(w: World, tx: Tx)
    requires tx.request.CreateInvitation?
  {
    forall id :: id in w.org.invitations && w.org.invitations[id].email == tx.request.email ==> !Available(w.org.invitations[id], tx.now)
  }

  ghost predicate CanStillJoin(w: World, tx: Tx, i: Invitation)
    requires tx.request.AcceptInvitation?
  {
    tx.request.id in w.org.invitations && w.org.invitations[tx.request.id] == i && Available(i, tx.now)
  }

  ghost predicate PlanOk(w: World, tx: Tx, plan: Plan, strict: bool) {
    match (tx.request, plan)
    case (CreateInvitation(_, _, _), Invite(id)) => MayInvite(w, tx) && NoneLiveFor(w, tx) && id !in w.org.invitations
    case (RevokeInvitation(actor, target), Revoke(id, role)) =>
      && MayManage(w, actor, role, None) && id == target && id in w.org.invitations
      && w.org.invitations[id].role == role && Pending(w.org.invitations[id])
    case (MutateMember(_, target, _, _), Change(role)) =>
      MayChange(w, tx, role) && (role == Owner ==> OtherOwner(w, target, strict))
    case (AcceptInvitation(actor, _), Join(i)) => CanStillJoin(w, tx, i) && actor !in w.org.members
    case (RevokeInvitation(_, target), NoChange) => target in w.org.invitations && !Pending(w.org.invitations[target])
    case (MutateMember(_, target, next, _), NoChange) => target in w.org.members && next == Some(w.org.members[target])
    case _ => false
  }

  /** Everything a lock holder has read is still true. */
  ghost predicate StageOk(w: World, tx: Tx, strict: bool) {
    match tx.stage
    case Authorised(role) => !tx.request.AcceptInvitation? && ManagerIs(w, tx.request.actor, role)
    case NotMember => tx.request.CreateInvitation? && MayInvite(w, tx)
    case NoneLive => tx.request.CreateInvitation? && MayInvite(w, tx) && NoneLiveFor(w, tx)
    case TargetRead(role) => tx.request.MutateMember? && MayChange(w, tx, role)
    case Usable(i) => tx.request.AcceptInvitation? && CanStillJoin(w, tx, i)
    case ForRecipient(i) => tx.request.AcceptInvitation? && CanStillJoin(w, tx, i)
    case Writing(plan, _) => PlanOk(w, tx, plan, strict)
    case _ => true
  }

  /** The lock is held by the transactions past it, of which there is at most one, and by nobody else. */
  ghost predicate LockOk(w: World) {
    && (forall t :: t in w.txs && HoldsLock(w.txs[t]) ==> w.lock == Some(t))
    && (w.lock.Some? ==> w.lock.value in w.txs && HoldsLock(w.txs[w.lock.value]))
  }

  ghost predicate Inv(w: World, strict: bool) {
    && LogOk(w.org) && InvitationsOk(w.org) && HasOwner(w.org) && (strict ==> HasActiveOwner(w))
    && LockOk(w)
    && forall t :: t in w.txs ==> StageOk(w, w.txs[t], strict)
  }

  // ----- Reads and decisions -----------------------------------------------------------------------

  lemma NextStageOk(w: World, tx: Tx, newId: InvitationId, strict: bool)
    requires StageOk(w, tx, strict) && newId !in w.org.invitations
    ensures StageOk(w, tx.(stage := NextStage(w, tx, newId)), strict)
  {
    match tx.request
    case CreateInvitation(actor, email, role) =>
      if tx.stage.NotMember? && NextStage(w, tx, newId).NoneLive? {
        forall id | id in w.org.invitations && w.org.invitations[id].email == email
          ensures !Available(w.org.invitations[id], tx.now)
        {
          assert id !in LiveInvitations(w.org, tx.now);
        }
      }
    case RevokeInvitation(actor, id) =>
    case MutateMember(actor, target, next, expected) =>
      if tx.stage.TargetRead? && OtherActiveOwner(w, target) {
        var u :| u in w.org.members && u != target && w.org.members[u] == Owner && Active(w.people, u);
        assert OtherOwner(w, target, strict);
      }
    case AcceptInvitation(actor, id) =>
  }

  /** A step that leaves the rows alone, and deactivates nobody if that matters, leaves what was read true. */
  lemma StageFrame(w: World, w': World, tx: Tx, strict: bool)
    requires StageOk(w, tx, strict)
    requires w'.org.members == w.org.members && w'.org.invitations == w.org.invitations
    requires strict ==> forall u :: Active(w.people, u) ==> Active(w'.people, u)
    ensures StageOk(w', tx, strict)
  {
    if tx.request.MutateMember? && OtherOwner(w, tx.request.target, strict) {
      var u :| u in w.org.members && u != tx.request.target && w.org.members[u] == Owner && (strict ==> Active(w.people, u));
      assert u in w'.org.members && (strict ==> Active(w'.people, u));
      assert OtherOwner(w', tx.request.target, strict);
    }
  }

  /** Only transaction `t` moves, the rows stay, and the lock stays consistent. */
  lemma OneMoves(w: World, w': World, t: TxId, strict: bool)
    requires Inv(w, strict) && w'.org == w.org && w'.people == w.people && t in w'.txs
    requires w'.txs == w.txs[t := w'.txs[t]]
    requires StageOk(w, w'.txs[t], strict)
    requires HoldsLock(w'.txs[t]) ==> w'.lock == Some(t) && (w.lock == Some(t) || w.lock == None)
    requires !HoldsLock(w'.txs[t]) ==> w'.lock == if w.lock == Some(t) then None else w.lock
    ensures Inv(w', strict)
  {
    forall u | u in w'.txs ensures StageOk(w', w'.txs[u], strict) && (HoldsLock(w'.txs[u]) ==> w'.lock == Some(u)) {
      if u != t { assert StageOk(w, w.txs[u], strict); }
      StageFrame(w, w', w'.txs[u], strict);
    }
  }

  lemma AdvanceKeeps(w: World, t: TxId, newId: InvitationId, strict: bool)
    requires Inv(w, strict) && Enabled(w, Advance(t, newId))
    ensures Inv(Do(w, Advance(t, newId)), strict)
  {
    var tx := w.txs[t];
    NextStageOk(w, tx, newId, strict);
    OneMoves(w, Do(w, Advance(t, newId)), t, strict);
  }

  /** Steps that touch no row: the log may grow by an unrelated entry, people may change. */
  lemma RowsStay(w: World, w': World, strict: bool)
    requires Inv(w, strict) && w'.txs == w.txs && w'.lock == w.lock
    requires w'.org.members == w.org.members && w'.org.invitations == w.org.invitations && LogOk(w'.org)
    requires strict ==> forall u :: Active(w.people, u) ==> Active(w'.people, u)
    ensures Inv(w', strict)
  {
    forall u | u in w'.txs ensures StageOk(w', w'.txs[u], strict) {
      StageFrame(w, w', w.txs[u], strict);
    }
    assert forall id, email :: PendingFor(w'.org, id, email) <==> PendingFor(w.org, id, email);
    if strict {
      var u :| u in w.org.members && w.org.members[u] == Owner && Active(w.people, u);
      assert Active(w'.people, u);
    }
  }

  // ----- The log grows -----------------------------------------------------------------------------

  lemma ReplayAppend(log: seq<Entry>, e: Entry)
    ensures Replay(log + [e]) == ReplayEntry(Replay(log), e)
  {
    assert (log + [e])[..|log|] == log;
  }

  /** Earlier facts about the log are facts about prefixes, so they survive any append. */
  lemma PrefixFacts(log: seq<Entry>, e: Entry)
    ensures forall i, u :: 0 <= i <= |log| ==> (OwnerThen(log + [e], i, u) <==> OwnerThen(log, i, u))
    ensures forall j, id, role :: 0 <= j < |log| ==> (InvitedAt(log + [e], j, id, role) <==> InvitedAt(log, j, id, role))
    ensures forall i :: 0 <= i < |log| && Explained(log, i) ==> Explained(log + [e], i)
    ensures forall j, id :: 0 <= j < |log| ==> (AcceptedAt(log + [e], j, id) <==> AcceptedAt(log, j, id))
    ensures forall j, id :: 0 <= j < |log| ==> (RevokedAt(log + [e], j, id) <==> RevokedAt(log, j, id))
  {
    var more := log + [e];
    forall i, u | 0 <= i <= |log| ensures OwnerThen(more, i, u) <==> OwnerThen(log, i, u) {
      assert more[..i] == log[..i];
    }
    forall j, id, role | 0 <= j < |log| ensures InvitedAt(more, j, id, role) <==> InvitedAt(log, j, id, role) {
      assert more[j] == log[j];
    }
    forall i | 0 <= i < |log| && Explained(log, i) ensures Explained(more, i) {
      assert more[i] == log[i] && more[..i] == log[..i];
      if log[i].action == InvitationAccepted {
        var j :| 0 <= j < i && InvitedAt(log, j, log[i].resource.id, log[i].next.value);
        assert InvitedAt(more, j, log[i].resource.id, log[i].next.value);
      }
    }
  }

  lemma UnrelatedKeeps(org: Organization, actor: User)
    requires LogOk(org)
    ensures LogOk(org.(log := org.log + [Entry(actor, Unrelated, OfOrganization, None, None)]))
  {
    var e := Entry(actor, Unrelated, OfOrganization, None, None);
    ReplayAppend(org.log, e);
    PrefixFacts(org.log, e);
    LogGrows(org, org.(log := org.log + [e]), e);
  }

  /** The parts of `LogOk` that speak of the old entries carry over when invitations keep role and history. */
  lemma LogGrows(org: Organization, org': Organization, e: Entry)
    requires LogOk(org) && org'.log == org.log + [e] && org'.members == ReplayEntry(org.members, e)
    requires Explained(org'.log, |org.log|)
    requires forall id :: id in org'.invitations ==>
               if id in org.invitations
               then org'.invitations[id].role == org.invitations[id].role
                    && (org.invitations[id].accepted ==> org'.invitations[id].accepted)
                    && (org.invitations[id].revoked ==> org'.invitations[id].revoked)
               else InvitedAt(org'.log, |org.log|, id, org'.invitations[id].role)
    requires org.invitations.Keys <= org'.invitations.Keys
    requires forall id :: AcceptedAt(org'.log, |org.log|, id) ==>
               id in org.invitations && !org.invitations[id].accepted && org'.invitations[id].accepted
    requires forall id :: RevokedAt(org'.log, |org.log|, id) ==> id in org'.invitations && org'.invitations[id].revoked
    ensures LogOk(org')
  {
    ReplayAppend(org.log, e);
    PrefixFacts(org.log, e);
    InvitedGrows(org, org', e);
    SettledGrows(org, org', e);
  }

  lemma InvitedGrows(org: Organization, org': Organization, e: Entry)
    requires org'.log == org.log + [e]
    requires forall id :: id in org.invitations ==> exists j :: 0 <= j < |org.log| && InvitedAt(org.log, j, id, org.invitations[id].role)
    requires forall id :: id in org'.invitations ==>
               if id in org.invitations then org'.invitations[id].role == org.invitations[id].role
               else InvitedAt(org'.log, |org.log|, id, org'.invitations[id].role)
    ensures forall id :: id in org'.invitations ==>
              exists j :: 0 <= j < |org'.log| && InvitedAt(org'.log, j, id, org'.invitations[id].role)
  {
    forall id | id in org'.invitations
      ensures exists j :: 0 <= j < |org'.log| && InvitedAt(org'.log, j, id, org'.invitations[id].role)
    {
      if id in org.invitations {
        var j :| 0 <= j < |org.log| && InvitedAt(org.log, j, id, org.invitations[id].role);
        assert InvitedAt(org'.log, j, id, org'.invitations[id].role);
      }
    }
  }

  /** Accepted and revoked entries still agree with the invitations, and there is still one acceptance each. */
  lemma SettledGrows(org: Organization, org': Organization, e: Entry)
    requires LogOk(org) && org'.log == org.log + [e] && org.invitations.Keys <= org'.invitations.Keys
    requires forall id :: id in org.invitations ==>
               && (org.invitations[id].accepted ==> org'.invitations[id].accepted)
               && (org.invitations[id].revoked ==> org'.invitations[id].revoked)
    requires forall id :: AcceptedAt(org'.log, |org.log|, id) ==>
               id in org.invitations && !org.invitations[id].accepted && org'.invitations[id].accepted
    requires forall id :: RevokedAt(org'.log, |org.log|, id) ==> id in org'.invitations && org'.invitations[id].revoked
    ensures forall j, id :: AcceptedAt(org'.log, j, id) ==> id in org'.invitations && org'.invitations[id].accepted
    ensures forall j, id :: RevokedAt(org'.log, j, id) ==> id in org'.invitations && org'.invitations[id].revoked
    ensures forall i, j, id :: AcceptedAt(org'.log, i, id) && AcceptedAt(org'.log, j, id) ==> i == j
  {
    var n := |org.log|;
    forall j: nat, id | AcceptedAt(org'.log, j, id) ensures id in org'.invitations && org'.invitations[id].accepted {
      if j < n { assert AcceptedAt(org.log, j, id); }
    }
    forall j: nat, id | RevokedAt(org'.log, j, id) ensures id in org'.invitations && org'.invitations[id].revoked {
      if j < n { assert RevokedAt(org.log, j, id); }
    }
    forall i: nat, j: nat, id | AcceptedAt(org'.log, i, id) && AcceptedAt(org'.log, j, id) ensures i == j {
      if i < n { assert AcceptedAt(org.log, i, id); }
      if j < n { assert AcceptedAt(org.log, j, id); }
    }
  }

  // ----- Commits -----------------------------------------------------------------------------------

  lemma ApplyTwo(org: Organization, a: Write, b: Write)
    ensures ApplyAll(org, [a, b]) == Apply(Apply(org, a), b)
  {
    assert [a, b][1..] == [b] && [b][1..] == [];
    assert ApplyAll(Apply(org, a), [b]) == Apply(Apply(org, a), b);
  }

  lemma ApplyThree(org: Organization, a: Write, b: Write, c: Write)
    ensures ApplyAll(org, [a, b, c]) == Apply(Apply(Apply(org, a), b), c)
  {
    assert [a, b, c][1..] == [b, c];
    ApplyTwo(Apply(org, a), b, c);
  }

  lemma ChangeCommits(w: World, tx: Tx, role: Role, strict: bool)
    requires Inv(w, strict) && tx.request.MutateMember? && PlanOk(w, tx, Change(role), strict)
    ensures var org' := ApplyAll(w.org, WritesOf(tx, Change(role)));
            && LogOk(org') && InvitationsOk(org') && HasOwner(org')
            && (strict ==> HasActiveOwner(w.(org := org')))
  {
    var r := tx.request;
    var e := if r.next.None? then Entry(r.actor, MemberRemoved, OfUser(r.target), Some(role), None)
             else Entry(r.actor, RoleChanged, OfUser(r.target), Some(role), r.next);
    ApplyTwo(w.org, if r.next.None? then DropMember(r.target) else PutMember(r.target, r.next.value), Audit(e));
    var org' := ApplyAll(w.org, WritesOf(tx, Change(role)));
    assert org'.log[..|w.org.log|] == w.org.log;
    LogGrows(w.org, org', e);
    assert forall id, email :: PendingFor(org', id, email) <==> PendingFor(w.org, id, email);
    OwnerStays(w, org', r.target, role, strict);
  }

  /** If only the target's role changed, and a target that was an owner left another one, an owner remains. */
  lemma OwnerStays(w: World, org': Organization, target: User, role: Role, strict: bool)
    requires HasOwner(w.org) && (strict ==> HasActiveOwner(w))
    requires target in w.org.members && w.org.members[target] == role
    requires role == Owner ==> OtherOwner(w, target, strict)
    requires forall u :: u in w.org.members && u != target ==> u in org'.members && org'.members[u] == w.org.members[u]
    ensures HasOwner(org') && (strict ==> HasActiveOwner(w.(org := org')))
  {
    if role == Owner {
      var u :| u in w.org.members && u != target && w.org.members[u] == Owner && (strict ==> Active(w.people, u));
      assert u in org'.members && org'.members[u] == Owner;
    } else {
      var u :| u in w.org.members && w.org.members[u] == Owner;
      assert u in org'.members && org'.members[u] == Owner;
      if strict {
        var v :| v in w.org.members && w.org.members[v] == Owner && Active(w.people, v);
        assert v in org'.members && org'.members[v] == Owner;
      }
    }
  }

  lemma JoinCommits(w: World, tx: Tx, i: Invitation, strict: bool)
    requires Inv(w, strict) && tx.request.AcceptInvitation? && PlanOk(w, tx, Join(i), strict)
    ensures var org' := ApplyAll(w.org, WritesOf(tx, Join(i)));
            && LogOk(org') && InvitationsOk(org') && HasOwner(org')
            && (strict ==> HasActiveOwner(w.(org := org')))
  {
    var r := tx.request;
    var e := Entry(r.actor, InvitationAccepted, OfInvitation(r.id), None, Some(i.role));
    ApplyThree(w.org, PutMember(r.actor, i.role), MarkAccepted(r.id), Audit(e));
    var org' := ApplyAll(w.org, WritesOf(tx, Join(i)));
    JoinExplained(w.org, e, r.id, i.role);
    LogGrows(w.org, org', e);
    OneSettles(w.org, org', r.id);
    OwnersKept(w, org', strict);
  }

  /** An open invitation is settled one way and the others stay. */
  lemma OneSettles(org: Organization, org': Organization, id: InvitationId)
    requires InvitationsOk(org) && id in org.invitations && id in org'.invitations
    requires org'.invitations == org.invitations[id := org'.invitations[id]]
    requires !Pending(org'.invitations[id]) && !(org'.invitations[id].accepted && org'.invitations[id].revoked)
    ensures InvitationsOk(org')
  {
    assert forall a, email :: PendingFor(org', a, email) ==> PendingFor(org, a, email);
  }

  lemma JoinExplained(org: Organization, e: Entry, id: InvitationId, role: Role)
    requires LogOk(org) && id in org.invitations && org.invitations[id].role == role && e.actor !in org.members
    requires e.action == InvitationAccepted && e.resource == OfInvitation(id) && e.next == Some(role)
    ensures Explained(org.log + [e], |org.log|)
  {
    assert (org.log + [e])[..|org.log|] == org.log;
    var j :| 0 <= j < |org.log| && InvitedAt(org.log, j, id, role);
    assert InvitedAt(org.log + [e], j, id, role);
  }

  lemma OwnersKept(w: World, org': Organization, strict: bool)
    requires HasOwner(w.org) && (strict ==> HasActiveOwner(w))
    requires forall u :: u in w.org.members ==> u in org'.members && org'.members[u] == w.org.members[u]
    ensures HasOwner(org') && (strict ==> HasActiveOwner(w.(org := org')))
  {
    var u :| u in w.org.members && w.org.members[u] == Owner;
    assert u in org'.members && org'.members[u] == Owner;
    if strict {
      var v :| v in w.org.members && w.org.members[v] == Owner && Active(w.people, v);
      assert v in org'.members && org'.members[v] == Owner;
    }
  }

  lemma InviteCommits(w: World, tx: Tx, id: InvitationId, strict: bool)
    requires Inv(w, strict) && tx.request.CreateInvitation? && PlanOk(w, tx, Invite(id), strict)
    ensures var org' := ApplyAll(w.org, WritesOf(tx, Invite(id)));
            && LogOk(org') && InvitationsOk(org') && HasOwner(org')
            && (strict ==> HasActiveOwner(w.(org := org')))
  {
    var r := tx.request;
    var e := Entry(r.actor, InvitationCreated, OfInvitation(id), None, Some(r.role));
    var i := Invitation(r.email, r.role, r.actor, tx.now + INVITATION_TTL, false, false);
    ApplyThree(w.org, RevokeExpired(r.email, tx.now), PutInvitation(id, i), Audit(e));
    var org' := ApplyAll(w.org, WritesOf(tx, Invite(id)));
    assert org'.log[..|w.org.log|] == w.org.log;
    LogGrows(w.org, org', e);
    OneOpens(w, org', tx, id);
    OwnersKept(w, org', strict);
  }

  /** An invitation opens for an address that has none open, once the expired one counts as revoked. */
  lemma OneOpens(w: World, org': Organization, tx: Tx, id: InvitationId)
    requires InvitationsOk(w.org) && tx.request.CreateInvitation? && NoneLiveFor(w, tx)
    requires id in org'.invitations && org'.invitations[id].email == tx.request.email && !org'.invitations[id].accepted
    requires org'.invitations == Apply(w.org, RevokeExpired(tx.request.email, tx.now)).invitations[id := org'.invitations[id]]
    ensures InvitationsOk(org')
  {
    forall a, email | PendingFor(org', a, email)
      ensures if a == id then email == tx.request.email else PendingFor(w.org, a, email) && email != tx.request.email
    {
      if a != id { assert a in w.org.invitations; }
    }
  }

  lemma RevokeCommits(w: World, tx: Tx, id: InvitationId, role: Role, strict: bool)
    requires Inv(w, strict) && tx.request.RevokeInvitation? && PlanOk(w, tx, Revoke(id, role), strict)
    ensures var org' := ApplyAll(w.org, WritesOf(tx, Revoke(id, role)));
            && LogOk(org') && InvitationsOk(org') && HasOwner(org')
            && (strict ==> HasActiveOwner(w.(org := org')))
  {
    var e := Entry(tx.request.actor, InvitationRevoked, OfInvitation(id), Some(role), None);
    ApplyTwo(w.org, MarkRevoked(id), Audit(e));
    var org' := ApplyAll(w.org, WritesOf(tx, Revoke(id, role)));
    LogGrows(w.org, org', e);
    OneSettles(w.org, org', id);
    OwnersKept(w, org', strict);
  }

  lemma PlanCommits(w: World, tx: Tx, plan: Plan, strict: bool)
    requires Inv(w, strict) && PlanOk(w, tx, plan, strict)
    ensures var org' := ApplyAll(w.org, WritesOf(tx, plan));
            && LogOk(org') && InvitationsOk(org') && HasOwner(org')
            && (strict ==> HasActiveOwner(w.(org := org')))
  {
    match (tx.request, plan)
    case (CreateInvitation(_, _, _), Invite(id)) => InviteCommits(w, tx, id, strict);
    case (RevokeInvitation(_, _), Revoke(id, role)) => RevokeCommits(w, tx, id, role, strict);
    case (MutateMember(_, _, _, _), Change(role)) => ChangeCommits(w, tx, role, strict);
    case (AcceptInvitation(_, _), Join(i)) => JoinCommits(w, tx, i, strict);
    case _ =>
  }

  lemma CommitKeeps(w: World, t: TxId, strict: bool)
    requires Inv(w, strict) && Enabled(w, Commit(t))
    ensures Inv(Do(w, Commit(t)), strict)
  {
    var tx := w.txs[t];
    assert StageOk(w, tx, strict) && HoldsLock(tx) && w.lock == Some(t);
    PlanCommits(w, tx, tx.stage.plan, strict);
    AfterCommit(w, Do(w, Commit(t)), t, strict);
  }

  /** Once the lock holder has committed nobody holds the lock, so nobody relies on what was read. */
  lemma AfterCommit(w: World, w': World, t: TxId, strict: bool)
    requires LockOk(w) && t in w.txs && w.lock == Some(t) && w'.lock == None && w'.people == w.people
    requires w'.txs == w.txs[t := w.txs[t].(stage := Committed)]
    requires LogOk(w'.org) && InvitationsOk(w'.org) && HasOwner(w'.org) && (strict ==> HasActiveOwner(w.(org := w'.org)))
    ensures Inv(w', strict)
  {
    forall u | u in w'.txs ensures StageOk(w', w'.txs[u], strict) && !HoldsLock(w'.txs[u]) {
    }
  }

  // ----- Every run -----------------------------------------------------------------------------------

  lemma StepKeeps(w: World, s: Step, strict: bool)
    requires Inv(w, strict) && Enabled(w, s) && (strict ==> !s.Deactivate?)
    ensures Inv(Do(w, s), strict)
  {
    match s
    case Begin(t, request, now) => OneMoves(w, Do(w, s), t, strict);
    case TakeLock(t) => OneMoves(w, Do(w, s), t, strict);
    case Advance(t, newId) => AdvanceKeeps(w, t, newId, strict);
    case Execute(t) => OneMoves(w, Do(w, s), t, strict);
    case Commit(t) => CommitKeeps(w, t, strict);
    case Abort(t) => OneMoves(w, Do(w, s), t, strict);
    case AppendUnrelated(actor) =>
      UnrelatedKeeps(w.org, actor);
      RowsStay(w, Do(w, s), strict);
    case UpdatePerson(u, p) => RowsStay(w, Do(w, s), strict);
    case Deactivate(u) => RowsStay(w, Do(w, s), strict);
  }

  lemma CreatedOk(people: map<User, Person>, creator: User, strict: bool)
    requires Active(people, creator)
    ensures Inv(Created(people, creator), strict)
  {
    var w := Created(people, creator);
    assert w.org.log[..0] == [];
    assert Replay(w.org.log) == map[creator := Owner];
    assert creator in w.org.members && w.org.members[creator] == Owner;
  }

  ghost predicate IsRun(ws: seq<World>, steps: seq<Step>) {
    && |ws| == |steps| + 1
    && forall i :: 0 <= i < |steps| ==> Enabled(ws[i], steps[i]) && ws[i + 1] == Do(ws[i], steps[i])
  }

  lemma {:induction false} RunKeeps(ws: seq<World>, steps: seq<Step>, strict: bool)
    requires IsRun(ws, steps) && Inv(ws[0], strict)
    requires strict ==> forall i :: 0 <= i < |steps| ==> !steps[i].Deactivate?
    ensures Inv(ws[|steps|], strict)
    decreases |steps|
  {
    if steps != [] {
      var n := |steps| - 1;
      RunKeeps(ws[..n + 1], steps[..n], strict);
      StepKeeps(ws[n], steps[n], strict);
    }
  }

  /** A run of the organisation's transactions from its creation. */
  ghost predicate History(people: map<User, Person>, creator: User, ws: seq<World>, steps: seq<Step>) {
    Active(people, creator) && IsRun(ws, steps) && ws[0] == Created(people, creator)
  }

  /** Under every interleaving the organisation keeps an owner, active as long as nobody's account is disabled. */
  lemma AlwaysAnOwner(people: map<User, Person>, creator: User, ws: seq<World>, steps: seq<Step>)
    requires History(people, creator, ws, steps)
    ensures HasOwner(ws[|steps|].org)
    ensures (forall i :: 0 <= i < |steps| ==> !steps[i].Deactivate?) ==> HasActiveOwner(ws[|steps|])
  {
    CreatedOk(people, creator, false);
    RunKeeps(ws, steps, false);
    if forall i :: 0 <= i < |steps| ==> !steps[i].Deactivate? {
      CreatedOk(people, creator, true);
      RunKeeps(ws, steps, true);
    }
  }

  /** Folding the audit log rebuilds exactly the membership and role of everyone. */
  lemma AuditReplaysMembership(people: map<User, Person>, creator: User, ws: seq<World>, steps: seq<Step>)
    requires History(people, creator, ws, steps)
    ensures Replay(ws[|steps|].org.log) == ws[|steps|].org.members
  {
    CreatedOk(people, creator, false);
    RunKeeps(ws, steps, false);
  }

  /** No invitation is both accepted and revoked or accepted twice, and each address has at most one open. */
  lemma InvitationsStayLinear(people: map<User, Person>, creator: User, ws: seq<World>, steps: seq<Step>)
    requires History(people, creator, ws, steps)
    ensures var org := ws[|steps|].org;
            && (forall i, j, id :: AcceptedAt(org.log, i, id) && AcceptedAt(org.log, j, id) ==> i == j)
            && (forall i, j, id :: !(AcceptedAt(org.log, i, id) && RevokedAt(org.log, j, id)))
            && (forall id :: id in org.invitations ==> !(org.invitations[id].accepted && org.invitations[id].revoked))
            && (forall a, b, email :: PendingFor(org, a, email) && PendingFor(org, b, email) ==> a == b)
  {
    CreatedOk(people, creator, false);
    RunKeeps(ws, steps, false);
  }

  // ----- Where an owner's role comes from --------------------------------------------------------------

  /** Entry `i` made `u` an owner. */
  ghost predicate MadeOwner(log: seq<Entry>, i: nat, u: User) {
    i < |log| &&
    match log[i].action
    case OrganizationCreated => log[i].actor == u
    case InvitationAccepted => log[i].actor == u && log[i].next == Some(Owner)
    case RoleChanged => log[i].resource == OfUser(u) && log[i].next == Some(Owner)
    case _ => false
  }

  lemma {:induction false} OwnerWasMade(log: seq<Entry>, u: User) returns (i: nat)
    requires u in Replay(log) && Replay(log)[u] == Owner
    ensures MadeOwner(log, i, u)
    decreases |log|
  {
    var n := |log| - 1;
    if MadeOwner(log, n, u) {
      i := n;
    } else {
      i := OwnerWasMade(log[..n], u);
      assert log[..n][i] == log[i];
    }
  }

  /** What made someone an owner was lawful: the creation, an owner's change, or an owner's invitation. */
  ghost predicate OwnerCause(log: seq<Entry>, i: nat)
    requires i < |log|
  {
    && (log[i].action == OrganizationCreated ==> i == 0)
    && (log[i].action == RoleChanged ==> OwnerThen(log, i, log[i].actor))
    && (log[i].action == InvitationAccepted ==>
          log[i].resource.OfInvitation?
          && exists j :: 0 <= j < i && InvitedAt(log, j, log[i].resource.id, Owner) && OwnerThen(log, j, log[j].actor))
  }

  /**
   * Every owner's role has a cause in the log: being the creator, a role change made by someone who was an owner
   * at that moment, or an invitation created by someone who was an owner at that moment.
   */
  lemma OwnersAreExplained(people: map<User, Person>, creator: User, ws: seq<World>, steps: seq<Step>, u: User)
    requires History(people, creator, ws, steps)
    requires u in ws[|steps|].org.members && ws[|steps|].org.members[u] == Owner
    ensures var log := ws[|steps|].org.log; exists i :: 0 <= i < |log| && MadeOwner(log, i, u) && OwnerCause(log, i)
  {
    CreatedOk(people, creator, false);
    RunKeeps(ws, steps, false);
    var log := ws[|steps|].org.log;
    var i := OwnerWasMade(log, u);
    assert Explained(log, i);
    if log[i].action == InvitationAccepted {
      var j :| 0 <= j < i && InvitedAt(log, j, log[i].resource.id, Owner);
      assert Explained(log, j);
    }
    assert OwnerCause(log, i);
  }

  /** Every entry of the audit log was authorised at the moment it was written. */
  lemma AuditIsAuthorised(people: map<User, Person>, creator: User, ws: seq<World>, steps: seq<Step>, i: nat)
    requires History(people, creator, ws, steps) && i < |ws[|steps|].org.log|
    ensures Explained(ws[|steps|].org.log, i)
  {
    CreatedOk(people, creator, false);
    RunKeeps(ws, steps, false);
  }
}
