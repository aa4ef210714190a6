/** Every decision a committed transaction rests on was made, in its favour, at a step of the run. */
module MembershipDecisions {
  import opened Events
  import opened Membership
  import opened MembershipSafety

  // ----- What each decision asks -----------------------------------------------------------------

  /** A member whose account is not disabled, and an owner or an admin. */
  ghost predicate Manager(w: World, u: User) {
    && u in w.people && w.people[u].active && u in w.org.members
    && (w.org.members[u] == Owner || w.org.members[u] == Admin)
  }

  /** Signed in with a verified address that is this one, and not disabled. */
  ghost predicate IsRecipient(w: World, u: User, email: Email) {
    u in w.people && w.people[u].active && w.people[u].verified && w.people[u].email == Some(email)
  }

  ghost predicate IsOpen(w: World, id: InvitationId, now: int) {
    && id in w.org.invitations && now < w.org.invitations[id].expiresAt
    && !w.org.invitations[id].revoked && !w.org.invitations[id].accepted
  }

  ghost predicate IsMember(w: World, u: User, role: Role) { u in w.org.members && w.org.members[u] == role }

  /** What the transaction's next decision asks of the rows it reads. */
  ghost predicate Decided(w: World, tx: Tx) {
    var now := tx.now;
    match tx.request
    case CreateInvitation(actor, email, role) => (
      match tx.stage
      case Locked => Manager(w, actor)
      case Authorised(rank) =>
        Outranks(rank, role, None) && forall u :: u in w.org.members && u in w.people ==> w.people[u].email != Some(email)
      case NotMember => forall id :: IsOpen(w, id, now) ==> w.org.invitations[id].email != email
      case NoneLive => |set id | id in w.org.invitations && IsOpen(w, id, now)| < 100
      case _ => true)
    case RevokeInvitation(actor, id) => (
      match tx.stage
      case Locked => Manager(w, actor)
      case Authorised(rank) => id in w.org.invitations && Outranks(rank, w.org.invitations[id].role, None)
      case _ => true)
    case MutateMember(actor, target, next, expected) => (
      match tx.stage
      case Locked => Manager(w, actor)
      case Authorised(rank) =>
        && target in w.org.members && Outranks(rank, w.org.members[target], next)
        && (expected.Some? ==> w.org.members[target] == expected.value)
      case TargetRead(role) =>
        role == Owner ==> exists u :: IsMember(w, u, Owner) && u != target && u in w.people && w.people[u].active
      case _ => true)
    case AcceptInvitation(actor, id) => (
      match tx.stage
      case Begun => IsOpen(w, id, now)
      case Locked => IsOpen(w, id, now)
      case Usable(i) => IsRecipient(w, actor, i.email)
      case ForRecipient(_) => actor !in w.org.members
      case _ => true)
  }

  /** The transaction's next statement decides something. */
  predicate Decides(tx: Tx) {
    match tx.stage
    case Begun => tx.request.AcceptInvitation?
    case Previewed => false
    case Writing(_, _) => false
    case Committed => false
    case Failed(_) => false
    case _ => true
  }

  /** How many decisions have gone the transaction's way. */
  function Passed(tx: Tx): nat {
    match tx.stage
    case Begun => 0
    case Previewed => 1
    case Locked => if tx.request.AcceptInvitation? then 1 else 0
    case Authorised(_) => 1
    case NotMember => 2
    case NoneLive => 3
    case TargetRead(_) => 2
    case Usable(_) => 2
    case ForRecipient(_) => 3
    case Writing(plan, _) => (
      match tx.request
      case CreateInvitation(_, _, _) => 4
      case RevokeInvitation(_, _) => 2
      case MutateMember(_, _, _, _) => if plan.NoChange? then 2 else 3
      case AcceptInvitation(_, _) => 4)
    case Committed => 0
    case Failed(_) => 0
  }

  /** A transaction goes on if and only if the decision goes its way. */
  lemma DecisionsAreExact(w: World, tx: Tx, newId: InvitationId)
    requires StageOk(w, tx, false) && Decides(tx)
    ensures NextStage(w, tx, newId).Failed? <==> !Decided(w, tx)
    ensures Decided(w, tx) ==> Passed(tx.(stage := NextStage(w, tx, newId))) == Passed(tx) + 1
  {
    assert (set id | id in w.org.invitations && IsOpen(w, id, tx.now)) == LiveInvitations(w.org, tx.now);
    match tx.request
    case CreateInvitation(actor, email, role) => CreationDecides(w, tx, newId);
    case RevokeInvitation(actor, id) =>
    case MutateMember(actor, target, next, expected) =>
    case AcceptInvitation(actor, id) =>
  }

  lemma CreationDecides(w: World, tx: Tx, newId: InvitationId)
    requires StageOk(w, tx, false) && Decides(tx) && tx.request.CreateInvitation?
    ensures NextStage(w, tx, newId).Failed? <==> !Decided(w, tx)
    ensures Decided(w, tx) ==> Passed(tx.(stage := NextStage(w, tx, newId))) == Passed(tx) + 1
  {
    assert (set id | id in w.org.invitations && IsOpen(w, id, tx.now)) == LiveInvitations(w.org, tx.now);
    assert forall id :: IsOpen(w, id, tx.now) <==> id in LiveInvitations(w.org, tx.now);
  }

  // ----- Every run -------------------------------------------------------------------------------

  /** At step `j` transaction `t`, holding the lock unless it has only begun, makes its `d`-th decision and it goes its way. */
  ghost predicate DecidedAt(ws: seq<World>, steps: seq<Step>, j: nat, t: TxId, d: nat)
    requires |ws| == |steps| + 1
  {
    && j < |steps| && steps[j].Advance? && steps[j].tx == t && t in ws[j].txs
    && Decides(ws[j].txs[t]) && Passed(ws[j].txs[t]) == d && Decided(ws[j], ws[j].txs[t])
    && (ws[j].txs[t].stage.Begun? || ws[j].lock == Some(t))
  }

  /** The step leaves the transaction no further, or it is a decision that goes its way. */
  ghost predicate Progress(w: World, s: Step, t: TxId, tx: Tx, tx': Tx) {
    && tx'.request == tx.request && tx'.now == tx.now
    && (Passed(tx') > Passed(tx) ==>
          && s.Advance? && s.tx == t && Decides(tx) && Decided(w, tx) && Passed(tx') == Passed(tx) + 1
          && (tx.stage.Begun? || w.lock == Some(t)))
  }

  lemma AdvancePasses(w: World, t: TxId, newId: InvitationId)
    requires Inv(w, false) && Enabled(w, Advance(t, newId))
    ensures Progress(w, Advance(t, newId), t, w.txs[t], Do(w, Advance(t, newId)).txs[t])
  {
    assert StageOk(w, w.txs[t], false);
    DecisionsAreExact(w, w.txs[t], newId);
  }

  lemma StepPasses(w: World, s: Step, t: TxId)
    requires Inv(w, false) && Enabled(w, s) && t in Do(w, s).txs
    ensures if t in w.txs then Progress(w, s, t, w.txs[t], Do(w, s).txs[t]) else Passed(Do(w, s).txs[t]) == 0
  {
    if s.Advance? && s.tx == t { AdvancePasses(w, t, s.newId); } else { OthersPassNothing(w, s, t); }
  }

  lemma OthersPassNothing(w: World, s: Step, t: TxId)
    requires Enabled(w, s) && t in Do(w, s).txs && !(s.Advance? && s.tx == t)
    ensures if t in w.txs then Progress(w, s, t, w.txs[t], Do(w, s).txs[t]) else Passed(Do(w, s).txs[t]) == 0
  {
  }

  lemma InvAt(people: map<User, Person>, creator: User, ws: seq<World>, steps: seq<Step>, n: nat)
    requires History(people, creator, ws, steps) && n <= |steps|
    ensures Inv(ws[n], false)
  {
    CreatedOk(people, creator, false);
    RunKeeps(ws[..n + 1], steps[..n], false);
  }

  ghost predicate ProgressAt(ws: seq<World>, steps: seq<Step>, k: nat, t: TxId)
    requires |ws| == |steps| + 1 && k < |steps|
  {
    t in ws[k + 1].txs ==>
      if t in ws[k].txs then Progress(ws[k], steps[k], t, ws[k].txs[t], ws[k + 1].txs[t]) else Passed(ws[k + 1].txs[t]) == 0
  }

  lemma StepProgresses(people: map<User, Person>, creator: User, ws: seq<World>, steps: seq<Step>, k: nat, t: TxId)
    requires History(people, creator, ws, steps) && k < |steps|
    ensures ProgressAt(ws, steps, k, t)
  {
    InvAt(people, creator, ws, steps, k);
    if t in ws[k + 1].txs { StepPasses(ws[k], steps[k], t); }
  }

  /** The step at which a transaction made its `d`-th decision. */
  lemma {:induction false} DecisionStep(ws: seq<World>, steps: seq<Step>, n: nat, t: TxId, d: nat) returns (j: nat)
    requires |ws| == |steps| + 1 && n <= |steps| && t in ws[n].txs && d < Passed(ws[n].txs[t]) && ws[0].txs == map[]
    requires forall k :: 0 <= k < n ==> ProgressAt(ws, steps, k, t)
    ensures j < n && DecidedAt(ws, steps, j, t, d)
    ensures ws[j].txs[t].request == ws[n].txs[t].request && ws[j].txs[t].now == ws[n].txs[t].now
    decreases n
  {
    assert ProgressAt(ws, steps, n - 1, t);
    if d < Passed(ws[n - 1].txs[t]) { j := DecisionStep(ws, steps, n - 1, t, d); } else { j := n - 1; }
  }

  /** Each decision behind a transaction was made at an earlier step, for the same request. */
  lemma EveryDecisionWasMade(people: map<User, Person>, creator: User, ws: seq<World>, steps: seq<Step>,
                             n: nat, t: TxId, d: nat) returns (j: nat)
    requires History(people, creator, ws, steps) && n <= |steps| && t in ws[n].txs && d < Passed(ws[n].txs[t])
    ensures j < n && DecidedAt(ws, steps, j, t, d)
    ensures ws[j].txs[t].request == ws[n].txs[t].request && ws[j].txs[t].now == ws[n].txs[t].now
  {
    forall k | 0 <= k < n ensures ProgressAt(ws, steps, k, t) {
      StepProgresses(people, creator, ws, steps, k, t);
    }
    j := DecisionStep(ws, steps, n, t, d);
  }

  lemma FailedStays(w: World, s: Step, t: TxId)
    requires Enabled(w, s) && t in w.txs && w.txs[t].stage.Failed?
    ensures t in Do(w, s).txs && Do(w, s).txs[t] == w.txs[t] && s != Commit(t)
  {
  }

  lemma RefusedFails(w: World, t: TxId, newId: InvitationId)
    requires Inv(w, false) && Enabled(w, Advance(t, newId)) && Decides(w.txs[t]) && !Decided(w, w.txs[t])
    ensures t in Do(w, Advance(t, newId)).txs && Do(w, Advance(t, newId)).txs[t].stage.Failed?
  {
    assert StageOk(w, w.txs[t], false);
    DecisionsAreExact(w, w.txs[t], newId);
  }

  lemma {:induction false} FailedForGood(ws: seq<World>, steps: seq<Step>, i: nat, t: TxId, n: nat)
    requires IsRun(ws, steps) && i <= n <= |steps| && t in ws[i].txs && ws[i].txs[t].stage.Failed?
    ensures t in ws[n].txs && ws[n].txs[t].stage.Failed? && (n < |steps| ==> steps[n] != Commit(t))
    decreases n
  {
    if i < n {
      FailedForGood(ws, steps, i, t, n - 1);
      FailedStays(ws[n - 1], steps[n - 1], t);
    }
    if n < |steps| { FailedStays(ws[n], steps[n], t); }
  }

  /** A transaction whose decision goes against it fails there and then, and never commits. */
  lemma RefusedNeverCommits(people: map<User, Person>, creator: User, ws: seq<World>, steps: seq<Step>, j: nat, t: TxId, n: nat)
    requires History(people, creator, ws, steps) && j < n <= |steps| && steps[j].Advance? && steps[j].tx == t
    requires Decides(ws[j].txs[t]) && !Decided(ws[j], ws[j].txs[t])
    ensures t in ws[n].txs && ws[n].txs[t].stage.Failed? && (n < |steps| ==> steps[n] != Commit(t))
  {
    InvAt(people, creator, ws, steps, j);
    RefusedFails(ws[j], t, steps[j].newId);
    FailedForGood(ws, steps, j + 1, t, n);
  }

  // ----- What a commit changes -------------------------------------------------------------------

  const WEEK: int := 7 * 24 * 60 * 60 * 1000

  /** A new invitation for an address; the expired one it replaces, if any, counts as revoked, and the others stay. */
  ghost predicate Invited(org: Organization, org': Organization, tx: Tx, id: InvitationId)
    requires tx.request.CreateInvitation?
  {
    var r := tx.request;
    && org'.members == org.members && id !in org.invitations && org'.invitations.Keys == org.invitations.Keys + {id}
    && org'.invitations[id] == Invitation(r.email, r.role, r.actor, tx.now + WEEK, false, false)
    && (forall a :: a in org.invitations ==>
          var i := org.invitations[a];
          org'.invitations[a] ==
            if i.email == r.email && i.expiresAt <= tx.now && !i.revoked && !i.accepted then i.(revoked := true) else i)
    && org'.log == org.log + [Entry(r.actor, InvitationCreated, OfInvitation(id), None, Some(r.role))]
  }

  /** One invitation is settled: revoked, or accepted. */
  ghost predicate Settles(org: Organization, org': Organization, id: InvitationId, accepted: bool) {
    && id in org.invitations && !org.invitations[id].accepted && !org.invitations[id].revoked
    && org'.invitations
       == org.invitations[id := if accepted then org.invitations[id].(accepted := true) else org.invitations[id].(revoked := true)]
  }

  /** What a commit leaves, and the one entry it adds to the log. */
  ghost predicate Commits(org: Organization, org': Organization, tx: Tx, plan: Plan) {
    match tx.request
    case CreateInvitation(_, _, _) => plan.Invite? && Invited(org, org', tx, plan.id)
    case RevokeInvitation(actor, id) =>
      if plan.NoChange? then org' == org && id in org.invitations && (org.invitations[id].accepted || org.invitations[id].revoked)
      else
        && Settles(org, org', id, false) && org'.members == org.members
        && org'.log == org.log + [Entry(actor, InvitationRevoked, OfInvitation(id), Some(org.invitations[id].role), None)]
    case MutateMember(actor, target, next, _) =>
      if plan.NoChange? then org' == org && target in org.members && next == Some(org.members[target])
      else
        && org'.invitations == org.invitations && target in org.members && next != Some(org.members[target])
        && org'.members == (if next.Some? then org.members[target := next.value] else org.members - {target})
        && org'.log == org.log + [Entry(actor, if next.Some? then RoleChanged else MemberRemoved, OfUser(target),
                                        Some(org.members[target]), next)]
    case AcceptInvitation(actor, id) =>
      && Settles(org, org', id, true) && actor !in org.members
      && org'.members == org.members[actor := org.invitations[id].role]
      && org'.log == org.log + [Entry(actor, InvitationAccepted, OfInvitation(id), None, Some(org.invitations[id].role))]
  }

  lemma CommitMeaning(w: World, t: TxId)
    requires Inv(w, false) && Enabled(w, Commit(t))
    ensures Commits(w.org, Do(w, Commit(t)).org, w.txs[t], w.txs[t].stage.plan)
  {
    var tx := w.txs[t];
    var plan := tx.stage.plan;
    assert StageOk(w, tx, false);
    if plan.NoChange? {
      assert WritesOf(tx, plan) == [];
    } else {
      PlanMeaning(w, tx, plan);
    }
  }

  lemma PlanMeaning(w: World, tx: Tx, plan: Plan)
    requires PlanOk(w, tx, plan, false) && !plan.NoChange?
    ensures Commits(w.org, ApplyAll(w.org, WritesOf(tx, plan)), tx, plan)
  {
    var ws := WritesOf(tx, plan);
    match tx.request
    case CreateInvitation(_, _, _) => ApplyThree(w.org, ws[0], ws[1], ws[2]);
    case RevokeInvitation(_, _) => ApplyTwo(w.org, ws[0], ws[1]);
    case MutateMember(_, _, _, _) => ApplyTwo(w.org, ws[0], ws[1]);
    case AcceptInvitation(_, _) => ApplyThree(w.org, ws[0], ws[1], ws[2]);
  }

  // ----- Where a log entry and an invitation come from -------------------------------------------

  /** Step `m` commits a transaction, and that is what it changes. */
  ghost predicate CommitsAt(ws: seq<World>, steps: seq<Step>, m: nat, t: TxId)
    requires |ws| == |steps| + 1
  {
    && m < |steps| && steps[m] == Commit(t) && t in ws[m].txs && ws[m].txs[t].stage.Writing?
    && Commits(ws[m].org, ws[m + 1].org, ws[m].txs[t], ws[m].txs[t].stage.plan)
  }

  lemma EveryCommitMeans(people: map<User, Person>, creator: User, ws: seq<World>, steps: seq<Step>, m: nat)
    requires History(people, creator, ws, steps) && m < |steps| && steps[m].Commit?
    ensures CommitsAt(ws, steps, m, steps[m].tx)
  {
    InvAt(people, creator, ws, steps, m);
    CommitMeaning(ws[m], steps[m].tx);
  }

  /** Only commits touch members and invitations, and besides them only unrelated entries join the log. */
  lemma OthersTouchNothing(w: World, s: Step)
    requires Enabled(w, s) && !s.Commit?
    ensures var org' := Do(w, s).org;
            && org'.members == w.org.members && org'.invitations == w.org.invitations
            && (org'.log == w.org.log || exists u :: org'.log == w.org.log + [Entry(u, Unrelated, OfOrganization, None, None)])
  {
    if s.AppendUnrelated? { assert Do(w, s).org.log == w.org.log + [Entry(s.actor, Unrelated, OfOrganization, None, None)]; }
  }

  /** The commit that wrote an entry of the log, unless the creation did or it is unrelated. */
  lemma {:induction false} EntryWasCommitted(people: map<User, Person>, creator: User, ws: seq<World>, steps: seq<Step>,
                                             n: nat, i: nat) returns (m: nat)
    requires History(people, creator, ws, steps) && 0 < i && n <= |steps| && i < |ws[n].org.log| && !ws[n].org.log[i].action.Unrelated?
    ensures m < n && steps[m].Commit? && CommitsAt(ws, steps, m, steps[m].tx)
    ensures |ws[m].org.log| == i && |ws[m + 1].org.log| == i + 1 && ws[m + 1].org.log[i] == ws[n].org.log[i]
    decreases n
  {
    var k := n - 1;
    if steps[k].Commit? { EveryCommitMeans(people, creator, ws, steps, k); } else { OthersTouchNothing(ws[k], steps[k]); }
    if i < |ws[k].org.log| {
      m := EntryWasCommitted(people, creator, ws, steps, k, i);
    } else {
      m := k;
    }
  }

  /** Step `c` commits the request that created this invitation. */
  ghost predicate CreatesAt(ws: seq<World>, steps: seq<Step>, c: nat, id: InvitationId, i: Invitation)
    requires |ws| == |steps| + 1
  {
    && c < |steps| && steps[c].Commit? && steps[c].tx in ws[c].txs
    && ws[c].txs[steps[c].tx].request == CreateInvitation(i.createdBy, i.email, i.role)
    && i.expiresAt == ws[c].txs[steps[c].tx].now + WEEK
    && id !in ws[c].org.invitations && id in ws[c + 1].org.invitations
  }

  ghost predicate SameInvitation(a: Invitation, b: Invitation) {
    a.email == b.email && a.role == b.role && a.createdBy == b.createdBy && a.expiresAt == b.expiresAt
  }

  lemma CommitCreates(ws: seq<World>, steps: seq<Step>, m: nat, id: InvitationId)
    requires |ws| == |steps| + 1 && m < |steps| && steps[m].Commit? && CommitsAt(ws, steps, m, steps[m].tx)
    requires id in ws[m + 1].org.invitations
    ensures var i := ws[m + 1].org.invitations[id];
            (id in ws[m].org.invitations && SameInvitation(ws[m].org.invitations[id], i)) || CreatesAt(ws, steps, m, id, i)
  {
  }

  /** Every invitation was created by a committed request for just this address and role, and lasts a week from it. */
  lemma {:induction false} InvitationWasCreated(people: map<User, Person>, creator: User, ws: seq<World>, steps: seq<Step>,
                                                n: nat, id: InvitationId) returns (c: nat)
    requires History(people, creator, ws, steps) && n <= |steps| && id in ws[n].org.invitations
    ensures c < n && CreatesAt(ws, steps, c, id, ws[n].org.invitations[id])
    decreases n
  {
    var k := n - 1;
    if steps[k].Commit? {
      EveryCommitMeans(people, creator, ws, steps, k);
      CommitCreates(ws, steps, k, id);
    } else {
      OthersTouchNothing(ws[k], steps[k]);
    }
    if CreatesAt(ws, steps, k, id, ws[n].org.invitations[id]) {
      c := k;
    } else {
      c := InvitationWasCreated(people, creator, ws, steps, k, id);
    }
  }

  // ----- Who joined, and who managed -------------------------------------------------------------

  /** Step `j` is one of transaction `t`'s, taken while it held the lock. */
  ghost predicate UnderLock(ws: seq<World>, steps: seq<Step>, j: nat, t: TxId)
    requires |ws| == |steps| + 1
  {
    j < |steps| && steps[j].Advance? && steps[j].tx == t && t in ws[j].txs && ws[j].lock == Some(t)
  }

  lemma AtTheRecipientCheck(w: World, tx: Tx)
    requires tx.request.AcceptInvitation? && StageOk(w, tx, false) && Decides(tx) && Passed(tx) == 2 && Decided(w, tx)
    ensures tx.request.id in w.org.invitations
    ensures IsRecipient(w, tx.request.actor, w.org.invitations[tx.request.id].email) && tx.now < w.org.invitations[tx.request.id].expiresAt
  {
  }

  lemma AcceptanceCommit(ws: seq<World>, steps: seq<Step>, m: nat, t: TxId, e: Entry)
    requires |ws| == |steps| + 1 && CommitsAt(ws, steps, m, t) && e.action.InvitationAccepted?
    requires |ws[m + 1].org.log| == |ws[m].org.log| + 1 && ws[m + 1].org.log[|ws[m].org.log|] == e
    ensures var tx := ws[m].txs[t];
            && tx.request.AcceptInvitation? && tx.request.actor == e.actor && e.resource == OfInvitation(tx.request.id)
            && Passed(tx) == 4
  {
  }

  /**
   * Every acceptance in the log was committed by a transaction that, while it held the lock, found its actor active,
   * verified and signed in with the very address the invitation had been created for, and that started less than a
   * week after the creation did.
   */
  lemma AcceptedByTheRecipient(people: map<User, Person>, creator: User, ws: seq<World>, steps: seq<Step>, n: nat, i: nat)
    returns (c: nat, j: nat, m: nat)
    requires History(people, creator, ws, steps) && n <= |steps| && i < |ws[n].org.log| && ws[n].org.log[i].action.InvitationAccepted?
    ensures c < j < m < n && steps[c].Commit? && steps[m].Commit? && UnderLock(ws, steps, j, steps[m].tx)
    ensures steps[c].tx in ws[c].txs && ws[c].txs[steps[c].tx].request.CreateInvitation?
    ensures steps[m].tx in ws[m].txs && ws[m].txs[steps[m].tx].request.AcceptInvitation?
    ensures var e := ws[n].org.log[i]; var created, accepted := ws[c].txs[steps[c].tx], ws[m].txs[steps[m].tx];
            && |ws[m].org.log| == i && |ws[m + 1].org.log| == i + 1 && ws[m + 1].org.log[i] == e
            && e.actor == accepted.request.actor && e.resource == OfInvitation(accepted.request.id)
            && accepted.request.id !in ws[c].org.invitations && accepted.request.id in ws[c + 1].org.invitations
            && IsRecipient(ws[j], e.actor, created.request.email)
            && accepted.now < created.now + WEEK
  {
    InvAt(people, creator, ws, steps, n);
    assert Explained(ws[n].org.log, i);
    m := EntryWasCommitted(people, creator, ws, steps, n, i);
    var t := steps[m].tx;
    AcceptanceCommit(ws, steps, m, t, ws[n].org.log[i]);
    j, c := RecipientCheck(people, creator, ws, steps, m, t);
  }

  lemma RecipientCheck(people: map<User, Person>, creator: User, ws: seq<World>, steps: seq<Step>, m: nat, t: TxId)
    returns (j: nat, c: nat)
    requires History(people, creator, ws, steps) && m <= |steps| && t in ws[m].txs
    requires ws[m].txs[t].request.AcceptInvitation? && Passed(ws[m].txs[t]) > 2
    ensures c < j < m && UnderLock(ws, steps, j, t) && ws[m].txs[t].request.id in ws[j].org.invitations
    ensures IsRecipient(ws[j], ws[m].txs[t].request.actor, ws[j].org.invitations[ws[m].txs[t].request.id].email)
    ensures CreatesAt(ws, steps, c, ws[m].txs[t].request.id, ws[j].org.invitations[ws[m].txs[t].request.id])
    ensures ws[m].txs[t].now < ws[j].org.invitations[ws[m].txs[t].request.id].expiresAt
  {
    j := EveryDecisionWasMade(people, creator, ws, steps, m, t, 2);
    InvAt(people, creator, ws, steps, j);
    assert StageOk(ws[j], ws[j].txs[t], false);
    AtTheRecipientCheck(ws[j], ws[j].txs[t]);
    c := InvitationWasCreated(people, creator, ws, steps, j, ws[m].txs[t].request.id);
  }

  lemma ManagementCommit(ws: seq<World>, steps: seq<Step>, m: nat, t: TxId, e: Entry)
    requires |ws| == |steps| + 1 && CommitsAt(ws, steps, m, t) && !e.action.InvitationAccepted?
    requires |ws[m + 1].org.log| == |ws[m].org.log| + 1 && ws[m + 1].org.log[|ws[m].org.log|] == e
    ensures !ws[m].txs[t].request.AcceptInvitation? && ws[m].txs[t].request.actor == e.actor && Passed(ws[m].txs[t]) > 0
  {
  }

  /** Every other entry was committed by a transaction that, while it held the lock, found its actor an active owner or admin. */
  lemma ManagedByManagers(people: map<User, Person>, creator: User, ws: seq<World>, steps: seq<Step>, n: nat, i: nat)
    returns (j: nat, m: nat)
    requires History(people, creator, ws, steps) && n <= |steps| && 0 < i < |ws[n].org.log|
    requires !ws[n].org.log[i].action.InvitationAccepted? && !ws[n].org.log[i].action.Unrelated?
    ensures j < m < n && steps[m].Commit? && UnderLock(ws, steps, j, steps[m].tx) && Manager(ws[j], ws[n].org.log[i].actor)
    ensures |ws[m].org.log| == i && |ws[m + 1].org.log| == i + 1 && ws[m + 1].org.log[i] == ws[n].org.log[i]
  {
    m := EntryWasCommitted(people, creator, ws, steps, n, i);
    ManagementCommit(ws, steps, m, steps[m].tx, ws[n].org.log[i]);
    j := EveryDecisionWasMade(people, creator, ws, steps, m, steps[m].tx, 0);
  }
}
