/**
 * Membership of one organisation as a machine of interleaved transactions. Every SQL statement is a step of
 * its own: a transaction begins, takes the organisation row lock, reads, decides, writes and commits, and
 * any other transaction may take a step in between. Reads see committed rows only.
 */
module Membership {
  import opened Events

  type User = nat
  type InvitationId = nat
  type Email = nat
  type TxId = nat

  datatype Role = Owner | Admin | Member | Viewer

  /** A console user; `active` means the account is not disabled and the address is already normalised. */
  datatype Person = Person(active: bool, email: Option<Email>, verified: bool)

  datatype Invitation = Invitation(email: Email, role: Role, createdBy: User, expiresAt: int, revoked: bool, accepted: bool)

  datatype Action =
    | OrganizationCreated | InvitationCreated | InvitationRevoked | InvitationAccepted
    | RoleChanged | MemberRemoved | Unrelated

  datatype Resource = OfOrganization | OfInvitation(id: InvitationId) | OfUser(user: User)

  datatype Entry = Entry(actor: User, action: Action, resource: Resource, previous: Option<Role>, next: Option<Role>)

  /** The committed rows of the organisation and its audit log, oldest entry first. */
  datatype Organization = Organization(members: map<User, Role>, invitations: map<InvitationId, Invitation>, log: seq<Entry>)

  datatype Request =
    | CreateInvitation(actor: User, email: Email, role: Role)
    | RevokeInvitation(actor: User, id: InvitationId)
    | MutateMember(actor: User, target: User, next: Option<Role>, expected: Option<Role>)
    | AcceptInvitation(actor: User, id: InvitationId)

  datatype Failure =
    | Forbidden | OwnerProtected | AlreadyMember | InvitationExists | InvitationLimit
    | InvitationUnavailable | MembershipChanged | LastOwner | EmailUnverified | RecipientMismatch

  /** What a transaction has decided to write. */
  datatype Plan =
    | NoChange
    | Invite(id: InvitationId)
    | Revoke(id: InvitationId, role: Role)
    | Change(role: Role)
    | Join(invitation: Invitation)

  /** The point a transaction has reached; the arguments are what it has read so far. */
  datatype Stage =
    | Begun
    | Previewed
    | Locked
    | Authorised(role: Role)
    | NotMember
    | NoneLive
    | TargetRead(target: Role)
    | Usable(invitation: Invitation)
    | ForRecipient(invitation: Invitation)
    | Writing(plan: Plan, written: nat)
    | Committed
    | Failed(error: Failure)

  datatype Tx = Tx(request: Request, now: int, stage: Stage)

  datatype World = World(people: map<User, Person>, org: Organization, lock: Option<TxId>, txs: map<TxId, Tx>)

  const MAX_PENDING_INVITATIONS: nat := 100
  const INVITATION_TTL: int := 7 * 24 * 60 * 60 * 1000

  // ----- The decisions ---------------------------------------------------------------------------

  predicate CanManage(actor: Role, target: Role, next: Option<Role>) {
    actor == Owner || (actor == Admin && target != Owner && next != Some(Owner))
  }

  predicate Active(people: map<User, Person>, u: User) { u in people && people[u].active }

  /** Unexpired, unrevoked and unaccepted at time `now`. */
  predicate Available(i: Invitation, now: int) { i.expiresAt > now && !i.revoked && !i.accepted }

  predicate Pending(i: Invitation) { !i.revoked && !i.accepted }

  function LiveInvitations(org: Organization, now: int): set<InvitationId> {
    set id | id in org.invitations && Available(org.invitations[id], now)
  }

  predicate HasMemberWithEmail(w: World, email: Email) {
    exists u :: u in w.org.members && u in w.people && w.people[u].email == Some(email)
  }

  predicate OtherActiveOwner(w: World, target: User) {
    exists u :: u in w.org.members && u != target && w.org.members[u] == Owner && Active(w.people, u)
  }

  /** The role check that opens every management transaction. */
  function AuthoriseStage(w: World, actor: User): Stage {
    if actor in w.org.members && Active(w.people, actor) && (w.org.members[actor] == Owner || w.org.members[actor] == Admin)
    then Authorised(w.org.members[actor]) else Failed(Forbidden)
  }

  /** The stage after the next statement of a transaction that has nothing to write yet. */
  function NextStage(w: World, tx: Tx, newId: InvitationId): Stage {
    match tx.request
    case CreateInvitation(actor, email, role) => (
      match tx.stage
      case Locked => AuthoriseStage(w, actor)
      case Authorised(actorRole) =>
        if !CanManage(actorRole, role, None) then Failed(OwnerProtected)
        else if HasMemberWithEmail(w, email) then Failed(AlreadyMember)
        else NotMember
      case NotMember =>
        if exists id :: id in LiveInvitations(w.org, tx.now) && w.org.invitations[id].email == email
        then Failed(InvitationExists) else NoneLive
      case NoneLive =>
        if |LiveInvitations(w.org, tx.now)| >= MAX_PENDING_INVITATIONS then Failed(InvitationLimit)
        else Writing(Invite(newId), 0)
      case _ => tx.stage)
    case RevokeInvitation(actor, id) => (
      match tx.stage
      case Locked => AuthoriseStage(w, actor)
      case Authorised(actorRole) =>
        if id !in w.org.invitations then Failed(InvitationUnavailable)
        else
          var i := w.org.invitations[id];
          if !CanManage(actorRole, i.role, None) then Failed(OwnerProtected)
          else if i.accepted || i.revoked then Writing(NoChange, 0)
          else Writing(Revoke(id, i.role), 0)
      case _ => tx.stage)
    case MutateMember(actor, target, next, expected) => (
      match tx.stage
      case Locked => AuthoriseStage(w, actor)
      case Authorised(actorRole) =>
        if target !in w.org.members then Failed(MembershipChanged)
        else
          var role := w.org.members[target];
          if !CanManage(actorRole, role, next) then Failed(OwnerProtected)
          else if expected.Some? && expected != Some(role) then Failed(MembershipChanged)
          else if next == Some(role) then Writing(NoChange, 0)
          else TargetRead(role)
      case TargetRead(role) =>
        if role == Owner && !OtherActiveOwner(w, target) then Failed(LastOwner)
        else Writing(Change(role), 0)
      case _ => tx.stage)
    case AcceptInvitation(actor, id) => (
      match tx.stage
      case Begun => if id in LiveInvitations(w.org, tx.now) then Previewed else Failed(InvitationUnavailable)
      case Locked =>
        if id in LiveInvitations(w.org, tx.now) then Usable(w.org.invitations[id]) else Failed(InvitationUnavailable)
      case Usable(i) =>
        if !Active(w.people, actor) then Failed(Forbidden)
        else if !w.people[actor].verified || w.people[actor].email.None? then Failed(EmailUnverified)
        else if w.people[actor].email != Some(i.email) then Failed(RecipientMismatch)
        else ForRecipient(i)
      case ForRecipient(i) =>
        if actor in w.org.members then Failed(AlreadyMember) else Writing(Join(i), 0)
      case _ => tx.stage)
  }

  // ----- The writes ------------------------------------------------------------------------------

  datatype Write =
    | PutMember(user: User, role: Role)
    | DropMember(user: User)
    | RevokeExpired(email: Email, now: int)
    | PutInvitation(id: InvitationId, invitation: Invitation)
    | MarkRevoked(id: InvitationId)
    | MarkAccepted(id: InvitationId)
    | Audit(entry: Entry)

  /** The statements a plan executes, in order. */
  function WritesOf(tx: Tx, plan: Plan): seq<Write> {
    match (tx.request, plan)
    case (CreateInvitation(actor, email, role), Invite(id)) =>
      [RevokeExpired(email, tx.now),
       PutInvitation(id, Invitation(email, role, actor, tx.now + INVITATION_TTL, false, false)),
       Audit(Entry(actor, InvitationCreated, OfInvitation(id), None, Some(role)))]
    case (RevokeInvitation(actor, _), Revoke(id, role)) =>
      [MarkRevoked(id), Audit(Entry(actor, InvitationRevoked, OfInvitation(id), Some(role), None))]
    case (MutateMember(actor, target, next, _), Change(role)) =>
      if next.None?
      then [DropMember(target), Audit(Entry(actor, MemberRemoved, OfUser(target), Some(role), None))]
      else [PutMember(target, next.value), Audit(Entry(actor, RoleChanged, OfUser(target), Some(role), next))]
    case (AcceptInvitation(actor, id), Join(i)) =>
      [PutMember(actor, i.role), MarkAccepted(id), Audit(Entry(actor, InvitationAccepted, OfInvitation(id), None, Some(i.role)))]
    case _ => []
  }

  function Apply(org: Organization, write: Write): Organization {
    match write
    case PutMember(u, r) => org.(members := org.members[u := r])
    case DropMember(u) => org.(members := org.members - {u})
    case RevokeExpired(email, now) =>
      org.(invitations := map id | id in org.invitations ::
        var i := org.invitations[id];
        if i.email == email && i.expiresAt <= now && Pending(i) then i.(revoked := true) else i)
    case PutInvitation(id, i) => org.(invitations := org.invitations[id := i])
    case MarkRevoked(id) =>
      if id in org.invitations then org.(invitations := org.invitations[id := org.invitations[id].(revoked := true)]) else org
    case MarkAccepted(id) =>
      if id in org.invitations then org.(invitations := org.invitations[id := org.invitations[id].(accepted := true)]) else org
    case Audit(entry) => org.(log := org.log + [entry])
  }

  function ApplyAll(org: Organization, writes: seq<Write>): Organization
    decreases |writes|
  {
    if writes == [] then org else ApplyAll(Apply(org, writes[0]), writes[1..])
  }

  // ----- Steps -----------------------------------------------------------------------------------

  datatype Step =
    | Begin(tx: TxId, request: Request, now: int)
    | TakeLock(tx: TxId)
    | Advance(tx: TxId, newId: InvitationId)
    | Execute(tx: TxId)
    | Commit(tx: TxId)
    | Abort(tx: TxId)
    | AppendUnrelated(actor: User)
    | UpdatePerson(user: User, person: Person)
    | Deactivate(user: User)

  /** A transaction waits for the lock after its unlocked statements. */
  predicate WantsLock(tx: Tx) {
    (tx.stage.Begun? && !tx.request.AcceptInvitation?) || tx.stage.Previewed?
  }

  predicate HoldsLock(tx: Tx) {
    !tx.stage.Begun? && !tx.stage.Previewed? && !tx.stage.Committed? && !tx.stage.Failed?
  }

  predicate Enabled(w: World, s: Step) {
    match s
    case Begin(t, _, _) => t !in w.txs
    case TakeLock(t) => t in w.txs && WantsLock(w.txs[t]) && w.lock == None
    case Advance(t, newId) =>
      t in w.txs && newId !in w.org.invitations && !WantsLock(w.txs[t])
      && !w.txs[t].stage.Writing? && !w.txs[t].stage.Committed? && !w.txs[t].stage.Failed?
    case Execute(t) => t in w.txs && w.txs[t].stage.Writing? && w.txs[t].stage.written < |WritesOf(w.txs[t], w.txs[t].stage.plan)|
    case Commit(t) => t in w.txs && w.txs[t].stage.Writing? && w.txs[t].stage.written == |WritesOf(w.txs[t], w.txs[t].stage.plan)|
    case Abort(t) => t in w.txs && !w.txs[t].stage.Committed? && !w.txs[t].stage.Failed?
    case AppendUnrelated(_) => true
    case UpdatePerson(u, p) => Active(w.people, u) ==> p.active
    case Deactivate(u) => u in w.people
  }

  function WithStage(w: World, t: TxId, stage: Stage): World
    requires t in w.txs
  {
    w.(txs := w.txs[t := w.txs[t].(stage := stage)])
  }

  function Release(w: World, t: TxId): World { if w.lock == Some(t) then w.(lock := None) else w }

  function Do(w: World, s: Step): World
    requires Enabled(w, s)
  {
    match s
    case Begin(t, request, now) => w.(txs := w.txs[t := Tx(request, now, Begun)])
    case TakeLock(t) => WithStage(w, t, Locked).(lock := Some(t))
    case Advance(t, newId) =>
      var stage := NextStage(w, w.txs[t], newId);
      if stage.Failed? then Release(WithStage(w, t, stage), t) else WithStage(w, t, stage)
    case Execute(t) => WithStage(w, t, w.txs[t].stage.(written := w.txs[t].stage.written + 1))
    case Commit(t) =>
      Release(WithStage(w, t, Committed), t).(org := ApplyAll(w.org, WritesOf(w.txs[t], w.txs[t].stage.plan)))
    case Abort(t) => Release(WithStage(w, t, Failed(InvitationUnavailable)), t)
    case AppendUnrelated(actor) => w.(org := w.org.(log := w.org.log + [Entry(actor, Unrelated, OfOrganization, None, None)]))
    case UpdatePerson(u, p) => w.(people := w.people[u := p])
    case Deactivate(u) => w.(people := w.people[u := w.people[u].(active := false)])
  }

  /** A new organisation: its creator owns it and the log says so. */
  function Created(people: map<User, Person>, creator: User): World {
    var log := [Entry(creator, OrganizationCreated, OfOrganization, None, None)];
    World(people, Organization(map[creator := Owner], map[], log), None, map[])
  }
}
