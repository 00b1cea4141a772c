/**
 Workspace membership. `WorkspacesService` updates the stored rows request by request; `Apply` says
 what one request does to them and `Run` what a sequence of requests does. Each request is one atomic
 step, and ids of all kinds come from one counter that never repeats.
 */
module Workspaces {
  import opened Options
  import opened Slugs

  datatype Role = Owner | Admin | Member | Viewer

  datatype Membership = Membership(workspaceId: nat, userId: string, role: Role)

  datatype Invitation = Invitation(
    email: string, role: Role, tokenHash: string, workspaceId: nat,
    expiresAt: int, acceptedAt: Option<int>, revokedAt: Option<int>)

  datatype Workspace = Workspace(name: string, slug: string, description: Option<string>)

  /** The stored rows by id. */
  datatype State = State(
    workspaces: map<nat, Workspace>,
    members: map<nat, Membership>,
    invitations: map<nat, Invitation>,
    nextId: nat)

  datatype Error = NotFound | Conflict | Forbidden

  datatype Result = Ok(state: State) | Err(error: Error)

  /** What a request finds outside these rows: the users by id with their email, and how text is lower-cased. */
  datatype Env = Env(users: map<string, string>, lower: string -> string)

  // ---------------------------------------------------------------- what the database keeps

  predicate KnownIds(s: State) {
    && (forall w | w in s.workspaces :: w < s.nextId)
    && (forall m | m in s.members :: m < s.nextId && s.members[m].workspaceId in s.workspaces)
    && (forall i | i in s.invitations :: i < s.nextId && s.invitations[i].workspaceId in s.workspaces)
  }

  predicate UniqueMembers(members: map<nat, Membership>) {
    forall m, n | m in members && n in members ::
      members[m].workspaceId == members[n].workspaceId && members[m].userId == members[n].userId ==> m == n
  }

  predicate UniqueTokens(invitations: map<nat, Invitation>) {
    forall i, j | i in invitations && j in invitations ::
      invitations[i].tokenHash == invitations[j].tokenHash ==> i == j
  }

  predicate UniqueSlugs(workspaces: map<nat, Workspace>) {
    forall v, w | v in workspaces && w in workspaces :: workspaces[v].slug == workspaces[w].slug ==> v == w
  }

  function SlugsOf(workspaces: map<nat, Workspace>): set<string> {
    set w | w in workspaces :: workspaces[w].slug
  }

  lemma TokensStay(invitations: map<nat, Invitation>, i: nat, invitation: Invitation)
    requires UniqueTokens(invitations) && i in invitations && invitation.tokenHash == invitations[i].tokenHash
    ensures UniqueTokens(invitations[i := invitation])
  {
  }

  lemma MemberAdded(members: map<nat, Membership>, id: nat, membership: Membership)
    requires UniqueMembers(members) && id !in members
    requires forall m | m in members ::
               !(members[m].workspaceId == membership.workspaceId && members[m].userId == membership.userId)
    ensures UniqueMembers(members[id := membership])
  {
  }

  /** The constraints of the schema. */
  predicate Consistent(s: State) {
    KnownIds(s) && UniqueMembers(s.members) && UniqueTokens(s.invitations) && UniqueSlugs(s.workspaces)
  }

  /** Surroundings for the requests that do not look at them. */
  const NOBODY: Env := Env(map[], text => text)

  // ---------------------------------------------------------------- queries

  predicate IsMember(s: State, workspace: nat, user: string) {
    exists m | m in s.members :: s.members[m].workspaceId == workspace && s.members[m].userId == user
  }

  lemma MemberOfKnown(s: State, workspace: nat, user: string)
    requires Consistent(s) && IsMember(s, workspace, user)
    ensures workspace in s.workspaces
  {
  }

  function MembershipOf(s: State, workspace: nat, user: string): (m: nat)
    requires Consistent(s) && IsMember(s, workspace, user)
    ensures m in s.members && s.members[m].workspaceId == workspace && s.members[m].userId == user
  {
    var m :| m in s.members && s.members[m].workspaceId == workspace && s.members[m].userId == user;
    m
  }

  predicate HasToken(s: State, tokenHash: string) {
    exists i | i in s.invitations :: s.invitations[i].tokenHash == tokenHash
  }

  function InvitationOf(s: State, tokenHash: string): (i: nat)
    requires Consistent(s) && HasToken(s, tokenHash)
    ensures i in s.invitations && s.invitations[i].tokenHash == tokenHash
  {
    var i :| i in s.invitations && s.invitations[i].tokenHash == tokenHash;
    i
  }

  function Owners(s: State, workspace: nat): set<nat> {
    set m | m in s.members && s.members[m].workspaceId == workspace && s.members[m].role == Owner
  }

  /** What `assertNotLastOwner` refuses. */
  predicate LastOwner(s: State, workspace: nat) {
    |Owners(s, workspace)| <= 1
  }

  predicate IsExpired(invitation: Invitation, now: int) {
    invitation.revokedAt.Some? || invitation.acceptedAt.Some? || invitation.expiresAt < now
  }

  // ---------------------------------------------------------------- requests

  /** `allowed` is the answer of the plan check. */
  function Create(
    s: State, user: string, allowed: bool, name: string, slug: Option<string>, description: Option<string>, env: Env)
    : (r: Result)
    requires Consistent(s)
    ensures r.Ok? ==> Consistent(r.state)
  {
    if !allowed then Err(Forbidden)
    else
      var free := FreeSlug(Slugify(slug.GetOr(name), env.lower), SlugsOf(s.workspaces), 1);
      var w := s.nextId;
      Ok(State(s.workspaces[w := Workspace(name, free, description)],
               s.members[w + 1 := Membership(w, user, Owner)], s.invitations, w + 2))
  }

  /** The fields an update names; the others stay. */
  datatype Changes = Changes(name: Option<string>, slug: Option<string>, description: Option<string>)

  function Changed(workspace: Workspace, changes: Changes): Workspace {
    Workspace(changes.name.GetOr(workspace.name), changes.slug.GetOr(workspace.slug),
              if changes.description.Some? then changes.description else workspace.description)
  }

  predicate SlugTaken(s: State, workspace: nat, slug: Option<string>) {
    slug.Some? && exists w | w in s.workspaces :: s.workspaces[w].slug == slug.value && w != workspace
  }

  function Update(s: State, workspace: nat, user: string, changes: Changes): (r: Result)
    requires Consistent(s)
    ensures r.Ok? ==> Consistent(r.state)
  {
    if !IsMember(s, workspace, user) then Err(NotFound)
    else if SlugTaken(s, workspace, changes.slug) then Err(Conflict)
    else Ok(s.(workspaces := s.workspaces[workspace := Changed(s.workspaces[workspace], changes)]))
  }

  /** Deleting a workspace deletes its memberships and invitations with it. */
  function Remove(s: State, workspace: nat, user: string): (r: Result)
    requires Consistent(s)
    ensures r.Ok? ==> Consistent(r.state)
  {
    if !IsMember(s, workspace, user) then Err(NotFound)
    else
      Ok(State(
        s.workspaces - {workspace},
        map m | m in s.members && s.members[m].workspaceId != workspace :: s.members[m],
        map i | i in s.invitations && s.invitations[i].workspaceId != workspace :: s.invitations[i],
        s.nextId))
  }

  function UpdateMemberRole(s: State, workspace: nat, member: nat, role: Role, acting: string): (r: Result)
    requires Consistent(s)
    ensures r.Ok? ==> Consistent(r.state)
  {
    if !IsMember(s, workspace, acting) then Err(NotFound)
    else if member !in s.members || s.members[member].workspaceId != workspace then Err(NotFound)
    else if s.members[member].role == Owner && LastOwner(s, workspace) then Err(Conflict)
    else Ok(s.(members := s.members[member := s.members[member].(role := role)]))
  }

  function RemoveMember(s: State, workspace: nat, member: nat, acting: string): (r: Result)
    requires Consistent(s)
    ensures r.Ok? ==> Consistent(r.state)
  {
    if !IsMember(s, workspace, acting) then Err(NotFound)
    else if member !in s.members || s.members[member].workspaceId != workspace then Err(NotFound)
    else if s.members[member].role == Owner && LastOwner(s, workspace) then Err(Conflict)
    else Ok(s.(members := s.members - {member}))
  }

  function Leave(s: State, workspace: nat, user: string): (r: Result)
    requires Consistent(s)
    ensures r.Ok? ==> Consistent(r.state)
  {
    if !IsMember(s, workspace, user) then Err(NotFound)
    else
      var member := MembershipOf(s, workspace, user);
      if s.members[member].role == Owner && LastOwner(s, workspace) then Err(Conflict)
      else Ok(s.(members := s.members - {member}))
  }

  predicate PendingFor(s: State, workspace: nat, email: string) {
    exists i | i in s.invitations ::
      s.invitations[i].workspaceId == workspace && s.invitations[i].email == email
      && s.invitations[i].acceptedAt.None? && s.invitations[i].revokedAt.None?
  }

  const INVITATION_TTL_MS: int := 7 * 24 * 60 * 60 * 1000

  /** `tokenHash` is the hash of the fresh random token; a token that exists already is refused by the database. */
  function Invite(
    s: State, workspace: nat, inviter: string, email: string, role: Option<Role>, tokenHash: string, now: int, env: Env)
    : (r: Result)
    requires Consistent(s)
    ensures r.Ok? ==> Consistent(r.state)
  {
    var address := Trim(env.lower(email));
    if !IsMember(s, workspace, inviter) then Err(NotFound)
    else if exists u | u in env.users :: env.users[u] == address && IsMember(s, workspace, u) then Err(Conflict)
    else if PendingFor(s, workspace, address) || HasToken(s, tokenHash) then Err(Conflict)
    else
      var invitation :=
        Invitation(address, role.GetOr(Member), tokenHash, workspace, now + INVITATION_TTL_MS, None, None);
      Ok(s.(invitations := s.invitations[s.nextId := invitation], nextId := s.nextId + 1))
  }

  function Revoke(s: State, workspace: nat, invitation: nat, user: string, now: int): (r: Result)
    requires Consistent(s)
    ensures r.Ok? ==> Consistent(r.state)
  {
    if !IsMember(s, workspace, user) then Err(NotFound)
    else if invitation !in s.invitations || s.invitations[invitation].workspaceId != workspace then Err(NotFound)
    else Ok(s.(invitations := s.invitations[invitation := s.invitations[invitation].(revokedAt := Some(now))]))
  }

  function Accept(s: State, tokenHash: string, user: string, now: int, env: Env): (r: Result)
    requires Consistent(s)
    ensures r.Ok? ==> Consistent(r.state)
  {
    if !HasToken(s, tokenHash) then Err(NotFound)
    else
      var i := InvitationOf(s, tokenHash);
      var invitation := s.invitations[i];
      if IsExpired(invitation, now) then Err(Conflict)
      else if user !in env.users || env.lower(env.users[user]) != env.lower(invitation.email) then Err(Forbidden)
      else
        var accepted := s.invitations[i := invitation.(acceptedAt := Some(now))];
        TokensStay(s.invitations, i, accepted[i]);
        hide UniqueTokens, Trim;
        if IsMember(s, invitation.workspaceId, user) then Ok(s.(invitations := accepted))
        else
          MemberAdded(s.members, s.nextId, Membership(invitation.workspaceId, user, invitation.role));
          hide UniqueMembers;
          Ok(s.(members := s.members[s.nextId := Membership(invitation.workspaceId, user, invitation.role)],
                invitations := accepted,
                nextId := s.nextId + 1))
  }

  datatype Request =
    | CreateRequest(user: string, allowed: bool, name: string, slug: Option<string>, description: Option<string>)
    | UpdateRequest(workspace: nat, user: string, changes: Changes)
    | RemoveRequest(workspace: nat, user: string)
    | UpdateMemberRoleRequest(workspace: nat, member: nat, role: Role, acting: string)
    | RemoveMemberRequest(workspace: nat, member: nat, acting: string)
    | LeaveRequest(workspace: nat, user: string)
    | InviteRequest(
        workspace: nat, inviter: string, email: string, inviteRole: Option<Role>, tokenHash: string, now: int)
    | RevokeRequest(workspace: nat, invitation: nat, user: string, now: int)
    | AcceptRequest(tokenHash: string, user: string, now: int)

  /** A request and the surroundings it meets, which may be different ones each time. */
  datatype Call = Call(request: Request, env: Env)

  function Apply(s: State, call: Call): (r: Result)
    requires Consistent(s)
    ensures r.Ok? ==> Consistent(r.state)
  {
    match call.request
    case CreateRequest(user, allowed, name, slug, description) =>
      Create(s, user, allowed, name, slug, description, call.env)
    case UpdateRequest(workspace, user, changes) => Update(s, workspace, user, changes)
    case RemoveRequest(workspace, user) => Remove(s, workspace, user)
    case UpdateMemberRoleRequest(workspace, member, role, acting) =>
      UpdateMemberRole(s, workspace, member, role, acting)
    case RemoveMemberRequest(workspace, member, acting) => RemoveMember(s, workspace, member, acting)
    case LeaveRequest(workspace, user) => Leave(s, workspace, user)
    case InviteRequest(workspace, inviter, email, role, tokenHash, now) =>
      Invite(s, workspace, inviter, email, role, tokenHash, now, call.env)
    case RevokeRequest(workspace, invitation, user, now) => Revoke(s, workspace, invitation, user, now)
    case AcceptRequest(tokenHash, user, now) => Accept(s, tokenHash, user, now, call.env)
  }

  /** A refused request changes nothing. */
  function After(s: State, call: Call): (r: State)
    requires Consistent(s)
    ensures Consistent(r)
  {
    var r := Apply(s, call);
    if r.Ok? then r.state else s
  }

  function Run(s: State, calls: seq<Call>): (r: State)
    requires Consistent(s)
    ensures Consistent(r)
  {
    if calls == [] then s
    else After(Run(s, calls[..|calls| - 1]), calls[|calls| - 1])
  }

  const EMPTY: State := State(map[], map[], map[], 0)
}
