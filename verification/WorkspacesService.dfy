/** The service: each request method reads the rows, may refuse, and writes them in place. */
module WorkspacesServices {
  import opened Options
  import opened Slugs
  import opened Workspaces
  import opened WorkspacesLaws

  class WorkspacesService {
    var workspaces: map<nat, Workspace>
    var members: map<nat, Membership>
    var invitations: map<nat, Invitation>
    var nextId: nat

    constructor ()
      ensures Valid() && Rows() == EMPTY
    {
      workspaces, members, invitations, nextId := map[], map[], map[], 0;
    }

    function Rows(): State
      reads this
    {
      State(workspaces, members, invitations, nextId)
    }

    /** The constraints of the schema, and an owner for every workspace. */
    ghost predicate Valid()
      reads this
    {
      Consistent(Rows()) && Owned(Rows())
    }

    /** The rows are those of the result, or the old ones with the error reported. */
    ghost predicate Answered(before: State, result: Result, error: Option<Error>)
      reads this
    {
      match result
      case Ok(state) => error == None && Rows() == state && Consistent(state)
      case Err(e) => error == Some(e) && Rows() == before
    }

    method CreateWorkspace(
      user: string, allowed: bool, name: string, wished: Option<string>, description: Option<string>, env: Env)
      returns (error: Option<Error>)
      requires Valid()
      modifies this
      ensures Valid()
      ensures Answered(old(Rows()), Create(old(Rows()), user, allowed, name, wished, description, env), error)
    {
      hide FreeSlug, Slugify, NumberedSlug, TakenBefore, IsSlug, Consistent, Owned;
      StepKeepsOwners(Rows(), Call(CreateRequest(user, allowed, name, wished, description), env));
      if !allowed {
        return Some(Forbidden);
      }
      var slug, _ := ResolveUniqueSlug(wished.GetOr(name), SlugsOf(workspaces), env.lower);
      var workspace := nextId;
      workspaces := workspaces[workspace := Workspace(name, slug, description)];
      members := members[workspace + 1 := Membership(workspace, user, Owner)];
      nextId := workspace + 2;
      return None;
    }

    method UpdateWorkspace(workspace: nat, user: string, changes: Changes) returns (error: Option<Error>)
      requires Valid()
      modifies this`workspaces
      ensures Valid()
      ensures Answered(old(Rows()), Update(old(Rows()), workspace, user, changes), error)
    {
      hide Consistent, Owned;
      StepKeepsOwners(Rows(), Call(UpdateRequest(workspace, user, changes), NOBODY));
      if !IsMember(Rows(), workspace, user) {
        return Some(NotFound);
      }
      if SlugTaken(Rows(), workspace, changes.slug) {
        return Some(Conflict);
      }
      MemberOfKnown(Rows(), workspace, user);
      workspaces := workspaces[workspace := Changed(workspaces[workspace], changes)];
      return None;
    }

    method RemoveWorkspace(workspace: nat, user: string) returns (error: Option<Error>)
      requires Valid()
      modifies this
      ensures Valid()
      ensures Answered(old(Rows()), Remove(old(Rows()), workspace, user), error)
    {
      hide Consistent, Owned;
      StepKeepsOwners(Rows(), Call(RemoveRequest(workspace, user), NOBODY));
      if !IsMember(Rows(), workspace, user) {
        return Some(NotFound);
      }
      workspaces := workspaces - {workspace};
      members := map m | m in members && members[m].workspaceId != workspace :: members[m];
      invitations := map i | i in invitations && invitations[i].workspaceId != workspace :: invitations[i];
      return None;
    }

    method SetMemberRole(workspace: nat, member: nat, role: Role, acting: string) returns (error: Option<Error>)
      requires Valid()
      modifies this`members
      ensures Valid()
      ensures Answered(old(Rows()), UpdateMemberRole(old(Rows()), workspace, member, role, acting), error)
    {
      hide Consistent, Owned;
      StepKeepsOwners(Rows(), Call(UpdateMemberRoleRequest(workspace, member, role, acting), NOBODY));
      if !IsMember(Rows(), workspace, acting) {
        return Some(NotFound);
      }
      if member !in members || members[member].workspaceId != workspace {
        return Some(NotFound);
      }
      if members[member].role == Owner && LastOwner(Rows(), workspace) {
        return Some(Conflict);
      }
      members := members[member := members[member].(role := role)];
      return None;
    }

    method DeleteMember(workspace: nat, member: nat, acting: string) returns (error: Option<Error>)
      requires Valid()
      modifies this`members
      ensures Valid()
      ensures Answered(old(Rows()), RemoveMember(old(Rows()), workspace, member, acting), error)
    {
      hide Consistent, Owned;
      StepKeepsOwners(Rows(), Call(RemoveMemberRequest(workspace, member, acting), NOBODY));
      if !IsMember(Rows(), workspace, acting) {
        return Some(NotFound);
      }
      if member !in members || members[member].workspaceId != workspace {
        return Some(NotFound);
      }
      if members[member].role == Owner && LastOwner(Rows(), workspace) {
        return Some(Conflict);
      }
      members := members - {member};
      return None;
    }

    method LeaveWorkspace(workspace: nat, user: string) returns (error: Option<Error>)
      requires Valid()
      modifies this`members
      ensures Valid()
      ensures Answered(old(Rows()), Leave(old(Rows()), workspace, user), error)
    {
      hide Consistent, Owned;
      StepKeepsOwners(Rows(), Call(LeaveRequest(workspace, user), NOBODY));
      if !IsMember(Rows(), workspace, user) {
        return Some(NotFound);
      }
      var membership := MembershipOf(Rows(), workspace, user);
      if members[membership].role == Owner && LastOwner(Rows(), workspace) {
        return Some(Conflict);
      }
      members := members - {membership};
      return None;
    }

    method InviteMember(
      workspace: nat, inviter: string, email: string, role: Option<Role>, tokenHash: string, now: int, env: Env)
      returns (error: Option<Error>)
      requires Valid()
      modifies this
      ensures Valid()
      ensures Answered(old(Rows()), Invite(old(Rows()), workspace, inviter, email, role, tokenHash, now, env), error)
    {
      hide Consistent, Owned;
      StepKeepsOwners(Rows(), Call(InviteRequest(workspace, inviter, email, role, tokenHash, now), env));
      if !IsMember(Rows(), workspace, inviter) {
        return Some(NotFound);
      }
      var address := Trim(env.lower(email));
      if exists u | u in env.users :: env.users[u] == address && IsMember(Rows(), workspace, u) {
        return Some(Conflict);
      }
      if PendingFor(Rows(), workspace, address) || HasToken(Rows(), tokenHash) {
        return Some(Conflict);
      }
      invitations := invitations[nextId :=
        Invitation(address, role.GetOr(Member), tokenHash, workspace, now + INVITATION_TTL_MS, None, None)];
      nextId := nextId + 1;
      return None;
    }

    method RevokeInvitation(workspace: nat, invitation: nat, user: string, now: int) returns (error: Option<Error>)
      requires Valid()
      modifies this`invitations
      ensures Valid()
      ensures Answered(old(Rows()), Revoke(old(Rows()), workspace, invitation, user, now), error)
    {
      hide Consistent, Owned;
      StepKeepsOwners(Rows(), Call(RevokeRequest(workspace, invitation, user, now), NOBODY));
      if !IsMember(Rows(), workspace, user) {
        return Some(NotFound);
      }
      if invitation !in invitations || invitations[invitation].workspaceId != workspace {
        return Some(NotFound);
      }
      invitations := invitations[invitation := invitations[invitation].(revokedAt := Some(now))];
      return None;
    }

    method AcceptInvitation(tokenHash: string, user: string, now: int, env: Env) returns (error: Option<Error>)
      requires Valid()
      modifies this
      ensures Valid()
      ensures Answered(old(Rows()), Accept(old(Rows()), tokenHash, user, now, env), error)
    {
      hide Consistent, Owned;
      StepKeepsOwners(Rows(), Call(AcceptRequest(tokenHash, user, now), env));
      if !HasToken(Rows(), tokenHash) {
        return Some(NotFound);
      }
      var i := InvitationOf(Rows(), tokenHash);
      var invitation := invitations[i];
      if IsExpired(invitation, now) {
        return Some(Conflict);
      }
      if user !in env.users || env.lower(env.users[user]) != env.lower(invitation.email) {
        return Some(Forbidden);
      }
      if !IsMember(Rows(), invitation.workspaceId, user) {
        members := members[nextId := Membership(invitation.workspaceId, user, invitation.role)];
        nextId := nextId + 1;
      }
      invitations := invitations[i := invitation.(acceptedAt := Some(now))];
      return None;
    }
  }
}
