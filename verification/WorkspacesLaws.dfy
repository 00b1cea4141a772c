/** What every run of workspace calls keeps. */
module WorkspacesLaws {
  import opened Options
  import opened Slugs
  import opened Workspaces

  // ---------------------------------------------------------------- every workspace keeps an owner

  ghost predicate Owned(s: State) {
    forall w | w in s.workspaces :: Owners(s, w) != {}
  }

  /** Where two own a workspace, one of them is not `member`. */
  lemma AnotherOwner(s: State, workspace: nat, member: nat) returns (other: nat)
    requires !LastOwner(s, workspace)
    ensures other in Owners(s, workspace) && other != member
  {
    var owners := Owners(s, workspace);
    if owners - {member} == {} {
      assert owners <= {member};
      SubsetSize(owners, {member});
    }
    other :| other in owners - {member};
  }

  lemma SubsetSize(a: set<nat>, b: set<nat>)
    requires a <= b
    ensures |a| <= |b|
  {
    assert b == a + (b - a);
  }

  /** Owners other than `member` survive any change to that one membership. */
  lemma OwnersSurvive(s: State, t: State, member: nat)
    requires Consistent(s) && Owned(s) && t.workspaces.Keys == s.workspaces.Keys
    requires forall m | m in s.members && m != member :: m in t.members && t.members[m] == s.members[m]
    requires member in s.members && s.members[member].role == Owner ==> !LastOwner(s, s.members[member].workspaceId)
    ensures Owned(t)
  {
    forall w | w in t.workspaces
      ensures Owners(t, w) != {}
    {
      var m: nat :| m in Owners(s, w);
      if m == member {
        m := AnotherOwner(s, w, member);
      }
      assert m in Owners(t, w);
    }
  }

  lemma CreateKeepsOwners(s: State, call: Call)
    requires Consistent(s) && Owned(s) && call.request.CreateRequest? && Apply(s, call).Ok?
    ensures Owned(Apply(s, call).state)
  {
    hide FreeSlug, Slugify, TakenBefore, Consistent;
    NextIdUnused(s);
    var t := Apply(s, call).state;
    forall w | w in t.workspaces
      ensures Owners(t, w) != {}
    {
      if w == s.nextId {
        assert w + 1 in Owners(t, w);
      } else {
        var m: nat :| m in Owners(s, w);
        assert m in Owners(t, w);
      }
    }
  }

  lemma RemoveKeepsOwners(s: State, workspace: nat, user: string)
    requires Consistent(s) && Owned(s) && Remove(s, workspace, user).Ok?
    ensures Owned(Remove(s, workspace, user).state)
  {
    var t := Remove(s, workspace, user).state;
    forall w | w in t.workspaces
      ensures Owners(t, w) != {}
    {
      var m: nat :| m in Owners(s, w);
      assert m in Owners(t, w);
    }
  }

  lemma UpdateKeepsOwners(s: State, workspace: nat, user: string, changes: Changes)
    requires Consistent(s) && Owned(s) && Update(s, workspace, user, changes).Ok?
    ensures Owned(Update(s, workspace, user, changes).state)
  {
    MemberOfKnown(s, workspace, user);
    hide Owned, Consistent, SlugTaken, Changed, IsMember;
    AdditionKeepsOwners(s, Update(s, workspace, user, changes).state);
  }

  lemma RoleKeepsOwners(s: State, workspace: nat, member: nat, role: Role, acting: string)
    requires Consistent(s) && Owned(s) && UpdateMemberRole(s, workspace, member, role, acting).Ok?
    ensures Owned(UpdateMemberRole(s, workspace, member, role, acting).state)
  {
    hide Owned, Owners, LastOwner;
    OwnersSurvive(s, UpdateMemberRole(s, workspace, member, role, acting).state, member);
  }

  lemma DepartureKeepsOwners(s: State, member: nat)
    requires Consistent(s) && Owned(s)
    requires member in s.members && s.members[member].role == Owner ==> !LastOwner(s, s.members[member].workspaceId)
    ensures Owned(s.(members := s.members - {member}))
  {
    hide Owned, Owners, LastOwner;
    OwnersSurvive(s, s.(members := s.members - {member}), member);
  }

  /** Requests that leave the memberships as they are, or only add to them. */
  lemma AdditionKeepsOwners(s: State, t: State)
    requires Consistent(s) && Owned(s) && t.workspaces.Keys == s.workspaces.Keys
    requires forall m | m in s.members :: m in t.members && t.members[m] == s.members[m]
    ensures Owned(t)
  {
    NextIdUnused(s);
    hide Owned, Owners, LastOwner, Consistent;
    OwnersSurvive(s, t, s.nextId);
  }

  /** No request takes the last owner from a workspace that stays. */
  lemma StepKeepsOwners(s: State, call: Call)
    requires Consistent(s) && Owned(s)
    ensures Owned(After(s, call))
  {
    hide Consistent, Owned, Owners, LastOwner, IsMember, HasToken, PendingFor;
    NextIdUnused(s);
    if Apply(s, call).Ok? {
      var t := Apply(s, call).state;
      match call.request
      case CreateRequest(_, _, _, _, _) => CreateKeepsOwners(s, call);
      case RemoveRequest(workspace, user) => RemoveKeepsOwners(s, workspace, user);
      case UpdateRequest(workspace, user, changes) => UpdateKeepsOwners(s, workspace, user, changes);
      case UpdateMemberRoleRequest(workspace, member, role, acting) =>
        RoleKeepsOwners(s, workspace, member, role, acting);
      case RemoveMemberRequest(workspace, member, acting) => DepartureKeepsOwners(s, member);
      case LeaveRequest(workspace, user) => DepartureKeepsOwners(s, MembershipOf(s, workspace, user));
      case InviteRequest(_, _, _, _, _, _) => AdditionKeepsOwners(s, t);
      case RevokeRequest(_, _, _, _) => AdditionKeepsOwners(s, t);
      case AcceptRequest(_, _, _) => AdditionKeepsOwners(s, t);
    }
  }

  lemma NextIdUnused(s: State)
    requires Consistent(s)
    ensures s.nextId !in s.workspaces && s.nextId !in s.members && s.nextId !in s.invitations
    ensures s.nextId + 1 !in s.members
  {
  }

  /** In every run every existing workspace has an owner. */
  lemma {:induction false} RunKeepsOwners(s: State, calls: seq<Call>)
    requires Consistent(s) && Owned(s)
    ensures Owned(Run(s, calls))
  {
    if calls == [] {
    } else {
      var n := |calls| - 1;
      RunKeepsOwners(s, calls[..n]);
      StepKeepsOwners(Run(s, calls[..n]), calls[n]);
    }
  }

  lemma {:induction false} AlwaysOwned(calls: seq<Call>)
    ensures Owned(Run(EMPTY, calls)) && Consistent(Run(EMPTY, calls))
  {
    assert Owned(EMPTY);
    RunKeepsOwners(EMPTY, calls);
  }

  // ---------------------------------------------------------------- refusals are exact

  /** Removing a member is refused exactly when the workspace would be left without an owner. */
  lemma RemovalRefusedExactly(s: State, workspace: nat, member: nat, acting: string)
    requires Consistent(s) && Owned(s) && IsMember(s, workspace, acting)
    requires member in s.members && s.members[member].workspaceId == workspace
    ensures RemoveMember(s, workspace, member, acting) == Err(Conflict) <==>
            Owners(s.(members := s.members - {member}), workspace) == {}
  {
    var without := s.(members := s.members - {member});
    assert Owners(without, workspace) == Owners(s, workspace) - {member};
    SoleOwner(s, workspace, member);
  }

  lemma LeavingRefusedExactly(s: State, workspace: nat, user: string)
    requires Consistent(s) && Owned(s) && IsMember(s, workspace, user)
    ensures Leave(s, workspace, user) == Err(Conflict) <==>
            Owners(s.(members := s.members - {MembershipOf(s, workspace, user)}), workspace) == {}
  {
    var member := MembershipOf(s, workspace, user);
    assert Owners(s.(members := s.members - {member}), workspace) == Owners(s, workspace) - {member};
    SoleOwner(s, workspace, member);
  }

  lemma SoleOwner(s: State, workspace: nat, member: nat)
    requires Consistent(s) && Owned(s) && member in s.members && s.members[member].workspaceId == workspace
    ensures s.members[member].role == Owner && LastOwner(s, workspace) <==> Owners(s, workspace) == {member}
  {
    var owners := Owners(s, workspace);
    if s.members[member].role == Owner && LastOwner(s, workspace) {
      assert member in owners;
      assert |owners - {member}| == |owners| - 1;
      assert owners == {member} + (owners - {member});
    } else if owners == {member} {
      assert member in owners;
    } else {
      assert member in owners <==> s.members[member].role == Owner;
    }
  }

  /**
   A role change of the sole owner is refused whatever the new role, also when it is OWNER again;
   only a change away from OWNER would leave the workspace without an owner.
   */
  lemma RoleChangeRefusedExactly(s: State, workspace: nat, member: nat, role: Role, acting: string)
    requires Consistent(s) && Owned(s) && IsMember(s, workspace, acting)
    requires member in s.members && s.members[member].workspaceId == workspace
    ensures UpdateMemberRole(s, workspace, member, role, acting) == Err(Conflict) <==> Owners(s, workspace) == {member}
    ensures var changed := s.(members := s.members[member := s.members[member].(role := role)]);
            Owners(changed, workspace) == {} <==> Owners(s, workspace) == {member} && role != Owner
  {
    SoleOwner(s, workspace, member);
    OwnersAfterChange(s, workspace, member, role);
    hide Consistent, Owned, Owners;
  }

  lemma OwnersAfterChange(s: State, workspace: nat, member: nat, role: Role)
    requires member in s.members && s.members[member].workspaceId == workspace
    ensures var changed := s.(members := s.members[member := s.members[member].(role := role)]);
            Owners(changed, workspace) == if role == Owner then Owners(s, workspace) + {member}
                                          else Owners(s, workspace) - {member}
  {
  }

  // ---------------------------------------------------------------- invitations are used once

  /** The invitation a request accepts, if it does. */
  function AcceptedInvitation(s: State, call: Call): Option<nat>
    requires Consistent(s)
  {
    if call.request.AcceptRequest? && Apply(s, call).Ok?
    then Some(InvitationOf(s, call.request.tokenHash)) else None
  }

  /** An invitation that was accepted or revoked, and perhaps deleted with its workspace after that. */
  predicate Spent(s: State, invitation: nat) {
    && invitation < s.nextId
    && (invitation in s.invitations ==>
          s.invitations[invitation].acceptedAt.Some? || s.invitations[invitation].revokedAt.Some?)
  }

  /** Accepting adds at most the one membership the invitation is for, and changes no other. */
  lemma AcceptEffect(s: State, call: Call)
    requires Consistent(s) && AcceptedInvitation(s, call).Some?
    ensures var i := AcceptedInvitation(s, call).value;
            var invitation, user := s.invitations[i], call.request.user;
            var t := After(s, call);
            && i in s.invitations && !Spent(s, i) && Spent(t, i)
            && call.request.now <= invitation.expiresAt
            && user in call.env.users && call.env.lower(call.env.users[user]) == call.env.lower(invitation.email)
            && IsMember(t, invitation.workspaceId, user)
            && (forall m | m in s.members :: m in t.members && t.members[m] == s.members[m])
            && (forall m | m in t.members && m !in s.members ::
                  m == s.nextId && t.members[m] == Membership(invitation.workspaceId, user, invitation.role))
            && (IsMember(s, invitation.workspaceId, user) ==> t.members == s.members)
  {
    var i := AcceptedInvitation(s, call).value;
    var t := After(s, call);
    NextIdUnused(s);
    AcceptedState(s, call);
    hide Consistent, HasToken, After, Apply, AcceptedInvitation;
    if !IsMember(s, s.invitations[i].workspaceId, call.request.user) {
      assert s.nextId in t.members;
    }
  }

  /** The state an acceptance leads to, and what it needed. */
  lemma AcceptedState(s: State, call: Call)
    requires Consistent(s) && AcceptedInvitation(s, call).Some?
    ensures call.request.AcceptRequest?
    ensures var i := AcceptedInvitation(s, call).value;
            && i in s.invitations && !IsExpired(s.invitations[i], call.request.now)
            && var invitation, user := s.invitations[i], call.request.user;
            && user in call.env.users && call.env.lower(call.env.users[user]) == call.env.lower(invitation.email)
            && var accepted := s.invitations[i := invitation.(acceptedAt := Some(call.request.now))];
            && After(s, call)
                 == if IsMember(s, invitation.workspaceId, user) then s.(invitations := accepted)
                    else s.(members := s.members[s.nextId := Membership(invitation.workspaceId, user, invitation.role)],
                            invitations := accepted,
                            nextId := s.nextId + 1)
  {
    hide Consistent, HasToken, IsMember, IsExpired;
  }

  lemma UsedUp(s: State, call: Call)
    requires Consistent(s) && AcceptedInvitation(s, call).Some?
    ensures var i := AcceptedInvitation(s, call).value; !Spent(s, i) && Spent(After(s, call), i)
  {
    AcceptEffect(s, call);
  }

  lemma SpentStays(s: State, call: Call, invitation: nat)
    requires Consistent(s) && Spent(s, invitation)
    ensures Spent(After(s, call), invitation)
  {
    hide Consistent, IsMember, LastOwner, HasToken, PendingFor, SlugTaken, Changed, IsExpired, FreeSlug, Slugify, Trim;
  }

  function AcceptedAt(s: State, calls: seq<Call>, i: nat): Option<nat>
    requires Consistent(s) && i < |calls|
  {
    AcceptedInvitation(Run(s, calls[..i]), calls[i])
  }

  lemma RunNext(s: State, calls: seq<Call>, n: nat)
    requires Consistent(s) && n < |calls|
    ensures Run(s, calls[..n + 1]) == After(Run(s, calls[..n]), calls[n])
  {
    assert calls[..n + 1][..n] == calls[..n];
  }

  lemma {:induction false} SpentLater(s: State, calls: seq<Call>, i: nat, j: nat, invitation: nat)
    requires Consistent(s) && i <= j <= |calls| && Spent(Run(s, calls[..i]), invitation)
    ensures Spent(Run(s, calls[..j]), invitation)
  {
    if i == j {
    } else {
      hide Run, Spent, After, Apply, Consistent;
      SpentLater(s, calls, i, j - 1, invitation);
      RunNext(s, calls, j - 1);
      SpentStays(Run(s, calls[..j - 1]), calls[j - 1], invitation);
    }
  }

  lemma SpentNotAccepted(s: State, calls: seq<Call>, i: nat, j: nat, invitation: nat)
    requires Consistent(s) && i <= j < |calls| && Spent(Run(s, calls[..i]), invitation)
    ensures AcceptedAt(s, calls, j) != Some(invitation)
  {
    hide Run, Spent, After, Consistent, AcceptedInvitation;
    SpentLater(s, calls, i, j, invitation);
    if AcceptedAt(s, calls, j).Some? {
      UsedUp(Run(s, calls[..j]), calls[j]);
    }
  }

  /** In every run an invitation is accepted at most once, so it makes at most one membership. */
  lemma {:induction false} AcceptedOnce(s: State, calls: seq<Call>, i: nat, j: nat)
    requires Consistent(s) && i < j < |calls| && AcceptedAt(s, calls, i).Some?
    ensures AcceptedAt(s, calls, j) != AcceptedAt(s, calls, i)
  {
    hide Run, Spent, After, Consistent, AcceptedInvitation;
    UsedUp(Run(s, calls[..i]), calls[i]);
    RunNext(s, calls, i);
    SpentNotAccepted(s, calls, i + 1, j, AcceptedAt(s, calls, i).value);
  }

  /** In every run an invitation that has been revoked is never accepted afterwards. */
  lemma {:induction false} RevokedNeverAccepted(s: State, calls: seq<Call>, i: nat, j: nat)
    requires Consistent(s) && i < j < |calls| && calls[i].request.RevokeRequest?
    requires Apply(Run(s, calls[..i]), calls[i]).Ok?
    ensures AcceptedAt(s, calls, j) != Some(calls[i].request.invitation)
  {
    hide Run, Consistent, AcceptedInvitation;
    RevokedIsSpent(Run(s, calls[..i]), calls[i]);
    RunNext(s, calls, i);
    hide Apply, After, Spent;
    SpentNotAccepted(s, calls, i + 1, j, calls[i].request.invitation);
  }

  lemma RevokedIsSpent(s: State, call: Call)
    requires Consistent(s) && call.request.RevokeRequest? && Apply(s, call).Ok?
    ensures Spent(After(s, call), call.request.invitation)
  {
  }

  // ---------------------------------------------------------------- one pending invitation per address

  predicate IsPending(invitation: Invitation) {
    invitation.acceptedAt.None? && invitation.revokedAt.None?
  }

  predicate SamePending(a: Invitation, b: Invitation) {
    IsPending(a) && IsPending(b) && a.workspaceId == b.workspaceId && a.email == b.email
  }

  /** No two pending invitations to one workspace share an address. */
  predicate OnePending(s: State) {
    forall i, j | i in s.invitations && j in s.invitations ::
      SamePending(s.invitations[i], s.invitations[j]) ==> i == j
  }

  lemma StepKeepsOnePending(s: State, call: Call)
    requires Consistent(s) && OnePending(s)
    ensures OnePending(After(s, call))
  {
    hide Consistent, IsMember, LastOwner, HasToken;
    if call.request.InviteRequest? && Apply(s, call).Ok? {
      var address := Trim(call.env.lower(call.request.email));
      assert !PendingFor(s, call.request.workspace, address);
      InvitePending(s, After(s, call), call.request.workspace, address);
    }
  }

  lemma InvitePending(s: State, t: State, workspace: nat, address: string)
    requires OnePending(s) && !PendingFor(s, workspace, address)
    requires s.nextId in t.invitations && t.invitations == s.invitations[s.nextId := t.invitations[s.nextId]]
    requires t.invitations[s.nextId].workspaceId == workspace && t.invitations[s.nextId].email == address
    ensures OnePending(t)
  {
  }

  lemma {:induction false} RunKeepsOnePending(s: State, calls: seq<Call>)
    requires Consistent(s) && OnePending(s)
    ensures OnePending(Run(s, calls))
  {
    if calls == [] {
    } else {
      var n := |calls| - 1;
      RunKeepsOnePending(s, calls[..n]);
      hide OnePending, After;
      StepKeepsOnePending(Run(s, calls[..n]), calls[n]);
    }
  }

  // ---------------------------------------------------------------- who may become a member

  /** Only creating a workspace and accepting an invitation ever add a membership. */
  lemma MembersComeFrom(s: State, call: Call, m: nat)
    requires Consistent(s) && m !in s.members && m in After(s, call).members
    ensures call.request.CreateRequest? || AcceptedInvitation(s, call).Some?
  {
    hide Consistent, IsMember, LastOwner;
  }

  // ---------------------------------------------------------------- what each request does

  /** Everything but the memberships is as it was. */
  predicate OnlyMembersChanged(s: State, t: State) {
    t.workspaces == s.workspaces && t.invitations == s.invitations && t.nextId == s.nextId
  }

  /** `t` is `s` without one membership, after which its user has no part in the workspace. */
  ghost predicate Without(s: State, t: State, member: nat)
    requires member in s.members
  {
    && OnlyMembersChanged(s, t)
    && (forall m :: m in t.members <==> m in s.members && m != member)
    && (forall m | m in t.members :: t.members[m] == s.members[m])
    && !IsMember(t, s.members[member].workspaceId, s.members[member].userId)
  }

  predicate BelongsTo(s: State, member: nat, workspace: nat) {
    member in s.members && s.members[member].workspaceId == workspace
  }

  /** Some owner other than `member` has the workspace. */
  predicate OwnedByAnother(s: State, workspace: nat, member: nat) {
    exists o | o in s.members ::
      o != member && s.members[o].workspaceId == workspace && s.members[o].role == Owner
  }

  lemma AnotherOwnerExactly(s: State, workspace: nat, member: nat)
    requires Consistent(s) && Owned(s) && BelongsTo(s, member, workspace)
    ensures OwnedByAnother(s, workspace, member) <==> !(s.members[member].role == Owner && LastOwner(s, workspace))
    ensures OwnedByAnother(s, workspace, member) <==> Owners(s, workspace) != {member}
  {
    assert workspace in s.workspaces;
    SoleOwner(s, workspace, member);
    var owners := Owners(s, workspace);
    hide LastOwner, Consistent;
    if OwnedByAnother(s, workspace, member) {
      var o :| o in s.members && o != member && s.members[o].workspaceId == workspace && s.members[o].role == Owner;
      assert o in owners;
    } else {
      assert owners <= {member} by { NoneElse(s, workspace, member); }
      assert owners != {};
    }
  }

  lemma NoneElse(s: State, workspace: nat, member: nat)
    requires !OwnedByAnother(s, workspace, member)
    ensures Owners(s, workspace) <= {member}
  {
  }

  lemma WithoutMember(s: State, member: nat)
    requires Consistent(s) && member in s.members
    ensures Without(s, s.(members := s.members - {member}), member)
  {
  }

  /** A member is removed by a member of the same workspace, as long as another owner is left. */
  lemma RemovalEffect(s: State, workspace: nat, member: nat, acting: string)
    requires Consistent(s) && Owned(s)
    ensures var r := RemoveMember(s, workspace, member, acting);
            && (r == Err(NotFound) <==> !IsMember(s, workspace, acting) || !BelongsTo(s, member, workspace))
            && (r.Ok? <==> IsMember(s, workspace, acting) && BelongsTo(s, member, workspace)
                           && OwnedByAnother(s, workspace, member))
            && (r.Ok? ==> Without(s, r.state, member))
  {
    hide Consistent, Owned, IsMember, LastOwner, OwnedByAnother, Owners, Without;
    if BelongsTo(s, member, workspace) {
      AnotherOwnerExactly(s, workspace, member);
      WithoutMember(s, member);
    }
  }

  /** A member leaves, as long as another owner is left. */
  lemma LeavingEffect(s: State, workspace: nat, user: string)
    requires Consistent(s) && Owned(s)
    ensures var r := Leave(s, workspace, user);
            && (r == Err(NotFound) <==> !IsMember(s, workspace, user))
            && (forall m | BelongsTo(s, m, workspace) && s.members[m].userId == user ::
                  && (r.Ok? <==> OwnedByAnother(s, workspace, m))
                  && (r.Ok? ==> Without(s, r.state, m)))
  {
    forall m | BelongsTo(s, m, workspace) && s.members[m].userId == user
      ensures IsMember(s, workspace, user) && m == MembershipOf(s, workspace, user)
      ensures OwnedByAnother(s, workspace, m) <==> !(s.members[m].role == Owner && LastOwner(s, workspace))
      ensures Without(s, s.(members := s.members - {m}), m)
    {
      assert IsMember(s, workspace, user);
      AnotherOwnerExactly(s, workspace, m);
      WithoutMember(s, m);
    }
    hide Consistent, Owned, IsMember, LastOwner, OwnedByAnother, Owners, Without;
  }

  /** A role is changed by a member of the same workspace, unless it is that of the only owner. */
  lemma RoleEffect(s: State, workspace: nat, member: nat, role: Role, acting: string)
    requires Consistent(s) && Owned(s)
    ensures var r := UpdateMemberRole(s, workspace, member, role, acting);
            && (r == Err(NotFound) <==> !IsMember(s, workspace, acting) || !BelongsTo(s, member, workspace))
            && (r.Ok? <==> IsMember(s, workspace, acting) && BelongsTo(s, member, workspace)
                           && OwnedByAnother(s, workspace, member))
            && (r.Ok? ==>
                  && OnlyMembersChanged(s, r.state) && r.state.members.Keys == s.members.Keys
                  && (forall m | m in s.members && m != member :: r.state.members[m] == s.members[m])
                  && r.state.members[member].role == role
                  && r.state.members[member].userId == s.members[member].userId
                  && r.state.members[member].workspaceId == workspace)
  {
    hide Consistent, Owned, IsMember, LastOwner, OwnedByAnother, Owners;
    if BelongsTo(s, member, workspace) {
      AnotherOwnerExactly(s, workspace, member);
    }
  }

  /** A member deletes the workspace with all that belongs to it, and nothing else. */
  lemma RemoveEffect(s: State, workspace: nat, user: string)
    requires Consistent(s)
    ensures var r := Remove(s, workspace, user);
            && (if IsMember(s, workspace, user) then r.Ok? else r == Err(NotFound))
            && (r.Ok? ==>
                  var t := r.state;
                  && (forall w :: w in t.workspaces <==> w in s.workspaces && w != workspace)
                  && (forall w | w in t.workspaces :: t.workspaces[w] == s.workspaces[w])
                  && (forall m :: m in t.members <==> m in s.members && s.members[m].workspaceId != workspace)
                  && (forall m | m in t.members :: t.members[m] == s.members[m])
                  && (forall i :: i in t.invitations
                                  <==> i in s.invitations && s.invitations[i].workspaceId != workspace)
                  && (forall i | i in t.invitations :: t.invitations[i] == s.invitations[i])
                  && t.nextId == s.nextId)
  {
    hide Consistent, IsMember;
  }

  /** A member changes the fields that are named, unless another workspace has the slug. */
  lemma UpdateEffect(s: State, workspace: nat, user: string, changes: Changes)
    requires Consistent(s)
    ensures var r := Update(s, workspace, user, changes);
            var taken := exists w | w in s.workspaces :: w != workspace && changes.slug == Some(s.workspaces[w].slug);
            && (r == Err(NotFound) <==> !IsMember(s, workspace, user))
            && (r == Err(Conflict) <==> IsMember(s, workspace, user) && taken)
            && (r.Ok? <==> IsMember(s, workspace, user) && !taken)
            && (r.Ok? ==>
                  var t := r.state;
                  && workspace in s.workspaces && t.workspaces.Keys == s.workspaces.Keys
                  && (forall w | w in s.workspaces && w != workspace :: t.workspaces[w] == s.workspaces[w])
                  && var old', new' := s.workspaces[workspace], t.workspaces[workspace];
                  && (changes.name.Some? ==> new'.name == changes.name.value)
                  && (changes.name.None? ==> new'.name == old'.name)
                  && (changes.slug.Some? ==> new'.slug == changes.slug.value)
                  && (changes.slug.None? ==> new'.slug == old'.slug)
                  && (changes.description.Some? ==> new'.description == changes.description)
                  && (changes.description.None? ==> new'.description == old'.description)
                  && t.members == s.members && t.invitations == s.invitations && t.nextId == s.nextId)
  {
    if IsMember(s, workspace, user) {
      MemberOfKnown(s, workspace, user);
    }
    hide Consistent, IsMember;
  }

  ghost predicate SlugUsed(workspaces: map<nat, Workspace>, slug: string) {
    exists w | w in workspaces :: workspaces[w].slug == slug
  }

  /** The slug is that of the first number whose candidate no workspace has. */
  ghost predicate FirstFree(slugBase: string, workspaces: map<nat, Workspace>, slug: string, n: nat) {
    && n >= 1 && slug == NumberedSlug(slugBase, n) && !SlugUsed(workspaces, slug)
    && forall m: nat | 1 <= m < n :: SlugUsed(workspaces, NumberedSlug(slugBase, m))
  }

  ghost predicate FirstFreeSlug(slugBase: string, workspaces: map<nat, Workspace>, slug: string) {
    exists n: nat :: FirstFree(slugBase, workspaces, slug, n)
  }

  lemma {:induction false} FreeIsFirst(slugBase: string, workspaces: map<nat, Workspace>, n: nat)
    requires n >= 1 && TakenBefore(slugBase, SlugsOf(workspaces), n)
    ensures FirstFreeSlug(slugBase, workspaces, FreeSlug(slugBase, SlugsOf(workspaces), n))
    decreases |SlugsOf(workspaces)| + 1 - n
  {
    hide NumberedSlug;
    var taken := SlugsOf(workspaces);
    if NumberedSlug(slugBase, n) in taken {
      TakenBeforeNext(slugBase, taken, n);
      Pigeonhole(slugBase, taken, n + 1);
      FreeIsFirst(slugBase, workspaces, n + 1);
    } else {
      forall m: nat | 1 <= m < n
        ensures SlugUsed(workspaces, NumberedSlug(slugBase, m))
      {
        assert NumberedSlug(slugBase, m) in taken;
      }
      assert !SlugUsed(workspaces, NumberedSlug(slugBase, n));
      assert FirstFree(slugBase, workspaces, NumberedSlug(slugBase, n), n);
    }
  }

  /** Creating makes a workspace under the first free slug and its user's ownership, and changes nothing else. */
  lemma CreateEffect(
    s: State, user: string, allowed: bool, name: string, slug: Option<string>, description: Option<string>, env: Env)
    requires Consistent(s)
    ensures var r := Create(s, user, allowed, name, slug, description, env);
            && (if allowed then r.Ok? else r == Err(Forbidden))
            && (allowed ==>
                  var t, w := r.state, s.nextId;
                  && w !in s.workspaces && t.workspaces.Keys == s.workspaces.Keys + {w}
                  && (forall v | v in s.workspaces :: t.workspaces[v] == s.workspaces[v])
                  && t.workspaces[w].name == name && t.workspaces[w].description == description
                  && FirstFreeSlug(Slugify(if slug.Some? then slug.value else name, env.lower), s.workspaces,
                                   t.workspaces[w].slug)
                  && w + 1 !in s.members && t.members == s.members[w + 1 := Membership(w, user, Owner)]
                  && t.invitations == s.invitations && t.nextId == w + 2)
  {
    hide Consistent, Slugify, FirstFreeSlug, TakenBefore, FreeSlug;
    NextIdUnused(s);
    TakenBeforeOne(Slugify(slug.GetOr(name), env.lower), SlugsOf(s.workspaces));
    FreeIsFirst(Slugify(slug.GetOr(name), env.lower), s.workspaces, 1);
  }

  /** Somebody with the address is a member, an invitation of the address is pending there, or the token exists. */
  ghost predicate InviteConflict(s: State, workspace: nat, address: string, tokenHash: string, env: Env) {
    || (exists u | u in env.users :: env.users[u] == address && IsMember(s, workspace, u))
    || (exists i | i in s.invitations ::
          SamePending(s.invitations[i], Invitation(address, Member, "", workspace, 0, None, None)))
    || (exists i | i in s.invitations :: s.invitations[i].tokenHash == tokenHash)
  }

  /** Who may invite whom. */
  lemma InviteRefused(
    s: State, workspace: nat, inviter: string, email: string, role: Option<Role>, tokenHash: string, now: int, env: Env)
    requires Consistent(s)
    ensures var r := Invite(s, workspace, inviter, email, role, tokenHash, now, env);
            var conflict := InviteConflict(s, workspace, Trim(env.lower(email)), tokenHash, env);
            && (r == Err(NotFound) <==> !IsMember(s, workspace, inviter))
            && (r == Err(Conflict) <==> IsMember(s, workspace, inviter) && conflict)
            && (r.Ok? <==> IsMember(s, workspace, inviter) && !conflict)
  {
    PendingIs(s, workspace, Trim(env.lower(email)));
    hide Consistent, IsMember, Trim, PendingFor, SamePending;
  }

  /** A member invites an address, lower-cased and trimmed, for seven days. */
  lemma InviteEffect(
    s: State, workspace: nat, inviter: string, email: string, role: Option<Role>, tokenHash: string, now: int, env: Env)
    requires Consistent(s) && Invite(s, workspace, inviter, email, role, tokenHash, now, env).Ok?
    ensures var t, i := Invite(s, workspace, inviter, email, role, tokenHash, now, env).state, s.nextId;
            && i !in s.invitations && t.workspaces == s.workspaces && t.members == s.members
            && t.nextId == i + 1 && t.invitations.Keys == s.invitations.Keys + {i}
            && (forall j | j in s.invitations :: t.invitations[j] == s.invitations[j])
            && t.invitations[i] == Invitation(Trim(env.lower(email)), if role.Some? then role.value else Member,
                                              tokenHash, workspace, now + 604800000, None, None)
  {
    NextIdUnused(s);
    hide Consistent, IsMember, Trim, PendingFor, HasToken;
  }

  lemma PendingIs(s: State, workspace: nat, address: string)
    ensures PendingFor(s, workspace, address) <==>
            exists i | i in s.invitations ::
              SamePending(s.invitations[i], Invitation(address, Member, "", workspace, 0, None, None))
  {
  }

  /** A member revokes an invitation of the workspace. */
  lemma RevokeEffect(s: State, workspace: nat, invitation: nat, user: string, now: int)
    requires Consistent(s)
    ensures var r := Revoke(s, workspace, invitation, user, now);
            var there := invitation in s.invitations && s.invitations[invitation].workspaceId == workspace;
            && (if IsMember(s, workspace, user) && there then r.Ok? else r == Err(NotFound))
            && (r.Ok? ==>
                  var t := r.state;
                  && t.workspaces == s.workspaces && t.members == s.members && t.nextId == s.nextId
                  && t.invitations.Keys == s.invitations.Keys
                  && (forall i | i in s.invitations && i != invitation :: t.invitations[i] == s.invitations[i])
                  && t.invitations[invitation].revokedAt == Some(now)
                  && t.invitations[invitation].(revokedAt := None) == s.invitations[invitation].(revokedAt := None))
  {
    hide Consistent, IsMember;
  }

  /** An invitation is accepted by its token: unknown, used up or out of date, for somebody else, or accepted. */
  lemma AcceptExactly(s: State, tokenHash: string, user: string, now: int, env: Env, i: nat)
    requires Consistent(s) && i in s.invitations && s.invitations[i].tokenHash == tokenHash
    ensures var r := Accept(s, tokenHash, user, now, env);
            var invitation := s.invitations[i];
            var usable := IsPending(invitation) && now <= invitation.expiresAt;
            var addressed := user in env.users && env.lower(env.users[user]) == env.lower(invitation.email);
            && (r == Err(Conflict) <==> !usable)
            && (r == Err(Forbidden) <==> usable && !addressed)
            && (r.Ok? <==> usable && addressed)
            && (r.Ok? ==>
                  var t := r.state;
                  && t.workspaces == s.workspaces && t.invitations.Keys == s.invitations.Keys
                  && (forall j | j in s.invitations && j != i :: t.invitations[j] == s.invitations[j])
                  && t.invitations[i] == invitation.(acceptedAt := Some(now)))
  {
    assert InvitationOf(s, tokenHash) == i;
    hide Consistent, IsMember, HasToken;
  }

  /** An unknown token is not found. */
  lemma UnknownToken(s: State, tokenHash: string, user: string, now: int, env: Env)
    requires Consistent(s) && forall i | i in s.invitations :: s.invitations[i].tokenHash != tokenHash
    ensures Accept(s, tokenHash, user, now, env) == Err(NotFound)
  {
  }

  // ---------------------------------------------------------------- the one owner

  /** What the validation of requests lets through: nobody is made an owner by a role change or an invitation. */
  predicate Admitted(call: Call) {
    && (call.request.UpdateMemberRoleRequest? ==> call.request.role != Owner)
    && (call.request.InviteRequest? ==> call.request.inviteRole != Some(Owner))
  }

  /** Every workspace has the one owner it was created with, and no invitation is for an owner. */
  ghost predicate SoleOwned(s: State) {
    && (forall w | w in s.workspaces :: Owners(s, w) == {w + 1})
    && (forall i | i in s.invitations :: s.invitations[i].role != Owner)
  }

  /** The membership that owns a workspace before and after, whoever holds it. */
  ghost predicate SameOwner(s: State, t: State, workspace: nat) {
    && Owners(s, workspace) == Owners(t, workspace) == {workspace + 1}
    && workspace + 1 in s.members && workspace + 1 in t.members
    && s.members[workspace + 1] == t.members[workspace + 1]
  }

  lemma SoleOwnerIs(s: State, workspace: nat)
    requires SoleOwned(s) && workspace in s.workspaces
    ensures workspace + 1 in s.members && s.members[workspace + 1].workspaceId == workspace
    ensures s.members[workspace + 1].role == Owner && LastOwner(s, workspace)
  {
    assert workspace + 1 in Owners(s, workspace);
  }

  /** An owner's membership is left alone, and new ones are for no owner. */
  ghost predicate OwnersAlone(s: State, t: State) {
    && (forall m | m in s.members && s.members[m].role == Owner && s.members[m].workspaceId in t.workspaces ::
          m in t.members && t.members[m] == s.members[m])
    && (forall m | m in t.members && t.members[m].role == Owner && t.members[m].workspaceId in s.workspaces ::
          m in s.members && s.members[m] == t.members[m])
  }

  lemma OwnersOfAlone(s: State, t: State, workspace: nat)
    requires OwnersAlone(s, t) && workspace in s.workspaces && workspace in t.workspaces
    ensures Owners(t, workspace) == Owners(s, workspace)
  {
  }

  lemma AloneSame(s: State, t: State)
    requires t.members == s.members
    ensures OwnersAlone(s, t)
  {
  }

  /** One membership changed or left, which was no owner's and is none now. */
  lemma AloneChanged(s: State, t: State, member: nat)
    requires forall m | m != member :: (m in s.members <==> m in t.members)
    requires forall m | m in s.members && m != member :: t.members[m] == s.members[m]
    requires member in s.members ==> s.members[member].role != Owner
    requires member in t.members ==> t.members[member].role != Owner
    ensures OwnersAlone(s, t)
  {
  }

  lemma StepLeavesOwners(s: State, call: Call)
    requires Consistent(s) && SoleOwned(s) && Admitted(call)
    ensures OwnersAlone(s, After(s, call))
  {
    hide *;
    match call.request
    case CreateRequest(_, _, _, _, _) => CreateLeavesOwners(s, call);
    case UpdateRequest(_, _, _) => UpdateLeavesOwners(s, call);
    case RemoveRequest(_, _) => RemoveLeavesOwners(s, call);
    case UpdateMemberRoleRequest(_, _, _, _) => RoleLeavesOwners(s, call);
    case RemoveMemberRequest(_, _, _) => RemovalLeavesOwners(s, call);
    case LeaveRequest(_, _) => LeavingLeavesOwners(s, call);
    case InviteRequest(_, _, _, _, _, _) => InviteLeavesOwners(s, call);
    case RevokeRequest(_, _, _, _) => RevokeLeavesOwners(s, call);
    case AcceptRequest(_, _, _) => AcceptLeavesOwners(s, call);
  }

  lemma UpdateLeavesOwners(s: State, call: Call)
    requires Consistent(s) && call.request.UpdateRequest?
    ensures OwnersAlone(s, After(s, call))
  {
    hide Consistent, IsMember, SlugTaken, Changed, OwnersAlone;
    AloneSame(s, After(s, call));
  }

  lemma InviteLeavesOwners(s: State, call: Call)
    requires Consistent(s) && call.request.InviteRequest?
    ensures OwnersAlone(s, After(s, call))
  {
    hide Consistent, IsMember, PendingFor, HasToken, Trim, OwnersAlone;
    AloneSame(s, After(s, call));
  }

  lemma RevokeLeavesOwners(s: State, call: Call)
    requires Consistent(s) && call.request.RevokeRequest?
    ensures OwnersAlone(s, After(s, call))
  {
    hide Consistent, IsMember, OwnersAlone;
    AloneSame(s, After(s, call));
  }

  lemma RoleLeavesOwners(s: State, call: Call)
    requires Consistent(s) && SoleOwned(s) && Admitted(call) && call.request.UpdateMemberRoleRequest?
    ensures OwnersAlone(s, After(s, call))
  {
    NoOwnerTouched(s, call.request.member);
    RoleChanged(s, call);
    hide Consistent, SoleOwned, LastOwner, OwnersAlone, Apply, After;
    if After(s, call) == s {
      AloneSame(s, s);
    } else {
      AloneChanged(s, After(s, call), call.request.member);
    }
  }

  lemma RoleChanged(s: State, call: Call)
    requires Consistent(s) && call.request.UpdateMemberRoleRequest?
    ensures var member := call.request.member;
            After(s, call) != s ==>
              && member in s.members
              && (s.members[member].role == Owner ==> !LastOwner(s, s.members[member].workspaceId))
              && After(s, call) == s.(members := s.members[member := s.members[member].(role := call.request.role)])
  {
    hide Consistent, IsMember, LastOwner;
  }

  lemma RemovalLeavesOwners(s: State, call: Call)
    requires Consistent(s) && SoleOwned(s) && call.request.RemoveMemberRequest?
    ensures OwnersAlone(s, After(s, call))
  {
    NoOwnerTouched(s, call.request.member);
    hide Consistent, SoleOwned, IsMember, LastOwner, OwnersAlone;
    if Apply(s, call).Ok? {
      AloneChanged(s, After(s, call), call.request.member);
    } else {
      AloneSame(s, s);
    }
  }

  lemma LeavingLeavesOwners(s: State, call: Call)
    requires Consistent(s) && SoleOwned(s) && call.request.LeaveRequest?
    ensures OwnersAlone(s, After(s, call))
  {
    hide Consistent, SoleOwned, IsMember, LastOwner, OwnersAlone;
    if Apply(s, call).Ok? {
      var member := MembershipOf(s, call.request.workspace, call.request.user);
      NoOwnerTouched(s, member);
      AloneChanged(s, After(s, call), member);
    } else {
      AloneSame(s, s);
    }
  }

  lemma AcceptLeavesOwners(s: State, call: Call)
    requires Consistent(s) && SoleOwned(s) && call.request.AcceptRequest?
    ensures OwnersAlone(s, After(s, call))
  {
    if AcceptedInvitation(s, call).Some? {
      AcceptEffect(s, call);
      hide Consistent, After, Apply, AcceptedInvitation, IsMember, Spent, OwnersAlone, Owners;
      AloneAdded(s, After(s, call));
    } else {
      AloneSame(s, s);
    }
  }

  lemma AloneAdded(s: State, t: State)
    requires forall m | m in s.members :: m in t.members && t.members[m] == s.members[m]
    requires forall m | m in t.members && m !in s.members :: t.members[m].role != Owner
    ensures OwnersAlone(s, t)
  {
  }

  lemma CreateLeavesOwners(s: State, call: Call)
    requires Consistent(s) && call.request.CreateRequest?
    ensures OwnersAlone(s, After(s, call))
  {
    NextIdUnused(s);
    hide Consistent, FreeSlug, Slugify;
  }

  lemma RemoveLeavesOwners(s: State, call: Call)
    requires Consistent(s) && call.request.RemoveRequest?
    ensures OwnersAlone(s, After(s, call))
  {
    hide Consistent, IsMember;
  }

  /** The guard of the last owner refuses every request against an owner. */
  lemma NoOwnerTouched(s: State, member: nat)
    requires Consistent(s) && SoleOwned(s)
    ensures member in s.members && s.members[member].role == Owner ==> LastOwner(s, s.members[member].workspaceId)
  {
    if member in s.members && s.members[member].role == Owner {
      SoleOwnerIs(s, s.members[member].workspaceId);
    }
  }

  lemma StepKeepsInvitees(s: State, call: Call)
    requires Consistent(s) && SoleOwned(s) && Admitted(call)
    ensures forall i | i in After(s, call).invitations :: After(s, call).invitations[i].role != Owner
  {
    hide Consistent, HasToken, PendingFor, SlugTaken, Changed, IsExpired, FreeSlug, Slugify, Trim, LastOwner, IsMember,
      Owners;
  }

  /** A workspace that was not there before was created by this request, for its user. */
  lemma NewWorkspace(s: State, call: Call, workspace: nat)
    requires Consistent(s) && workspace !in s.workspaces && workspace in After(s, call).workspaces
    ensures call.request.CreateRequest? && workspace == s.nextId
    ensures Owners(After(s, call), workspace) == {workspace + 1}
    ensures workspace + 1 in After(s, call).members
    ensures After(s, call).members[workspace + 1] == Membership(workspace, call.request.user, Owner)
  {
    OnlyCreateAdds(s, call, workspace);
    CreatorOwns(s, call);
    hide *;
  }

  lemma OnlyCreateAdds(s: State, call: Call, workspace: nat)
    requires Consistent(s) && workspace !in s.workspaces && workspace in After(s, call).workspaces
    ensures call.request.CreateRequest? && Apply(s, call).Ok? && workspace == s.nextId
  {
    hide Consistent, Owners, FreeSlug, Slugify, HasToken, PendingFor, SlugTaken, Changed, IsExpired, Trim, LastOwner,
      IsMember;
    if call.request.UpdateRequest? && IsMember(s, call.request.workspace, call.request.user) {
      MemberOfKnown(s, call.request.workspace, call.request.user);
    }
  }

  lemma CreatorOwns(s: State, call: Call)
    requires Consistent(s) && call.request.CreateRequest? && Apply(s, call).Ok?
    ensures var t := After(s, call);
            && Owners(t, s.nextId) == {s.nextId + 1} && s.nextId + 1 in t.members
            && t.members[s.nextId + 1] == Membership(s.nextId, call.request.user, Owner)
  {
    NextIdUnused(s);
    hide FreeSlug, Slugify;
    assert forall m | m in s.members :: s.members[m].workspaceId != s.nextId;
    hide Consistent;
  }

  /** An admitted request leaves every workspace that stays its owner, and gives a new one its creator. */
  lemma StepKeepsSoleOwner(s: State, call: Call)
    requires Consistent(s) && SoleOwned(s) && Admitted(call)
    ensures SoleOwned(After(s, call))
    ensures forall w | w in s.workspaces && w in After(s, call).workspaces :: SameOwner(s, After(s, call), w)
  {
    var t := After(s, call);
    StepLeavesOwners(s, call);
    StepKeepsInvitees(s, call);
    hide After, Apply, Consistent, LastOwner, OwnersAlone, Owners;
    forall w | w in t.workspaces
      ensures Owners(t, w) == {w + 1}
      ensures w in s.workspaces ==> SameOwner(s, t, w)
    {
      if w in s.workspaces {
        OwnersOfAlone(s, t, w);
        OwnerRow(s, t, w);
      } else {
        NewWorkspace(s, call, w);
      }
    }
  }

  lemma OwnerRow(s: State, t: State, workspace: nat)
    requires OwnersAlone(s, t) && workspace in s.workspaces && workspace in t.workspaces
    requires Owners(s, workspace) == Owners(t, workspace) == {workspace + 1}
    ensures SameOwner(s, t, workspace)
  {
    assert workspace + 1 in Owners(s, workspace);
    assert workspace + 1 in Owners(t, workspace);
  }

  lemma {:induction false} RunKeepsSoleOwner(s: State, calls: seq<Call>)
    requires Consistent(s) && SoleOwned(s) && forall c | c in calls :: Admitted(c)
    ensures SoleOwned(Run(s, calls))
  {
    if calls == [] {
    } else {
      var n := |calls| - 1;
      hide SoleOwned, After, Consistent, Admitted;
      RunKeepsSoleOwner(s, calls[..n]);
      StepKeepsSoleOwner(Run(s, calls[..n]), calls[n]);
    }
  }

  /** The workspace was made by call `k`, for the user of that call. */
  ghost predicate CreatedBy(calls: seq<Call>, k: nat, workspace: nat)
    requires k < |calls|
  {
    calls[k].request.CreateRequest? && Run(EMPTY, calls[..k]).nextId == workspace
  }

  /** Call `k` created the workspace, and its membership is its creator's. */
  ghost predicate OwnedByCreator(calls: seq<Call>, k: nat, workspace: nat, s: State)
    requires k < |calls|
  {
    && CreatedBy(calls, k, workspace)
    && workspace + 1 in s.members
    && s.members[workspace + 1] == Membership(workspace, calls[k].request.user, Owner)
  }

  /** In every admitted run each workspace has exactly one owner, the membership of its creator. */
  lemma {:induction false} OwnerIsCreator(calls: seq<Call>, workspace: nat)
    requires (forall c | c in calls :: Admitted(c)) && workspace in Run(EMPTY, calls).workspaces
    ensures Owners(Run(EMPTY, calls), workspace) == {workspace + 1}
    ensures exists k :: 0 <= k < |calls| && OwnedByCreator(calls, k, workspace, Run(EMPTY, calls))
  {
    assert calls != [];
    var n := |calls| - 1;
    var earlier := calls[..n];
    var s := Run(EMPTY, earlier);
    RunKeepsSoleOwner(EMPTY, earlier);
    assert Run(EMPTY, calls) == After(s, calls[n]);
    hide Run, After, Consistent, Admitted, Owners, OwnedByCreator, SoleOwned;
    if workspace in s.workspaces {
      OwnerIsCreator(earlier, workspace);
      StepKeepsSoleOwner(s, calls[n]);
      var k :| 0 <= k < n && OwnedByCreator(earlier, k, workspace, s);
      CreatedEarlier(calls, k, workspace, s, Run(EMPTY, calls));
    } else {
      CreatedLast(calls, workspace);
    }
  }

  lemma CreatedEarlier(calls: seq<Call>, k: nat, workspace: nat, s: State, t: State)
    requires k + 1 < |calls| && OwnedByCreator(calls[..|calls| - 1], k, workspace, s) && SameOwner(s, t, workspace)
    ensures OwnedByCreator(calls, k, workspace, t)
  {
    hide Run, Owners;
    assert calls[..|calls| - 1][..k] == calls[..k];
  }

  lemma CreatedLast(calls: seq<Call>, workspace: nat)
    requires calls != []
    requires var s := Run(EMPTY, calls[..|calls| - 1]);
             workspace !in s.workspaces && workspace in After(s, calls[|calls| - 1]).workspaces
    ensures var t := After(Run(EMPTY, calls[..|calls| - 1]), calls[|calls| - 1]);
            OwnedByCreator(calls, |calls| - 1, workspace, t) && Owners(t, workspace) == {workspace + 1}
  {
    hide Run, After, Owners;
    NewWorkspace(Run(EMPTY, calls[..|calls| - 1]), calls[|calls| - 1], workspace);
  }

  lemma StepGrows(s: State, call: Call)
    requires Consistent(s)
    ensures s.nextId <= After(s, call).nextId
  {
    hide Consistent, HasToken, PendingFor, SlugTaken, Changed, IsExpired, FreeSlug, Slugify, Trim, LastOwner, IsMember;
  }

  lemma {:induction false} NextIdGrows(s: State, calls: seq<Call>)
    requires Consistent(s)
    ensures s.nextId <= Run(s, calls).nextId
  {
    if calls == [] {
    } else {
      hide After, Consistent;
      NextIdGrows(s, calls[..|calls| - 1]);
      StepGrows(Run(s, calls[..|calls| - 1]), calls[|calls| - 1]);
    }
  }

  /** An id is never used again, so that a workspace that is there later has been there all the time. */
  lemma OldWorkspace(s: State, before: State, call: Call, workspace: nat)
    requires Consistent(s) && Consistent(before) && s.nextId <= before.nextId
    requires workspace in s.workspaces && workspace in After(before, call).workspaces
    ensures workspace in before.workspaces
  {
    assert workspace < s.nextId;
    hide *;
    if workspace !in before.workspaces {
      OnlyCreateAdds(before, call, workspace);
    }
  }

  /** As long as a workspace stays, its owner stays the same. */
  lemma {:induction false} OwnerNeverChanges(s: State, calls: seq<Call>, workspace: nat)
    requires Consistent(s) && SoleOwned(s) && forall c | c in calls :: Admitted(c)
    requires workspace in s.workspaces && workspace in Run(s, calls).workspaces
    ensures SameOwner(s, Run(s, calls), workspace)
  {
    if calls == [] {
      SoleOwnerIs(s, workspace);
    } else {
      var n := |calls| - 1;
      var before := Run(s, calls[..n]);
      hide After, Consistent, SoleOwned, Admitted, Owners;
      NextIdGrows(s, calls[..n]);
      OldWorkspace(s, before, calls[n], workspace);
      OwnerNeverChanges(s, calls[..n], workspace);
      RunKeepsSoleOwner(s, calls[..n]);
      StepKeepsSoleOwner(before, calls[n]);
    }
  }
}
