/** Teams and their membership table (`TeamService`): who belongs to which
    team and with which role. The membership table is also what every kanban
    operation consults before it touches a board. */
module Teams {
  import opened Common
  import opened Tables

  type TeamId = nat
  type UserId = nat

  datatype Role = Owner | Admin | Member

  datatype Team = Team(name: string, description: string, createdBy: UserId)

  /** One row of the `team_member` table. */
  datatype Membership = Membership(team: TeamId, user: UserId, role: Role)

  function MemberKey(m: Membership): (TeamId, UserId)
  {
    (m.team, m.user)
  }

  predicate Matches(m: Membership, team: TeamId, user: UserId)
  {
    m.team == team && m.user == user
  }

  /** `existsByTeam_IdAndUser_Id`. */
  predicate IsMember(members: seq<Membership>, team: TeamId, user: UserId)
  {
    exists i :: 0 <= i < |members| && Matches(members[i], team, user)
  }

  /** `findByTeam_IdAndUser_Id`, read as the role of the (first) matching row. */
  function RoleOf(members: seq<Membership>, team: TeamId, user: UserId): (r: Option<Role>)
    ensures r.Some? <==> IsMember(members, team, user)
    ensures r.Some? ==> Membership(team, user, r.value) in members
  {
    if members == [] then None
    else if Matches(members[0], team, user) then Some(members[0].role)
    else
      var r := RoleOf(members[1..], team, user);
      assert IsMember(members, team, user) ==> IsMember(members[1..], team, user) by {
        if IsMember(members, team, user) {
          var i :| 0 <= i < |members| && Matches(members[i], team, user);
          assert i > 0 && members[1..][i - 1] == members[i];
        }
      }
      r
  }

  /** With one row per (team, user), the role found is the role of that row. */
  lemma {:induction false} RoleOfUnique(members: seq<Membership>, i: nat)
    requires UniqueBy(members, MemberKey)
    requires i < |members|
    ensures RoleOf(members, members[i].team, members[i].user) == Some(members[i].role)
  {
    if i > 0 {
      assert !Matches(members[0], members[i].team, members[i].user) by {
        assert MemberKey(members[0]) != MemberKey(members[i]);
      }
      assert UniqueBy(members[1..], MemberKey) by {
        forall a, b | 0 <= a < b < |members[1..]|
          ensures MemberKey(members[1..][a]) != MemberKey(members[1..][b])
        {
          assert members[1..][a] == members[a + 1] && members[1..][b] == members[b + 1];
        }
      }
      RoleOfUnique(members[1..], i - 1);
    }
  }

  /** `checkTeamMembership`: `IllegalStateException` for a non-member. */
  function CheckTeamMembership(members: seq<Membership>, team: TeamId, user: UserId): (r: Outcome)
    ensures r == Done <==> IsMember(members, team, user)
    ensures r != Done ==> r == Fail(IllegalState)
  {
    if IsMember(members, team, user) then Done else Fail(IllegalState)
  }

  predicate Elevated(role: Role)
  {
    role == Owner || role == Admin
  }

  /** `checkTeamAdminPermission` (the same helper exists in `TeamService`
      and `KanbanService`): an `IllegalStateException` both for a non-member
      and for a plain MEMBER; only OWNER and ADMIN pass. */
  function CheckTeamAdminPermission(members: seq<Membership>, team: TeamId, user: UserId): (r: Outcome)
    ensures r == Done <==> (IsMember(members, team, user) && Elevated(RoleOf(members, team, user).value))
    ensures r != Done ==> r == Fail(IllegalState)
    ensures r == Done ==> IsMember(members, team, user)
  {
    match RoleOf(members, team, user)
    case None => Fail(IllegalState)
    case Some(role) => if Elevated(role) then Done else Fail(IllegalState)
  }

  /** The role an invitation grants: ADMIN only for a role text equal to
      "ADMIN" ignoring case, MEMBER for anything else, including no text. */
  function InvitedRole(requested: Option<string>): (r: Role)
    ensures r != Owner
    ensures r == Admin <==> requested.Some? && EqualsIgnoreCase(requested.value, "ADMIN")
  {
    if requested.Some? && EqualsIgnoreCase(requested.value, "ADMIN") then Admin else Member
  }

  lemma InvitedRoleExamples()
    ensures InvitedRole(Some("admin")) == Admin
    ensures InvitedRole(Some("Owner")) == Member
    ensures InvitedRole(None) == Member
  {
    assert ToUpper("admin") == "ADMIN";
    assert ToUpper("Owner") == "OWNER";
  }

  /** The rows of one team (`findByTeam_Id`). */
  function TeamRows(members: seq<Membership>, team: TeamId): seq<Membership>
  {
    Filter(members, (m: Membership) => m.team == team)
  }

  class TeamService {
    var teams: map<TeamId, Team>
    var members: seq<Membership>
    var nextTeamId: TeamId

    /** Team ids come from an identity column, and the table holds at most
        one row per (team, user). */
    ghost predicate Valid()
      reads this
    {
      && (forall t :: t in teams ==> t < nextTeamId)
      && (forall i :: 0 <= i < |members| ==> members[i].team < nextTeamId)
      && UniqueBy(members, MemberKey)
    }

    constructor ()
      ensures Valid() && teams == map[] && members == []
    {
      teams, members, nextTeamId := map[], [], 0;
    }

    /** `createTeam`: the creator must be a known user; the new team records
        its creator and the creator joins it as OWNER. */
    method CreateTeam(currentUser: UserId, name: string, description: string, users: set<UserId>)
      returns (r: Result<TeamId>)
      requires Valid()
      modifies this
      ensures Valid()
      ensures currentUser !in users ==> r == Err(IllegalArgument) && unchanged(this)
      ensures currentUser in users ==>
        && r.Ok?
        && r.value !in old(teams)
        && teams == old(teams)[r.value := Team(name, description, currentUser)]
        && members == old(members) + [Membership(r.value, currentUser, Owner)]
      ensures r.Ok? ==> RoleOf(members, r.value, currentUser) == Some(Owner)
    {
      if currentUser !in users {
        return Err(IllegalArgument);
      }
      var id := nextTeamId;
      var row := Membership(id, currentUser, Owner);
      AppendUniqueBy(members, row, MemberKey);
      teams := teams[id := Team(name, description, currentUser)];
      members := members + [row];
      nextTeamId := nextTeamId + 1;
      RoleOfUnique(members, |members| - 1);
      r := Ok(id);
    }

    /** `getTeamMembers`: members only. */
    method GetTeamMembers(team: TeamId, currentUser: UserId) returns (r: Result<seq<Membership>>)
      ensures !IsMember(members, team, currentUser) ==> r == Err(IllegalState)
      ensures IsMember(members, team, currentUser) ==>
        r.Ok? && forall m :: m in r.value <==> m in members && m.team == team
    {
      if CheckTeamMembership(members, team, currentUser).Fail? {
        return Err(IllegalState);
      }
      r := Ok(TeamRows(members, team));
    }

    /** `inviteMember`. The checks run in the source's order: caller's role,
        invitee exists, invitee not yet a member, team exists. */
    method InviteMember(team: TeamId, invitee: UserId, requestedRole: Option<string>,
                        currentUser: UserId, users: set<UserId>)
      returns (r: Result<Membership>)
      requires Valid()
      modifies this
      ensures Valid()
      ensures CheckTeamAdminPermission(old(members), team, currentUser).Fail? ==>
        r == Err(IllegalState)
      ensures CheckTeamAdminPermission(old(members), team, currentUser) == Done && invitee !in users ==>
        r == Err(IllegalArgument)
      ensures (CheckTeamAdminPermission(old(members), team, currentUser) == Done && invitee in users &&
               IsMember(old(members), team, invitee)) ==> r == Err(IllegalState)
      ensures r.Err? ==> unchanged(this)
      ensures r.Ok? <==>
        && CheckTeamAdminPermission(old(members), team, currentUser) == Done
        && invitee in users && !IsMember(old(members), team, invitee) && team in old(teams)
      ensures r.Ok? ==>
        && r.value == Membership(team, invitee, InvitedRole(requestedRole))
        && members == old(members) + [r.value]
        && teams == old(teams)
    {
      if CheckTeamAdminPermission(members, team, currentUser).Fail? {
        return Err(IllegalState);
      }
      if invitee !in users {
        return Err(IllegalArgument);
      }
      if IsMember(members, team, invitee) {
        return Err(IllegalState);
      }
      if team !in teams {
        return Err(IllegalArgument);
      }
      var row := Membership(team, invitee, InvitedRole(requestedRole));
      forall y | y in members ensures MemberKey(y) != MemberKey(row) {
        var i :| 0 <= i < |members| && members[i] == y;
        assert !Matches(members[i], team, invitee);
      }
      AppendUniqueBy(members, row, MemberKey);
      members := members + [row];
      r := Ok(row);
    }

    /** `removeMember`: an OWNER or ADMIN caller may remove any member that
        is not an OWNER; the row of that user in that team is deleted and
        nothing else. */
    method RemoveMember(team: TeamId, memberUser: UserId, currentUser: UserId) returns (r: Outcome)
      requires Valid()
      modifies this`members
      ensures Valid()
      ensures CheckTeamAdminPermission(old(members), team, currentUser).Fail? ==> r == Fail(IllegalState)
      ensures (CheckTeamAdminPermission(old(members), team, currentUser) == Done &&
               !IsMember(old(members), team, memberUser)) ==> r == Fail(IllegalArgument)
      ensures (CheckTeamAdminPermission(old(members), team, currentUser) == Done &&
               RoleOf(old(members), team, memberUser) == Some(Owner)) ==> r == Fail(IllegalState)
      ensures r.Fail? ==> members == old(members)
      ensures r == Done <==>
        && CheckTeamAdminPermission(old(members), team, currentUser) == Done
        && RoleOf(old(members), team, memberUser).Some?
        && RoleOf(old(members), team, memberUser) != Some(Owner)
      ensures r == Done ==> !IsMember(members, team, memberUser)
      ensures r == Done ==> forall m :: m in members <==> m in old(members) && !Matches(m, team, memberUser)
    {
      if CheckTeamAdminPermission(members, team, currentUser).Fail? {
        return Fail(IllegalState);
      }
      var target := RoleOf(members, team, memberUser);
      if target.None? {
        return Fail(IllegalArgument);
      }
      if target.value == Owner {
        return Fail(IllegalState);
      }
      var keep := (m: Membership) => !Matches(m, team, memberUser);
      FilterUniqueBy(members, keep, MemberKey);
      members := Filter(members, keep);
      r := Done;
    }

    /** `deleteTeam`: only the user recorded as the team's creator may delete
        it; the caller's role is never consulted. */
    method DeleteTeam(team: TeamId, currentUser: UserId) returns (r: Outcome)
      requires Valid()
      modifies this
      ensures Valid()
      ensures team !in old(teams) ==> r == Fail(IllegalArgument)
      ensures team in old(teams) && old(teams)[team].createdBy != currentUser ==> r == Fail(IllegalState)
      ensures r.Fail? ==> unchanged(this)
      ensures r == Done <==> team in old(teams) && old(teams)[team].createdBy == currentUser
      ensures r == Done ==> teams == old(teams) - {team} && members == Filter(old(members), (m: Membership) => m.team != team)
    {
      if team !in teams {
        return Fail(IllegalArgument);
      }
      if teams[team].createdBy != currentUser {
        return Fail(IllegalState);
      }
      var keep := (m: Membership) => m.team != team;
      FilterUniqueBy(members, keep, MemberKey);
      teams := teams - {team};
      members := Filter(members, keep);
      r := Done;
    }
  }

  /** A team's creator holds OWNER right after `createTeam`, and so passes the
      OWNER/ADMIN check. */
  lemma CreatorIsAdmin(members: seq<Membership>, team: TeamId, user: UserId)
    requires UniqueBy(members + [Membership(team, user, Owner)], MemberKey)
    ensures CheckTeamAdminPermission(members + [Membership(team, user, Owner)], team, user) == Done
  {
    var ms := members + [Membership(team, user, Owner)];
    RoleOfUnique(ms, |ms| - 1);
  }
}
