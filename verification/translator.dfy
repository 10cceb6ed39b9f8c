/**
 * The SCIM translator (GiteaSCIMWrapper): each operation issues one or more
 * backend requests, gates on the status codes it gets back, and shapes the
 * backend's records into SCIM resources. "No result" (Python's implicit
 * `None`) is `None`.
 */
module Translator {
  import opened Wrappers
  import opened Resources
  import opened Client

  const DefaultTeamName := "Default"
  const DefaultTeamSummary := "Default group created by SCIM provisioning"
  /** The units _get_org_default_team grants a Default team it creates. */
  const DefaultTeamUnits := ["repo.code", "repo.issues", "repo.ext_issues", "repo.wiki",
                             "repo.pulls", "repo.releases", "repo.projects", "repo.ext_wiki"]

  /** The create-team request for a Default team: read permission on all
      repositories, no repository creation. */
  function DefaultTeamRequest(org: string, units: seq<string>): Request {
    CreateTeam(org, DefaultTeamName, DefaultTeamSummary, false, true, "read", units)
  }

  function DefaultTeam(id: int, units: seq<string>): Team {
    Team(id, DefaultTeamName, DefaultTeamSummary, false, true, "read", units)
  }

  /** The position of the first team named "Default", if there is one. */
  function FirstDefault(ts: seq<Team>): (r: Option<nat>)
    ensures r.Some? ==> r.value < |ts| && ts[r.value].name == DefaultTeamName
    ensures r.Some? ==> forall j :: 0 <= j < r.value ==> ts[j].name != DefaultTeamName
    ensures r.None? ==> forall j :: 0 <= j < |ts| ==> ts[j].name != DefaultTeamName
  {
    if ts == [] then None
    else if ts[0].name == DefaultTeamName then Some(0)
    else match FirstDefault(ts[1..])
      case None => None
      case Some(k) => Some(k + 1)
  }

  /** One remove-member request per team, in the teams' order. */
  function RemoveRequests(ts: seq<Team>, member: string): (r: seq<Request>)
    ensures |r| == |ts|
    ensures forall k :: 0 <= k < |ts| ==> r[k] == RemoveTeamMember(ts[k].id, member)
  {
    if ts == [] then [] else RemoveRequests(ts[..|ts| - 1], member) + [RemoveTeamMember(ts[|ts| - 1].id, member)]
  }

  /** `id` is the id of a team named "Default" among `ts`. */
  predicate IsDefaultTeam(ts: seq<Team>, id: int) {
    exists j :: 0 <= j < |ts| && ts[j].id == id && ts[j].name == DefaultTeamName
  }

  /** The teams of every organization once a Default team with id `id` has
      been added to `org`. */
  function WithDefaultTeam(teams: map<string, seq<Team>>, org: string, id: int): (r: map<string, seq<Team>>)
    ensures org in r && IsDefaultTeam(r[org], id)
    ensures forall o :: o in teams && o != org ==> o in r && r[o] == teams[o]
  {
    var ts := if org in teams then teams[org] else [];
    assert (ts + [DefaultTeam(id, DefaultTeamUnits)])[|ts|].name == DefaultTeamName;
    teams[org := ts + [DefaultTeam(id, DefaultTeamUnits)]]
  }

  /** scim_get_user: the SCIM user only when the read is answered 200. */
  method ScimGetUser(api: GiteaApi, username: string) returns (r: Option<ScimUser>, ghost status: int)
    modifies api`log
    ensures api.log == old(api.log) + [Exchange(GetUser(username), status)]
    ensures r == if status == 200 then SerializeUser(api.UserNamed(username)) else None
  {
    var s, body := api.GetUser(username);
    status := s;
    r := if s == 200 then SerializeUser(body) else None;
  }

  /** scim_get_users: every record of the answered run serialised in order
      on 200; `window` is the run the backend chose. */
  method ScimGetUsers(api: GiteaApi, page: Option<int>, limit: Option<int>)
    returns (r: Option<seq<Option<ScimUser>>>, ghost status: int, ghost window: (nat, nat))
    modifies api`log
    ensures window == old(api.NextWindow(ListUsers(PageQuery(page, limit))))
    ensures api.log == old(api.log) + [Exchange(ListUsers(PageQuery(page, limit)), status)]
    ensures r.Some? <==> status == 200
    ensures r.Some? ==> r.value == SerializeUsers(Window(UserListing(api.users, api.userOrder), window.0, window.1))
  {
    window := api.NextWindow(ListUsers(PageQuery(page, limit)));
    var s, body := api.ListUsers(page, limit);
    status := s;
    r := if s == 200 then Some(SerializeUsers(body)) else None;
  }

  /** scim_create_user: one create request (which does not pass on
      must_change_password, send_notify or visibility, so the backend gets
      false, false and "limited"); on 201 the user is read back, whatever
      that read is answered, and serialised. */
  method ScimCreateUser(api: GiteaApi, email: Option<string>, fullName: Option<string>, username: string,
                        password: string, loginName: string, sourceId: Option<int>,
                        mustChangePassword: bool, sendNotify: bool, visibility: Option<string>)
    returns (r: Option<ScimUser>, ghost created: int, ghost read: Option<int>)
    modifies api`log, api`users, api`userOrder
    ensures read.Some? <==> created == 201
    ensures var req := CreateUser(email, fullName, username, password, loginName, sourceId, false, false, Some("limited"));
            api.log == old(api.log) + [Exchange(req, created)] +
                       (if read.Some? then [Exchange(GetUser(username), read.value)] else [])
    ensures r == if read == Some(200) then SerializeUser(api.UserNamed(username)) else None
    ensures api.users == if Succeeded(created)
                         then old(api.users)[username := NewUser(email, fullName, username, loginName, sourceId, Some("limited"))]
                         else old(api.users)
    ensures api.userOrder == if Succeeded(created) then Appended(old(api.userOrder), username) else old(api.userOrder)
    ensures read == Some(200) && username != "" ==> r.Some? && r.value.id == username && r.value.userName == username
  {
    var c := api.CreateUser(email, fullName, username, password, loginName, sourceId, false, false, Some("limited"));
    created, r, read := c, None, None;
    if c == 201 {
      var s, body := api.GetUser(username);
      r, read := SerializeUser(body), Some(s);
    }
  }

  /** scim_edit_user: one edit request. On 201 the success branch reads the
      user through an attribute the wrapper does not have and raises; on any
      other status there is no result. */
  method ScimEditUser(api: GiteaApi, username: string, fields: map<string, Value>)
    returns (r: Outcome<Option<ScimUser>>, ghost status: int)
    modifies api`log, api`users
    ensures api.log == old(api.log) + [Exchange(EditUser(username, fields), status)]
    ensures r == if status == 201 then Raised else Returned(None)
    ensures api.users == if Succeeded(status) && username in old(api.users)
                         then old(api.users)[username := EditedUser(old(api.users)[username], fields)]
                         else old(api.users)
  {
    var s := api.EditUser(username, fields);
    status := s;
    r := if s == 201 then Raised else Returned(None);
  }

  /** scim_create_org: create the organization; only on 201, create its
      Default team (with the configured `units`) and report the created
      organization whatever the team creation was answered. */
  method ScimCreateOrg(api: GiteaApi, org: string, visibility: Option<string>, fullName: Option<string>,
                       description: Option<string>, location: Option<string>, website: Option<string>,
                       units: seq<string>)
    returns (r: Option<ScimGroup>, ghost created: int, ghost teamMade: Option<int>)
    modifies api`log, api`orgs, api`orgOrder, api`teams, api`nextTeamId
    ensures teamMade.Some? <==> created == 201
    ensures api.log == old(api.log) + [Exchange(CreateOrg(org, visibility, fullName, description, location, website), created)] +
                       (if teamMade.Some? then [Exchange(DefaultTeamRequest(org, units), teamMade.value)] else [])
    ensures r == if created == 201 then SerializeOrg(NewOrg(org, visibility, fullName, description, location, website)) else None
    ensures created == 201 && org != "" ==> r.Some? && r.value.id == org && r.value.displayName == org
    ensures api.orgs == if Succeeded(created)
                        then old(api.orgs)[org := NewOrg(org, visibility, fullName, description, location, website)]
                        else old(api.orgs)
    ensures api.orgOrder == if Succeeded(created) then Appended(old(api.orgOrder), org) else old(api.orgOrder)
    ensures var teamOk := teamMade.Some? && Succeeded(teamMade.value);
            && api.teams == (if teamOk then old(api.teams)[org := old(api.TeamsOf(org)) + [DefaultTeam(old(api.nextTeamId), units)]]
                             else old(api.teams))
            && api.nextTeamId == if teamOk then old(api.nextTeamId) + 1 else old(api.nextTeamId)
  {
    var c, body := api.CreateOrg(org, visibility, fullName, description, location, website);
    created, r, teamMade := c, None, None;
    if c == 201 {
      var s, id := api.CreateTeam(org, DefaultTeamName, DefaultTeamSummary, false, true, "read", units);
      r, teamMade := SerializeOrg(body), Some(s);
    }
  }

  /** scim_get_org: the SCIM group only when the read is answered 200. */
  method ScimGetOrg(api: GiteaApi, org: string) returns (r: Option<ScimGroup>, ghost status: int)
    modifies api`log
    ensures api.log == old(api.log) + [Exchange(GetOrg(org), status)]
    ensures r == if status == 200 then SerializeOrg(api.OrgNamed(org)) else None
  {
    var s, body := api.GetOrg(org);
    status := s;
    r := if s == 200 then SerializeOrg(body) else None;
  }

  /** scim_get_orgs: every organization of the answered run serialised in
      order on 200. */
  method ScimGetOrgs(api: GiteaApi, page: Option<int>, limit: Option<int>)
    returns (r: Option<seq<Option<ScimGroup>>>, ghost status: int, ghost window: (nat, nat))
    modifies api`log
    ensures window == old(api.NextWindow(ListOrgs(PageQuery(page, limit))))
    ensures api.log == old(api.log) + [Exchange(ListOrgs(PageQuery(page, limit)), status)]
    ensures r.Some? <==> status == 200
    ensures r.Some? ==> r.value == SerializeOrgs(Window(OrgListing(api.orgs, api.orgOrder), window.0, window.1))
  {
    window := api.NextWindow(ListOrgs(PageQuery(page, limit)));
    var s, body := api.ListOrgs(page, limit);
    status := s;
    r := if s == 200 then Some(SerializeOrgs(body)) else None;
  }

  /** scim_edit_org: one edit request; the edited group only on 200. */
  method ScimEditOrg(api: GiteaApi, org: string, fields: map<string, Value>)
    returns (r: Option<ScimGroup>, ghost status: int)
    modifies api`log, api`orgs
    ensures api.log == old(api.log) + [Exchange(EditOrg(org, fields), status)]
    ensures r == if status == 200 then SerializeOrg(api.OrgNamed(org)) else None
    ensures api.orgs == if Succeeded(status) && org in old(api.orgs)
                        then old(api.orgs)[org := EditedOrg(old(api.orgs)[org], fields)]
                        else old(api.orgs)
  {
    var s, body := api.EditOrg(org, fields);
    status := s;
    r := if s == 200 then SerializeOrg(body) else None;
  }

  /** What _get_org_default_team does, for an organization whose teams are
      `ts` and a backend that hands out `nextId` next: `xs` are its
      exchanges and `r` its answer. The listing comes first; on 200 the
      first team named "Default" is answered and nothing is created; when
      there is none and `create` holds, exactly one Default team is
      requested, and its id is answered only if that is answered 201. */
  ghost predicate ResolvesDefault(org: string, create: bool, ts: seq<Team>, nextId: int,
                                  xs: seq<Exchange>, r: Option<int>)
  {
    && |xs| >= 1 && xs[0].request == ListTeams(org)
    && var listed := xs[0].status == 200;
       var creates := listed && FirstDefault(ts).None? && create;
       && |xs| == (if creates then 2 else 1)
       && (creates ==> xs[1].request == DefaultTeamRequest(org, DefaultTeamUnits))
       && r == if !listed then None
               else if FirstDefault(ts).Some? then Some(ts[FirstDefault(ts).value].id)
               else if creates && xs[1].status == 201 then Some(nextId)
               else None
  }

  /** Whether the exchanges of _get_org_default_team created a team. */
  predicate CreatedTeam(xs: seq<Exchange>) {
    |xs| == 2 && Succeeded(xs[1].status)
  }

  /** _get_org_default_team: look the Default team up among the
      organization's teams, creating it when asked to. Whatever id it
      answers names a Default team of the organization afterwards. */
  method GetOrgDefaultTeam(api: GiteaApi, org: string, create: bool) returns (r: Option<int>, ghost xs: seq<Exchange>)
    modifies api`log, api`teams, api`nextTeamId
    ensures api.log == old(api.log) + xs
    ensures ResolvesDefault(org, create, old(api.TeamsOf(org)), old(api.nextTeamId), xs, r)
    ensures api.teams == if CreatedTeam(xs) then WithDefaultTeam(old(api.teams), org, old(api.nextTeamId)) else old(api.teams)
    ensures api.nextTeamId == if CreatedTeam(xs) then old(api.nextTeamId) + 1 else old(api.nextTeamId)
    ensures r.Some? ==> IsDefaultTeam(api.TeamsOf(org), r.value)
  {
    var status, ts := api.ListTeams(org);
    xs := [Exchange(ListTeams(org), status)];
    r := None;
    if status == 200 {
      var i := 0;
      while i < |ts|
        invariant 0 <= i <= |ts|
        invariant forall j :: 0 <= j < i ==> ts[j].name != DefaultTeamName
      {
        if ts[i].name == DefaultTeamName {
          assert FirstDefault(ts) == Some(i);
          r := Some(ts[i].id);
          return;
        }
        i := i + 1;
      }
      if create {
        var s, id := api.CreateTeam(org, DefaultTeamName, DefaultTeamSummary, false, true, "read", DefaultTeamUnits);
        xs := xs + [Exchange(DefaultTeamRequest(org, DefaultTeamUnits), s)];
        if s == 201 {
          r := Some(id);
        }
      }
    }
  }

  /** scim_add_org_member: resolve (creating if need be) the Default team;
      when a nonzero team id comes back, add the member to that team alone;
      report the refreshed group only when the add is answered 201. The
      ghost results are the team id _get_org_default_team answered and the
      exchanges of the resolving and of the adding. */
  method ScimAddOrgMember(api: GiteaApi, org: string, member: string)
    returns (r: Option<ScimGroup>, ghost team: Option<int>, ghost resolving: seq<Exchange>, ghost adding: seq<Exchange>)
    modifies api`log, api`teams, api`members, api`nextTeamId
    ensures api.log == old(api.log) + resolving + adding
    ensures ResolvesDefault(org, true, old(api.TeamsOf(org)), old(api.nextTeamId), resolving, team)
    ensures api.teams == if CreatedTeam(resolving) then WithDefaultTeam(old(api.teams), org, old(api.nextTeamId)) else old(api.teams)
    ensures api.nextTeamId == if CreatedTeam(resolving) then old(api.nextTeamId) + 1 else old(api.nextTeamId)
    ensures team.None? || team.value == 0 ==> adding == [] && r.None? && api.members == old(api.members)
    ensures team.Some? && team.value != 0 ==>
              && 1 <= |adding| <= 2
              && adding[0].request == AddTeamMember(team.value, member)
              && api.members == (if Succeeded(adding[0].status)
                                 then old(api.members)[team.value := MembersIn(old(api.members), team.value) + {member}]
                                 else old(api.members))
              && (|adding| == 2 <==> adding[0].status == 201)
              && (|adding| == 2 ==> adding[1].request == GetOrg(org))
              && r == if |adding| == 2 && adding[1].status == 200 then SerializeOrg(api.OrgNamed(org)) else None
    ensures r.Some? ==> team.Some? && IsDefaultTeam(api.TeamsOf(org), team.value) && member in api.MembersOf(team.value)
  {
    var teamId;
    teamId, resolving := GetOrgDefaultTeam(api, org, true);
    team, adding, r := teamId, [], None;
    if teamId.Some? && teamId.value != 0 {
      var status := api.AddTeamMember(teamId.value, member);
      adding := [Exchange(AddTeamMember(teamId.value, member), status)];
      if status == 201 {
        ghost var s;
        r, s := ScimGetOrg(api, org);
        adding := adding + [Exchange(GetOrg(org), s)];
      }
    }
  }

  /** The membership map after removing `member` from the teams `ids`, in
      order, where `st[k]` is the status the k-th removal was answered. */
  function Swept(m: map<int, set<string>>, ids: seq<int>, st: seq<int>, member: string): map<int, set<string>>
    requires |ids| == |st|
    decreases |ids|
  {
    if ids == [] then m
    else
      var prev := Swept(m, ids[..|ids| - 1], st[..|st| - 1], member);
      var t := ids[|ids| - 1];
      if Succeeded(st[|st| - 1]) then prev[t := MembersIn(prev, t) - {member}] else prev
  }

  function TeamIds(ts: seq<Team>): (r: seq<int>)
    ensures |r| == |ts|
    ensures forall k :: 0 <= k < |ts| ==> r[k] == ts[k].id
  {
    if ts == [] then [] else TeamIds(ts[..|ts| - 1]) + [ts[|ts| - 1].id]
  }

  /** A sweep takes nobody but `member` out of any team. */
  lemma {:induction false} SweptOnlyRemovesMember(m: map<int, set<string>>, ids: seq<int>, st: seq<int>, member: string, t: int)
    requires |ids| == |st|
    ensures MembersIn(Swept(m, ids, st, member), t) == MembersIn(m, t) ||
            MembersIn(Swept(m, ids, st, member), t) == MembersIn(m, t) - {member}
  {
    if ids != [] {
      SweptOnlyRemovesMember(m, ids[..|ids| - 1], st[..|st| - 1], member, t);
    }
  }

  /** Every team whose removal succeeded no longer has `member`. */
  lemma {:induction false} SweptRemovesFromSucceeded(m: map<int, set<string>>, ids: seq<int>, st: seq<int>, member: string, k: nat)
    requires |ids| == |st| && k < |ids| && Succeeded(st[k])
    ensures member !in MembersIn(Swept(m, ids, st, member), ids[k])
  {
    var n := |ids| - 1;
    if k < n {
      SweptRemovesFromSucceeded(m, ids[..n], st[..n], member, k);
      var prev := Swept(m, ids[..n], st[..n], member);
      assert member !in MembersIn(prev, ids[k]);
      if Succeeded(st[n]) {
        assert MembersIn(Swept(m, ids, st, member), ids[k]) <= MembersIn(prev, ids[k]) + (MembersIn(prev, ids[n]) - {member});
      }
    }
  }

  /** Teams the sweep does not visit keep their members. */
  lemma {:induction false} SweptLeavesOthers(m: map<int, set<string>>, ids: seq<int>, st: seq<int>, member: string, t: int)
    requires |ids| == |st| && t !in ids
    ensures MembersIn(Swept(m, ids, st, member), t) == MembersIn(m, t)
  {
    if ids != [] {
      SweptLeavesOthers(m, ids[..|ids| - 1], st[..|st| - 1], member, t);
    }
  }

  /** When every removal succeeds, `member` is in none of the swept teams:
      removal revokes membership of every team of the organization. */
  lemma SweptAll(m: map<int, set<string>>, ids: seq<int>, st: seq<int>, member: string)
    requires |ids| == |st| && forall k :: 0 <= k < |st| ==> Succeeded(st[k])
    ensures forall t :: t in ids ==> member !in MembersIn(Swept(m, ids, st, member), t)
  {
    forall t | t in ids
      ensures member !in MembersIn(Swept(m, ids, st, member), t)
    {
      var k :| 0 <= k < |ids| && ids[k] == t;
      SweptRemovesFromSucceeded(m, ids, st, member, k);
    }
  }

  /** One more team swept: the log gains one remove request and its
      answer, and the membership map one removal if it succeeded. */
  lemma SweepStep(log0: seq<Exchange>, m0: map<int, set<string>>, ts: seq<Team>, st: seq<int>, i: nat,
                  member: string, s: int, log: seq<Exchange>, m: map<int, set<string>>)
    requires i < |ts| && |st| == i
    requires log == log0 + Exchanges(RemoveRequests(ts[..i], member), st)
    requires m == Swept(m0, TeamIds(ts[..i]), st, member)
    ensures log + [Exchange(RemoveTeamMember(ts[i].id, member), s)] ==
            log0 + Exchanges(RemoveRequests(ts[..i + 1], member), st + [s])
    ensures Swept(m0, TeamIds(ts[..i + 1]), st + [s], member) ==
            if Succeeded(s) then m[ts[i].id := MembersIn(m, ts[i].id) - {member}] else m
  {
    assert ts[..i + 1][..i] == ts[..i];
    var ids := TeamIds(ts[..i]);
    assert TeamIds(ts[..i + 1]) == ids + [ts[i].id];
    assert (ids + [ts[i].id])[..i] == ids;
    assert (st + [s])[..i] == st;
    var reqs := RemoveRequests(ts[..i], member);
    assert RemoveRequests(ts[..i + 1], member) == reqs + [RemoveTeamMember(ts[i].id, member)];
    ExchangesSnoc(reqs, st, RemoveTeamMember(ts[i].id, member), s);
  }

  /** The loop of scim_remove_org_member: one remove request per team, in
      order, whatever each is answered; `st` are the answers. */
  method SweepTeams(api: GiteaApi, ts: seq<Team>, member: string) returns (ghost st: seq<int>)
    modifies api`log, api`members
    ensures |st| == |ts|
    ensures api.log == old(api.log) + Exchanges(RemoveRequests(ts, member), st)
    ensures api.members == Swept(old(api.members), TeamIds(ts), st, member)
  {
    st := [];
    var i := 0;
    while i < |ts|
      invariant 0 <= i <= |ts| && |st| == i
      invariant api.log == old(api.log) + Exchanges(RemoveRequests(ts[..i], member), st)
      invariant api.members == Swept(old(api.members), TeamIds(ts[..i]), st, member)
    {
      ghost var log, m := api.log, api.members;
      var s := api.RemoveTeamMember(ts[i].id, member);
      SweepStep(old(api.log), old(api.members), ts, st, i, member, s, log, m);
      st := st + [s];
      i := i + 1;
    }
    assert ts[..i] == ts;
  }

  /** scim_remove_org_member: read the organization's teams and, on 200,
      send one remove request per team (Default or not), whatever each is
      answered; then report the refreshed group in every case. `swept` are
      the teams the removal went over and `st` the answers to the removals. */
  method ScimRemoveOrgMember(api: GiteaApi, org: string, member: string)
    returns (r: Option<ScimGroup>, ghost listed: int, ghost swept: seq<Team>, ghost st: seq<int>, ghost read: int)
    modifies api`log, api`members
    ensures swept == if listed == 200 then old(api.TeamsOf(org)) else []
    ensures |st| == |swept|
    ensures api.log == old(api.log) + [Exchange(ListTeams(org), listed)] +
                       Exchanges(RemoveRequests(swept, member), st) + [Exchange(GetOrg(org), read)]
    ensures api.members == Swept(old(api.members), TeamIds(swept), st, member)
    ensures forall k :: 0 <= k < |swept| && Succeeded(st[k]) ==> member !in api.MembersOf(swept[k].id)
    ensures r == if read == 200 then SerializeOrg(api.OrgNamed(org)) else None
  {
    var s, ts := api.ListTeams(org);
    listed, swept, st := s, ts, [];
    if s == 200 {
      st := SweepTeams(api, ts, member);
    }
    forall k | 0 <= k < |swept| && Succeeded(st[k])
      ensures member !in api.MembersOf(swept[k].id)
    {
      SweptRemovesFromSucceeded(old(api.members), TeamIds(swept), st, member, k);
    }
    r, read := ScimGetOrg(api, org);
  }
}
