/**
 * The backend client (GiteaAPI) and the remote admin API it talks to.
 *
 * Each client call becomes one request appended to the backend's log
 * together with the status code the backend answered. The status codes
 * are chosen by the backend (an arbitrary, fixed function of the position
 * of the request in the log and of the request itself); the bodies come
 * from the backend's state. A successful (2xx) answer to a creating or
 * editing request applies its effect; any other answer leaves the state
 * alone.
 */
module Client {
  import opened Wrappers
  import opened Resources

  /** Python truthiness of an optional number: missing and zero are both false. */
  predicate Given(n: Option<int>) {
    n.Some? && n.value != 0
  }

  /** The query parameters a listing request carries. */
  function PageQuery(page: Option<int>, limit: Option<int>): (q: map<string, int>)
    ensures "page" in q <==> Given(page)
    ensures "limit" in q <==> Given(limit)
    ensures "page" in q ==> q["page"] == page.value
    ensures "limit" in q ==> q["limit"] == limit.value
    ensures q.Keys <= {"page", "limit"}
  {
    var p := if Given(page) then map["page" := page.value] else map[];
    if Given(limit) then p["limit" := limit.value] else p
  }

  /** The `params` dictionary of get_users and get_orgs, built key by key. */
  method BuildPageParams(page: Option<int>, limit: Option<int>) returns (params: map<string, int>)
    ensures params == PageQuery(page, limit)
  {
    params := map[];
    if page.Some? && page.value != 0 {
      params := params["page" := page.value];
    }
    if limit.Some? && limit.value != 0 {
      params := params["limit" := limit.value];
    }
  }

  /** One request to the backend, with the arguments the client sends. */
  datatype Request =
    | GetUser(username: string)
    | ListUsers(query: map<string, int>)
    | CreateUser(email: Option<string>, fullName: Option<string>, username: string,
                 password: string, loginName: string, sourceId: Option<int>,
                 mustChangePassword: bool, sendNotify: bool, visibility: Option<string>)
    | EditUser(username: string, fields: map<string, Value>)
    | ListOrgs(query: map<string, int>)
    | GetOrg(org: string)
    | ListTeams(org: string)
    | CreateTeam(org: string, name: string, summary: string, canCreateOrgRepo: bool,
                 includesAllRepositories: bool, permission: string, units: seq<string>)
    | AddTeamMember(teamId: int, username: string)
    | RemoveTeamMember(teamId: int, username: string)
    | CreateOrg(org: string, visibility: Option<string>, fullName: Option<string>,
                description: Option<string>, location: Option<string>, website: Option<string>)
    | EditOrg(org: string, fields: map<string, Value>)

  /** A request together with the status code the backend answered. */
  datatype Exchange = Exchange(request: Request, status: int)

  /** The exchanges of `reqs` answered, in order, with the statuses `st`. */
  function Exchanges(reqs: seq<Request>, st: seq<int>): (xs: seq<Exchange>)
    requires |reqs| == |st|
    ensures |xs| == |reqs|
    decreases |reqs|
  {
    if reqs == [] then []
    else Exchanges(reqs[..|reqs| - 1], st[..|st| - 1]) + [Exchange(reqs[|reqs| - 1], st[|st| - 1])]
  }

  /** The k-th exchange is the k-th request with the k-th status. */
  lemma {:induction false} ExchangesAt(reqs: seq<Request>, st: seq<int>)
    requires |reqs| == |st|
    ensures forall k :: 0 <= k < |reqs| ==> Exchanges(reqs, st)[k] == Exchange(reqs[k], st[k])
    decreases |reqs|
  {
    if reqs != [] {
      var n := |reqs| - 1;
      ExchangesAt(reqs[..n], st[..n]);
    }
  }

  /** One more request answered adds one exchange at the end. */
  lemma ExchangesSnoc(reqs: seq<Request>, st: seq<int>, q: Request, s: int)
    requires |reqs| == |st|
    ensures Exchanges(reqs + [q], st + [s]) == Exchanges(reqs, st) + [Exchange(q, s)]
  {
    assert (reqs + [q])[..|reqs|] == reqs;
    assert (st + [s])[..|st|] == st;
  }

  predicate Succeeded(status: int) {
    200 <= status < 300
  }

  /** A team of an organization as the backend stores it. */
  datatype Team = Team(
    id: int, name: string, summary: string, canCreateOrgRepo: bool,
    includesAllRepositories: bool, permission: string, units: seq<string>)

  /** The members of team `t` in a team-membership map (none if unknown). */
  function MembersIn(m: map<int, set<string>>, t: int): set<string> {
    if t in m then m[t] else {}
  }

  function UserAt(users: map<string, UserRecord>, name: string): UserRecord {
    if name in users then users[name] else NoUser
  }

  function OrgAt(orgs: map<string, OrgRecord>, name: string): OrgRecord {
    if name in orgs then orgs[name] else NoOrg
  }

  /** The records named by `order`, in that order. */
  function UserListing(users: map<string, UserRecord>, order: seq<string>): (r: seq<UserRecord>)
    ensures |r| == |order|
    ensures forall i :: 0 <= i < |order| ==> r[i] == UserAt(users, order[i])
  {
    if order == [] then [] else [UserAt(users, order[0])] + UserListing(users, order[1..])
  }

  function OrgListing(orgs: map<string, OrgRecord>, order: seq<string>): (r: seq<OrgRecord>)
    ensures |r| == |order|
    ensures forall i :: 0 <= i < |order| ==> r[i] == OrgAt(orgs, order[i])
  {
    if order == [] then [] else [OrgAt(orgs, order[0])] + OrgListing(orgs, order[1..])
  }

  /** The string a field update sets, if it is a string update of `key`. */
  function TextField(fields: map<string, Value>, key: string, current: Option<string>): Option<string> {
    if key in fields && fields[key].Text? then Some(fields[key].text) else current
  }

  /** The backend's record after an admin user edit; updates of the wrong
      JSON type are not applied. */
  function EditedUser(u: UserRecord, f: map<string, Value>): UserRecord {
    u.(loginName := TextField(f, "login_name", u.loginName),
       fullName := TextField(f, "full_name", u.fullName),
       email := TextField(f, "email", u.email),
       location := TextField(f, "location", u.location),
       website := TextField(f, "website", u.website),
       description := TextField(f, "description", u.description),
       visibility := TextField(f, "visibility", u.visibility),
       active := if "active" in f && f["active"].Flag? then Some(f["active"].flag) else u.active)
  }

  function EditedOrg(o: OrgRecord, f: map<string, Value>): OrgRecord {
    o.(fullName := TextField(f, "full_name", o.fullName),
       location := TextField(f, "location", o.location),
       website := TextField(f, "website", o.website),
       description := TextField(f, "description", o.description),
       visibility := TextField(f, "visibility", o.visibility))
  }

  /** The run of `xs` from position `lo` up to, not including, `hi`, cut to
      the length of `xs`: the part of a listing the backend answers a paged
      request with. */
  function Window<T>(xs: seq<T>, lo: nat, hi: nat): (w: seq<T>)
    ensures |w| <= |xs|
    ensures lo <= |xs| ==> lo + |w| <= |xs|
    ensures lo <= |xs| ==> forall i :: 0 <= i < |w| ==> w[i] == xs[lo + i]
    ensures lo >= |xs| ==> w == []
    ensures hi <= lo ==> w == []
    ensures lo <= hi <= |xs| ==> |w| == hi - lo
    ensures lo <= |xs| <= hi ==> |w| == |xs| - lo
  {
    if lo >= |xs| || hi <= lo then [] else if hi >= |xs| then xs[lo..] else xs[lo..hi]
  }

  function Appended(order: seq<string>, name: string): seq<string> {
    if name in order then order else order + [name]
  }

  class GiteaApi {
    var users: map<string, UserRecord>
    var userOrder: seq<string>
    var orgs: map<string, OrgRecord>
    var orgOrder: seq<string>
    var teams: map<string, seq<Team>>
    var members: map<int, set<string>>
    var nextTeamId: int
    /** Every request issued so far, with the status it was answered with. */
    var log: seq<Exchange>
    /** The backend's answer to the request at a given position of the log. */
    const reply: (nat, Request) -> int
    /** Which run of its listing the backend answers a listing request at a
        given position of the log with (see Window). */
    const window: (nat, Request) -> (nat, nat)

    constructor (reply: (nat, Request) -> int, window: (nat, Request) -> (nat, nat))
      ensures this.reply == reply && this.window == window && log == []
      ensures users == map[] && userOrder == [] && orgs == map[] && orgOrder == []
      ensures teams == map[] && members == map[] && nextTeamId == 1
    {
      this.reply := reply;
      this.window := window;
      users, userOrder, orgs, orgOrder := map[], [], map[], [];
      teams, members, nextTeamId, log := map[], map[], 1, [];
    }

    /** The status the backend will answer `req` with if it is sent next. */
    function NextReply(req: Request): int
      reads this
    {
      reply(|log|, req)
    }

    /** The run of the listing the backend will answer `req` with if it is
        sent next. */
    function NextWindow(req: Request): (nat, nat)
      reads this
    {
      window(|log|, req)
    }

    function UserNamed(name: string): UserRecord
      reads this
    {
      UserAt(users, name)
    }

    function OrgNamed(name: string): OrgRecord
      reads this
    {
      OrgAt(orgs, name)
    }

    function TeamsOf(org: string): seq<Team>
      reads this
    {
      if org in teams then teams[org] else []
    }

    function MembersOf(teamId: int): set<string>
      reads this
    {
      MembersIn(members, teamId)
    }

    /** Sends one request and records it with the backend's answer. */
    method Send(req: Request) returns (status: int)
      modifies this`log
      ensures status == old(NextReply(req))
      ensures log == old(log) + [Exchange(req, status)]
    {
      status := reply(|log|, req);
      log := log + [Exchange(req, status)];
    }

    /** get_user: the user's record on 200, an error document otherwise. */
    method GetUser(username: string) returns (status: int, body: UserRecord)
      modifies this`log
      ensures log == old(log) + [Exchange(Request.GetUser(username), status)]
      ensures status == old(NextReply(Request.GetUser(username)))
      ensures body == if status == 200 then UserNamed(username) else NoUser
    {
      status := Send(Request.GetUser(username));
      body := if status == 200 then UserNamed(username) else NoUser;
    }

    /** get_users: on 200, a run of the users in listing order. Which run
        the page and limit select is the backend's business (its window). */
    method ListUsers(page: Option<int>, limit: Option<int>) returns (status: int, body: seq<UserRecord>)
      modifies this`log
      ensures log == old(log) + [Exchange(Request.ListUsers(PageQuery(page, limit)), status)]
      ensures status == old(NextReply(Request.ListUsers(PageQuery(page, limit))))
      ensures var w := old(NextWindow(Request.ListUsers(PageQuery(page, limit))));
              body == if status == 200 then Window(UserListing(users, userOrder), w.0, w.1) else []
    {
      var params := BuildPageParams(page, limit);
      var w := NextWindow(Request.ListUsers(params));
      status := Send(Request.ListUsers(params));
      body := if status == 200 then Window(UserListing(users, userOrder), w.0, w.1) else [];
    }

    /** create_user: on success the backend holds the new user. */
    method CreateUser(email: Option<string>, fullName: Option<string>, username: string,
                      password: string, loginName: string, sourceId: Option<int>,
                      mustChangePassword: bool, sendNotify: bool, visibility: Option<string>)
      returns (status: int)
      modifies this`log, this`users, this`userOrder
      ensures status == old(NextReply(Request.CreateUser(email, fullName, username, password, loginName,
                                                         sourceId, mustChangePassword, sendNotify, visibility)))
      ensures log == old(log) + [Exchange(Request.CreateUser(email, fullName, username, password, loginName,
                                                             sourceId, mustChangePassword, sendNotify, visibility), status)]
      ensures users == if Succeeded(status)
                       then old(users)[username := NewUser(email, fullName, username, loginName, sourceId, visibility)]
                       else old(users)
      ensures userOrder == if Succeeded(status) then Appended(old(userOrder), username) else old(userOrder)
    {
      status := Send(Request.CreateUser(email, fullName, username, password, loginName,
                                        sourceId, mustChangePassword, sendNotify, visibility));
      if Succeeded(status) {
        users := users[username := NewUser(email, fullName, username, loginName, sourceId, visibility)];
        userOrder := Appended(userOrder, username);
      }
    }

    /** edit_user: on success the named user's record takes the updates. */
    method EditUser(username: string, fields: map<string, Value>) returns (status: int)
      modifies this`log, this`users
      ensures status == old(NextReply(Request.EditUser(username, fields)))
      ensures log == old(log) + [Exchange(Request.EditUser(username, fields), status)]
      ensures users == if Succeeded(status) && username in old(users)
                       then old(users)[username := EditedUser(old(users)[username], fields)]
                       else old(users)
    {
      status := Send(Request.EditUser(username, fields));
      if Succeeded(status) && username in users {
        users := users[username := EditedUser(users[username], fields)];
      }
    }

    method GetOrg(org: string) returns (status: int, body: OrgRecord)
      modifies this`log
      ensures log == old(log) + [Exchange(Request.GetOrg(org), status)]
      ensures status == old(NextReply(Request.GetOrg(org)))
      ensures body == if status == 200 then OrgNamed(org) else NoOrg
    {
      status := Send(Request.GetOrg(org));
      body := if status == 200 then OrgNamed(org) else NoOrg;
    }

    /** get_orgs: on 200, the run of the organizations the backend's
        window selects. */
    method ListOrgs(page: Option<int>, limit: Option<int>) returns (status: int, body: seq<OrgRecord>)
      modifies this`log
      ensures log == old(log) + [Exchange(Request.ListOrgs(PageQuery(page, limit)), status)]
      ensures status == old(NextReply(Request.ListOrgs(PageQuery(page, limit))))
      ensures var w := old(NextWindow(Request.ListOrgs(PageQuery(page, limit))));
              body == if status == 200 then Window(OrgListing(orgs, orgOrder), w.0, w.1) else []
    {
      var params := BuildPageParams(page, limit);
      var w := NextWindow(Request.ListOrgs(params));
      status := Send(Request.ListOrgs(params));
      body := if status == 200 then Window(OrgListing(orgs, orgOrder), w.0, w.1) else [];
    }

    /** get_org_teams: the organization's teams in order on 200. */
    method ListTeams(org: string) returns (status: int, body: seq<Team>)
      modifies this`log
      ensures status == old(NextReply(Request.ListTeams(org)))
      ensures log == old(log) + [Exchange(Request.ListTeams(org), status)]
      ensures body == if status == 200 then TeamsOf(org) else []
    {
      status := Send(Request.ListTeams(org));
      body := if status == 200 then TeamsOf(org) else [];
    }

    /** create_team: on success the organization gains a team whose id is
        `id`, the next id the backend hands out. */
    method CreateTeam(org: string, name: string, summary: string, canCreateOrgRepo: bool,
                      includesAllRepositories: bool, permission: string, units: seq<string>)
      returns (status: int, id: int)
      modifies this`log, this`teams, this`nextTeamId
      ensures status == old(NextReply(Request.CreateTeam(org, name, summary, canCreateOrgRepo,
                                                         includesAllRepositories, permission, units)))
      ensures log == old(log) + [Exchange(Request.CreateTeam(org, name, summary, canCreateOrgRepo,
                                                             includesAllRepositories, permission, units), status)]
      ensures id == old(nextTeamId)
      ensures teams == if Succeeded(status)
                       then old(teams)[org := old(TeamsOf(org)) + [Team(id, name, summary, canCreateOrgRepo,
                                                                    includesAllRepositories, permission, units)]]
                       else old(teams)
      ensures nextTeamId == if Succeeded(status) then old(nextTeamId) + 1 else old(nextTeamId)
    {
      status := Send(Request.CreateTeam(org, name, summary, canCreateOrgRepo,
                                        includesAllRepositories, permission, units));
      id := nextTeamId;
      if Succeeded(status) {
        teams := teams[org := TeamsOf(org) + [Team(id, name, summary, canCreateOrgRepo,
                                                   includesAllRepositories, permission, units)]];
        nextTeamId := nextTeamId + 1;
      }
    }

    method AddTeamMember(teamId: int, username: string) returns (status: int)
      modifies this`log, this`members
      ensures status == old(NextReply(Request.AddTeamMember(teamId, username)))
      ensures log == old(log) + [Exchange(Request.AddTeamMember(teamId, username), status)]
      ensures members == if Succeeded(status)
                         then old(members)[teamId := old(MembersOf(teamId)) + {username}]
                         else old(members)
    {
      status := Send(Request.AddTeamMember(teamId, username));
      if Succeeded(status) {
        members := members[teamId := MembersOf(teamId) + {username}];
      }
    }

    method RemoveTeamMember(teamId: int, username: string) returns (status: int)
      modifies this`log, this`members
      ensures status == old(NextReply(Request.RemoveTeamMember(teamId, username)))
      ensures log == old(log) + [Exchange(Request.RemoveTeamMember(teamId, username), status)]
      ensures members == if Succeeded(status)
                         then old(members)[teamId := old(MembersOf(teamId)) - {username}]
                         else old(members)
    {
      status := Send(Request.RemoveTeamMember(teamId, username));
      if Succeeded(status) {
        members := members[teamId := MembersOf(teamId) - {username}];
      }
    }

    /** create_org: on success the backend holds the new organization and
        answers with its record. */
    method CreateOrg(org: string, visibility: Option<string>, fullName: Option<string>,
                     description: Option<string>, location: Option<string>, website: Option<string>)
      returns (status: int, body: OrgRecord)
      modifies this`log, this`orgs, this`orgOrder
      ensures status == old(NextReply(Request.CreateOrg(org, visibility, fullName, description, location, website)))
      ensures log == old(log) + [Exchange(Request.CreateOrg(org, visibility, fullName, description,
                                                            location, website), status)]
      ensures body == if Succeeded(status) then NewOrg(org, visibility, fullName, description, location, website)
                      else NoOrg
      ensures orgs == if Succeeded(status) then old(orgs)[org := body] else old(orgs)
      ensures orgOrder == if Succeeded(status) then Appended(old(orgOrder), org) else old(orgOrder)
    {
      status := Send(Request.CreateOrg(org, visibility, fullName, description, location, website));
      body := NoOrg;
      if Succeeded(status) {
        body := NewOrg(org, visibility, fullName, description, location, website);
        orgs := orgs[org := body];
        orgOrder := Appended(orgOrder, org);
      }
    }

    /** edit_org: on success the organization takes the updates and the
        backend answers with the edited record. */
    method EditOrg(org: string, fields: map<string, Value>) returns (status: int, body: OrgRecord)
      modifies this`log, this`orgs
      ensures status == old(NextReply(Request.EditOrg(org, fields)))
      ensures log == old(log) + [Exchange(Request.EditOrg(org, fields), status)]
      ensures orgs == if Succeeded(status) && org in old(orgs)
                      then old(orgs)[org := EditedOrg(old(orgs)[org], fields)]
                      else old(orgs)
      ensures body == if Succeeded(status) then OrgNamed(org) else NoOrg
    {
      status := Send(Request.EditOrg(org, fields));
      if Succeeded(status) && org in orgs {
        orgs := orgs[org := EditedOrg(orgs[org], fields)];
      }
      body := if Succeeded(status) then OrgNamed(org) else NoOrg;
    }
  }

  /** The record the backend keeps for a user created through the admin
      API; the attributes the backend fills in itself are left absent. */
  function NewUser(email: Option<string>, fullName: Option<string>, username: string,
                   loginName: string, sourceId: Option<int>, visibility: Option<string>): UserRecord
  {
    NoUser.(username := Some(username), loginName := Some(loginName), fullName := fullName,
            email := email, sourceId := sourceId, visibility := visibility)
  }

  function NewOrg(org: string, visibility: Option<string>, fullName: Option<string>,
                  description: Option<string>, location: Option<string>, website: Option<string>): OrgRecord
  {
    NoOrg.(username := Some(org), visibility := visibility, fullName := fullName,
           description := description, location := location, website := website)
  }
}
