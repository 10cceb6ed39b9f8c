/**
 * The SCIM endpoints of the provisioning service (app.py): listing users
 * and groups, creating a user, patching a user and updating a group. Each
 * handler is a method over the backend; what it answers is a `Reply`, and
 * what it did to the backend is told by the backend's request log.
 */
module Frontend {
  import opened Wrappers
  import opened Resources
  import opened Client
  import opened Translator
  import opened PatchOps
  import opened Filters

  /** What a handler answers: a status code and a JSON body (None stands for
      `null` or for an error document), or a server error when it raises. */
  datatype Reply<T> = Reply(status: int, body: Option<T>) | Crash

  /** The body of a list answer (section 3.4.2 of RFC 7644). */
  datatype ListResponse<T> = ListResponse(
    schemas: seq<string>, totalResults: int, startIndex: int, itemsPerPage: int, resources: seq<T>)

  const ListResponseSchema := "urn:ietf:params:scim:api:messages:2.0:ListResponse"

  function ListOf<T>(start: int, resources: seq<T>): ListResponse<T> {
    ListResponse([ListResponseSchema], |resources|, start, |resources|, resources)
  }

  // ----------------------------------------------------------- list reads

  /** The start index as get_users and get_groups compute it from the
      numeric query arguments: the presence test names "start_index" while
      the read names "startIndex", so a startIndex alone is ignored and a
      start_index alone raises. */
  function StartIndexAsWritten(args: map<string, int>): (r: Outcome<int>)
    ensures r.Raised? <==> "start_index" in args && "startIndex" !in args
    ensures "start_index" !in args ==> r == Returned(1)
    ensures "start_index" in args && "startIndex" in args ==> r == Returned(args["startIndex"])
  {
    if "start_index" in args then
      if "startIndex" in args then Returned(args["startIndex"]) else Raised
    else Returned(1)
  }

  /** The discrepancy, on two concrete requests: `?startIndex=5` is answered
      as if no start index had been given, and `?start_index=5` raises. */
  lemma StartIndexAsWrittenMisreads()
    ensures StartIndexAsWritten(map["startIndex" := 5]) == Returned(1)
    ensures StartIndexAsWritten(map["start_index" := 5]).Raised?
  {
  }

  /** The start index the client asked for with startIndex (1-based), and 1
      when it did not ask. */
  function StartIndex(args: map<string, int>): int {
    if "startIndex" in args then args["startIndex"] else 1
  }

  /** The corrected start index honours startIndex whatever else is
      present, and agrees with the code as written wherever that one reads
      the argument it tests or tests none. */
  lemma StartIndexCorrected(args: map<string, int>)
    ensures "startIndex" in args ==> StartIndex(args) == args["startIndex"]
    ensures "startIndex" !in args ==> StartIndex(args) == 1
    ensures StartIndexAsWritten(args).Returned? && ("start_index" in args || "startIndex" !in args) ==>
              StartIndexAsWritten(args) == Returned(StartIndex(args))
  {
  }

  /** The page size the client asked for with count, if any. */
  function Count(args: map<string, int>): Option<int> {
    if "count" in args then Some(args["count"]) else None
  }

  /** get_users: the start index is read first, as the code is written, and
      a start_index without a startIndex raises before any request. With a
      filter, the user the filter value names, as a list of one or none;
      without one, the users of the run the backend answers the listing
      with (`window`). A filter with fewer than three space-separated
      pieces raises before any request, and so does a failed listing (the
      handler takes the length of its null result). The list answer counts
      exactly the resources it carries. */
  method GetUsers(api: GiteaApi, args: map<string, int>, filter: Option<string>)
    returns (reply: Reply<ListResponse<Option<ScimUser>>>, ghost status: int, ghost window: (nat, nat))
    modifies api`log
    ensures StartIndexAsWritten(args).Raised? ==> reply == Crash && api.log == old(api.log)
    ensures StartIndexAsWritten(args).Returned? && filter.Some? && FilterValue(filter.value).None? ==>
              reply == Crash && api.log == old(api.log)
    ensures StartIndexAsWritten(args).Returned? && filter.Some? && FilterValue(filter.value).Some? ==>
              var name := FilterValue(filter.value).value;
              var found := if status == 200 then SerializeUser(api.UserNamed(name)) else None;
              && api.log == old(api.log) + [Exchange(GetUser(name), status)]
              && reply == Reply(200, Some(ListOf(StartIndexAsWritten(args).value, if found.Some? then [found] else [])))
    ensures StartIndexAsWritten(args).Returned? && filter.None? ==>
              var start := StartIndexAsWritten(args).value;
              var query := PageQuery(Some(start), Count(args));
              && window == old(api.NextWindow(ListUsers(query)))
              && api.log == old(api.log) + [Exchange(ListUsers(query), status)]
              && reply == if status == 200
                          then Reply(200, Some(ListOf(start, SerializeUsers(Window(UserListing(api.users, api.userOrder), window.0, window.1)))))
                          else Crash
    ensures reply.Reply? ==>
              && reply.status == 200 && reply.body.Some?
              && reply.body.value.totalResults == |reply.body.value.resources|
              && reply.body.value.itemsPerPage == |reply.body.value.resources|
              && StartIndexAsWritten(args) == Returned(reply.body.value.startIndex)
  {
    window := (0, 0);
    var startIndex := StartIndexAsWritten(args);
    if startIndex.Raised? {
      return Crash, 0, window;
    }
    var start := startIndex.value;
    var count := Count(args);
    if filter.Some? {
      var name := FilterValue(filter.value);
      if name.None? {
        return Crash, 0, window;
      }
      var user;
      user, status := ScimGetUser(api, name.value);
      var users := if user.Some? then [user] else [];
      reply := Reply(200, Some(ListOf(start, users)));
    } else {
      var users;
      users, status, window := ScimGetUsers(api, Some(start), count);
      if users.None? {
        return Crash, status, window;
      }
      reply := Reply(200, Some(ListOf(start, users.value)));
    }
  }

  /** get_groups: the same as get_users, over organizations. */
  method GetGroups(api: GiteaApi, args: map<string, int>, filter: Option<string>)
    returns (reply: Reply<ListResponse<Option<ScimGroup>>>, ghost status: int, ghost window: (nat, nat))
    modifies api`log
    ensures StartIndexAsWritten(args).Raised? ==> reply == Crash && api.log == old(api.log)
    ensures StartIndexAsWritten(args).Returned? && filter.Some? && FilterValue(filter.value).None? ==>
              reply == Crash && api.log == old(api.log)
    ensures StartIndexAsWritten(args).Returned? && filter.Some? && FilterValue(filter.value).Some? ==>
              var name := FilterValue(filter.value).value;
              var found := if status == 200 then SerializeOrg(api.OrgNamed(name)) else None;
              && api.log == old(api.log) + [Exchange(GetOrg(name), status)]
              && reply == Reply(200, Some(ListOf(StartIndexAsWritten(args).value, if found.Some? then [found] else [])))
    ensures StartIndexAsWritten(args).Returned? && filter.None? ==>
              var start := StartIndexAsWritten(args).value;
              var query := PageQuery(Some(start), Count(args));
              && window == old(api.NextWindow(ListOrgs(query)))
              && api.log == old(api.log) + [Exchange(ListOrgs(query), status)]
              && reply == if status == 200
                          then Reply(200, Some(ListOf(start, SerializeOrgs(Window(OrgListing(api.orgs, api.orgOrder), window.0, window.1)))))
                          else Crash
    ensures reply.Reply? ==>
              && reply.status == 200 && reply.body.Some?
              && reply.body.value.totalResults == |reply.body.value.resources|
              && reply.body.value.itemsPerPage == |reply.body.value.resources|
              && StartIndexAsWritten(args) == Returned(reply.body.value.startIndex)
  {
    window := (0, 0);
    var startIndex := StartIndexAsWritten(args);
    if startIndex.Raised? {
      return Crash, 0, window;
    }
    var start := startIndex.value;
    var count := Count(args);
    if filter.Some? {
      var name := FilterValue(filter.value);
      if name.None? {
        return Crash, 0, window;
      }
      var group;
      group, status := ScimGetOrg(api, name.value);
      var groups := if group.Some? then [group] else [];
      reply := Reply(200, Some(ListOf(start, groups)));
    } else {
      var groups;
      groups, status, window := ScimGetOrgs(api, Some(start), count);
      if groups.None? {
        return Crash, status, window;
      }
      reply := Reply(200, Some(ListOf(start, groups.value)));
    }
  }

  // ---------------------------------------------------------- create user

  /** The Gitea extension attributes of a create request. */
  datatype UserExtensionInput = UserExtensionInput(fullName: Option<string>, sourceId: Option<int>, visibility: Option<string>)

  /** The parts of a create-user request the handler reads; `emails` holds
      the `value` of each entry, and an absent key is None. */
  datatype NewUserBody = NewUserBody(
    userName: string, password: Option<string>, emails: Option<seq<string>>, extension: Option<UserExtensionInput>)

  /** Whether reading the create request raises: the extension object or
      the emails list is missing, or the emails list is empty. */
  predicate CreateBodyRaises(body: NewUserBody) {
    body.extension.None? || body.emails.None? || body.emails.value == []
  }

  /** create_user: after reading the request, look the user up; any status
      but 404 answers 409 without creating anything, and 404 leads to the
      creation (login name = user name, the given password or else the
      generated one) answered 201 with whatever the creation produced. */
  method CreateUser(api: GiteaApi, body: NewUserBody, generated: string)
    returns (reply: Reply<ScimUser>, ghost lookup: int, ghost created: Option<int>, ghost read: Option<int>)
    modifies api`log, api`users, api`userOrder
    ensures CreateBodyRaises(body) ==>
              reply == Crash && api.log == old(api.log) && api.users == old(api.users) && api.userOrder == old(api.userOrder)
    ensures !CreateBodyRaises(body) && lookup != 404 ==>
              && reply == Reply(409, None)
              && api.log == old(api.log) + [Exchange(GetUser(body.userName), lookup)]
              && api.users == old(api.users) && api.userOrder == old(api.userOrder)
    ensures !CreateBodyRaises(body) && lookup == 404 ==>
              var x := body.extension.value;
              var req := Request.CreateUser(Some(body.emails.value[0]), x.fullName, body.userName, body.password.GetOr(generated),
                                    body.userName, x.sourceId, false, false, Some("limited"));
              && created.Some? && (read.Some? <==> created.value == 201)
              && api.log == old(api.log) + [Exchange(GetUser(body.userName), lookup), Exchange(req, created.value)] +
                            (if read.Some? then [Exchange(GetUser(body.userName), read.value)] else [])
              && reply == Reply(201, if read == Some(200) then SerializeUser(api.UserNamed(body.userName)) else None)
              && api.users == (if Succeeded(created.value)
                               then old(api.users)[body.userName := NewUser(Some(body.emails.value[0]), x.fullName, body.userName,
                                                                            body.userName, x.sourceId, Some("limited"))]
                               else old(api.users))
              && api.userOrder == if Succeeded(created.value) then Appended(old(api.userOrder), body.userName) else old(api.userOrder)
  {
    if body.extension.None? || body.emails.None? || |body.emails.value| == 0 {
      return Crash, 0, None, None;
    }
    var x := body.extension.value;
    var email := body.emails.value[0];
    var password := body.password.GetOr(generated);
    var s, existing := api.GetUser(body.userName);
    lookup, created, read := s, None, None;
    if s != 404 {
      return Reply(409, None), lookup, created, read;
    }
    ghost var looked := api.log;
    var user;
    ghost var c;
    user, c, read := ScimCreateUser(api, Some(email), x.fullName, body.userName, password, body.userName,
                                    x.sourceId, false, false, x.visibility);
    created := Some(c);
    reply := Reply(201, user);
  }

  // ----------------------------------------------------------- patch user

  /** The keyword arguments patch_user hands to the user edit: the folded
      updates and the login name. */
  function EditFields(updates: map<string, Value>, userId: string): (f: map<string, Value>)
    ensures f.Keys == updates.Keys + {"login_name"}
    ensures f["login_name"] == Text(userId)
    ensures forall k :: k in updates && k != "login_name" ==> f[k] == updates[k]
  {
    updates["login_name" := Text(userId)]
  }

  /** The edit carries every folded update unchanged: the login name never
      clashes with an update key. */
  lemma PatchKeepsUpdates(ops: seq<Operation>, userId: string)
    requires UserUpdates(ops).Returned?
    ensures var u := UserUpdates(ops).value;
            && EditFields(u, userId).Keys - {"login_name"} == u.Keys
            && forall k :: k in u ==> EditFields(u, userId)[k] == u[k]
  {
    UserUpdatesKeys(ops);
  }

  /** patch_user: fold the operations, then send one user edit carrying the
      updates and `login_name` = the user id; answer 200 with a null body,
      except that an edit answered 201 raises (see ScimEditUser). An
      operation lacking a key it needs raises before any request. */
  method PatchUser(api: GiteaApi, userId: string, ops: seq<Operation>)
    returns (reply: Reply<ScimUser>, ghost status: int)
    modifies api`log, api`users
    ensures UserUpdates(ops).Raised? ==> reply == Crash && api.log == old(api.log) && api.users == old(api.users)
    ensures UserUpdates(ops).Returned? ==>
              var fields := EditFields(UserUpdates(ops).value, userId);
              && api.log == old(api.log) + [Exchange(EditUser(userId, fields), status)]
              && reply == (if status == 201 then Crash else Reply(200, None))
              && api.users == if Succeeded(status) && userId in old(api.users)
                              then old(api.users)[userId := EditedUser(old(api.users)[userId], fields)]
                              else old(api.users)
  {
    var updates := FoldUserOps(ops);
    if updates.Raised? {
      return Crash, 0;
    }
    var edited;
    edited, status := ScimEditUser(api, userId, EditFields(updates.value, userId));
    reply := if edited.Raised? then Crash else Reply(200, None);
  }

  // --------------------------------------------------------- update group

  /** Whether a user lookup counts as found: a `requests` response is true
      when its status is below 400. */
  predicate LookupOk(status: int) {
    status < 400
  }

  /** The user names a members value yields when the handler iterates it
      and reads each entry's "value"; None when that raises (a boolean, or a
      non-empty string, whose entries cannot be indexed by a key). */
  function MemberNames(v: Value): Option<seq<string>> {
    match v
    case Refs(names) => Some(names)
    case Text(s) => if s == "" then Some([]) else None
    case Flag(_) => None
  }

  /** The exchanges of a list of blocks, one after the other. */
  function Flatten(blocks: seq<seq<Exchange>>): seq<Exchange>
    decreases |blocks|
  {
    if blocks == [] then [] else Flatten(blocks[..|blocks| - 1]) + blocks[|blocks| - 1]
  }

  lemma FlattenSnoc(blocks: seq<seq<Exchange>>, b: seq<Exchange>)
    ensures Flatten(blocks + [b]) == Flatten(blocks) + b
  {
    assert (blocks + [b])[..|blocks|] == blocks;
  }

  /** The exchanges for one member to add: the lookup, and only when it
      found the user, the membership call that starts by reading the
      organization's teams. */
  ghost predicate AddBlock(org: string, name: string, b: seq<Exchange>) {
    && |b| >= 1 && b[0].request == GetUser(name)
    && (!LookupOk(b[0].status) ==> |b| == 1)
    && (LookupOk(b[0].status) ==> |b| >= 2 && b[1].request == ListTeams(org))
  }

  /** The exchanges for one member to remove: the lookup, and only when it
      found the user, the sweep that reads the teams and ends by reading the
      organization. */
  ghost predicate RemoveBlock(org: string, name: string, b: seq<Exchange>) {
    && |b| >= 1 && b[0].request == GetUser(name)
    && (!LookupOk(b[0].status) ==> |b| == 1)
    && (LookupOk(b[0].status) ==> |b| >= 3 && b[1].request == ListTeams(org) && b[|b| - 1].request == GetOrg(org))
  }

  /** Regrouping a concatenation of logs. */
  lemma AppendAssoc(a: seq<Exchange>, x: seq<Exchange>, y: seq<Exchange>)
    ensures a + x + y == a + (x + y)
  {
  }


  /** One block per name, in the order of the names. */
  ghost predicate AddBlocks(org: string, names: seq<string>, blocks: seq<seq<Exchange>>) {
    |blocks| == |names| && forall k :: 0 <= k < |names| ==> AddBlock(org, names[k], blocks[k])
  }

  ghost predicate RemoveBlocks(org: string, names: seq<string>, blocks: seq<seq<Exchange>>) {
    |blocks| == |names| && forall k :: 0 <= k < |names| ==> RemoveBlock(org, names[k], blocks[k])
  }

  /** No lookup in the blocks found its user. */
  ghost predicate NoneFound(blocks: seq<seq<Exchange>>) {
    forall k :: 0 <= k < |blocks| ==> blocks[k] != [] && !LookupOk(blocks[k][0].status)
  }

  /** Whether a block ends by reading the organization back, answered 200. */
  ghost predicate ReadsBack(org: string, b: seq<Exchange>) {
    b != [] && b[|b| - 1] == Exchange(GetOrg(org), 200)
  }

  /** The group update_group holds after one member's block, starting from
      `group`: a member the lookup did not find leaves it; for one it found,
      the membership call's answer replaces it, `read` (the organization as
      read back) when the block ends with a 200 read, and null otherwise. */
  ghost function BlockGroup(org: string, b: seq<Exchange>, group: Option<ScimGroup>, read: Option<ScimGroup>): Option<ScimGroup> {
    if b != [] && LookupOk(b[0].status) then (if ReadsBack(org, b) then read else None) else group
  }

  /** The group update_group holds after a run of member blocks. */
  ghost function GroupAfter(org: string, blocks: seq<seq<Exchange>>, group: Option<ScimGroup>, read: Option<ScimGroup>): Option<ScimGroup>
    decreases |blocks|
  {
    if blocks == [] then group
    else BlockGroup(org, blocks[|blocks| - 1], GroupAfter(org, blocks[..|blocks| - 1], group, read), read)
  }

  /** After a run of blocks, update_group holds the answer of the last
      member the lookups found: the organization read back when that
      member's block ends with a 200 read, and null otherwise. */
  lemma {:induction false} GroupAfterLastFound(org: string, blocks: seq<seq<Exchange>>, group: Option<ScimGroup>,
                                               read: Option<ScimGroup>, k: int)
    requires 0 <= k < |blocks| && blocks[k] != [] && LookupOk(blocks[k][0].status)
    requires forall j :: k < j < |blocks| ==> blocks[j] != [] && !LookupOk(blocks[j][0].status)
    ensures GroupAfter(org, blocks, group, read) == if ReadsBack(org, blocks[k]) then read else None
    decreases |blocks|
  {
    var n := |blocks| - 1;
    if k < n {
      GroupAfterLastFound(org, blocks[..n], group, read, k);
    }
  }

  /** When no lookup found its member, update_group keeps the group it
      started with. */
  lemma {:induction false} GroupAfterNoneFound(org: string, blocks: seq<seq<Exchange>>, group: Option<ScimGroup>,
                                               read: Option<ScimGroup>)
    requires NoneFound(blocks)
    ensures GroupAfter(org, blocks, group, read) == group
    decreases |blocks|
  {
    if blocks != [] {
      GroupAfterNoneFound(org, blocks[..|blocks| - 1], group, read);
    }
  }

  /** One turn of the adding loop of update_group: look the member up and,
      only when found, add them; the group becomes what the add answered. */
  method AddMember(api: GiteaApi, org: string, name: string, group: Option<ScimGroup>)
    returns (g: Option<ScimGroup>, ghost b: seq<Exchange>)
    modifies api`log, api`teams, api`members, api`nextTeamId
    ensures api.log == old(api.log) + b && AddBlock(org, name, b)
    ensures g == BlockGroup(org, b, group, SerializeOrg(api.OrgNamed(org)))
    ensures !LookupOk(b[0].status) ==>
              g == group && api.teams == old(api.teams) && api.members == old(api.members) && api.nextTeamId == old(api.nextTeamId)
  {
    var s, existing := api.GetUser(name);
    b, g := [Exchange(GetUser(name), s)], group;
    if LookupOk(s) {
      ghost var tail, team, resolving, adding;
      g, tail, team, resolving, adding := AddFound(api, org, name);
      AppendAssoc(old(api.log), b, tail);
      b := b + tail;
      assert b[|b| - 1] == tail[|tail| - 1];
    }
  }

  /** The membership call for a member the lookup found
      (scim_add_org_member), by the exchanges it adds to the log: it starts
      by reading the organization's teams. `team` is the Default team it
      resolved, and `resolving` and `adding` split `tail` into the
      resolution and the add. The answer, teams, memberships and next id
      are those of ScimAddOrgMember. */
  method AddFound(api: GiteaApi, org: string, name: string)
    returns (g: Option<ScimGroup>, ghost tail: seq<Exchange>,
             ghost team: Option<int>, ghost resolving: seq<Exchange>, ghost adding: seq<Exchange>)
    modifies api`log, api`teams, api`members, api`nextTeamId
    ensures api.log == old(api.log) + tail && tail == resolving + adding
    ensures |tail| >= 1 && tail[0].request == ListTeams(org)
    ensures ResolvesDefault(org, true, old(api.TeamsOf(org)), old(api.nextTeamId), resolving, team)
    ensures api.teams == if CreatedTeam(resolving) then WithDefaultTeam(old(api.teams), org, old(api.nextTeamId)) else old(api.teams)
    ensures api.nextTeamId == if CreatedTeam(resolving) then old(api.nextTeamId) + 1 else old(api.nextTeamId)
    ensures team.None? || team.value == 0 ==> adding == [] && g.None? && api.members == old(api.members)
    ensures team.Some? && team.value != 0 ==>
              && 1 <= |adding| <= 2
              && adding[0].request == AddTeamMember(team.value, name)
              && api.members == (if Succeeded(adding[0].status)
                                 then old(api.members)[team.value := MembersIn(old(api.members), team.value) + {name}]
                                 else old(api.members))
              && (|adding| == 2 <==> adding[0].status == 201)
              && (|adding| == 2 ==> adding[1].request == GetOrg(org))
              && g == if |adding| == 2 && adding[1].status == 200 then SerializeOrg(api.OrgNamed(org)) else None
    ensures g.Some? ==> team.Some? && IsDefaultTeam(api.TeamsOf(org), team.value) && name in api.MembersOf(team.value)
    ensures g == if ReadsBack(org, tail) then SerializeOrg(api.OrgNamed(org)) else None
  {
    ghost var before := api.log;
    g, team, resolving, adding := ScimAddOrgMember(api, org, name);
    tail := resolving + adding;
    AppendAssoc(before, resolving, adding);
    assert tail[0] == resolving[0];
    if |adding| == 2 {
      assert tail[|tail| - 1] == adding[1];
    } else if adding != [] {
      assert tail[|tail| - 1] == adding[0];
    } else {
      assert tail[|tail| - 1] == resolving[|resolving| - 1];
    }
  }


  /** One turn of the removing loop of update_group, in the same way. */
  method RemoveMember(api: GiteaApi, org: string, name: string, group: Option<ScimGroup>)
    returns (g: Option<ScimGroup>, ghost b: seq<Exchange>)
    modifies api`log, api`members
    ensures api.log == old(api.log) + b && RemoveBlock(org, name, b)
    ensures g == BlockGroup(org, b, group, SerializeOrg(api.OrgNamed(org)))
    ensures !LookupOk(b[0].status) ==> g == group && api.members == old(api.members)
  {
    var s, existing := api.GetUser(name);
    b, g := [Exchange(GetUser(name), s)], group;
    if LookupOk(s) {
      ghost var tail, listed, swept, st, read;
      g, tail, listed, swept, st, read := RemoveFound(api, org, name);
      AppendAssoc(old(api.log), b, tail);
      b := b + tail;
      assert b[|b| - 1] == tail[|tail| - 1] == Exchange(GetOrg(org), read);
    }
  }

  /** The removal for a member the lookup found (scim_remove_org_member),
      by the exchanges it adds to the log: it reads the teams first and the
      organization last. `swept` are the teams it went over and `st` the
      answers to the removals; the answer and the memberships are those of
      ScimRemoveOrgMember. */
  method RemoveFound(api: GiteaApi, org: string, name: string)
    returns (g: Option<ScimGroup>, ghost tail: seq<Exchange>,
             ghost listed: int, ghost swept: seq<Team>, ghost st: seq<int>, ghost read: int)
    modifies api`log, api`members
    ensures api.log == old(api.log) + tail
    ensures swept == if listed == 200 then old(api.TeamsOf(org)) else []
    ensures |st| == |swept|
    ensures tail == [Exchange(ListTeams(org), listed)] + Exchanges(RemoveRequests(swept, name), st) + [Exchange(GetOrg(org), read)]
    ensures |tail| >= 2 && tail[0].request == ListTeams(org) && tail[|tail| - 1].request == GetOrg(org)
    ensures api.members == Swept(old(api.members), TeamIds(swept), st, name)
    ensures forall k :: 0 <= k < |swept| && Succeeded(st[k]) ==> name !in api.MembersOf(swept[k].id)
    ensures g == if read == 200 then SerializeOrg(api.OrgNamed(org)) else None
  {
    ghost var before := api.log;
    g, listed, swept, st, read := ScimRemoveOrgMember(api, org, name);
    ghost var sweep := Exchanges(RemoveRequests(swept, name), st);
    tail := [Exchange(ListTeams(org), listed)] + sweep + [Exchange(GetOrg(org), read)];
    AppendAssoc(before, [Exchange(ListTeams(org), listed)], sweep);
    AppendAssoc(before, [Exchange(ListTeams(org), listed)] + sweep, [Exchange(GetOrg(org), read)]);
    assert tail[0] == Exchange(ListTeams(org), listed);
  }


  /** The adding loop of update_group: each member is looked up, and only a
      found one is added; `g` is the group the last add answered, or
      `group` when no member was found. */
  method AddMembers(api: GiteaApi, org: string, names: seq<string>, group: Option<ScimGroup>)
    returns (g: Option<ScimGroup>, ghost blocks: seq<seq<Exchange>>)
    modifies api`log, api`teams, api`members, api`nextTeamId
    ensures api.log == old(api.log) + Flatten(blocks) && AddBlocks(org, names, blocks)
    ensures g == GroupAfter(org, blocks, group, SerializeOrg(api.OrgNamed(org)))
    ensures NoneFound(blocks) ==>
              g == group && api.teams == old(api.teams) && api.members == old(api.members) && api.nextTeamId == old(api.nextTeamId)
  {
    g, blocks := group, [];
    var i := 0;
    while i < |names|
      invariant 0 <= i <= |names|
      invariant api.log == old(api.log) + Flatten(blocks) && AddBlocks(org, names[..i], blocks)
      invariant g == GroupAfter(org, blocks, group, SerializeOrg(api.OrgNamed(org)))
      invariant NoneFound(blocks) ==>
                  g == group && api.teams == old(api.teams) && api.members == old(api.members) && api.nextTeamId == old(api.nextTeamId)
    {
      ghost var b;
      g, b := AddMember(api, org, names[i], g);
      assert (blocks + [b])[..|blocks|] == blocks;
      FlattenSnoc(blocks, b);
      AppendAssoc(old(api.log), Flatten(blocks), b);
      assert names[..i + 1] == names[..i] + [names[i]];
      blocks := blocks + [b];
      i := i + 1;
    }
    assert names[..i] == names;
  }

  /** The removing loop of update_group, in the same way. */
  method RemoveMembers(api: GiteaApi, org: string, names: seq<string>, group: Option<ScimGroup>)
    returns (g: Option<ScimGroup>, ghost blocks: seq<seq<Exchange>>)
    modifies api`log, api`members
    ensures api.log == old(api.log) + Flatten(blocks) && RemoveBlocks(org, names, blocks)
    ensures g == GroupAfter(org, blocks, group, SerializeOrg(api.OrgNamed(org)))
    ensures NoneFound(blocks) ==> g == group && api.members == old(api.members)
  {
    g, blocks := group, [];
    var i := 0;
    while i < |names|
      invariant 0 <= i <= |names|
      invariant api.log == old(api.log) + Flatten(blocks) && RemoveBlocks(org, names[..i], blocks)
      invariant g == GroupAfter(org, blocks, group, SerializeOrg(api.OrgNamed(org)))
      invariant NoneFound(blocks) ==> g == group && api.members == old(api.members)
    {
      ghost var b;
      g, b := RemoveMember(api, org, names[i], g);
      assert (blocks + [b])[..|blocks|] == blocks;
      FlattenSnoc(blocks, b);
      AppendAssoc(old(api.log), Flatten(blocks), b);
      assert names[..i + 1] == names[..i] + [names[i]];
      blocks := blocks + [b];
      i := i + 1;
    }
    assert names[..i] == names;
  }

  /** What the membership part of update_group did, by its request blocks
      and its answer: a members value that cannot be iterated raises before
      its first lookup; otherwise there is one block per member to add, then
      one per member to remove, and the answer is 200. */
  ghost predicate MembersUpdated(groupId: string, toAdd: Value, toRemove: Value,
                                 adds: seq<seq<Exchange>>, removes: seq<seq<Exchange>>, reply: Reply<ScimGroup>)
  {
    && (MemberNames(toAdd).None? ==> reply == Crash && adds == [] && removes == [])
    && (MemberNames(toAdd).Some? ==> AddBlocks(groupId, MemberNames(toAdd).value, adds))
    && (MemberNames(toAdd).Some? && MemberNames(toRemove).None? ==> reply == Crash && removes == [])
    && (MemberNames(toAdd).Some? && MemberNames(toRemove).Some? ==>
          RemoveBlocks(groupId, MemberNames(toRemove).value, removes) && reply.Reply? && reply.status == 200)
  }

  /** The membership part of update_group: the adds, then the removes,
      then the answer, 200 with the group the last membership call produced
      or, when that is null, the group read afresh. A members value that
      cannot be iterated raises before its first lookup. */
  method UpdateMembers(api: GiteaApi, groupId: string, toAdd: Value, toRemove: Value, group: Option<ScimGroup>)
    returns (reply: Reply<ScimGroup>, ghost adds: seq<seq<Exchange>>, ghost removes: seq<seq<Exchange>>, ghost fallback: seq<Exchange>)
    modifies api`log, api`teams, api`members, api`nextTeamId
    ensures api.log == old(api.log) + Flatten(adds) + Flatten(removes) + fallback
    ensures MembersUpdated(groupId, toAdd, toRemove, adds, removes, reply)
    ensures reply.Crash? ==> fallback == []
    ensures reply.Reply? && fallback == [] ==> reply.body.Some?
    ensures fallback != [] ==>
              && |fallback| == 1 && fallback[0].request == GetOrg(groupId)
              && reply == Reply(200, if fallback[0].status == 200 then SerializeOrg(api.OrgNamed(groupId)) else None)
    ensures MemberNames(toAdd).Some? && MemberNames(toRemove).Some? ==>
              var read := SerializeOrg(api.OrgNamed(groupId));
              var last := GroupAfter(groupId, removes, GroupAfter(groupId, adds, group, read), read);
              && (fallback == [] <==> last.Some?)
              && (fallback == [] ==> reply == Reply(200, last))
    ensures MemberNames(toAdd).Some? && MemberNames(toRemove).Some? && NoneFound(adds) && NoneFound(removes) && group.Some? ==>
              fallback == [] && reply == Reply(200, group) && api.teams == old(api.teams) && api.members == old(api.members)
  {
    adds, removes, fallback := [], [], [];
    var toAddNames := MemberNames(toAdd);
    if toAddNames.None? {
      return Crash, adds, removes, fallback;
    }
    var g;
    g, adds := AddMembers(api, groupId, toAddNames.value, group);
    var toRemoveNames := MemberNames(toRemove);
    if toRemoveNames.None? {
      return Crash, adds, removes, fallback;
    }
    g, removes := RemoveMembers(api, groupId, toRemoveNames.value, g);
    if g.None? {
      ghost var s;
      g, s := ScimGetOrg(api, groupId);
      fallback := [Exchange(GetOrg(groupId), s)];
    }
    reply := Reply(200, g);
  }

  /** update_group: fold the operations; a "replace" operation answers 204
      before any request. Otherwise edit the organization only when there
      are updates, then update the memberships (UpdateMembers), starting
      from the group the edit answered. */
  method UpdateGroup(api: GiteaApi, groupId: string, ops: seq<Operation>)
    returns (reply: Reply<ScimGroup>, ghost edit: seq<Exchange>, ghost adds: seq<seq<Exchange>>,
             ghost removes: seq<seq<Exchange>>, ghost fallback: seq<Exchange>)
    modifies api`log, api`orgs, api`teams, api`members, api`nextTeamId
    ensures GroupFoldOf(ops).Raised? || GroupFoldOf(ops) == Returned(Replaced) ==>
              && reply == (if GroupFoldOf(ops).Raised? then Crash else Reply(204, None))
              && api.log == old(api.log) && api.orgs == old(api.orgs)
              && api.teams == old(api.teams) && api.members == old(api.members)
    ensures GroupFoldOf(ops).Returned? && GroupFoldOf(ops).value.Plan? ==>
              var p := GroupFoldOf(ops).value;
              && api.log == old(api.log) + edit + Flatten(adds) + Flatten(removes) + fallback
              && (p.updates == map[] <==> edit == [])
              && (edit != [] ==> |edit| == 1 && edit[0].request == EditOrg(groupId, p.updates))
              && MembersUpdated(groupId, p.toAdd, p.toRemove, adds, removes, reply)
              && (fallback != [] ==> |fallback| == 1 && fallback[0].request == GetOrg(groupId))
              && (MemberNames(p.toAdd).Some? && MemberNames(p.toRemove).Some? ==>
                    var read := SerializeOrg(api.OrgNamed(groupId));
                    var start := if edit != [] && edit[0].status == 200 then read else None;
                    var last := GroupAfter(groupId, removes, GroupAfter(groupId, adds, start, read), read);
                    && (fallback == [] <==> last.Some?)
                    && reply == Reply(200, if fallback == [] then last
                                           else if fallback[0].status == 200 then read else None))
  {
    edit, adds, removes, fallback := [], [], [], [];
    var folded := FoldGroupOps(ops);
    if folded.Raised? {
      return Crash, edit, adds, removes, fallback;
    }
    if folded.value.Replaced? {
      return Reply(204, None), edit, adds, removes, fallback;
    }
    var p := folded.value;
    var group: Option<ScimGroup> := None;
    if p.updates != map[] {
      ghost var s;
      group, s := ScimEditOrg(api, groupId, p.updates);
      edit := [Exchange(EditOrg(groupId, p.updates), s)];
    }
    assert api.log == old(api.log) + edit;
    reply, adds, removes, fallback := UpdateMembers(api, groupId, p.toAdd, p.toRemove, group);
  }
}
