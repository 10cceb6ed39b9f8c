# Gitea SCIM provisioning: a verified model of the translator and its handlers

This project models the decision logic of a SCIM 2.0 front end for the Gitea admin API. The service has three layers, and the model follows them.

- **Resource shaping** (`GiteaUser`, `GiteaOrg`). A backend user or organization record is projected into the SCIM User resource (section 4.1 of RFC 7643) or the SCIM Group resource (section 4.2 of RFC 7643). The resource `id` is the backend `username`. A record without a username gives `null`.
- **The translator** (`GiteaSCIMWrapper`). It runs over an abstract Gitea backend, the class `Client.GiteaApi`. The backend holds:
  - users and organizations, with their listing order;
  - the teams of each organization, and the members of each team;
  - the next team id it will hand out;
  - a log of every request it was sent, with the status code it answered.

  Status codes come from a fixed but arbitrary oracle that the backend is constructed with, and every backend call states that its status is the oracle's answer to that request at that point of the log. Which run of a listing a paged listing request is answered with comes from a second oracle. A 2xx answer applies the request's effect; any other answer leaves the state alone. Every translator operation is a method whose contract gives:
  - the exact requests it appends to the log;
  - how its result is gated on the statuses it was answered (200 for reads and the organization edit; 201 for creations, the member add and the user edit);
  - the new backend state.

  The "Default" team rules are stated and proved:
  - look up the Default team, or create it;
  - add a member only through the Default team;
  - on removal, sweep every team of the organization.
- **The SCIM endpoints** (`app.py`):
  - `get_users` and `get_groups`: extract the filter value and size the ListResponse (section 3.4.2 of RFC 7644);
  - `create_user`: gated on the existence check;
  - `patch_user` and `update_group`: fold the PATCH `Operations` list (section 3.5.2 of RFC 7644) into an update map and member lists, then issue the backend calls.

  Each loop is written twice. A function over the list is the specification. A method runs the loop as the handler does, and is proved equal to that function. Lemmas then state what the fold promises:
  - the last write wins;
  - unknown paths are ignored;
  - only the strings `"True"` and `"False"` set `active`;
  - `"replace"` answers 204 at once;
  - only known keys reach the backend.

Python's behaviour is written out explicitly:
- Truthiness: an empty username is falsy, and so is a page or limit of 0. A `requests.Response` is truthy when its status is below 400.
- A missing dictionary key raises. Raising is modelled as the outcome `Raised`, which the handlers turn into `Crash` (a server error).

Files:
- `wrappers.dfy`: `Option` and `Outcome`.
- `resources.dfy`: records, SCIM resources and serialisation.
- `client.dfy`: requests, the log, page parameters and the backend class.
- `translator.dfy`: the `GiteaSCIMWrapper` operations.
- `operations.dfy`: PATCH operation folding.
- `filters.dfy`: filter-value extraction.
- `frontend.dfy`: the endpoint handlers.

## Model

| member | source | states |
|---|---|---|
| Resources.SerializeUser | gitea.py:11-57 | null exactly when the record has no (or an empty) username; otherwise `id` and `userName` are that username, there is exactly one email entry (primary, type "work", the record's email), the core User schema, resourceType "User", and description, active and the Gitea extension copied from the record |
| Resources.SerializeOrg | gitea.py:63-93 | null exactly when the record has no username; otherwise `id` and `displayName` are the username, `members` is copied unchanged, the Group schema and resourceType "Group", description and extension copied |
| Resources.SerializeUsers | gitea.py:255-259 | one entry per backend record, in order, each the serialisation of that record (null entries kept) |
| Resources.SerializeOrgs | gitea.py:275-279 | one entry per organization record, in order, each its serialisation |
| Resources.SerializeUserReadsBack | gitea.py:32-57 | serialisation loses no exposed attribute: reading the SCIM user back gives the record's view, and two records serialise alike exactly when their views agree |
| Client.PageQuery | gitea.py:112-117 | `page` is present exactly when the page is truthy and `limit` exactly when the limit is truthy, each with the given value, and no other key |
| Client.BuildPageParams | gitea.py:147-152 | the parameters built key by key are exactly PageQuery of the page and limit |
| Client.Window | gitea.py:112-121 | a contiguous run of the listing, in order, starting at the low end: empty when that is past the end or the high end is not above it, `hi - lo` entries when the run fits, and up to the end otherwise |
| Client.ExchangesAt | gitea.py:305-307 | the k-th logged exchange of a run of requests is the k-th request with the k-th answer |
| Client.GiteaApi.GetUser | gitea.py:108-110 | one GetUser request logged; the body is the stored user on 200 and an empty document otherwise |
| Client.GiteaApi.ListUsers | gitea.py:112-121 | one ListUsers request carrying PageQuery logged, answered with the oracle's status; on 200 the body is the run of the users' listing, in order, that the backend picks for that page query, and otherwise empty |
| Client.GiteaApi.CreateUser | gitea.py:123-136 | one create request logged with every argument; on 2xx the user is stored (and listed once) with the given attributes |
| Client.GiteaApi.EditUser | gitea.py:138-141 | one edit request logged; on 2xx an existing user gets the string and boolean fields of the update, and nothing else changes |
| Client.GiteaApi.GetOrg | gitea.py:158-160 | one GetOrg request logged; the body is the stored organization on 200 |
| Client.GiteaApi.ListOrgs | gitea.py:147-156 | one ListOrgs request carrying PageQuery logged, answered with the oracle's status; on 200 the body is the run of the organizations' listing, in order, that the backend picks, and otherwise empty |
| Client.GiteaApi.ListTeams | gitea.py:166-168 | one ListTeams request logged; on 200 the body is the organization's teams |
| Client.GiteaApi.CreateTeam | gitea.py:170-181 | one create-team request logged; the id answered is the next team id; on 2xx the team is appended to the organization's teams and the next id moves on |
| Client.GiteaApi.AddTeamMember | gitea.py:183-185 | one add request logged; on 2xx the user joins that team's members, and no other team changes |
| Client.GiteaApi.RemoveTeamMember | gitea.py:187-189 | one remove request logged; on 2xx the user leaves that team's members, and no other team changes |
| Client.GiteaApi.CreateOrg | gitea.py:207-217 | one create request logged; on 2xx the organization is stored (and listed once) and is the body answered |
| Client.GiteaApi.EditOrg | gitea.py:219-222 | one edit request logged; on 2xx an existing organization gets the updated string fields, and the body is the stored organization |
| Translator.FirstDefault | gitea.py:285-287 | the position of the first team named "Default": it is named so and no earlier team is; None only when no team is |
| Translator.RemoveRequests | gitea.py:305-307 | one remove request per team, in the teams' order |
| Translator.WithDefaultTeam | gitea.py:289-293 | after adding a Default team the organization has a Default team with that id, and every other organization keeps its teams |
| Translator.ScimGetUser | gitea.py:249-253 | one GetUser request; the SCIM user only when it is answered 200, otherwise no result |
| Translator.ScimGetUsers | gitea.py:255-259 | one listing request with PageQuery; a result exactly when it is answered 200, and then every user of the run the backend answers serialised in order |
| Translator.ScimCreateUser | gitea.py:230-241 | one create request carrying false, false and "limited" whatever is passed; the user is read back exactly when the create is answered 201; the result is the serialised user only when that read is 200; the users change only on a 2xx create |
| Translator.ScimEditUser | gitea.py:243-247 | one edit request; a 201 raises and any other status gives no result; the user record changes only on 2xx |
| Translator.ScimCreateOrg | gitea.py:261-267 | one create request; the Default team is requested exactly when the create is answered 201, and its status is ignored: the result is the created organization serialised on 201 and nothing otherwise; orgs, teams and the next id change only on the matching 2xx answers |
| Translator.ScimGetOrg | gitea.py:269-273 | one GetOrg request; the SCIM group only when it is answered 200 |
| Translator.ScimGetOrgs | gitea.py:275-279 | one listing request; a result exactly when it is answered 200, and then every organization of the run the backend answers serialised in order |
| Translator.ScimEditOrg | gitea.py:311-315 | one edit request; the edited group only when it is answered 200; orgs change only on 2xx |
| Translator.GetOrgDefaultTeam | gitea.py:282-293 | the teams are read first; on 200 the id of the first team named "Default" is answered with nothing created; when there is none and `create` holds, exactly one Default team (permission "read", all repositories) is requested and its id answered only on 201; otherwise, and when the read is not 200, there is no result; any id answered names a Default team of the organization afterwards |
| Translator.ScimAddOrgMember | gitea.py:295-300 | the Default team is resolved (created if need be); no add is sent unless a nonzero team id came back; the member is added to that team alone; the refreshed group is read and returned only when the add is answered 201, and then the member belongs to a Default team of the organization |
| Translator.SweptOnlyRemovesMember | gitea.py:302-308 | a sweep takes nobody but the member out of any team |
| Translator.SweptRemovesFromSucceeded | gitea.py:305-307 | every team whose remove request succeeded no longer has the member |
| Translator.SweptLeavesOthers | gitea.py:305-307 | teams the sweep does not visit keep their members |
| Translator.SweptAll | gitea.py:302-308 | when every remove succeeds, the member belongs to none of the organization's teams |
| Translator.SweepTeams | gitea.py:305-307 | one remove request per team, Default or not, in order, whatever each is answered; the memberships become the sweep of those answers |
| Translator.ScimRemoveOrgMember | gitea.py:302-308 | the teams are read; only on 200 is every team swept; the group is read afterwards in every case and returned when that read is 200; every team whose removal succeeded has lost the member |
| PatchOps.UserUpdatesKeys | app.py:195-211 | the update map of patch_user only holds keys among full_name, description, visibility, location, active and email |
| PatchOps.UserFoldStops | app.py:195-211 | once an operation raises, the fold raises whatever follows |
| PatchOps.FoldUserOps | app.py:194-211 | the handler's loop computes exactly the update map of the specification fold (or raises exactly when it does) |
| PatchOps.ApplyUserOpOnKey | app.py:197-211 | one operation sets a key exactly to what it writes there and leaves every key it does not write as it was |
| PatchOps.UserUpdatesRaises | app.py:195-211 | patch_user raises exactly when some operation lacks a path, or has a recognised path and no value |
| PatchOps.UserLastWriteWins | app.py:195-211 | a key is in the update map exactly when some operation writes it, and then holds the value of the last operation that does |
| PatchOps.UserUpdatesLast | app.py:195-211 | each key of the update map is the last write to it among the operations |
| PatchOps.UnknownUserPathIgnored | app.py:195-211 | removing an operation with an unrecognised path anywhere in the list does not change the outcome |
| PatchOps.UnknownUserStep | app.py:195-211 | an operation with an unrecognised path leaves the fold's state unchanged |
| PatchOps.ActiveOnlyFromStrings | app.py:205-209 | `active` is set only as a boolean, false only from an operation whose value is the string "False" and true only from "True" |
| PatchOps.UserWriteActive | app.py:205-209 | an operation writes `active` only when its path is "active" and its value is "True" or "False", and it writes the matching boolean |
| PatchOps.GroupFoldKeys | app.py:321-326 | the update map of update_group only holds description, visibility and full_name |
| PatchOps.GroupFoldStops | app.py:314-328 | once the loop has raised or returned 204, later operations do not change the outcome |
| PatchOps.FoldGroupOps | app.py:310-328 | the handler's loop computes exactly the specification fold: a raise, the 204 early return, or the updates and the two member lists |
| PatchOps.ReplaceAnswers204 | app.py:327-328 | a 204 answer comes only from a "replace" operation; when no operation raises the loop finishes; and when none raises and one is a "replace", the answer is 204 whatever the earlier operations matched |
| PatchOps.ApplyGroupOpOnKey | app.py:321-326 | one operation sets an organization key exactly to what it writes and leaves the others |
| PatchOps.ApplyGroupOpOnMembers | app.py:316-320 | one members operation replaces the list to add (or remove) with its value instead of extending it |
| PatchOps.LastMemberListWins | app.py:316-320 | the list to add (or remove) is empty when no operation gives one, and otherwise is the value of the last Add (or Remove) operation |
| PatchOps.MemberListLast | app.py:316-320 | the member list equals the last write among the operations, or the empty list |
| PatchOps.GroupLastWriteWins | app.py:321-326 | an organization key is updated exactly when some operation writes it, and then with the last such value |
| PatchOps.GroupUpdatesLast | app.py:321-326 | each organization update is the last write to its key |
| PatchOps.LastGivenIsLast | app.py:195-211 | the last-write reading of a write sequence is absent exactly when nothing writes, and otherwise is a write followed by no other |
| Filters.Split | app.py:52 | at least one piece, and no piece holds the separator |
| Filters.JoinSplit | app.py:52 | the pieces glued back with the separator give the filter back |
| Filters.SplitJoin | app.py:52 | splitting separator-free pieces glued with the separator gives exactly those pieces |
| Filters.StripLeft | app.py:53 | a suffix of the string that does not start with the quote, and everything removed was a quote |
| Filters.StripRight | app.py:53 | a prefix of the string that does not end with the quote, and everything removed was a quote |
| Filters.Strip | app.py:53 | no longer than the input, neither starting nor ending with the quote, and a run of the input around which there are only quotes |
| Filters.RunOfSuffix | app.py:53 | cutting quotes off the front and then off the back leaves a run of the string with only quotes on either side |
| Filters.StripIdempotent | app.py:53 | stripping twice is stripping once |
| Filters.StripQuoted | app.py:53 | a value quoted once comes out of the quotes unchanged |
| Filters.FilterValue | app.py:51-53 | there is no value (the handler raises) exactly when the filter has fewer than three space-separated pieces |
| Filters.FilterValueOfComparison | app.py:51-53 | the filter `attr op "v"` yields exactly `v` |
| Frontend.StartIndexAsWritten | app.py:41-46 | the start index as the handlers compute it: it raises exactly when start_index is present and startIndex is absent, is startIndex when both are present, and is 1 whenever start_index is absent |
| Frontend.StartIndexAsWrittenMisreads | app.py:45-46 | `?startIndex=5` is answered from index 1, and `?start_index=5` raises |
| Frontend.StartIndexCorrected | app.py:41-46 | the corrected start index is startIndex when given and 1 otherwise, and agrees with the code as written wherever that reads the argument it tests |
| Frontend.GetUsers | app.py:37-78 | the start index is computed as the code is written, so a start_index without a startIndex raises before any request; a filter with fewer than three pieces raises before any request; a filter looks up the named user and answers a list of it or of nothing; otherwise the listing is requested with that start index as the page and the count as the limit, and answers the run of users the backend picks, while a failed listing raises; every answer is 200, its startIndex is the as-written start index, and totalResults and itemsPerPage equal the number of resources |
| Frontend.GetGroups | app.py:225-267 | the same rules as GetUsers, for organizations |
| Frontend.CreateUser | app.py:100-131 | a body without the extension or an email raises with nothing sent; a lookup answered anything but 404 gives 409 with no create sent and no user added; on 404 exactly one create is sent (login name = user name, the given password or the generated one, the first email) and the answer is 201 with whatever the creation produced; the user is stored, and appended once to the listing order, exactly when the create succeeded |
| Frontend.EditFields | app.py:212 | the edit carries every folded update plus `login_name` set to the user id |
| Frontend.PatchKeepsUpdates | app.py:194-212 | the fields sent to the backend are the folded updates, unchanged, plus login_name |
| Frontend.PatchUser | app.py:190-213 | a raising fold sends nothing; otherwise exactly one edit of the user with the folded fields and login_name; a 201 raises and any other status answers 200 with a null body |
| Frontend.AddMember | app.py:333-336 | the user is looked up; only a lookup below 400 leads to the add (which starts by reading the teams), and the group becomes the add's answer: the organization when the block ends with a 200 read of it, and null otherwise; a user not found leaves the group, teams, memberships and next team id unchanged |
| Frontend.AddFound | app.py:336 | the add reads the organization's teams first, resolves the Default team (creating it when there is none), and adds the member to that team alone when a nonzero id came back; the group is returned only when the add is answered 201, is the organization exactly when the exchanges end with a 200 read of it, and then the member belongs to a Default team of the organization |
| Frontend.RemoveMember | app.py:337-340 | the user is looked up; only a lookup below 400 leads to the sweep, which reads the teams first and the group last, and the group becomes that read's answer (the organization on 200, null otherwise); a user not found leaves the group and memberships unchanged |
| Frontend.RemoveFound | app.py:340 | the removal reads the teams first, sends one remove per team only when that read is 200, and reads the group last; the memberships become the sweep of the answers, every team whose remove succeeded has lost the member, and the group is returned when the last read is 200 |
| Frontend.AddMembers | app.py:333-336 | one block of requests per member to add, in order; the group is the answer of the last member found, or the starting group when none was found, in which case teams, memberships and next team id are also unchanged |
| Frontend.RemoveMembers | app.py:337-340 | one block per member to remove, in order; the group is the answer of the last member found, or the starting group when none was found, in which case memberships are also unchanged |
| Frontend.GroupAfterLastFound | app.py:333-340 | after a run of member blocks, the group held is the answer of the last member the lookups found: the organization when that member's block ends with a 200 read, and null otherwise |
| Frontend.GroupAfterNoneFound | app.py:333-340 | when no lookup found its member, the group held is the one the loops started with |
| Frontend.UpdateMembers | app.py:333-345 | the adds come before the removes; a members value that cannot be iterated raises; otherwise the answer is 200, and the organization is read afresh (one read) exactly when the group left by the last found member's call, or the starting group, is null; without that read the answer is that group, with it the read's answer; when no user was found and a group was given, that group is answered and memberships are unchanged |
| Frontend.UpdateGroup | app.py:300-345 | a raising fold answers a server error and a "replace" answers 204, both before any request; otherwise the organization is edited exactly when there are updates, then the adds, the removes and the fallback read follow in that order; the member loops start from the edited organization when the edit is answered 200 and from null otherwise, and the answer is 200 with the group the loops leave or, when that is null, the fallback read's answer |

## Left out

- The Flask routing, the request and response objects, `jsonify`, `make_response` and JSON encoding. The handlers take the parsed arguments and body, and answer a `Reply`.
- The bearer-token decorator. It is a string comparison with no invariant to prove.
- The HTTP calls, headers and URLs. Each client call is one backend transition with a status code chosen by the backend's oracle.
- The `settings` module and `DEFAULT_TEAM_NEW_ORG_PERMISSIONS`. The unit list that `scim_create_org` gives the Default team is a parameter.
- `helpers.generate_password`, which draws on randomness. The generated password is a parameter of `Frontend.CreateUser`.
- Gitea's paging. Which run of the listing answers a page and a limit is left to the backend's window oracle. The model states that the answer is a contiguous run of the listing, in order, but not which run a given page selects.
- A PATCH body without an `Operations` list raises in `patch_user` (app.py:195) and in `update_group` (app.py:314). The model takes the list as given, so that server error is not modelled.
- An `emails` entry without a `value` key raises in `create_user` (app.py:112). The model takes each entry as its value string, so that server error is not modelled.
- The query arguments `startIndex`, `start_index` and `count` are taken as already-converted integers. The failure of `int()` on a non-numeric argument is not modelled.
- JSON values are limited to strings, booleans and lists of member references (`Value`). A members entry without `"value"`, a null `userName`, a null password and other JSON kinds are not modelled.
- `create_user` reads `active` and `description` and never uses them. The model does not read them either.
- `create_user` passes `visibility`, but `scim_create_user` drops it. The model keeps that: the backend always receives "limited".
- The single-resource routes `get_user` and `get_group` and the `create_group` route are not part of this model. They wrap the modelled translator operations `scim_get_user`, `scim_get_org` and `scim_create_org`, with no decision logic of their own.
- The `delete_user` route, `GiteaAPI.delete_user`, `GiteaAPI.get_org_members` and `scim_get_org_members` are not part of this model. They wrap the backend calls for deleting a user and for listing an organization's members, which are left out with them.
- `GiteaAPI.add_org_member` uses an undefined global and is never called. `scim_add_org_member` supersedes it.
- The success branch of `scim_edit_user` goes through an attribute the wrapper does not have. A 201 is modelled as raising, so `patch_user` answers a server error on it.
- The truthiness of a `requests.Response` in `update_group` is modelled as a status below 400, which is what the `requests` library defines as a successful response.
- The commented-out handlers, the `print` calls and the `__main__` blocks.
- Frontend.AddMember, Frontend.AddMembers, Frontend.RemoveMember and Frontend.RemoveMembers: for a member who is found, these state the shape of the requests but not the resulting teams and memberships. That effect is stated by Frontend.AddFound and Frontend.RemoveFound, which they call.
- Frontend.UpdateMembers and Frontend.UpdateGroup: these state the request order and the group answered, but not the final organization, teams and memberships. Those are stated by the translator operations they call.

## Findings

| source | as written | input that shows it | evidently intended | confidence | as-written member | corrected member |
|---|---|---|---|---|---|---|
| app.py:45-46 and app.py:233-234 | the presence test names `start_index`, while the read names `startIndex`; the handlers Frontend.GetUsers and Frontend.GetGroups are modelled as written, through Frontend.StartIndexAsWritten | `GET /scim/v2/Users?startIndex=5` lists from index 1; `GET /scim/v2/Users?start_index=5` raises: Werkzeug's `BadRequestKeyError` makes Flask answer 400, or 500 with the debug mode that app.py:439 turns on (a reading of library code that is not part of this model) | the SCIM `startIndex` argument (section 3.4.2.4 of RFC 7644) is honoured when given, and 1 is used otherwise | not executed | Frontend.StartIndexAsWrittenMisreads | Frontend.StartIndexCorrected |
