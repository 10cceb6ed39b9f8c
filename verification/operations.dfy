/**
 * Folding the Operations list of a SCIM PATCH request (section 3.5.2 of
 * RFC 7644) into what the handlers hand to the backend: patch_user turns
 * it into a map of user updates, update_group into a map of organization
 * updates and two member lists, or into an immediate 204 answer.
 *
 * Each fold is given twice: as a function over the list (the
 * specification) and as the loop the handler runs (a method proved equal
 * to it). Reading a key an operation lacks raises, as indexing a Python
 * dictionary does.
 */
module PatchOps {
  import opened Wrappers
  import opened Resources

  /** One entry of the Operations list; a key the entry lacks is None. */
  datatype Operation = Operation(op: Option<string>, path: Option<string>, value: Option<Value>)

  const UserFullNamePath := "urn:ietf:params:scim:schemas:extension:Gitea:2.0:User:full_name"
  const UserVisibilityPath := "urn:ietf:params:scim:schemas:extension:Gitea:2.0:User:visibility"
  const UserLocationPath := "urn:ietf:params:scim:schemas:extension:Gitea:2.0:User:location"
  const WorkEmailPath := "emails[type eq \"work\"].value"
  const GroupVisibilityPath := "urn:ietf:params:scim:schemas:extension:Gitea:2.0:Group:visibility"
  const GroupFullNamePath := "urn:ietf:params:scim:schemas:extension:Gitea:2.0:Group:full_name"

  /** Every key patch_user may put in its update map. */
  const UserUpdateKeys: set<string> := {"full_name", "description", "visibility", "location", "active", "email"}

  /** Every key update_group may put in its update map. */
  const GroupUpdateKeys: set<string> := {"description", "visibility", "full_name"}

  // ------------------------------------------------------ last write wins

  /** The last value a sequence of writes gives, if any. */
  function LastGiven<T>(ws: seq<Option<T>>): Option<T>
    decreases |ws|
  {
    if ws == [] then None
    else if ws[|ws| - 1].Some? then ws[|ws| - 1]
    else LastGiven(ws[..|ws| - 1])
  }

  /** LastGiven is the value of the last write, and nothing when no entry
      writes. */
  lemma {:induction false} LastGivenIsLast<T>(ws: seq<Option<T>>)
    ensures LastGiven(ws).None? <==> forall j :: 0 <= j < |ws| ==> ws[j].None?
    ensures LastGiven(ws).Some? ==>
              exists j :: 0 <= j < |ws| && ws[j] == LastGiven(ws) && forall i :: j < i < |ws| ==> ws[i].None?
    decreases |ws|
  {
    if ws != [] {
      var n := |ws| - 1;
      var init := ws[..n];
      LastGivenIsLast(init);
      if ws[n].None? {
        assert forall j :: 0 <= j < n ==> init[j] == ws[j];
        if LastGiven(ws).Some? {
          var j :| 0 <= j < n && init[j] == LastGiven(init) && forall i :: j < i < n ==> init[i].None?;
          assert ws[j] == LastGiven(ws);
        }
      }
    }
  }

  // ---------------------------------------------------------------- users

  /** The update key a user path copies its value into, for the paths whose
      value is copied as it is ("active" is translated instead). */
  function UserCopyKey(path: string): Option<string>
  {
    if path == UserFullNamePath then Some("full_name")
    else if path == "description" then Some("description")
    else if path == UserVisibilityPath then Some("visibility")
    else if path == UserLocationPath then Some("location")
    else if path == WorkEmailPath then Some("email")
    else None
  }

  /** One pass of patch_user's loop over the update map. */
  function ApplyUserOp(u: map<string, Value>, o: Operation): Outcome<map<string, Value>> {
    match o.path
    case None => Raised
    case Some(p) =>
      if p == "active" then
        if o.value.None? then Raised
        else if o.value.value == Text("False") then Returned(u["active" := Flag(false)])
        else if o.value.value == Text("True") then Returned(u["active" := Flag(true)])
        else Returned(u)
      else
        match UserCopyKey(p)
        case None => Returned(u)
        case Some(k) => if o.value.None? then Raised else Returned(u[k := o.value.value])
  }

  /** The update map patch_user builds from `ops`, operation by operation. */
  function UserUpdates(ops: seq<Operation>): Outcome<map<string, Value>>
    decreases |ops|
  {
    if ops == [] then Returned(map[])
    else UserStep(UserUpdates(ops[..|ops| - 1]), ops[|ops| - 1])
  }

  /** One pass of patch_user's loop on what the earlier passes made: a
      raise stays a raise. */
  function UserStep(r: Outcome<map<string, Value>>, o: Operation): Outcome<map<string, Value>> {
    match r
    case Raised => Raised
    case Returned(u) => ApplyUserOp(u, o)
  }

  /** The update map only ever holds the six keys patch_user knows. */
  lemma {:induction false} UserUpdatesKeys(ops: seq<Operation>)
    ensures UserUpdates(ops).Returned? ==> UserUpdates(ops).value.Keys <= UserUpdateKeys
    decreases |ops|
  {
    if ops != [] {
      UserUpdatesKeys(ops[..|ops| - 1]);
    }
  }

  /** Once patch_user's loop has raised, later operations are not looked at. */
  lemma {:induction false} UserFoldStops(ops: seq<Operation>, i: nat)
    requires i <= |ops| && UserUpdates(ops[..i]).Raised?
    ensures UserUpdates(ops).Raised?
    decreases |ops| - i
  {
    if i < |ops| {
      assert ops[..i + 1][..i] == ops[..i];
      UserFoldStops(ops, i + 1);
    } else {
      assert ops[..i] == ops;
    }
  }

  /** The loop of patch_user, computing the same update map. */
  method FoldUserOps(ops: seq<Operation>) returns (r: Outcome<map<string, Value>>)
    ensures r == UserUpdates(ops)
  {
    var updates: map<string, Value> := map[];
    var i := 0;
    while i < |ops|
      invariant 0 <= i <= |ops|
      invariant UserUpdates(ops[..i]) == Returned(updates)
    {
      assert ops[..i + 1][..i] == ops[..i];
      var o := ops[i];
      if o.path.None? {
        UserFoldStops(ops, i + 1);
        return Raised;
      }
      var p := o.path.value;
      if p == UserFullNamePath || p == "description" || p == UserVisibilityPath || p == UserLocationPath ||
         p == WorkEmailPath || p == "active" {
        if o.value.None? {
          UserFoldStops(ops, i + 1);
          return Raised;
        }
      }
      if p == UserFullNamePath {
        updates := updates["full_name" := o.value.value];
      }
      if p == "description" {
        updates := updates["description" := o.value.value];
      }
      if p == UserVisibilityPath {
        updates := updates["visibility" := o.value.value];
      }
      if p == UserLocationPath {
        updates := updates["location" := o.value.value];
      }
      if p == "active" {
        if o.value.value == Text("False") {
          updates := updates["active" := Flag(false)];
        } else if o.value.value == Text("True") {
          updates := updates["active" := Flag(true)];
        }
      }
      if p == WorkEmailPath {
        updates := updates["email" := o.value.value];
      }
      i := i + 1;
    }
    assert ops[..i] == ops;
    r := Returned(updates);
  }

  /** The value operation `o` gives update key `k`, if it sets it: a
      recognised path copies its value, and "active" is set to false only by
      the string "False" and to true only by the string "True". */
  function UserWrite(o: Operation, k: string): Option<Value> {
    if o.path.None? || o.value.None? then None
    else if o.path.value == "active" then
      if k == "active" && (o.value.value == Text("True") || o.value.value == Text("False"))
      then Some(Flag(o.value.value == Text("True")))
      else None
    else if UserCopyKey(o.path.value) == Some(k) then Some(o.value.value)
    else None
  }

  /** Whether patch_user raises on `o`: it has no path, or it has a
      recognised path and no value. */
  predicate UserOpRaises(o: Operation) {
    o.path.None? || (o.value.None? && (o.path.value == "active" || UserCopyKey(o.path.value).Some?))
  }

  /** The effect of one operation on one key. */
  lemma ApplyUserOpOnKey(u: map<string, Value>, o: Operation, k: string)
    requires ApplyUserOp(u, o).Returned?
    ensures var v := ApplyUserOp(u, o).value;
            && (UserWrite(o, k).Some? ==> k in v && v[k] == UserWrite(o, k).value)
            && (UserWrite(o, k).None? ==> (k in v <==> k in u) && (k in v ==> v[k] == u[k]))
  {
  }

  /** patch_user raises exactly when some operation lacks a key it reads. */
  lemma {:induction false} UserUpdatesRaises(ops: seq<Operation>)
    ensures UserUpdates(ops).Raised? <==> exists j :: 0 <= j < |ops| && UserOpRaises(ops[j])
  {
    if ops != [] {
      var n := |ops| - 1;
      UserUpdatesRaises(ops[..n]);
      if exists j :: 0 <= j < n && UserOpRaises(ops[..n][j]) {
        var j :| 0 <= j < n && UserOpRaises(ops[..n][j]);
        assert ops[j] == ops[..n][j];
      }
      if exists j :: 0 <= j < |ops| && UserOpRaises(ops[j]) {
        var j :| 0 <= j < |ops| && UserOpRaises(ops[j]);
        if j < n {
          assert ops[..n][j] == ops[j];
        }
      }
    }
  }

  /** Last write wins: a key is in the update map exactly when some
      operation sets it, and then it holds what the last such operation
      gave it. */
  lemma {:induction false} UserLastWriteWins(ops: seq<Operation>, k: string)
    requires UserUpdates(ops).Returned?
    ensures var u := UserUpdates(ops).value;
            k in u <==> exists j :: 0 <= j < |ops| && UserWrite(ops[j], k).Some?
    ensures var u := UserUpdates(ops).value;
            k in u ==> exists j :: 0 <= j < |ops| && UserWrite(ops[j], k) == Some(u[k]) &&
                                  forall i :: j < i < |ops| ==> UserWrite(ops[i], k).None?
  {
    var ws := UserWrites(ops, k);
    UserUpdatesLast(ops, k);
    LastGivenIsLast(ws);
    assert forall j :: 0 <= j < |ops| ==> ws[j] == UserWrite(ops[j], k);
  }

  /** What the operations write to key `k`, one entry per operation. */
  function UserWrites(ops: seq<Operation>, k: string): (ws: seq<Option<Value>>)
    ensures |ws| == |ops|
  {
    seq(|ops|, j requires 0 <= j < |ops| => UserWrite(ops[j], k))
  }

  /** The update map holds, at each key, the last value written to it. */
  lemma {:induction false} UserUpdatesLast(ops: seq<Operation>, k: string)
    requires UserUpdates(ops).Returned?
    ensures var u := UserUpdates(ops).value;
            && (k in u <==> LastGiven(UserWrites(ops, k)).Some?)
            && (k in u ==> u[k] == LastGiven(UserWrites(ops, k)).value)
    decreases |ops|
  {
    if ops != [] {
      var n := |ops| - 1;
      UserUpdatesLast(ops[..n], k);
      assert UserWrites(ops, k)[..n] == UserWrites(ops[..n], k);
      ApplyUserOpOnKey(UserUpdates(ops[..n]).value, ops[n], k);
    }
  }

  /** An operation whose path is not one patch_user knows changes nothing,
      wherever it stands in the list. */
  lemma {:induction false} UnknownUserPathIgnored(before: seq<Operation>, o: Operation, after: seq<Operation>)
    requires o.path.Some? && o.path.value != "active" && UserCopyKey(o.path.value).None?
    ensures UserUpdates(before + [o] + after) == UserUpdates(before + after)
    decreases |after|
  {
    var xs, ys := before + [o] + after, before + after;
    if after == [] {
      assert xs[..|xs| - 1] == before && xs[|xs| - 1] == o && ys == before;
      UnknownUserStep(UserUpdates(before), o);
    } else {
      var n := |after| - 1;
      var xs', ys' := before + [o] + after[..n], before + after[..n];
      UnknownUserPathIgnored(before, o, after[..n]);
      assert xs[..|xs| - 1] == xs' && xs[|xs| - 1] == after[n];
      assert ys[..|ys| - 1] == ys' && ys[|ys| - 1] == after[n];
      assert UserUpdates(xs) == UserStep(UserUpdates(xs'), after[n]);
      assert UserUpdates(ys) == UserStep(UserUpdates(ys'), after[n]);
    }
  }

  /** A pass over an operation with an unknown path keeps what it is given. */
  lemma UnknownUserStep(r: Outcome<map<string, Value>>, o: Operation)
    requires o.path.Some? && o.path.value != "active" && UserCopyKey(o.path.value).None?
    ensures UserStep(r, o) == r
  {
  }

  /** "active", when set, is a boolean, and an operation on "active" whose
      value was the string "True" or "False" accordingly set it. */
  lemma ActiveOnlyFromStrings(ops: seq<Operation>)
    requires UserUpdates(ops).Returned? && "active" in UserUpdates(ops).value
    ensures var a := UserUpdates(ops).value["active"];
            && a.Flag?
            && exists j :: 0 <= j < |ops| && ops[j].path == Some("active") &&
                           ops[j].value == Some(Text(if a.flag then "True" else "False"))
  {
    UserLastWriteWins(ops, "active");
    var u := UserUpdates(ops).value;
    var j :| 0 <= j < |ops| && UserWrite(ops[j], "active") == Some(u["active"]);
    UserWriteActive(ops[j]);
  }

  /** Only an operation on "active" with the string "True" or "False" sets
      "active", and it sets the matching boolean. */
  lemma UserWriteActive(o: Operation)
    ensures UserWrite(o, "active").Some? ==>
              && o.path == Some("active") && UserWrite(o, "active").value.Flag?
              && o.value == Some(Text(if UserWrite(o, "active").value.flag then "True" else "False"))
  {
    if o.path.Some? && o.path.value != "active" {
      assert UserCopyKey(o.path.value) != Some("active");
    }
  }

  // --------------------------------------------------------------- groups

  /** What update_group's loop leaves behind: the organization updates and
      the two member lists, or the decision to answer 204 at once. */
  datatype GroupFold = Plan(updates: map<string, Value>, toAdd: Value, toRemove: Value) | Replaced

  /** The member lists update_group starts from. */
  const NoMembers := Refs([])

  /** The update key a group path copies its value into. */
  function GroupCopyKey(path: string): Option<string>
  {
    if path == "description" then Some("description")
    else if path == GroupVisibilityPath then Some("visibility")
    else if path == GroupFullNamePath then Some("full_name")
    else None
  }

  /** Whether `o` is a members operation with the given op ("Add" or "Remove"). */
  predicate MembersOp(o: Operation, op: string) {
    o.path == Some("members") && o.op == Some(op)
  }

  /** Whether update_group reads the value of `o`. */
  predicate GroupReadsValue(o: Operation) {
    o.path.Some? && (MembersOp(o, "Add") || MembersOp(o, "Remove") || GroupCopyKey(o.path.value).Some?)
  }

  /** Whether update_group raises on `o`: it has no path, lacks a value it
      reads, or has no op (read at the end of each pass). */
  predicate GroupOpRaises(o: Operation) {
    o.path.None? || (GroupReadsValue(o) && o.value.None?) || o.op.None?
  }

  /** One pass of update_group's loop. */
  function ApplyGroupOp(p: GroupFold, o: Operation): Outcome<GroupFold>
    requires p.Plan?
  {
    if GroupOpRaises(o) then Raised
    else if o.op.value == "replace" then Returned(Replaced)
    else
      var add := if MembersOp(o, "Add") then o.value.value else p.toAdd;
      var remove := if MembersOp(o, "Remove") then o.value.value else p.toRemove;
      var updates := match GroupCopyKey(o.path.value)
                     case None => p.updates
                     case Some(k) => p.updates[k := o.value.value];
      Returned(Plan(updates, add, remove))
  }

  /** What update_group's loop makes of `ops`: a raise and a "replace" end
      it, and otherwise each operation updates the plan. */
  function GroupFoldOf(ops: seq<Operation>): Outcome<GroupFold>
    decreases |ops|
  {
    if ops == [] then Returned(Plan(map[], NoMembers, NoMembers))
    else GroupStep(GroupFoldOf(ops[..|ops| - 1]), ops[|ops| - 1])
  }

  /** One pass of the loop on what the earlier passes made: a raise and a
      "replace" stay as they are. */
  function GroupStep(r: Outcome<GroupFold>, o: Operation): Outcome<GroupFold> {
    match r
    case Raised => Raised
    case Returned(Replaced) => Returned(Replaced)
    case Returned(p) => ApplyGroupOp(p, o)
  }

  /** A plan only ever holds the three update keys update_group knows. */
  lemma {:induction false} GroupFoldKeys(ops: seq<Operation>)
    ensures GroupFoldOf(ops).Returned? && GroupFoldOf(ops).value.Plan? ==> GroupFoldOf(ops).value.updates.Keys <= GroupUpdateKeys
    decreases |ops|
  {
    if ops != [] {
      GroupFoldKeys(ops[..|ops| - 1]);
    }
  }

  /** Once the loop has raised or decided on 204, later operations are not
      looked at. */
  lemma {:induction false} GroupFoldStops(ops: seq<Operation>, i: nat)
    requires i <= |ops| && (GroupFoldOf(ops[..i]).Raised? || GroupFoldOf(ops[..i]) == Returned(Replaced))
    ensures GroupFoldOf(ops) == GroupFoldOf(ops[..i])
    decreases |ops| - i
  {
    if i < |ops| {
      assert ops[..i + 1][..i] == ops[..i];
      GroupFoldStops(ops, i + 1);
    } else {
      assert ops[..i] == ops;
    }
  }

  /** The loop of update_group, with its early return. */
  method FoldGroupOps(ops: seq<Operation>) returns (r: Outcome<GroupFold>)
    ensures r == GroupFoldOf(ops)
  {
    var updates: map<string, Value> := map[];
    var toAdd, toRemove := NoMembers, NoMembers;
    var i := 0;
    while i < |ops|
      invariant 0 <= i <= |ops|
      invariant GroupFoldOf(ops[..i]) == Returned(Plan(updates, toAdd, toRemove))
    {
      assert ops[..i + 1][..i] == ops[..i];
      var o := ops[i];
      var action := o.op;
      if o.path.None? {
        GroupFoldStops(ops, i + 1);
        return Raised;
      }
      var path := o.path.value;
      if path == "members" {
        if action == Some("Add") {
          if o.value.None? {
            GroupFoldStops(ops, i + 1);
            return Raised;
          }
          toAdd := o.value.value;
        } else if action == Some("Remove") {
          if o.value.None? {
            GroupFoldStops(ops, i + 1);
            return Raised;
          }
          toRemove := o.value.value;
        }
      }
      if path == "description" || path == GroupVisibilityPath || path == GroupFullNamePath {
        if o.value.None? {
          GroupFoldStops(ops, i + 1);
          return Raised;
        }
      }
      if path == "description" {
        updates := updates["description" := o.value.value];
      }
      if path == GroupVisibilityPath {
        updates := updates["visibility" := o.value.value];
      }
      if path == GroupFullNamePath {
        updates := updates["full_name" := o.value.value];
      }
      if action.None? {
        GroupFoldStops(ops, i + 1);
        return Raised;
      }
      if action.value == "replace" {
        GroupFoldStops(ops, i + 1);
        return Returned(Replaced);
      }
      i := i + 1;
    }
    assert ops[..i] == ops;
    r := Returned(Plan(updates, toAdd, toRemove));
  }

  /** A 204 answer needs a "replace" operation; and when no operation lacks
      a key it reads, any "replace" operation leads to the 204 answer. */
  lemma {:induction false} ReplaceAnswers204(ops: seq<Operation>)
    ensures GroupFoldOf(ops) == Returned(Replaced) ==> exists j :: 0 <= j < |ops| && ops[j].op == Some("replace")
    ensures (forall j :: 0 <= j < |ops| ==> !GroupOpRaises(ops[j])) ==> GroupFoldOf(ops).Returned?
    ensures ((forall j :: 0 <= j < |ops| ==> !GroupOpRaises(ops[j])) &&
             (exists j :: 0 <= j < |ops| && ops[j].op == Some("replace")))
            ==> GroupFoldOf(ops) == Returned(Replaced)
  {
    if ops != [] {
      var n := |ops| - 1;
      var init := ops[..n];
      ReplaceAnswers204(init);
      if GroupFoldOf(init) == Returned(Replaced) {
        var j :| 0 <= j < n && init[j].op == Some("replace");
        assert ops[j] == init[j];
      }
      if forall j :: 0 <= j < |ops| ==> !GroupOpRaises(ops[j]) {
        forall i | 0 <= i < n
          ensures !GroupOpRaises(init[i])
        {
          assert init[i] == ops[i];
        }
        if ops[n].op != Some("replace") && exists j :: 0 <= j < |ops| && ops[j].op == Some("replace") {
          var j :| 0 <= j < |ops| && ops[j].op == Some("replace");
          assert init[j] == ops[j];
        }
      }
    }
  }

  /** The member list an operation sets, for "Add" (`add`) or "Remove". */
  function MembersWrite(o: Operation, add: bool): Option<Value> {
    if !GroupOpRaises(o) && o.op.value != "replace" && MembersOp(o, if add then "Add" else "Remove")
    then Some(o.value.value)
    else None
  }

  function MemberList(p: GroupFold, add: bool): Value
    requires p.Plan?
  {
    if add then p.toAdd else p.toRemove
  }

  /** A pass yields a plan only from a plan. */
  lemma GroupStepPlan(r: Outcome<GroupFold>, o: Operation)
    requires GroupStep(r, o).Returned? && GroupStep(r, o).value.Plan?
    ensures r.Returned? && r.value.Plan? && GroupStep(r, o) == ApplyGroupOp(r.value, o)
  {
  }

  /** The effect of one pass on one update key. */
  lemma ApplyGroupOpOnKey(p: GroupFold, o: Operation, k: string)
    requires p.Plan? && ApplyGroupOp(p, o).Returned? && ApplyGroupOp(p, o).value.Plan?
    ensures var v := ApplyGroupOp(p, o).value.updates;
            && (GroupWrite(o, k).Some? ==> k in v && v[k] == GroupWrite(o, k).value)
            && (GroupWrite(o, k).None? ==> (k in v <==> k in p.updates) && (k in v ==> v[k] == p.updates[k]))
  {
  }

  /** The effect of one pass on a member list. */
  lemma ApplyGroupOpOnMembers(p: GroupFold, o: Operation, add: bool)
    requires p.Plan? && ApplyGroupOp(p, o).Returned? && ApplyGroupOp(p, o).value.Plan?
    ensures MemberList(ApplyGroupOp(p, o).value, add) == MembersWrite(o, add).GetOr(MemberList(p, add))
  {
  }

  /** A later members "Add" (or "Remove") replaces the list an earlier one
      set instead of extending it: the list is the last one given, and the
      empty list when none was. */
  lemma {:induction false} LastMemberListWins(ops: seq<Operation>, add: bool)
    requires GroupFoldOf(ops).Returned? && GroupFoldOf(ops).value.Plan?
    ensures var l := MemberList(GroupFoldOf(ops).value, add);
            && ((forall j :: 0 <= j < |ops| ==> MembersWrite(ops[j], add).None?) ==> l == NoMembers)
            && ((exists j :: 0 <= j < |ops| && MembersWrite(ops[j], add).Some?) ==>
                  exists j :: 0 <= j < |ops| && MembersWrite(ops[j], add) == Some(l) &&
                              forall i :: j < i < |ops| ==> MembersWrite(ops[i], add).None?)
  {
    var ws := MembersWrites(ops, add);
    MemberListLast(ops, add);
    LastGivenIsLast(ws);
    assert forall j :: 0 <= j < |ops| ==> ws[j] == MembersWrite(ops[j], add);
  }

  /** The member lists the operations set, one entry per operation. */
  function MembersWrites(ops: seq<Operation>, add: bool): (ws: seq<Option<Value>>)
    ensures |ws| == |ops|
  {
    seq(|ops|, j requires 0 <= j < |ops| => MembersWrite(ops[j], add))
  }

  /** The member list is the last one set, or the empty list. */
  lemma {:induction false} MemberListLast(ops: seq<Operation>, add: bool)
    requires GroupFoldOf(ops).Returned? && GroupFoldOf(ops).value.Plan?
    ensures MemberList(GroupFoldOf(ops).value, add) == LastGiven(MembersWrites(ops, add)).GetOr(NoMembers)
    decreases |ops|
  {
    if ops != [] {
      var n := |ops| - 1;
      GroupStepPlan(GroupFoldOf(ops[..n]), ops[n]);
      MemberListLast(ops[..n], add);
      assert MembersWrites(ops, add)[..n] == MembersWrites(ops[..n], add);
      ApplyGroupOpOnMembers(GroupFoldOf(ops[..n]).value, ops[n], add);
    }
  }

  /** The value an operation gives organization update key `k`, if any. */
  function GroupWrite(o: Operation, k: string): Option<Value> {
    if !GroupOpRaises(o) && o.op.value != "replace" && GroupCopyKey(o.path.value) == Some(k)
    then Some(o.value.value)
    else None
  }

  /** Last write wins for the organization updates too. */
  lemma {:induction false} GroupLastWriteWins(ops: seq<Operation>, k: string)
    requires GroupFoldOf(ops).Returned? && GroupFoldOf(ops).value.Plan?
    ensures var u := GroupFoldOf(ops).value.updates;
            k in u <==> exists j :: 0 <= j < |ops| && GroupWrite(ops[j], k).Some?
    ensures var u := GroupFoldOf(ops).value.updates;
            k in u ==> exists j :: 0 <= j < |ops| && GroupWrite(ops[j], k) == Some(u[k]) &&
                                  forall i :: j < i < |ops| ==> GroupWrite(ops[i], k).None?
  {
    var ws := GroupWrites(ops, k);
    GroupUpdatesLast(ops, k);
    LastGivenIsLast(ws);
    assert forall j :: 0 <= j < |ops| ==> ws[j] == GroupWrite(ops[j], k);
  }

  /** What the operations write to organization key `k`, one entry per operation. */
  function GroupWrites(ops: seq<Operation>, k: string): (ws: seq<Option<Value>>)
    ensures |ws| == |ops|
  {
    seq(|ops|, j requires 0 <= j < |ops| => GroupWrite(ops[j], k))
  }

  /** The organization updates hold, at each key, the last value written. */
  lemma {:induction false} GroupUpdatesLast(ops: seq<Operation>, k: string)
    requires GroupFoldOf(ops).Returned? && GroupFoldOf(ops).value.Plan?
    ensures var u := GroupFoldOf(ops).value.updates;
            && (k in u <==> LastGiven(GroupWrites(ops, k)).Some?)
            && (k in u ==> u[k] == LastGiven(GroupWrites(ops, k)).value)
    decreases |ops|
  {
    if ops != [] {
      var n := |ops| - 1;
      GroupStepPlan(GroupFoldOf(ops[..n]), ops[n]);
      GroupUpdatesLast(ops[..n], k);
      assert GroupWrites(ops, k)[..n] == GroupWrites(ops[..n], k);
      ApplyGroupOpOnKey(GroupFoldOf(ops[..n]).value, ops[n], k);
    }
  }
}
