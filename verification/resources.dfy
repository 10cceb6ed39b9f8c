/**
 * Backend records and the SCIM resources they are projected into
 * (the User resource of section 4.1 and the Group resource of section 4.2
 * of RFC 7643), following the GiteaUser and GiteaOrg classes.
 */
module Resources {
  import opened Wrappers

  /** A JSON attribute value as it reaches the translator: a string, a
      boolean, or a list of member references `[{"value": name}, ...]`. */
  datatype Value = Text(text: string) | Flag(flag: bool) | Refs(names: seq<string>)

  /** Python truthiness of an optional string: missing and empty are both false. */
  predicate Truthy(s: Option<string>) {
    s.Some? && s.value != ""
  }

  /** A user as the backend reports it; every attribute may be missing. */
  datatype UserRecord = UserRecord(
    username: Option<string>,
    loginName: Option<string>,
    fullName: Option<string>,
    email: Option<string>,
    avatarUrl: Option<string>,
    language: Option<string>,
    isAdmin: Option<bool>,
    lastLogin: Option<string>,
    created: Option<string>,
    restricted: Option<bool>,
    active: Option<bool>,
    prohibitLogin: Option<bool>,
    location: Option<string>,
    website: Option<string>,
    description: Option<string>,
    visibility: Option<string>,
    sourceId: Option<int>)

  /** A reply body that carries no user attributes (an error document). */
  const NoUser := UserRecord(None, None, None, None, None, None, None, None, None,
                             None, None, None, None, None, None, None, None)

  /** An organization as the backend reports it. */
  datatype OrgRecord = OrgRecord(
    username: Option<string>,
    fullName: Option<string>,
    avatarUrl: Option<string>,
    created: Option<string>,
    location: Option<string>,
    website: Option<string>,
    description: Option<string>,
    visibility: Option<string>,
    members: Option<seq<string>>)

  /** A reply body that carries no organization attributes. */
  const NoOrg := OrgRecord(None, None, None, None, None, None, None, None, None)

  const UserSchema := "urn:ietf:params:scim:schemas:core:2.0:User"
  const GroupSchema := "urn:ietf:params:scim:schemas:core:2.0:Group"

  datatype Email = Email(primary: bool, value: Option<string>, kind: string)

  /** The `urn:ietf:params:scim:schemas:extension:Gitea:2.0:User` part. */
  datatype UserExtension = UserExtension(
    fullName: Option<string>, visibility: Option<string>,
    location: Option<string>, sourceId: Option<int>)

  datatype ScimUser = ScimUser(
    schemas: seq<string>,
    id: string,
    userName: string,
    emails: seq<Email>,
    description: Option<string>,
    active: Option<bool>,
    extension: UserExtension,
    resourceType: string)

  /** The `urn:ietf:params:scim:schemas:extension:Gitea:2.0:Group` part. */
  datatype GroupExtension = GroupExtension(
    fullName: Option<string>, visibility: Option<string>, location: Option<string>)

  datatype ScimGroup = ScimGroup(
    schemas: seq<string>,
    id: string,
    displayName: string,
    members: Option<seq<string>>,
    description: Option<string>,
    extension: GroupExtension,
    resourceType: string)

  /** GiteaUser(**record).serialize(): the SCIM User, or null when the
      record has no (or an empty) username. */
  function SerializeUser(u: UserRecord): (r: Option<ScimUser>)
    ensures r.None? <==> !Truthy(u.username)
    ensures r.Some? ==> r.value.id == u.username.value && r.value.userName == u.username.value
    ensures r.Some? ==> r.value.emails == [Email(true, u.email, "work")]
    ensures r.Some? ==> r.value.schemas == [UserSchema] && r.value.resourceType == "User"
    ensures r.Some? ==> r.value.extension == UserExtension(u.fullName, u.visibility, u.location, u.sourceId)
    ensures r.Some? ==> r.value.description == u.description && r.value.active == u.active
  {
    if Truthy(u.username) then
      Some(ScimUser([UserSchema], u.username.value, u.username.value,
                    [Email(true, u.email, "work")], u.description, u.active,
                    UserExtension(u.fullName, u.visibility, u.location, u.sourceId), "User"))
    else
      None
  }

  /** GiteaOrg(**record).serialize(): the SCIM Group, or null when the
      record has no (or an empty) username. */
  function SerializeOrg(o: OrgRecord): (r: Option<ScimGroup>)
    ensures r.None? <==> !Truthy(o.username)
    ensures r.Some? ==> r.value.id == o.username.value && r.value.displayName == o.username.value
    ensures r.Some? ==> r.value.members == o.members
    ensures r.Some? ==> r.value.schemas == [GroupSchema] && r.value.resourceType == "Group"
    ensures r.Some? ==> r.value.extension == GroupExtension(o.fullName, o.visibility, o.location)
    ensures r.Some? ==> r.value.description == o.description
  {
    if Truthy(o.username) then
      Some(ScimGroup([GroupSchema], o.username.value, o.username.value, o.members,
                     o.description, GroupExtension(o.fullName, o.visibility, o.location), "Group"))
    else
      None
  }

  /** `[GiteaUser(**g).serialize() for g in users]`: one entry per record,
      in the backend's order, null entries included. */
  function SerializeUsers(us: seq<UserRecord>): (r: seq<Option<ScimUser>>)
    ensures |r| == |us|
    ensures forall i :: 0 <= i < |us| ==> r[i] == SerializeUser(us[i])
  {
    if us == [] then [] else [SerializeUser(us[0])] + SerializeUsers(us[1..])
  }

  /** `[GiteaOrg(**o).serialize() for o in orgs]`. */
  function SerializeOrgs(os: seq<OrgRecord>): (r: seq<Option<ScimGroup>>)
    ensures |r| == |os|
    ensures forall i :: 0 <= i < |os| ==> r[i] == SerializeOrg(os[i])
  {
    if os == [] then [] else [SerializeOrg(os[0])] + SerializeOrgs(os[1..])
  }

  /** The attributes a serialised user exposes, read back from the SCIM
      resource: its user name, its one email, its description, its active
      flag and its extension attributes. */
  datatype UserView = UserView(
    username: string, email: Option<string>, description: Option<string>,
    active: Option<bool>, fullName: Option<string>, visibility: Option<string>,
    location: Option<string>, sourceId: Option<int>)

  function ViewOfScimUser(s: ScimUser): Option<UserView> {
    if |s.emails| == 1 then
      Some(UserView(s.userName, s.emails[0].value, s.description, s.active,
                    s.extension.fullName, s.extension.visibility,
                    s.extension.location, s.extension.sourceId))
    else
      None
  }

  function ViewOfRecord(u: UserRecord): UserView
    requires u.username.Some?
  {
    UserView(u.username.value, u.email, u.description, u.active,
             u.fullName, u.visibility, u.location, u.sourceId)
  }

  /** Serialisation loses none of the exposed attributes: reading the SCIM
      user back gives exactly the record's view, and two records serialise
      to the same resource exactly when their views agree. */
  lemma SerializeUserReadsBack(u: UserRecord, v: UserRecord)
    requires Truthy(u.username) && Truthy(v.username)
    ensures ViewOfScimUser(SerializeUser(u).value) == Some(ViewOfRecord(u))
    ensures SerializeUser(u) == SerializeUser(v) <==> ViewOfRecord(u) == ViewOfRecord(v)
  {
    var su, sv := SerializeUser(u).value, SerializeUser(v).value;
    if ViewOfRecord(u) == ViewOfRecord(v) {
      assert su == sv;
    }
    if su == sv {
      assert ViewOfScimUser(su) == ViewOfScimUser(sv);
    }
  }
}
