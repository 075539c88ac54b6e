/** The OG role entity (OgRole): a group-scoped bundle of permissions, with
    the save-time validation and id prefixing, the field-lock guard on set(),
    the deletion guard for the reserved roles, and the static lookup tables of
    default properties and role types. */
module OgRole {
  import opened Outcomes
  import opened Lists
  import opened GroupMaps

  // Role names and role types of OgRoleInterface.
  const ANONYMOUS: string := "non-member"
  const AUTHENTICATED: string := "member"
  const ADMINISTRATOR: string := "administrator"
  const ROLE_TYPE_IMMUTABLE: string := "immutable"
  const ROLE_TYPE_STANDARD: string := "standard"

  /** The three roles every group type is provisioned with, in order. */
  const DEFAULT_ROLE_NAMES: seq<string> := [ANONYMOUS, AUTHENTICATED, ADMINISTRATOR]

  /** One og_role config entity (`title` is its label). `isNew` is the entity's "not yet saved" flag;
      the role type is kept as a string because set() accepts any value. */
  datatype Role = Role(
    id: string,
    title: string,
    groupType: string,
    groupBundle: string,
    groupId: string,
    permissions: seq<string>,
    roleType: string,
    isNew: bool)

  /** PHP's empty() on a string: true for "" and for "0". */
  predicate PhpEmpty(s: string) {
    s == "" || s == "0"
  }

  // ---------------------------------------------------------------------------
  // set()

  datatype Property = Id | Label | GroupType | GroupBundle | GroupId | Permissions | RoleType

  datatype Value = Text(text: string) | Texts(texts: seq<string>)

  /** A call set($property_name, $value), one constructor per property. */
  datatype Change =
    | IdTo(id: string)
    | LabelTo(title: string)
    | GroupTypeTo(groupType: string)
    | GroupBundleTo(groupBundle: string)
    | GroupIdTo(groupId: string)
    | PermissionsTo(permissions: seq<string>)
    | RoleTypeTo(roleType: string)

  function PropertyOf(c: Change): Property {
    match c
    case IdTo(_) => Id
    case LabelTo(_) => Label
    case GroupTypeTo(_) => GroupType
    case GroupBundleTo(_) => GroupBundle
    case GroupIdTo(_) => GroupId
    case PermissionsTo(_) => Permissions
    case RoleTypeTo(_) => RoleType
  }

  function ValueOf(c: Change): Value {
    match c
    case IdTo(v) => Text(v)
    case LabelTo(v) => Text(v)
    case GroupTypeTo(v) => Text(v)
    case GroupBundleTo(v) => Text(v)
    case GroupIdTo(v) => Text(v)
    case PermissionsTo(v) => Texts(v)
    case RoleTypeTo(v) => Text(v)
  }

  /** Reading one property (the entity's get()). */
  function Get(r: Role, p: Property): Value {
    match p
    case Id => Text(r.id)
    case Label => Text(r.title)
    case GroupType => Text(r.groupType)
    case GroupBundle => Text(r.groupBundle)
    case GroupId => Text(r.groupId)
    case Permissions => Texts(r.permissions)
    case RoleType => Text(r.roleType)
  }

  /** The properties set() refuses to change on a saved non-standard role. */
  predicate Locked(p: Property) {
    p.Id? || p.RoleType? || p.GroupType? || p.GroupBundle?
  }

  /** OgRole::isMutable(). */
  predicate IsMutable(r: Role) {
    r.roleType == ROLE_TYPE_STANDARD
  }

  /** OgRole::set(): a locked property of a saved role whose type is not
      standard cannot change; every other call writes exactly one property. */
  function Set(r: Role, c: Change): (res: Result<Role>)
    ensures res.Err? <==> Locked(PropertyOf(c)) && r.roleType != ROLE_TYPE_STANDARD && !r.isNew
    ensures res.Err? ==> res.error == LockedProperty
    ensures res.Ok? ==> Get(res.value, PropertyOf(c)) == ValueOf(c) && res.value.isNew == r.isNew
    ensures res.Ok? ==> forall p | p != PropertyOf(c) :: Get(res.value, p) == Get(r, p)
  {
    if Locked(PropertyOf(c)) && r.roleType != ROLE_TYPE_STANDARD && !r.isNew then
      Err(LockedProperty)
    else
      Ok(match c
         case IdTo(v) => r.(id := v)
         case LabelTo(v) => r.(title := v)
         case GroupTypeTo(v) => r.(groupType := v)
         case GroupBundleTo(v) => r.(groupBundle := v)
         case GroupIdTo(v) => r.(groupId := v)
         case PermissionsTo(v) => r.(permissions := v)
         case RoleTypeTo(v) => r.(roleType := v))
  }

  /** OgRole::setRoleType(): only the two role-type constants are accepted,
      and the change then goes through set() and its lock. */
  function SetRoleType(r: Role, roleType: string): (res: Result<Role>)
    ensures roleType != ROLE_TYPE_IMMUTABLE && roleType != ROLE_TYPE_STANDARD ==> res == Err(InvalidRoleType)
    ensures roleType == ROLE_TYPE_IMMUTABLE || roleType == ROLE_TYPE_STANDARD ==> res == Set(r, RoleTypeTo(roleType))
    ensures res.Ok? ==> res.value.roleType == roleType
  {
    if roleType != ROLE_TYPE_IMMUTABLE && roleType != ROLE_TYPE_STANDARD then Err(InvalidRoleType)
    else Set(r, RoleTypeTo(roleType))
  }

  // ---------------------------------------------------------------------------
  // The role store (the og_role entity storage) and save()

  predicate HasId(store: seq<Role>, id: string) {
    exists x | x in store :: x.id == id
  }

  /** Config entity ids are unique within the storage. */
  predicate UniqueIds(store: seq<Role>) {
    forall i, j | 0 <= i < j < |store| :: store[i].id != store[j].id
  }

  function Replace(store: seq<Role>, r: Role): (res: seq<Role>)
    ensures |res| == |store|
    ensures forall i | 0 <= i < |store| :: res[i] == if store[i].id == r.id then r else store[i]
  {
    seq(|store|, i requires 0 <= i < |store| => if store[i].id == r.id then r else store[i])
  }

  /** The storage's write of a saved entity: a new entity may not take an id
      that is already stored; an existing one overwrites its record. */
  function Persist(r: Role, wasNew: bool, store: seq<Role>): Result<seq<Role>> {
    if wasNew then (if HasId(store, r.id) then Err(IdTaken) else Ok(store + [r]))
    else if HasId(store, r.id) then Ok(Replace(store, r))
    else Ok(store + [r])
  }

  /** `{group_type}-{group_bundle}-` followed by `{group_id}-` when the group
      id is not empty: the namespace save() gives a new role's id. */
  function ScopePrefix(groupType: string, groupBundle: string, groupId: string): string {
    groupType + "-" + groupBundle + "-" + (if PhpEmpty(groupId) then "" else groupId + "-")
  }

  function RolePrefix(r: Role): string {
    ScopePrefix(r.groupType, r.groupBundle, r.groupId)
  }

  datatype Saved = Saved(role: Role, store: seq<Role>)

  /** OgRole::save(). A new role needs a group type and a group bundle and gets
      its id prefixed with its scope; a saved role keeps its id. */
  function Save(r: Role, store: seq<Role>): (res: Result<Saved>)
    ensures r.isNew && PhpEmpty(r.groupType) ==> res == Err(GroupTypeEmpty)
    ensures r.isNew && !PhpEmpty(r.groupType) && PhpEmpty(r.groupBundle) ==> res == Err(GroupBundleEmpty)
    ensures r.isNew && !PhpEmpty(r.groupType) && !PhpEmpty(r.groupBundle) ==>
              (res.Err? <==> HasId(store, RolePrefix(r) + r.id))
    ensures r.isNew && !PhpEmpty(r.groupType) && !PhpEmpty(r.groupBundle) && res.Err? ==> res.error == IdTaken
    ensures !r.isNew ==> res.Ok?
    ensures res.Ok? ==> res.value.role.id == (if r.isNew then RolePrefix(r) + r.id else r.id)
    ensures res.Ok? ==> res.value.role == r.(id := res.value.role.id, isNew := false)
    ensures res.Ok? ==> res.value.role in res.value.store
    ensures res.Ok? ==> forall x | x in store && x.id != res.value.role.id :: x in res.value.store
    ensures res.Ok? ==> forall x | x in res.value.store :: x in store || x == res.value.role
    ensures res.Ok? && r.isNew ==> res.value.store == store + [res.value.role]
    ensures res.Ok? && UniqueIds(store) ==> UniqueIds(res.value.store)
  {
    if r.isNew && PhpEmpty(r.groupType) then Err(GroupTypeEmpty)
    else if r.isNew && PhpEmpty(r.groupBundle) then Err(GroupBundleEmpty)
    else
      var saved := r.(id := if r.isNew then RolePrefix(r) + r.id else r.id, isNew := false);
      match Persist(saved, r.isNew, store)
      case Err(e) => Err(e)
      case Ok(s) => Ok(Saved(saved, s))
  }

  /** The role's own name: its id with the scope prefix removed, when the id
      carries it. */
  function RoleName(r: Role): string {
    var p := RolePrefix(r);
    if |p| <= |r.id| && r.id[..|p|] == p then r.id[|p|..] else r.id
  }

  // ---------------------------------------------------------------------------
  // delete()

  predicate Reserved(name: string) {
    name == ANONYMOUS || name == AUTHENTICATED
  }

  /** Which id the deletion guard recognises the reserved roles by:
      `BareNames` compares the stored id with the bare names, as the source
      does; `ScopedNames` compares the role's name with the scope removed. */
  datatype DeleteGuard = BareNames | ScopedNames

  predicate Guarded(r: Role, guard: DeleteGuard) {
    match guard
    case BareNames => Reserved(r.id)
    case ScopedNames => Reserved(RoleName(r))
  }

  function RemoveId(store: seq<Role>, id: string): (res: seq<Role>)
    ensures forall x | x in res :: x in store && x.id != id
    ensures forall x | x in store && x.id != id :: x in res
    ensures !HasId(res, id)
  {
    Filter(store, (x: Role) => x.id != id)
  }

  /** OgRole::delete() reading the group map `groups` that the group manager
      service holds in memory at the time of the call. */
  function DeleteWith(r: Role, store: seq<Role>, groups: GroupMap, guard: DeleteGuard): (res: Result<seq<Role>>)
    ensures res.Err? <==> Guarded(r, guard) && IsGroup(groups, r.groupType, r.groupBundle)
    ensures res.Err? ==> res.error == RequiredRole
    ensures res.Ok? ==> forall x | x in res.value :: x in store && x.id != r.id
    ensures res.Ok? ==> forall x | x in store && x.id != r.id :: x in res.value
  {
    if Guarded(r, guard) && IsGroup(groups, r.groupType, r.groupBundle) then Err(RequiredRole)
    else Ok(RemoveId(store, r.id))
  }

  /** delete() as written: the stored id is compared with the bare names. */
  function DeleteAsWritten(r: Role, store: seq<Role>, groups: GroupMap): (res: Result<seq<Role>>)
    ensures res.Err? <==> (r.id == ANONYMOUS || r.id == AUTHENTICATED) && IsGroup(groups, r.groupType, r.groupBundle)
    ensures res.Ok? ==> !HasId(res.value, r.id)
  {
    DeleteWith(r, store, groups, BareNames)
  }

  /** delete() with the guard recognising the scope-prefixed reserved ids. */
  function Delete(r: Role, store: seq<Role>, groups: GroupMap): (res: Result<seq<Role>>)
    ensures res.Err? <==> Reserved(RoleName(r)) && IsGroup(groups, r.groupType, r.groupBundle)
    ensures res.Ok? ==> !HasId(res.value, r.id)
  {
    DeleteWith(r, store, groups, ScopedNames)
  }

  // ---------------------------------------------------------------------------
  // Static lookup tables

  /** OgRole::getRoleTypeByName(). */
  function RoleTypeByName(name: string): (t: string)
    ensures t == ROLE_TYPE_IMMUTABLE <==> Reserved(name)
    ensures t == ROLE_TYPE_IMMUTABLE || t == ROLE_TYPE_STANDARD
  {
    if name == ANONYMOUS || name == AUTHENTICATED then ROLE_TYPE_IMMUTABLE else ROLE_TYPE_STANDARD
  }

  datatype Defaults = Defaults(roleType: string, title: string, permissions: seq<string>)

  const ADMINISTRATOR_PERMISSIONS: seq<string> := [
    "add user",
    "administer group",
    "approve and deny subscription",
    "manage members",
    "manage permissions",
    "manage roles",
    "update group"
  ]

  /** OgRole::getDefaultProperties(): the seed of each default role; any
      other name is an invalid argument. */
  function DefaultProperties(name: string): (res: Result<Defaults>)
    ensures res.Ok? <==> name in DEFAULT_ROLE_NAMES
    ensures res.Err? ==> res.error == NotADefaultRoleName
    ensures res.Ok? ==> res.value.roleType == RoleTypeByName(name)
    ensures res.Ok? ==> res.value.title != "" && res.value.permissions != []
  {
    if name == ANONYMOUS then Ok(Defaults(ROLE_TYPE_IMMUTABLE, "Non-member", ["subscribe"]))
    else if name == AUTHENTICATED then Ok(Defaults(ROLE_TYPE_IMMUTABLE, "Member", ["unsubscribe"]))
    else if name == ADMINISTRATOR then Ok(Defaults(ROLE_TYPE_STANDARD, "Administrator", ADMINISTRATOR_PERMISSIONS))
    else Err(NotADefaultRoleName)
  }
}
