/** A reference implementation of DefaultRoleEventInterface: the default
    roles other modules offer, keyed by role name. Each role is stored with
    its label and its role type; properties are passed in as a PHP
    associative array of strings. */
module DefaultRoleEvent {
  import opened Outcomes
  import opened OgRole

  type Properties = map<string, string>

  datatype DefaultRole = DefaultRole(roleLabel: string, roleType: string)

  type Roles = map<string, DefaultRole>

  /** The stored form of a property array: its label, and its role type with
      ROLE_TYPE_STANDARD when the array does not give one. */
  function Normalize(p: Properties): (d: DefaultRole)
    requires "label" in p
    ensures d.roleLabel == p["label"]
    ensures "role_type" in p ==> d.roleType == p["role_type"]
    ensures "role_type" !in p ==> d.roleType == ROLE_TYPE_STANDARD
  {
    DefaultRole(p["label"], if "role_type" in p then p["role_type"] else ROLE_TYPE_STANDARD)
  }

  /** hasRole(). */
  predicate HasRole(roles: Roles, name: string) {
    name in roles
  }

  /** getRoles(): the names of the roles are exactly those hasRole() accepts. */
  function GetRoles(roles: Roles): (r: map<string, DefaultRole>)
    ensures forall n :: n in r <==> HasRole(roles, n)
    ensures forall n | n in r :: n in roles && r[n] == roles[n]
  {
    roles
  }

  /** getRole(): fails when no role has the name. */
  function GetRole(roles: Roles, name: string): (r: Result<DefaultRole>)
    ensures r == Err(NoSuchRole) <==> !HasRole(roles, name)
    ensures r.Ok? ==> HasRole(roles, name) && r.value == GetRoles(roles)[name]
  {
    if name in roles then Ok(roles[name]) else Err(NoSuchRole)
  }

  /** setRole(): creates or replaces the role, after checking the name is not
      empty and the properties carry a label. */
  function SetRole(roles: Roles, name: string, p: Properties): (r: Result<Roles>)
    ensures r == Err(EmptyRoleName) <==> PhpEmpty(name)
    ensures r == Err(MissingLabel) <==> !PhpEmpty(name) && "label" !in p
    ensures r.Ok? <==> !PhpEmpty(name) && "label" in p
    ensures r.Ok? ==> r.value.Keys == roles.Keys + {name}
    ensures r.Ok? ==> r.value[name] == Normalize(p)
    ensures r.Ok? ==> forall n | n in roles && n != name :: r.value[n] == roles[n]
  {
    if PhpEmpty(name) then Err(EmptyRoleName)
    else if "label" !in p then Err(MissingLabel)
    else Ok(roles[name := Normalize(p)])
  }

  /** addRole(): as setRole(), but refuses a name that is already taken. */
  function AddRole(roles: Roles, name: string, p: Properties): (r: Result<Roles>)
    ensures HasRole(roles, name) ==> r == Err(RoleExists)
    ensures !HasRole(roles, name) ==> r == SetRole(roles, name, p)
    ensures r.Ok? <==> !HasRole(roles, name) && !PhpEmpty(name) && "label" in p
  {
    if name in roles then Err(RoleExists) else SetRole(roles, name, p)
  }

  /** deleteRole(): removing a name that is not there does nothing. */
  function DeleteRole(roles: Roles, name: string): (r: Roles)
    ensures !HasRole(r, name)
    ensures forall n | n != name :: HasRole(r, n) <==> HasRole(roles, n)
    ensures forall n | n in r :: n in roles && r[n] == roles[n]
  {
    roles - {name}
  }

  /** An entry of the associative array addRoles() and setRoles() take. */
  datatype Entry = Entry(name: string, properties: Properties)

  /** addRoles(): addRole() on each entry in order. The first exception
      leaves the entries before it added. */
  function AddRoles(roles: Roles, entries: seq<Entry>): (r: Partial<Roles>)
    ensures r.error.Some? ==> r.error.value in {RoleExists, EmptyRoleName, MissingLabel}
    ensures roles.Keys <= r.state.Keys <= roles.Keys + Names(entries)
    ensures r.Completed() ==> r.state.Keys == roles.Keys + Names(entries) && Names(entries) !! roles.Keys
    decreases |entries|
  {
    if |entries| == 0 then Partial(roles, None)
    else match AddRole(roles, entries[0].name, entries[0].properties)
      case Err(e) => Partial(roles, Some(e))
      case Ok(next) => AddRoles(next, entries[1..])
  }

  /** setRoles(): setRole() on each entry in order, stopping at the first
      exception. */
  function SetRoles(roles: Roles, entries: seq<Entry>): (r: Partial<Roles>)
    ensures r.error.Some? ==> r.error.value in {EmptyRoleName, MissingLabel}
    ensures r.Completed() ==> r.state.Keys == roles.Keys + Names(entries)
    decreases |entries|
  {
    if |entries| == 0 then Partial(roles, None)
    else match SetRole(roles, entries[0].name, entries[0].properties)
      case Err(e) => Partial(roles, Some(e))
      case Ok(next) => SetRoles(next, entries[1..])
  }

  /** Every stored role has a name setRole() accepts. */
  predicate Valid(roles: Roles) {
    forall n | n in roles :: !PhpEmpty(n)
  }

  /** The names of the entries. */
  function Names(entries: seq<Entry>): (r: set<string>)
    ensures forall n :: n in r <==> exists i | 0 <= i < |entries| :: entries[i].name == n
    decreases |entries|
  {
    if |entries| == 0 then {}
    else
      assert forall i | 0 < i < |entries| :: entries[i] == entries[1..][i - 1];
      {entries[0].name} + Names(entries[1..])
  }

  /** Every entry has a name and a label. */
  predicate Acceptable(entries: seq<Entry>) {
    forall i | 0 <= i < |entries| :: !PhpEmpty(entries[i].name) && "label" in entries[i].properties
  }

  /** No name is given twice. */
  predicate DistinctNames(entries: seq<Entry>) {
    forall i, j | 0 <= i < j < |entries| :: entries[i].name != entries[j].name
  }
}
