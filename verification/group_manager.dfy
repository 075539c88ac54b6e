/** GroupManager: the registry of entity type / bundle pairs that are groups.
    Its state is the persisted `og.settings:groups` map, the in-memory copy of
    it that the manager's queries read, and the og_role storage it provisions
    default roles into and deletes roles from. */
module GroupManager {
  import opened Outcomes
  import opened Lists
  import opened GroupMaps
  import opened OgRole

  /** `config` is the persisted map, `snapshot` the manager's groupMap
      property, `roles` the og_role storage. */
  datatype Registry = Registry(config: GroupMap, snapshot: GroupMap, roles: seq<Role>)

  /** The invariants the storage and addGroup() maintain. */
  predicate Valid(s: Registry) {
    ListsNoDup(s.config) && UniqueIds(s.roles)
  }

  /** GroupManager::refreshGroupMap(). */
  function RefreshGroupMap(s: Registry): (r: Registry)
    ensures r.snapshot == s.config && r.config == s.config && r.roles == s.roles
  {
    s.(snapshot := s.config)
  }

  /** The constructor reads the map once. */
  function NewGroupManager(config: GroupMap, roles: seq<Role>): (r: Registry)
    ensures r.snapshot == r.config == config && r.roles == roles
  {
    RefreshGroupMap(Registry(config, map[], roles))
  }

  // ---------------------------------------------------------------------------
  // createDefaultRoles()

  /** Which id createDefaultRoles() looks an existing role up by: `BareId` is
      the role name itself, as the source does; `ScopedId` is the id save()
      gives the role. */
  datatype RoleLookup = BareId | ScopedId

  function LookupId(groupType: string, groupBundle: string, name: string, lookup: RoleLookup): string {
    match lookup
    case BareId => name
    case ScopedId => ScopePrefix(groupType, groupBundle, "") + name
  }

  /** loadByProperties() with group_type, group_bundle, id and role_type finds a role. */
  predicate Provisioned(store: seq<Role>, groupType: string, groupBundle: string, name: string, lookup: RoleLookup) {
    exists x | x in store ::
      && x.groupType == groupType && x.groupBundle == groupBundle
      && x.id == LookupId(groupType, groupBundle, name, lookup)
      && x.roleType == RoleTypeByName(name)
  }

  /** The role create() builds from the lookup properties plus the seed: the
      lookup properties come first, so the role type is getRoleTypeByName()'s. */
  function NewDefaultRole(groupType: string, groupBundle: string, name: string, d: Defaults): Role {
    Role(name, d.title, groupType, groupBundle, "", d.permissions, RoleTypeByName(name), true)
  }

  /** The stored form of a default role once save() has prefixed it. */
  function SavedDefaultRole(groupType: string, groupBundle: string, name: string): (r: Role)
    requires DefaultProperties(name).Ok?
    ensures r.id == LookupId(groupType, groupBundle, name, ScopedId)
    ensures r.groupType == groupType && r.groupBundle == groupBundle && r.roleType == RoleTypeByName(name)
  {
    var d := DefaultProperties(name).value;
    NewDefaultRole(groupType, groupBundle, name, d).(id := ScopePrefix(groupType, groupBundle, "") + name, isNew := false)
  }

  /** One pass of the createDefaultRoles() loop: the role is created and
      saved unless the lookup finds it; an exception leaves the store as it was. */
  function ProvisionOne(store: seq<Role>, groupType: string, groupBundle: string, name: string, lookup: RoleLookup): (p: Partial<seq<Role>>)
    ensures Provisioned(store, groupType, groupBundle, name, lookup) ==> p == Partial(store, None)
    ensures !Provisioned(store, groupType, groupBundle, name, lookup) && p.Completed() ==>
              DefaultProperties(name).Ok? && p.state == store + [SavedDefaultRole(groupType, groupBundle, name)]
    ensures !Provisioned(store, groupType, groupBundle, name, lookup) && name in DEFAULT_ROLE_NAMES ==>
              (p.Completed() <==> !PhpEmpty(groupType) && !PhpEmpty(groupBundle)
                                  && !HasId(store, LookupId(groupType, groupBundle, name, ScopedId)))
    ensures (!Provisioned(store, groupType, groupBundle, name, lookup) && name in DEFAULT_ROLE_NAMES &&
             !PhpEmpty(groupType) && !PhpEmpty(groupBundle) && !p.Completed()) ==> p.error == Some(IdTaken)
    ensures !p.Completed() ==> p.state == store
    ensures UniqueIds(store) ==> UniqueIds(p.state)
  {
    if Provisioned(store, groupType, groupBundle, name, lookup) then Partial(store, None)
    else
      match DefaultProperties(name)
      case Err(e) => Partial(store, Some(e))
      case Ok(d) =>
        match Save(NewDefaultRole(groupType, groupBundle, name, d), store)
        case Err(e) => Partial(store, Some(e))
        case Ok(saved) => Partial(saved.store, None)
  }

  /** The loop of createDefaultRoles() over `names`. An exception stops it,
      with the roles saved so far kept. */
  function ProvisionWith(store: seq<Role>, groupType: string, groupBundle: string, names: seq<string>, lookup: RoleLookup): (p: Partial<seq<Role>>)
    ensures |store| <= |p.state| && p.state[..|store|] == store
    ensures UniqueIds(store) ==> UniqueIds(p.state)
    decreases |names|
  {
    if |names| == 0 then Partial(store, None)
    else
      var p := ProvisionOne(store, groupType, groupBundle, names[0], lookup);
      if !p.Completed() then p
      else
        var q := ProvisionWith(p.state, groupType, groupBundle, names[1..], lookup);
        PrefixTrans(store, p.state, q.state);
        q
  }

  lemma PrefixTrans<T>(a: seq<T>, b: seq<T>, c: seq<T>)
    requires |a| <= |b| && b[..|a|] == a
    requires |b| <= |c| && c[..|b|] == b
    ensures |a| <= |c| && c[..|a|] == a
  {
    assert c[..|a|] == c[..|b|][..|a|];
  }

  lemma PrefixMembers<T>(a: seq<T>, b: seq<T>)
    requires |a| <= |b| && b[..|a|] == a
    ensures forall x | x in a :: x in b
  {
    forall x | x in a ensures x in b {
      var i :| 0 <= i < |a| && a[i] == x;
      assert b[i] == x;
    }
  }

  predicate IsSavedDefaultRole(x: Role, groupType: string, groupBundle: string, names: seq<string>) {
    exists n | n in names && DefaultProperties(n).Ok? :: x == SavedDefaultRole(groupType, groupBundle, n)
  }

  /** Every role the loop adds is the saved form of one of the default roles. */
  lemma {:induction false} ProvisionAddsDefaults(store: seq<Role>, groupType: string, groupBundle: string, names: seq<string>, lookup: RoleLookup)
    ensures forall i | |store| <= i < |ProvisionWith(store, groupType, groupBundle, names, lookup).state| ::
              IsSavedDefaultRole(ProvisionWith(store, groupType, groupBundle, names, lookup).state[i], groupType, groupBundle, names)
    decreases |names|
  {
    if |names| > 0 {
      var p1 := ProvisionOne(store, groupType, groupBundle, names[0], lookup);
      if p1.Completed() {
        var q := ProvisionWith(p1.state, groupType, groupBundle, names[1..], lookup);
        ProvisionAddsDefaults(p1.state, groupType, groupBundle, names[1..], lookup);
        var first := if p1.state == store then None else Some(SavedDefaultRole(groupType, groupBundle, names[0]));
        AddsStep(store, p1.state, q.state, groupType, groupBundle, names, first);
      }
    }
  }

  /** One step of ProvisionAddsDefaults, stated over the states alone. */
  lemma AddsStep(store: seq<Role>, mid: seq<Role>, last: seq<Role>, groupType: string, groupBundle: string,
                 names: seq<string>, first: Option<Role>)
    requires |names| > 0
    requires first.None? ==> mid == store
    requires first.Some? ==> DefaultProperties(names[0]).Ok? && first.value == SavedDefaultRole(groupType, groupBundle, names[0])
                             && mid == store + [first.value]
    requires |mid| <= |last| && last[..|mid|] == mid
    requires forall i | |mid| <= i < |last| :: IsSavedDefaultRole(last[i], groupType, groupBundle, names[1..])
    ensures forall i | |store| <= i < |last| :: IsSavedDefaultRole(last[i], groupType, groupBundle, names)
  {
    forall i | |store| <= i < |last|
      ensures IsSavedDefaultRole(last[i], groupType, groupBundle, names)
    {
      if i < |mid| {
        assert last[i] == mid[i];
        assert mid[i] == first.value;
        assert names[0] in names;
      } else {
        assert IsSavedDefaultRole(last[i], groupType, groupBundle, names[1..]);
        var n :| n in names[1..] && DefaultProperties(n).Ok? && last[i] == SavedDefaultRole(groupType, groupBundle, n);
        assert n in names;
      }
    }
  }

  /** When the loop finishes, the lookup finds every name, or the name's
      saved default role is stored. */
  lemma {:induction false} ProvisionCovers(store: seq<Role>, groupType: string, groupBundle: string, names: seq<string>, lookup: RoleLookup)
    ensures var p := ProvisionWith(store, groupType, groupBundle, names, lookup);
      p.Completed() ==> forall n | n in names ::
        Provisioned(p.state, groupType, groupBundle, n, lookup)
        || (DefaultProperties(n).Ok? && SavedDefaultRole(groupType, groupBundle, n) in p.state)
    decreases |names|
  {
    var p := ProvisionWith(store, groupType, groupBundle, names, lookup);
    if |names| > 0 && p.Completed() {
      var name := names[0];
      var p1 := ProvisionOne(store, groupType, groupBundle, name, lookup);
      ProvisionCovers(p1.state, groupType, groupBundle, names[1..], lookup);
      PrefixMembers(p1.state, p.state);
      if Provisioned(store, groupType, groupBundle, name, lookup) {
        PrefixMembers(store, p.state);
        var x :| x in store && x.groupType == groupType && x.groupBundle == groupBundle
                 && x.id == LookupId(groupType, groupBundle, name, lookup) && x.roleType == RoleTypeByName(name);
        assert x in p.state;
      } else {
        assert SavedDefaultRole(groupType, groupBundle, name) in p1.state;
      }
      forall n | n in names
        ensures Provisioned(p.state, groupType, groupBundle, n, lookup)
                || (DefaultProperties(n).Ok? && SavedDefaultRole(groupType, groupBundle, n) in p.state)
      {
        if n != name { assert n in names[1..]; }
      }
    }
  }

  /** With the scoped lookup, a stored saved default role is found. */
  lemma SavedRolesAreFound(store: seq<Role>, groupType: string, groupBundle: string, names: seq<string>)
    requires forall n | n in names ::
               Provisioned(store, groupType, groupBundle, n, ScopedId)
               || (DefaultProperties(n).Ok? && SavedDefaultRole(groupType, groupBundle, n) in store)
    ensures forall n | n in names :: Provisioned(store, groupType, groupBundle, n, ScopedId)
  {
    forall n | n in names
      ensures Provisioned(store, groupType, groupBundle, n, ScopedId)
    {
      if DefaultProperties(n).Ok? && SavedDefaultRole(groupType, groupBundle, n) in store {
        var x := SavedDefaultRole(groupType, groupBundle, n);
        assert x.id == LookupId(groupType, groupBundle, n, ScopedId);
      }
    }
  }

  /** createDefaultRoles() as written: existing roles are looked up by the
      bare role name. Only saved default roles of the pair are added. */
  function CreateDefaultRolesAsWritten(store: seq<Role>, groupType: string, groupBundle: string): (p: Partial<seq<Role>>)
    ensures |store| <= |p.state| && p.state[..|store|] == store
    ensures forall i | |store| <= i < |p.state| :: IsSavedDefaultRole(p.state[i], groupType, groupBundle, DEFAULT_ROLE_NAMES)
  {
    ProvisionAddsDefaults(store, groupType, groupBundle, DEFAULT_ROLE_NAMES, BareId);
    ProvisionWith(store, groupType, groupBundle, DEFAULT_ROLE_NAMES, BareId)
  }

  /** createDefaultRoles() looking existing roles up by the id save() gives
      them: only saved default roles of the pair are added, and on success
      every default role of the pair is stored. */
  function CreateDefaultRoles(store: seq<Role>, groupType: string, groupBundle: string): (p: Partial<seq<Role>>)
    ensures |store| <= |p.state| && p.state[..|store|] == store
    ensures forall i | |store| <= i < |p.state| :: IsSavedDefaultRole(p.state[i], groupType, groupBundle, DEFAULT_ROLE_NAMES)
    ensures p.Completed() ==> forall n | n in DEFAULT_ROLE_NAMES :: Provisioned(p.state, groupType, groupBundle, n, ScopedId)
    ensures UniqueIds(store) ==> UniqueIds(p.state)
  {
    var p := ProvisionWith(store, groupType, groupBundle, DEFAULT_ROLE_NAMES, ScopedId);
    ProvisionAddsDefaults(store, groupType, groupBundle, DEFAULT_ROLE_NAMES, ScopedId);
    ProvisionCovers(store, groupType, groupBundle, DEFAULT_ROLE_NAMES, ScopedId);
    if p.Completed() then SavedRolesAreFound(p.state, groupType, groupBundle, DEFAULT_ROLE_NAMES); p
    else p
  }

  // ---------------------------------------------------------------------------
  // addGroup()

  /** The list addGroup() writes for the entity type: the bundle appended,
      then array_unique(). */
  function AddedList(list: seq<string>, bundle: string): (l: seq<string>)
    ensures NoDup(l) && multiset(l)[bundle] == 1
    ensures forall x | x in l :: x in list || x == bundle
    ensures forall x | x in list :: x in l
    ensures NoDup(list) ==> l == if bundle in list then list else list + [bundle]
  {
    var l := Dedup(list + [bundle]);
    assert bundle in list + [bundle];
    NoDupOccursOnce(l, bundle);
    DedupAppendIf(list, bundle);
    l
  }

  /** The map addGroup() writes: only the entity type's list changes. */
  function AddedConfig(config: GroupMap, groupType: string, bundle: string): (c: GroupMap)
    ensures groupType in c && c[groupType] == AddedList(GroupsForEntityType(config, groupType), bundle)
    ensures forall t | t != groupType :: (t in c <==> t in config)
    ensures forall t | t != groupType && t in config :: c[t] == config[t]
  {
    config[groupType := AddedList(GroupsForEntityType(config, groupType), bundle)]
  }

  /** What addGroup() does to the set of group pairs: exactly the new pair
      is added, and on a duplicate-free map re-adding a pair changes nothing. */
  lemma AddedConfigGroups(config: GroupMap, groupType: string, bundle: string)
    ensures var c := AddedConfig(config, groupType, bundle);
      && (forall t, b :: IsGroup(c, t, b) <==> IsGroup(config, t, b) || (t == groupType && b == bundle))
      && (ListsNoDup(config) ==> ListsNoDup(c))
      && (IsGroup(config, groupType, bundle) && ListsNoDup(config) ==> c == config)
  {
    var c := AddedConfig(config, groupType, bundle);
    assert c == config[groupType := c[groupType]];
    UpdatedListFacts(config, groupType, bundle, c[groupType]);
  }

  /** The map-level consequences of replacing one entity type's list. */
  lemma UpdatedListFacts(config: GroupMap, groupType: string, bundle: string, l: seq<string>)
    requires NoDup(l) && bundle in l
    requires forall x | x in l :: x in GroupsForEntityType(config, groupType) || x == bundle
    requires forall x | x in GroupsForEntityType(config, groupType) :: x in l
    requires NoDup(GroupsForEntityType(config, groupType)) && bundle in GroupsForEntityType(config, groupType) ==>
               l == GroupsForEntityType(config, groupType)
    ensures forall t, b :: IsGroup(config[groupType := l], t, b) <==> IsGroup(config, t, b) || (t == groupType && b == bundle)
    ensures ListsNoDup(config) ==> ListsNoDup(config[groupType := l])
    ensures IsGroup(config, groupType, bundle) && ListsNoDup(config) ==> config[groupType := l] == config
  {
    var c := config[groupType := l];
    if IsGroup(config, groupType, bundle) && ListsNoDup(config) {
      assert c[groupType] == config[groupType];
      assert c == config;
    }
  }

  lemma DedupAppendIf(s: seq<string>, x: string)
    ensures NoDup(s) ==> Dedup(s + [x]) == if x in s then s else s + [x]
  {
    if NoDup(s) { DedupAppend(s, x); }
  }

  /** addGroup(): the map is written and persisted, then the default roles
      are provisioned, then the in-memory map is refreshed. A failure while
      provisioning leaves the map persisted and the in-memory copy stale. */
  function AddGroupWith(s: Registry, groupType: string, bundle: string, lookup: RoleLookup): (r: Partial<Registry>)
    ensures r.state.config == AddedConfig(s.config, groupType, bundle)
    ensures r.state.roles == ProvisionWith(s.roles, groupType, bundle, DEFAULT_ROLE_NAMES, lookup).state
    ensures r.error == ProvisionWith(s.roles, groupType, bundle, DEFAULT_ROLE_NAMES, lookup).error
    ensures r.Completed() ==> r.state.snapshot == r.state.config
    ensures !r.Completed() ==> r.state.snapshot == s.snapshot
  {
    var p := ProvisionWith(s.roles, groupType, bundle, DEFAULT_ROLE_NAMES, lookup);
    var s1 := s.(config := AddedConfig(s.config, groupType, bundle), roles := p.state);
    if p.Completed() then Partial(RefreshGroupMap(s1), None) else Partial(s1, p.error)
  }

  /** addGroup() as written, looking default roles up by their bare names. */
  function AddGroupAsWritten(s: Registry, groupType: string, bundle: string): (r: Partial<Registry>)
    ensures r.state.config == AddedConfig(s.config, groupType, bundle)
    ensures r.state.roles == CreateDefaultRolesAsWritten(s.roles, groupType, bundle).state
    ensures r.error == CreateDefaultRolesAsWritten(s.roles, groupType, bundle).error
  {
    AddGroupWith(s, groupType, bundle, BareId)
  }

  /** addGroup() provisioning through the scoped lookup: the pair is in the
      persisted map; on success the queries see it and every default role of
      the pair is stored; the invariants are kept. */
  function AddGroup(s: Registry, groupType: string, bundle: string): (r: Partial<Registry>)
    ensures r.state.config == AddedConfig(s.config, groupType, bundle)
    ensures IsGroup(r.state.config, groupType, bundle)
    ensures r.Completed() ==> IsGroup(r.state.snapshot, groupType, bundle)
    ensures r.Completed() ==> forall n | n in DEFAULT_ROLE_NAMES :: Provisioned(r.state.roles, groupType, bundle, n, ScopedId)
    ensures |s.roles| <= |r.state.roles| && r.state.roles[..|s.roles|] == s.roles
    ensures r.state.roles == CreateDefaultRoles(s.roles, groupType, bundle).state
    ensures r.error == CreateDefaultRoles(s.roles, groupType, bundle).error
    ensures Valid(s) ==> Valid(r.state)
  {
    var p := CreateDefaultRoles(s.roles, groupType, bundle);
    AddedConfigGroups(s.config, groupType, bundle);
    AddGroupWith(s, groupType, bundle, ScopedId)
  }

  // ---------------------------------------------------------------------------
  // removeRoles() and removeGroup()

  /** loadByProperties() with group_type and group_bundle. */
  function ScopedRoles(store: seq<Role>, groupType: string, groupBundle: string): (r: seq<Role>)
    ensures forall x | x in r :: x in store && x.groupType == groupType && x.groupBundle == groupBundle
    ensures forall x | x in store && x.groupType == groupType && x.groupBundle == groupBundle :: x in r
  {
    Filter(store, (x: Role) => x.groupType == groupType && x.groupBundle == groupBundle)
  }

  /** A delete() of this role would throw against the map `groups`. */
  predicate Blocked(x: Role, groups: GroupMap, guard: DeleteGuard) {
    Guarded(x, guard) && IsGroup(groups, x.groupType, x.groupBundle)
  }

  /** The loop of removeRoles(): delete() each loaded role in turn; the first
      exception stops the loop, with the roles deleted so far gone. */
  function DeleteAll(store: seq<Role>, targets: seq<Role>, groups: GroupMap, guard: DeleteGuard): (p: Partial<seq<Role>>)
    ensures forall x | x in p.state :: x in store
    ensures p.Completed() <==> forall i | 0 <= i < |targets| :: !Blocked(targets[i], groups, guard)
    ensures !p.Completed() ==> p.error == Some(RequiredRole)
    ensures p.Completed() ==> forall y | y in targets :: !HasId(p.state, y.id)
    ensures p.Completed() ==> forall x | x in store && (forall y | y in targets :: y.id != x.id) :: x in p.state
    ensures UniqueIds(store) ==> UniqueIds(p.state)
    decreases |targets|
  {
    if |targets| == 0 then Partial(store, None)
    else
      match DeleteWith(targets[0], store, groups, guard)
      case Err(e) => Partial(store, Some(e))
      case Ok(rest) =>
        FilterKeepsUniqueIds(store, targets[0].id);
        var p := DeleteAll(rest, targets[1..], groups, guard);
        assert forall i | 1 <= i < |targets| :: targets[i] == targets[1..][i - 1];
        p
  }

  lemma {:induction false} FilterKeepsUniqueIds(store: seq<Role>, id: string)
    ensures UniqueIds(store) ==> UniqueIds(RemoveId(store, id))
    decreases |store|
  {
    if |store| > 0 && UniqueIds(store) {
      var p := (x: Role) => x.id != id;
      assert UniqueIds(store[1..]);
      FilterKeepsUniqueIds(store[1..], id);
      assert RemoveId(store, id) == Filter(store, p);
      assert RemoveId(store[1..], id) == Filter(store[1..], p);
      if p(store[0]) {
        assert Filter(store, p) == [store[0]] + Filter(store[1..], p);
        assert forall x | x in Filter(store[1..], p) :: x in store[1..];
      }
    }
  }

  /** array_search() then unset(): the first occurrence of the bundle goes. */
  function RemoveFirst(list: seq<string>, bundle: string): (r: seq<string>)
    ensures NoDup(list) ==> bundle !in r && NoDup(r)
    ensures forall b | b in r :: b in list
    ensures forall b | b in list && b != bundle :: b in r
    ensures bundle !in list ==> r == list
    ensures bundle in list ==>
              exists i | 0 <= i < |list| && list[i] == bundle && bundle !in list[..i] ::
                r == list[..i] + list[i + 1..]
  {
    match FirstIndex(list, bundle)
    case None => list
    case Some(i) =>
      RemoveAtNoDupIf(list, i);
      RemoveAtKeepsOthers(list, i);
      assert bundle !in list[..i];
      RemoveAt(list, i)
  }

  lemma RemoveAtNoDupIf(list: seq<string>, i: nat)
    requires i < |list|
    ensures NoDup(list) ==> list[i] !in RemoveAt(list, i) && NoDup(RemoveAt(list, i))
  {
    if NoDup(list) { RemoveAtNoDup(list, i); }
  }

  lemma RemoveAtKeepsOthers(list: seq<string>, i: nat)
    requires i < |list|
    ensures forall b | b in RemoveAt(list, i) :: b in list
    ensures forall b | b in list && b != list[i] :: b in RemoveAt(list, i)
  {
    var r := RemoveAt(list, i);
    forall b | b in r ensures b in list {
      var k :| 0 <= k < |r| && r[k] == b;
      if k < i { assert list[k] == b; } else { assert list[k + 1] == b; }
    }
    forall b | b in list && b != list[i] ensures b in r {
      var k :| 0 <= k < |list| && list[k] == b;
      if k < i { assert r[k] == b; } else { assert r[k - 1] == b; }
    }
  }

  /** The map removeGroup() writes: the bundle's first occurrence removed,
      then array_filter() dropping every entity type left without bundles. */
  function RemovedConfig(config: GroupMap, groupType: string, bundle: string): (c: GroupMap)
    requires groupType in config
    ensures NoEmptyLists(c)
    ensures forall t, b | t != groupType || b != bundle :: IsGroup(c, t, b) <==> IsGroup(config, t, b)
    ensures ListsNoDup(config) ==> !IsGroup(c, groupType, bundle) && ListsNoDup(c)
  {
    Prune(config[groupType := RemoveFirst(config[groupType], bundle)])
  }

  /** What removeRoles() leaves when every delete() went through: none of
      the pair's roles, and, ids being unique, every other role. */
  lemma DeletedScopedRoles(store: seq<Role>, groupType: string, bundle: string, d: Partial<seq<Role>>)
    requires forall x | x in d.state :: x in store
    requires d.Completed() ==> forall y | y in ScopedRoles(store, groupType, bundle) :: !HasId(d.state, y.id)
    requires d.Completed() ==> forall x | x in store && (forall y | y in ScopedRoles(store, groupType, bundle) :: y.id != x.id) :: x in d.state
    ensures d.Completed() ==> forall x | x in d.state :: !(x.groupType == groupType && x.groupBundle == bundle)
    ensures UniqueIds(store) && d.Completed() ==>
              forall x | x in store && !(x.groupType == groupType && x.groupBundle == bundle) :: x in d.state
  {
    var targets := ScopedRoles(store, groupType, bundle);
    if d.Completed() {
      forall x | x in d.state ensures !(x.groupType == groupType && x.groupBundle == bundle) {
        if x.groupType == groupType && x.groupBundle == bundle {
          assert x in targets;
          assert HasId(d.state, x.id);
        }
      }
      if UniqueIds(store) {
        forall x | x in store && !(x.groupType == groupType && x.groupBundle == bundle)
          ensures x in d.state
        {
          forall y | y in targets ensures y.id != x.id {
            var i :| 0 <= i < |store| && store[i] == x;
            var j :| 0 <= j < |store| && store[j] == y;
            assert x != y;
            assert i != j;
          }
        }
      }
    }
  }

  /** removeGroup() with the deletion guard `guard`; `refreshFirst` says
      whether the in-memory map is refreshed before the roles are deleted
      (as written it is refreshed after). Nothing happens when the entity
      type has no list. */
  function RemoveGroupWith(s: Registry, groupType: string, bundle: string, guard: DeleteGuard, refreshFirst: bool): (r: Partial<Registry>)
    ensures groupType !in s.config ==> r == Partial(s, None)
    ensures groupType in s.config ==> r.state.config == RemovedConfig(s.config, groupType, bundle)
    ensures forall x | x in r.state.roles :: x in s.roles
    ensures groupType in s.config ==>
              (r.Completed() <==> forall x | x in ScopedRoles(s.roles, groupType, bundle) ::
                                     !Blocked(x, if refreshFirst then r.state.config else s.snapshot, guard))
    ensures groupType in s.config && r.Completed() ==> r.state.snapshot == r.state.config
    ensures !r.Completed() ==> r.state.snapshot == (if refreshFirst then r.state.config else s.snapshot)
    ensures !r.Completed() ==> r.error == Some(RequiredRole)
    ensures groupType in s.config && r.Completed() ==>
              forall x | x in r.state.roles :: !(x.groupType == groupType && x.groupBundle == bundle)
    ensures groupType in s.config && UniqueIds(s.roles) && r.Completed() ==>
              forall x | x in s.roles && !(x.groupType == groupType && x.groupBundle == bundle) :: x in r.state.roles
    ensures UniqueIds(s.roles) ==> UniqueIds(r.state.roles)
  {
    if groupType !in s.config then Partial(s, None)
    else
      var s1 := s.(config := RemovedConfig(s.config, groupType, bundle));
      var s2 := if refreshFirst then RefreshGroupMap(s1) else s1;
      var targets := ScopedRoles(s2.roles, groupType, bundle);
      var d := DeleteAll(s2.roles, targets, s2.snapshot, guard);
      DeletedScopedRoles(s2.roles, groupType, bundle, d);
      var s3 := s2.(roles := d.state);
      if d.Completed() then Partial(RefreshGroupMap(s3), None) else Partial(s3, d.error)
  }

  /** removeGroup() as written: the stored ids are compared with the bare
      reserved names, and the roles are deleted while the in-memory map still
      lists the pair. */
  function RemoveGroupAsWritten(s: Registry, groupType: string, bundle: string): (r: Partial<Registry>)
    ensures groupType !in s.config ==> r == Partial(s, None)
    ensures groupType in s.config ==> r.state.config == RemovedConfig(s.config, groupType, bundle)
    ensures groupType in s.config ==>
              (r.Completed() <==> forall x | x in ScopedRoles(s.roles, groupType, bundle) ::
                                     !((x.id == ANONYMOUS || x.id == AUTHENTICATED) && IsGroup(s.snapshot, groupType, bundle)))
  {
    RemoveGroupWith(s, groupType, bundle, BareNames, false)
  }

  /** removeGroup() in the source's order, the roles deleted while the
      in-memory map still lists the pair, with the guard recognising the
      prefixed reserved ids. */
  function RemoveGroupStaleMap(s: Registry, groupType: string, bundle: string): (r: Partial<Registry>)
    ensures groupType !in s.config ==> r == Partial(s, None)
    ensures groupType in s.config ==> r.state.config == RemovedConfig(s.config, groupType, bundle)
    ensures groupType in s.config ==>
              (r.Completed() <==> forall x | x in ScopedRoles(s.roles, groupType, bundle) ::
                                     !(Reserved(RoleName(x)) && IsGroup(s.snapshot, groupType, bundle)))
    ensures !r.Completed() ==> r.state.snapshot == s.snapshot && r.error == Some(RequiredRole)
  {
    RemoveGroupWith(s, groupType, bundle, ScopedNames, false)
  }

  /** removeGroup() with the guard recognising the prefixed reserved ids and
      the in-memory map refreshed before the roles are deleted: on a valid
      registry it always completes, the pair is gone from the map and from
      the queries, every other pair stays, and exactly the pair's roles are
      deleted. */
  function RemoveGroup(s: Registry, groupType: string, bundle: string): (r: Partial<Registry>)
    ensures groupType !in s.config ==> r == Partial(s, None)
    ensures groupType in s.config ==> r.state.config == RemovedConfig(s.config, groupType, bundle)
    ensures groupType in s.config ==> NoEmptyLists(r.state.config)
    ensures forall t, b | t != groupType || b != bundle :: IsGroup(r.state.config, t, b) <==> IsGroup(s.config, t, b)
    ensures ListsNoDup(s.config) ==> r.Completed() && !IsGroup(r.state.config, groupType, bundle)
    ensures groupType in s.config && r.Completed() ==> r.state.snapshot == r.state.config
    ensures groupType in s.config && r.Completed() ==>
              forall x | x in r.state.roles :: !(x.groupType == groupType && x.groupBundle == bundle)
    ensures forall x | x in r.state.roles :: x in s.roles
    ensures groupType in s.config && Valid(s) ==>
              forall x | x in s.roles :: (x in r.state.roles <==> !(x.groupType == groupType && x.groupBundle == bundle))
    ensures Valid(s) ==> Valid(r.state)
  {
    RemoveGroupWith(s, groupType, bundle, ScopedNames, true)
  }
}
