# Organic Groups core, modelled in Dafny

This project models the core of the Drupal Organic Groups (og) module:

- the group registry (`GroupManager`): which entity type / bundle pairs are
  groups, adding and removing them, and provisioning the three default roles
  (`non-member`, `member`, `administrator`) of a new group type;
- the OG role entity (`OgRole`): save-time validation and id prefixing, the
  field lock in `set()`, the deletion guard of the reserved roles, and the
  static tables of default properties and role types;
- the access decision (`OgAccess::userAccess()` and
  `OgAccess::userAccessEntity()`), with its three answers TRUE, FALSE and
  NULL;
- `OgGroupAudienceHelper::checkFieldCardinality()` and
  `OgGroupAudienceHelper::getMatchingField()`;
- a reference implementation of `DefaultRoleEventInterface`: the keyed map of
  default roles that other modules add to, set and delete.

Everything is a pure function over immutable values. The persisted
`og.settings:groups` map, the manager's in-memory copy of it and the og_role
storage are the fields of `GroupManager.Registry`. An exception becomes an
`Err` of `Outcomes.Result`. Where the source keeps the effects made before an
exception (the map is saved before roles are provisioned; a `foreach` over
roles stops half-way), the operation returns `Outcomes.Partial`: the state
reached, and the error, if any.

Modules: `Outcomes` (Option, Error, Result, Partial), `Lists` (the PHP array
functions `array_unique`, `array_search`, `unset`, `array_filter`),
`GroupMaps`, `OgRole`, `GroupManager`, `OgAccess`, `OgGroupAudienceHelper`,
`DefaultRoleEvent`, and a `...Proofs` module beside each of the four larger
ones for the lemmas that relate several calls.

Several places in the source do not do what their comments and callers
expect. These are listed under "## Findings". For each one the model keeps a
member that follows the code as written, and the rest of the model uses the
corrected member.

A few behaviours of the code differ from what og's own comments and tests
say. The model follows the code:

- `addGroup()` (src/GroupManager.php:103-117) throws nothing when the pair
  is already registered. `array_unique` leaves the map as it was. The unit
  test at tests/src/Unit/GroupManagerTest.php:182-188 expects an
  `InvalidArgumentException` in that case.
- `removeGroup()` (src/GroupManager.php:126) does nothing only when the
  entity type has no entry. The comment at line 136 says the map is
  updated only when a key was found and unset. The code still saves the
  map and deletes the pair's roles when the type is present and the bundle
  is missing.
- The two reserved roles get role type `immutable`
  (src/Entity/OgRole.php:263, 268, 307). The comment at
  src/Event/DefaultRoleEventInterface.php:45-47 names a
  `ROLE_TYPE_REQUIRED` instead.

## Model

| member | source | states |
|---|---|---|
| `GroupMaps.IsGroupAgreesWithLists` | src/GroupManager.php:76-98 | isGroup(T, B) holds exactly for the bundles getGroupsForEntityType(T) returns; getAllGroupBundles(T) returns a list exactly when some bundle of T is a group, and the list holds exactly those bundles |
| `GroupMaps.GroupsForEntityType` | src/GroupManager.php:76-87 | isGroup(T, B) holds exactly for the bundles of T's list; the list is T's entry, or empty when T has none |
| `GroupMaps.AllGroupBundles` | src/GroupManager.php:96-98 | T's bundle list when it is non-empty, otherwise the whole map; a missing (NULL) type looks up the key "" |
| `GroupMaps.Prune` | src/GroupManager.php:133-134 | array_filter drops exactly the types with an empty list and keeps every registered pair |
| `GroupManager.RefreshGroupMap` | src/GroupManager.php:195-197 | the in-memory map becomes the persisted one; nothing else changes |
| `GroupManager.NewGroupManager` | src/GroupManager.php:62-66 | a new manager's in-memory map is the persisted map |
| `GroupManager.AddedList` | src/GroupManager.php:106-108 | after append plus array_unique the bundle occurs exactly once, no bundle is lost or invented, and a duplicate-free list keeps its order with the bundle appended only if it was missing |
| `GroupManager.AddedConfig` | src/GroupManager.php:104-110 | only the entry of the added type changes |
| `GroupManager.AddedConfigGroups` | src/GroupManager.php:104-110 | the registered pairs become the old ones plus (T, B); lists stay duplicate-free; adding a registered pair leaves the map unchanged |
| `GroupManager.ProvisionOne` | src/GroupManager.php:162-170 | one loop pass: a role the lookup finds is left alone; otherwise the seeded role is saved with its prefixed id, and it fails exactly when the group type or bundle is empty or the id is taken; a failure changes nothing |
| `GroupManager.ProvisionWith` | src/GroupManager.php:162-171 | the loop only appends to the role store and keeps ids unique |
| `GroupManager.ProvisionAddsDefaults` | src/GroupManager.php:162-171 | every role the loop appends is the saved form of one of the default roles of the pair |
| `GroupManager.ProvisionCovers` | src/GroupManager.php:162-171 | when the loop finishes, every name was either found by the lookup or its saved role is in the store |
| `GroupManager.SavedRolesAreFound` | src/GroupManager.php:164-167 | a saved default role is found by a lookup of its prefixed id and role type |
| `GroupManager.CreateDefaultRolesAsWritten` | src/GroupManager.php:157-171 | createDefaultRoles() with the lookup by the bare role name: appends only saved default roles of the pair |
| `GroupManager.CreateDefaultRoles` | src/GroupManager.php:157-171 | the corrected provisioning: appends only saved default roles, and on success all three default roles of the pair can be found |
| `GroupManager.AddGroupWith` | src/GroupManager.php:103-117 | the map is saved before provisioning; the in-memory map is refreshed only when provisioning does not throw |
| `GroupManager.AddGroupAsWritten` | src/GroupManager.php:103-117 | addGroup() as written: the map update followed by the as-written provisioning |
| `GroupManager.AddGroup` | src/GroupManager.php:103-117 | (T, B) is registered in the saved map; on success it is registered in memory and its three default roles exist; existing roles are kept; the registry invariants are kept |
| `GroupManager.ScopedRoles` | src/GroupManager.php:183-187 | loadByProperties() on group type and bundle returns exactly the roles of the pair |
| `GroupManager.DeleteAll` | src/GroupManager.php:187-189 | the delete loop finishes exactly when no role of the pair is guarded; on success every target is gone and every other role stays; a failure reports RequiredRole |
| `GroupManager.RemoveFirst` | src/GroupManager.php:127-131 | a missing bundle leaves the list as it is; otherwise array_search plus unset cuts out the first occurrence and the bundles before and after it keep their order; on a duplicate-free list the bundle is gone |
| `GroupManager.RemovedConfig` | src/GroupManager.php:126-138 | no type is left with an empty list; every other pair stays registered; (T, B) is no longer registered |
| `GroupManager.DeletedScopedRoles` | src/GroupManager.php:182-190 | after a finished removeRoles() no role of the pair is left and every other role is kept |
| `GroupManager.RemoveGroupWith` | src/GroupManager.php:122-147 | an absent type changes nothing; otherwise the map is saved first, and removal finishes exactly when no role of the pair is blocked by the map the guard reads |
| `GroupManager.RemoveGroupAsWritten` | src/GroupManager.php:122-147 | removeGroup() as written, with delete() comparing bare names and the stale in-memory map |
| `GroupManager.RemoveGroupStaleMap` | src/GroupManager.php:139-143 | with a working delete guard but the map refreshed after removeRoles(), removal throws exactly when a reserved role of a pair still registered in memory is met |
| `GroupManager.RemoveGroup` | src/GroupManager.php:122-147 | the corrected removeGroup(): with duplicate-free lists it always finishes, (T, B) is unregistered, every other pair stays, and the roles left are exactly those not of the pair |
| `GroupManagerProofs.SavedIdDiffers` | src/GroupManager.php:164-169 | a saved default role's id is never a bare role name, nor another default role's id |
| `GroupManagerProofs.SavedDefaultRoleName` | src/Entity/OgRole.php:198-204 | removing the scope prefix from a saved default role gives back its name |
| `GroupManagerProofs.FreshProvisioning` | src/GroupManager.php:157-171 | for a pair with no roles, provisioning appends exactly the three saved default roles, in order |
| `GroupManagerProofs.ProvisionIdempotent` | src/GroupManager.php:166-167 | when every name is already provisioned the loop creates nothing |
| `GroupManagerProofs.CreateDefaultRolesIdempotent` | src/GroupManager.php:157-171 | running the corrected provisioning a second time creates nothing |
| `GroupManagerProofs.NoBareAnonymous` | src/GroupManager.php:164-167 | no role the loop saves is found by the bare-name lookup |
| `GroupManagerProofs.ReprovisionFailsAsWritten` | src/GroupManager.php:164-169 | as written, the lookup misses the saved roles, so under the modelled storage a second provisioning of the same pair fails with a taken id and saves nothing |
| `GroupManagerProofs.ReprovisionExample` | src/GroupManager.php:157-171 | node/article: the as-written provisioning fails the second time; the corrected one does not |
| `GroupManagerProofs.AddGroupIdempotent` | src/GroupManager.php:103-117 | adding a registered pair a second time changes nothing |
| `GroupManagerProofs.RemoveAfterAddConfig` | src/GroupManager.php:104-134 | removing a freshly added pair gives back the old map with its empty lists pruned |
| `GroupManagerProofs.AddPart` | src/GroupManager.php:103-117 | addGroup() keeps the invariants and only adds saved default roles of the pair |
| `GroupManagerProofs.RemovePart` | src/GroupManager.php:122-147 | removing a pair after such an addition finishes and leaves the roles that were not the pair's |
| `GroupManagerProofs.AddRemoveRoundTrip` | src/GroupManager.php:103-147 | addGroup() then removeGroup() of a new pair finishes, restores the pruned map (persisted and in memory), and leaves exactly the roles that were not the pair's |
| `GroupManagerProofs.StaleMapBlocksRemoval` | src/GroupManager.php:139-143 | with a working guard and the map refreshed last, removing a registered pair whose member role exists throws RequiredRole after the map is saved; refreshing first finishes |
| `GroupManagerProofs.StaleMapBlocksRemovalAsWritten` | src/GroupManager.php:139-143 | as written, a role whose id is the bare reserved name blocks removal in the same way |
| `GroupManagerProofs.AddToEmpty` | src/GroupManager.php:103-117 | adding to an empty registry registers the pair and stores exactly its three default roles |
| `GroupManagerProofs.StaleMapExample` | src/GroupManager.php:139-143 | after adding a pair to an empty registry, the stale-map removal throws and the corrected removal finishes |
| `GroupManagerProofs.AddMatchesReference` | src/GroupManager.php:103-117 | addGroup() adds exactly (T, B) to the set of registered pairs |
| `GroupManagerProofs.RemoveMatchesReference` | src/GroupManager.php:122-147 | removeGroup() removes exactly (T, B) from the set of registered pairs |
| `GroupManagerProofs.RunMatchesReference` | src/GroupManager.php:103-147 | along any sequence of add and remove calls the invariants hold and the registered pairs are those of a plain set of pairs |
| `OgRoleProofs.MutableIffUnlocked` | src/Entity/OgRole.php:179-181 | isMutable(): a saved role is mutable exactly when set() accepts every change of it, so a saved non-standard role refuses some change |
| `OgRole.Set` | src/Entity/OgRole.php:213-228 | a locked property of a saved non-standard role cannot change; every other call changes exactly that one property |
| `OgRole.SetRoleType` | src/Entity/OgRole.php:166-173 | only the two role-type constants are accepted, and the change then goes through set() |
| `OgRole.Save` | src/Entity/OgRole.php:186-208 | a new role needs a non-empty group type and bundle; its id gets the scope prefix (with the group id when it is not empty); a saved role keeps its id; nothing else that og's own save() sets changes; ids stay unique |
| `OgRole.RemoveId` | src/Entity/OgRole.php:239 | deleting removes exactly the roles with that id |
| `OgRole.DeleteWith` | src/Entity/OgRole.php:233-240 | delete() throws exactly when the guard recognises a reserved role of a registered pair; otherwise the role is removed |
| `OgRole.DeleteAsWritten` | src/Entity/OgRole.php:233-240 | as written: throws exactly when the stored id is a bare reserved name and the pair is registered |
| `OgRole.Delete` | src/Entity/OgRole.php:233-240 | corrected: throws exactly when the role's name without its scope prefix is reserved and the pair is registered |
| `OgRole.RoleTypeByName` | src/Entity/OgRole.php:303-311 | immutable exactly for the two reserved names, standard otherwise |
| `OgRole.DefaultProperties` | src/Entity/OgRole.php:252-287 | defined exactly for the three default names; the seed's role type agrees with getRoleTypeByName() |
| `OgRoleProofs.MutableRolesUnlocked` | src/Entity/OgRole.php:179-181 | a mutable (standard) role accepts every set(); a saved immutable role refuses its locked properties |
| `OgRoleProofs.DefaultRoleTypesAgree` | src/Entity/OgRole.php:261-284 | for the three default names the seed's role type is getRoleTypeByName()'s, immutable except for administrator |
| `OgRoleProofs.DefaultSeeds` | src/Entity/OgRole.php:261-284 | the exact seed of each default role: immutable "Non-member" with `subscribe`, immutable "Member" with `unsubscribe`, standard "Administrator" with its seven permissions in order |
| `OgRoleProofs.PrefixedIdDashes` | src/Entity/OgRole.php:198-204 | every prefixed id contains at least two dashes |
| `OgRoleProofs.SavedIdNeverBare` | src/Entity/OgRole.php:198-204 | the id of a role saved for the first time is never a bare reserved name |
| `OgRoleProofs.RoleNameAfterSave` | src/Entity/OgRole.php:198-204 | removing the scope prefix from a newly saved role's id gives back the id it was created with |
| `OgRoleProofs.SavedReservedRoleDeletableAsWritten` | src/Entity/OgRole.php:236 | as written, a saved member or non-member role of a registered pair can be deleted |
| `OgRoleProofs.SavedReservedRoleProtected` | src/Entity/OgRole.php:236 | with the corrected guard, the same deletion throws RequiredRole |
| `OgRoleProofs.MemberRoleExample` | src/Entity/OgRole.php:198-240 | a node/article member role is saved as node-article-member; the as-written guard lets it be deleted and the corrected one does not |
| `OgAccess.Decide` | src/OgAccess.php:90-156 | NULL exactly off groups; on a group, TRUE exactly when uid 1, site-wide "administer group" (unless ignored), the owner shortcut, the group's "administer group" (unless ignored) or the operation itself applies, otherwise FALSE |
| `OgAccess.UserAccessAsWritten` | src/OgAccess.php:85-157 | as written: the same decision over the pre-alter tier, whatever the alter hooks produced and whatever skip_alter says |
| `OgAccess.UserAccess` | src/OgAccess.php:85-157 | the decision over the altered tier, or over the pre-alter tier when skip_alter is set |
| `OgAccess.UserAccessEntityAsWritten` | src/OgAccess.php:174-226 | as written: NULL for an absent or unsaved entity; a type error exactly when a group, or group content with a group, reaches userAccess(); never TRUE |
| `OgAccess.UserAccessEntity` | src/OgAccess.php:174-226 | NULL for an absent or unsaved entity; TRUE when the entity is a group that allows; for group content with groups, TRUE exactly when one of them allows, FALSE otherwise; else FALSE for a group and NULL outside a group context |
| `OgAccessProofs.GrantsMonotone` | src/OgAccess.php:150-156 | holding more group permissions never takes access away |
| `OgAccessProofs.IgnoreAdminNarrows` | src/OgAccess.php:104-106 | ignore_admin can only turn TRUE into FALSE, never change NULL |
| `OgAccessProofs.GroupAdminAllowsEverything` | src/OgAccess.php:150-154 | a group's "administer group" permission allows every operation |
| `OgAccessProofs.EmptyTierOnlyShortcuts` | src/OgAccess.php:118-148 | with the empty cache accessors, only uid 1, site-wide group administrators and (when configured) the owner get TRUE |
| `OgAccessProofs.AlterIgnoredAsWritten` | src/OgAccess.php:143-148 | as written, the answer does not depend on the altered tier or on skip_alter |
| `OgAccessProofs.AlterHonoured` | src/OgAccess.php:143-148 | corrected: an operation granted by the alter hooks is allowed unless the alter step is skipped |
| `OgAccessProofs.AlterHookExample` | src/OgAccess.php:143-156 | uid 2 in node/article with "edit" granted only by the hooks: FALSE as written, TRUE corrected, FALSE when the alter step is skipped |
| `OgAccessProofs.UserAccessEntityExample` | src/OgAccess.php:199-200 | as written, asking about a saved node/article group fails with the type error |
| `OgAccessProofs.SuperUserAudience` | src/OgAccess.php:211-217 | uid 1 is allowed by any registered group of the audience |
| `OgGroupAudienceHelper.FindField` | src/OgGroupAudienceHelper.php:44 | getFieldDefinition() finds a field of that name exactly when one exists |
| `OgGroupAudienceHelper.CheckFieldCardinality` | src/OgGroupAudienceHelper.php:43-64 | throws when there is no such field or it is not an audience field; otherwise TRUE exactly when the cardinality is unlimited or above the item count |
| `OgGroupAudienceHelper.AudienceFields` | src/OgGroupAudienceHelper.php:84 | the audience fields of the entity, and only those |
| `OgGroupAudienceHelper.FindsItself` | src/OgGroupAudienceHelper.php:104 | with unique field names, the field looked up by a field's name is that field |
| `OgGroupAudienceHelper.MatchFrom` | src/OgGroupAudienceHelper.php:91-117 | the loop returns no field exactly when none accepts the group, and otherwise the first field that does |
| `OgGroupAudienceHelper.GetMatchingField` | src/OgGroupAudienceHelper.php:83-118 | NULL without audience fields; NULL exactly when no audience field matches; otherwise the name of the first matching field: right target type, bundle allowed, room left, viewable when access is checked |
| `OgGroupAudienceHelper.MatchIgnoresViewable` | src/OgGroupAudienceHelper.php:109 | without the access check the loop's answer does not depend on which fields are viewable |
| `OgGroupAudienceHelper.MatchingFieldIgnoresViewable` | src/OgGroupAudienceHelper.php:83-118 | the same for getMatchingField() |
| `OgGroupAudienceHelper.FullFieldSkipped` | src/OgGroupAudienceHelper.php:104-107 | a field at its cardinality is passed over for the next one with room |
| `DefaultRoleEvent.Normalize` | src/Event/DefaultRoleEventInterface.php:42-47 | the stored role keeps the label and takes the standard role type when none is given |
| `DefaultRoleEvent.GetRoles` | src/Event/DefaultRoleEventInterface.php:29-35 | the names getRoles() lists are exactly those hasRole() accepts, with their properties |
| `DefaultRoleEvent.GetRole` | src/Event/DefaultRoleEventInterface.php:19-27 | throws exactly when the role does not exist, otherwise returns its properties |
| `DefaultRoleEvent.SetRole` | src/Event/DefaultRoleEventInterface.php:63-76 | throws exactly on an empty name or a missing label; otherwise creates or replaces that role and no other |
| `DefaultRoleEvent.AddRole` | src/Event/DefaultRoleEventInterface.php:37-53 | throws on an existing name, an empty name or a missing label; otherwise behaves as setRole() |
| `DefaultRoleEventProofs.HasRoleAgrees` | src/Event/DefaultRoleEventInterface.php:94-103 | hasRole() holds exactly when getRole() does not throw and exactly when the name is among getRoles(); it holds after a successful addRole() or setRole() and not after deleteRole() |
| `DefaultRoleEvent.AddRoles` | src/Event/DefaultRoleEventInterface.php:55-61 | the only exceptions are addRole()'s three; the names end up between the old names and the old names plus the given ones; a finished addRoles() adds exactly the given names, none of which was taken |
| `DefaultRoleEvent.SetRoles` | src/Event/DefaultRoleEventInterface.php:78-84 | the only exceptions are setRole()'s two; a finished setRoles() leaves exactly the old names plus the given ones |
| `DefaultRoleEvent.DeleteRole` | src/Event/DefaultRoleEventInterface.php:86-92 | the role is gone and every other role is unchanged |
| `DefaultRoleEvent.Names` | src/Event/DefaultRoleEventInterface.php:55-61 | the names keyed in an array of roles |
| `DefaultRoleEventProofs.WritersKeepValid` | src/Event/DefaultRoleEventInterface.php:49-51 | no writer ever stores a role with an empty name |
| `DefaultRoleEventProofs.AddThenDelete` | src/Event/DefaultRoleEventInterface.php:37-53 | adding a new role and deleting it gives back the map |
| `DefaultRoleEventProofs.GetAfterSet` | src/Event/DefaultRoleEventInterface.php:63-76 | after setRole() getRole() returns the new properties, and other names answer as before |
| `DefaultRoleEventProofs.AddDefaultsToStandard` | src/Event/DefaultRoleEventInterface.php:45-47 | addRole() with only a label stores a standard role |
| `DefaultRoleEventProofs.DeleteIdempotent` | src/Event/DefaultRoleEventInterface.php:86-92 | deleting twice is deleting once |
| `DefaultRoleEventProofs.AcceptableShift` | src/Event/DefaultRoleEventInterface.php:78-84 | an array is acceptable exactly when its first entry and the rest are |
| `DefaultRoleEventProofs.SetRolesOutcome` | src/Event/DefaultRoleEventInterface.php:78-84 | setRoles() finishes exactly when every entry has a name and a label; otherwise it reports the first bad entry with the entries before it applied |
| `DefaultRoleEventProofs.SetRolesFrame` | src/Event/DefaultRoleEventInterface.php:78-84 | setRoles() only touches the names it is given |
| `DefaultRoleEventProofs.SetRolesStores` | src/Event/DefaultRoleEventInterface.php:78-84 | a finished setRoles() stores every entry under its name |
| `DefaultRoleEventProofs.AddRolesAgreesWithSetRoles` | src/Event/DefaultRoleEventInterface.php:55-61 | addRoles() finishes exactly when the entries are acceptable, their names are distinct and none is taken, and then it ends where setRoles() does |
| `DefaultRoleEventProofs.AddRolesAppend` | src/Event/DefaultRoleEventInterface.php:55-61 | two finished bulk additions in a row are one over the joined array |

## Left out

- `OgRoleInterface` is not part of this model. The values of the role-type
  constants (`immutable`, `standard`) and of the role names (`non-member`,
  `member`, `administrator`) are taken from their uses in
  src/Entity/OgRole.php and src/GroupManager.php.
- `Og` is not part of this model. `Og::isGroup()` is taken to read the group
  map. `Og::isGroupContent()`, `Og::getEntityGroups()`,
  `Og::isGroupAudienceField()` and `Og::getAllGroupAudienceFields()` are
  inputs: flags and lists on the modelled entities.
- The configuration factory and the og_role entity storage are replaced by
  the fields of `GroupManager.Registry`. The storage's write in
  `parent::save()` is modelled as follows: a new role whose id is taken
  fails with `IdTaken`, a new role is appended otherwise, and an existing
  role replaces its record. The storage's own code is not part of this
  model, so the `IdTaken` outcome of a second provisioning holds for this
  storage rule only: a storage that keys "already exists" on the id given
  at creation might overwrite the record instead. `save()` of the configuration object always succeeds, and its
  return value is not modelled.
- `loadByProperties()` is modelled as an exact match on the given
  properties. PHP's loose comparisons (numeric strings in `in_array`, `==`
  on owner ids) are not modelled: values compare as strings and integers.
- `OgRole::groupManager()` and the service lookups: `delete()` takes the
  group map it checks as a parameter.
- The permission cache. `setPermissionCache()` and `getPermissionCache()`
  have empty bodies, and `reset()` only empties a static array. The two
  tiers are inputs to `UserAccess`. `EmptyTierOnlyShortcuts` gives the
  answer with the empty accessors.
- The alter hook (`hook_og_user_access_alter`) and its context. The altered
  tier is an input, and the `isset($post_alter_cache[$operation])` shortcut
  of line 131 is folded into it.
- The current user, `hasPermission()` and the `group_manager_full_access`
  setting are parameters (`Account`, `Settings`).
- OgAccess.UserAccessEntity takes the answer of each per-group
  `userAccess()` call from per-group permission tiers (`tiersOf`). The calls
  as written cannot run; see "## Findings".
- OgRole.Save: the `preSave()` that `parent::save()` inherits from Drupal core's `Role` is not part of this model. The model does not promise what that code does to the stored record, for example the order of the permission list or the weight given to a new role. The stored record keeps the permissions in the order `save()` receives them.
- Role weights, labels beyond the default seeds, and the other setters and
  getters of `OgRole` (plain property accessors).
- The permission catalog (PermissionEvent and its subscribers) is not part
  of this model. Provisioned roles carry the permissions of
  `getDefaultProperties()`, as the code does.
- The widget and form code of `OgGroupAudienceHelper` (lines 126 onwards) is
  user-interface plumbing and is not modelled.
- `DefaultRoleEventInterface` extends `ArrayAccess` and `IteratorAggregate`.
  The array-access and iterator methods have no contract beyond the named
  operations, so they are not modelled. The implementing class is not part
  of this model. `DefaultRoleEvent` is a reference implementation of the
  interface's documented contract. It treats a name as empty the way PHP's
  `empty()` does, stores a role as its label and role type, and does not
  validate the role type.
- Behaviour asserted by the test files that the code does not have (a
  five-argument constructor, an exception on `addGroup()`, two default
  roles created through events, `OgRole::getDefaultRoles()`) is not
  modelled.
- OgRole.DeleteWith: an unsaved (`isNew`) role still removes the stored records with its id, whereas `EntityBase::delete()` does nothing for an unsaved entity. The guard is modelled for every role. Every caller in the model passes a role taken from the store, so this case is not reached.
- OgGroupAudienceHelper.MatchFrom, OgGroupAudienceHelper.GetMatchingField: the first-match property is stated for entities whose field names are unique (they are keys of the field definitions), because `checkFieldCardinality()` looks a field up by name.
- GroupManager.AddedList: the order of the list after `array_unique` is stated only for duplicate-free lists, which `GroupManager.Valid` maintains.

## Findings

| source | as written | input that shows it | evidently intended | confidence | as-written member | corrected member |
|---|---|---|---|---|---|---|
| src/Entity/OgRole.php:236 | delete() compares the stored id with the bare names `non-member` and `member`, but save() (lines 198-204) has prefixed the id to `T-B-member` | the member role of node/article, saved as `node-article-member`, with node/article still registered | the reserved roles of a registered group cannot be deleted | high; not executed | `OgRoleProofs.SavedReservedRoleDeletableAsWritten` | `OgRoleProofs.SavedReservedRoleProtected` |
| src/GroupManager.php:139-143 | removeGroup() deletes the pair's roles before refreshing the in-memory map, so a working delete guard still sees the pair registered | removeGroup("node", "article") right after addGroup("node", "article") on an empty registry | the roles of the removed pair are deleted and the removal finishes | medium (hidden as written by the row above); not executed | `GroupManagerProofs.StaleMapBlocksRemoval` | `GroupManagerProofs.AddRemoveRoundTrip` |
| src/GroupManager.php:164-167 | createDefaultRoles() looks a role up by the bare name, but save() stores it under the prefixed id, so the lookup never finds a saved role | addGroup("node", "article") twice: the lookup of `non-member` misses `node-article-non-member`, so the role is created again; under the modelled storage, which refuses a new role whose id is taken, the second save fails with `IdTaken` (the real storage's handling of that save is not part of this model) | provisioning an already provisioned pair creates nothing | medium; not executed | `GroupManagerProofs.ReprovisionFailsAsWritten` | `GroupManagerProofs.CreateDefaultRolesIdempotent` |
| src/OgAccess.php:200 | userAccessEntity() calls userAccess() with the entity type id, the entity id, the operation and the account, while userAccess() (line 85) takes the group entity, the operation and the account, typed `EntityInterface` first | any saved node of a registered node/article group type | the group entity and the account are passed, and the answer is the group's decision | high; not executed | `OgAccessProofs.UserAccessEntityExample` | `OgAccess.UserAccessEntity` |
| src/OgAccess.php:148 | after the alter hooks run and their result is stored in the post-alter tier (lines 143-145), the decision reads the pre-alter tier (`TRUE`) | uid 2 in node/article, no configured permissions, a hook granting "edit": the answer is FALSE | the permissions the alter hooks produce decide, unless skip_alter is set | high; not executed | `OgAccessProofs.AlterIgnoredAsWritten` | `OgAccessProofs.AlterHonoured` |
