/** Properties of the group manager that relate several calls: provisioning
    a fresh pair, re-provisioning, adding and removing a pair, and the group
    pairs a history of addGroup()/removeGroup() calls leaves registered. */
module GroupManagerProofs {
  import opened Outcomes
  import opened Lists
  import opened GroupMaps
  import opened OgRole
  import opened OgRoleProofs
  import opened GroupManager

  // ---------------------------------------------------------------------------
  // Ids of the saved default roles

  lemma DefaultNamesDashes()
    ensures forall m | m in DEFAULT_ROLE_NAMES :: !HasTwoDashes(m)
  {
    ReservedNamesDashes();
    assert ADMINISTRATOR == ['a', 'd', 'm', 'i', 'n', 'i', 's', 't', 'r', 'a', 't', 'o', 'r'];
  }

  /** A saved default role's id differs from the id the lookup for any other
      default name searches, and from every bare default name. */
  lemma SavedIdDiffers(t: string, b: string, n: string, m: string, lookup: RoleLookup)
    requires n in DEFAULT_ROLE_NAMES && m in DEFAULT_ROLE_NAMES && DefaultProperties(n).Ok?
    requires n != m || lookup == BareId
    ensures SavedDefaultRole(t, b, n).id != LookupId(t, b, m, lookup)
    ensures SavedDefaultRole(t, b, n).id != m
  {
    var p := ScopePrefix(t, b, "");
    PrefixedIdDashes(t, b, "", n);
    DefaultNamesDashes();
    if lookup == ScopedId {
      assert (p + n)[|p|..] == n;
      assert (p + m)[|p|..] == m;
    }
  }

  /** The saved default role's name is the default name it was provisioned under. */
  lemma SavedDefaultRoleName(t: string, b: string, n: string)
    requires DefaultProperties(n).Ok?
    ensures RoleName(SavedDefaultRole(t, b, n)) == n
  {
    var r := SavedDefaultRole(t, b, n);
    var p := ScopePrefix(t, b, "");
    assert RolePrefix(r) == p;
    assert r.id[..|p|] == p;
    assert r.id[|p|..] == n;
  }

  // ---------------------------------------------------------------------------
  // Provisioning

  /** The loop's first pass completing hands the rest of the names on. */
  lemma StepOn(store: seq<Role>, t: string, b: string, names: seq<string>, lookup: RoleLookup, next: seq<Role>)
    requires |names| > 0 && ProvisionOne(store, t, b, names[0], lookup) == Partial(next, None)
    ensures ProvisionWith(store, t, b, names, lookup) == ProvisionWith(next, t, b, names[1..], lookup)
  {
  }

  /** The loop's first pass failing ends the loop. */
  lemma StepFails(store: seq<Role>, t: string, b: string, names: seq<string>, lookup: RoleLookup)
    requires |names| > 0 && !ProvisionOne(store, t, b, names[0], lookup).Completed()
    ensures ProvisionWith(store, t, b, names, lookup) == ProvisionOne(store, t, b, names[0], lookup)
  {
  }

  lemma FreshStep(store: seq<Role>, t: string, b: string, n: string, lookup: RoleLookup)
    requires !PhpEmpty(t) && !PhpEmpty(b) && n in DEFAULT_ROLE_NAMES
    requires FreeFor(store, t, b, n, lookup)
    ensures ProvisionOne(store, t, b, n, lookup) == Partial(store + [SavedDefaultRole(t, b, n)], None)
  {
  }

  /** Appending a saved default role keeps another default name's ids free. */
  lemma FreshAppend(store: seq<Role>, t: string, b: string, n: string, m: string, lookup: RoleLookup)
    requires n in DEFAULT_ROLE_NAMES && m in DEFAULT_ROLE_NAMES && n != m
    requires FreeFor(store, t, b, m, lookup)
    ensures FreeFor(store + [SavedDefaultRole(t, b, n)], t, b, m, lookup)
  {
    SavedIdDiffers(t, b, n, m, lookup);
    SavedIdDiffers(t, b, n, m, ScopedId);
    var s1 := store + [SavedDefaultRole(t, b, n)];
    assert forall x | x in s1 :: x in store || x == SavedDefaultRole(t, b, n);
  }

  /** The facts FreshStep needs for the default name `m`. */
  predicate FreeFor(store: seq<Role>, t: string, b: string, m: string, lookup: RoleLookup) {
    && (forall x | x in store && x.groupType == t && x.groupBundle == b :: x.id != LookupId(t, b, m, lookup))
    && !HasId(store, LookupId(t, b, m, ScopedId))
  }

  lemma FreshLast(store: seq<Role>, t: string, b: string, lookup: RoleLookup)
    requires !PhpEmpty(t) && !PhpEmpty(b) && FreeFor(store, t, b, ADMINISTRATOR, lookup)
    ensures ProvisionWith(store, t, b, [ADMINISTRATOR], lookup) == Partial(store + [SavedDefaultRole(t, b, ADMINISTRATOR)], None)
  {
    FreshStep(store, t, b, ADMINISTRATOR, lookup);
    StepOn(store, t, b, [ADMINISTRATOR], lookup, store + [SavedDefaultRole(t, b, ADMINISTRATOR)]);
    assert [ADMINISTRATOR][1..] == [];
  }

  lemma FreshMiddle(store: seq<Role>, t: string, b: string, lookup: RoleLookup)
    requires !PhpEmpty(t) && !PhpEmpty(b)
    requires FreeFor(store, t, b, AUTHENTICATED, lookup) && FreeFor(store, t, b, ADMINISTRATOR, lookup)
    ensures ProvisionWith(store, t, b, [AUTHENTICATED, ADMINISTRATOR], lookup)
            == Partial(store + [SavedDefaultRole(t, b, AUTHENTICATED), SavedDefaultRole(t, b, ADMINISTRATOR)], None)
  {
    var s1 := store + [SavedDefaultRole(t, b, AUTHENTICATED)];
    FreshStep(store, t, b, AUTHENTICATED, lookup);
    FreshAppend(store, t, b, AUTHENTICATED, ADMINISTRATOR, lookup);
    FreshLast(s1, t, b, lookup);
    StepOn(store, t, b, [AUTHENTICATED, ADMINISTRATOR], lookup, s1);
    assert [AUTHENTICATED, ADMINISTRATOR][1..] == [ADMINISTRATOR];
    assert s1 + [SavedDefaultRole(t, b, ADMINISTRATOR)] == store + [SavedDefaultRole(t, b, AUTHENTICATED), SavedDefaultRole(t, b, ADMINISTRATOR)];
  }

  lemma FreshFree(store: seq<Role>, t: string, b: string, n: string, lookup: RoleLookup)
    requires n in DEFAULT_ROLE_NAMES
    requires forall x | x in store :: !(x.groupType == t && x.groupBundle == b)
    requires forall n | n in DEFAULT_ROLE_NAMES :: !HasId(store, LookupId(t, b, n, ScopedId))
    ensures FreeFor(store, t, b, n, lookup)
  {
  }

  /** Provisioning a pair that has no roles yet, and none of whose scoped ids
      is taken, saves exactly the three default roles in order, whichever
      lookup is used. */
  lemma FreshProvisioning(store: seq<Role>, t: string, b: string, lookup: RoleLookup)
    requires !PhpEmpty(t) && !PhpEmpty(b)
    requires forall x | x in store :: !(x.groupType == t && x.groupBundle == b)
    requires forall n | n in DEFAULT_ROLE_NAMES :: !HasId(store, LookupId(t, b, n, ScopedId))
    ensures ProvisionWith(store, t, b, DEFAULT_ROLE_NAMES, lookup)
            == Partial(store + [SavedDefaultRole(t, b, ANONYMOUS), SavedDefaultRole(t, b, AUTHENTICATED),
                                SavedDefaultRole(t, b, ADMINISTRATOR)], None)
  {
    var s1 := store + [SavedDefaultRole(t, b, ANONYMOUS)];
    FreshFree(store, t, b, ANONYMOUS, lookup);
    FreshFree(store, t, b, AUTHENTICATED, lookup);
    FreshFree(store, t, b, ADMINISTRATOR, lookup);
    FreshFirst(store, t, b, lookup);
    FreshAppend(store, t, b, ANONYMOUS, AUTHENTICATED, lookup);
    FreshAppend(store, t, b, ANONYMOUS, ADMINISTRATOR, lookup);
    FreshMiddle(s1, t, b, lookup);
    AppendThree(store, SavedDefaultRole(t, b, ANONYMOUS), SavedDefaultRole(t, b, AUTHENTICATED), SavedDefaultRole(t, b, ADMINISTRATOR));
  }

  /** The first pass saves the non-member role and hands on the other two names. */
  lemma FreshFirst(store: seq<Role>, t: string, b: string, lookup: RoleLookup)
    requires !PhpEmpty(t) && !PhpEmpty(b) && FreeFor(store, t, b, ANONYMOUS, lookup)
    ensures ProvisionWith(store, t, b, DEFAULT_ROLE_NAMES, lookup)
            == ProvisionWith(store + [SavedDefaultRole(t, b, ANONYMOUS)], t, b, [AUTHENTICATED, ADMINISTRATOR], lookup)
  {
    FreshStep(store, t, b, ANONYMOUS, lookup);
    StepOn(store, t, b, DEFAULT_ROLE_NAMES, lookup, store + [SavedDefaultRole(t, b, ANONYMOUS)]);
    assert DEFAULT_ROLE_NAMES[1..] == [AUTHENTICATED, ADMINISTRATOR];
  }

  lemma AppendThree<T>(s: seq<T>, x: T, y: T, z: T)
    ensures (s + [x]) + [y, z] == s + [x, y, z]
  {
  }

  /** With the scoped lookup, provisioning a pair whose default roles are all
      stored changes nothing. */
  lemma {:induction false} ProvisionIdempotent(store: seq<Role>, t: string, b: string, names: seq<string>)
    requires forall n | n in names :: Provisioned(store, t, b, n, ScopedId)
    ensures ProvisionWith(store, t, b, names, ScopedId) == Partial(store, None)
    decreases |names|
  {
    if |names| > 0 {
      assert names[0] in names;
      assert forall n | n in names[1..] :: n in names;
      ProvisionIdempotent(store, t, b, names[1..]);
    }
  }

  /** createDefaultRoles() with the scoped lookup is idempotent. */
  lemma CreateDefaultRolesIdempotent(store: seq<Role>, t: string, b: string)
    requires CreateDefaultRoles(store, t, b).Completed()
    ensures CreateDefaultRoles(CreateDefaultRoles(store, t, b).state, t, b)
            == Partial(CreateDefaultRoles(store, t, b).state, None)
  {
    var p := CreateDefaultRoles(store, t, b);
    ProvisionIdempotent(p.state, t, b, DEFAULT_ROLE_NAMES);
  }

  /** No role the first provisioning adds carries the bare name "non-member". */
  lemma NoBareAnonymous(store: seq<Role>, after: seq<Role>, t: string, b: string)
    requires !Provisioned(store, t, b, ANONYMOUS, BareId)
    requires |store| <= |after| && after[..|store|] == store
    requires forall i | |store| <= i < |after| :: IsSavedDefaultRole(after[i], t, b, DEFAULT_ROLE_NAMES)
    ensures !Provisioned(after, t, b, ANONYMOUS, BareId)
  {
    forall x | x in after && x.groupType == t && x.groupBundle == b
      ensures x.id != ANONYMOUS || x.roleType != RoleTypeByName(ANONYMOUS)
    {
      var i :| 0 <= i < |after| && after[i] == x;
      if i < |store| {
        assert store[i] == x;
      } else {
        var n :| n in DEFAULT_ROLE_NAMES && DefaultProperties(n).Ok? && x == SavedDefaultRole(t, b, n);
        SavedIdDiffers(t, b, n, ANONYMOUS, BareId);
      }
    }
  }

  /** As written, the second createDefaultRoles() for a pair fails: the
      lookup by the bare name finds nothing, and save() then hits the
      scoped id of the "non-member" role the first call stored. */
  lemma ReprovisionFailsAsWritten(store: seq<Role>, t: string, b: string)
    requires !PhpEmpty(t) && !PhpEmpty(b)
    requires !Provisioned(store, t, b, ANONYMOUS, BareId)
    requires CreateDefaultRolesAsWritten(store, t, b).Completed()
    ensures CreateDefaultRolesAsWritten(CreateDefaultRolesAsWritten(store, t, b).state, t, b)
            == Partial(CreateDefaultRolesAsWritten(store, t, b).state, Some(IdTaken))
  {
    var p := CreateDefaultRolesAsWritten(store, t, b);
    ProvisionCovers(store, t, b, DEFAULT_ROLE_NAMES, BareId);
    assert ANONYMOUS in DEFAULT_ROLE_NAMES;
    NoBareAnonymous(store, p.state, t, b);
    assert SavedDefaultRole(t, b, ANONYMOUS) in p.state;
    assert HasId(p.state, LookupId(t, b, ANONYMOUS, ScopedId));
    StepFails(p.state, t, b, DEFAULT_ROLE_NAMES, BareId);
  }

  /** A concrete instance of the above: node/article provisioned into an
      empty store, then provisioned again. */
  lemma ReprovisionExample()
    ensures CreateDefaultRolesAsWritten([], "node", "article").Completed()
    ensures |CreateDefaultRolesAsWritten([], "node", "article").state| == 3
    ensures CreateDefaultRolesAsWritten(CreateDefaultRolesAsWritten([], "node", "article").state, "node", "article").error
            == Some(IdTaken)
    ensures CreateDefaultRoles([], "node", "article").Completed()
    ensures CreateDefaultRoles(CreateDefaultRoles([], "node", "article").state, "node", "article").Completed()
  {
    assert "node" == ['n', 'o', 'd', 'e'];
    assert "article" == ['a', 'r', 't', 'i', 'c', 'l', 'e'];
    FreshProvisioning([], "node", "article", BareId);
    FreshProvisioning([], "node", "article", ScopedId);
    ReprovisionFailsAsWritten([], "node", "article");
    CreateDefaultRolesIdempotent([], "node", "article");
  }

  // ---------------------------------------------------------------------------
  // addGroup() and removeGroup()

  /** Adding a registered pair again, after it was added successfully,
      changes nothing. */
  lemma AddGroupIdempotent(s: Registry, t: string, b: string)
    requires ListsNoDup(s.config) && AddGroup(s, t, b).Completed()
    ensures AddGroup(AddGroup(s, t, b).state, t, b) == Partial(AddGroup(s, t, b).state, None)
  {
    var r := AddGroup(s, t, b).state;
    AddedConfigGroups(s.config, t, b);
    AddedConfigGroups(r.config, t, b);
    ProvisionIdempotent(r.roles, t, b, DEFAULT_ROLE_NAMES);
    var r2 := AddGroup(r, t, b);
    assert r2.state.config == r.config;
    assert r2.state.roles == r.roles;
  }

  /** removeGroup() undoing addGroup(): the first occurrence of the bundle,
      which is the appended one, goes; array_filter() then leaves the map as
      pruning the original would. */
  lemma RemoveAfterAddConfig(config: GroupMap, t: string, b: string)
    requires ListsNoDup(config) && !IsGroup(config, t, b)
    ensures RemovedConfig(AddedConfig(config, t, b), t, b) == Prune(config)
  {
    AddedTail(config, t, b);
    RemovedAdded(AddedConfig(config, t, b), t, b, GroupsForEntityType(config, t));
    OverwriteAdded(config, t, b, GroupsForEntityType(config, t));
    PruneRestore(config, t);
  }

  /** A missing bundle is appended to its type's list. */
  lemma AddedTail(config: GroupMap, t: string, b: string)
    requires ListsNoDup(config) && !IsGroup(config, t, b)
    ensures b !in GroupsForEntityType(config, t)
    ensures AddedConfig(config, t, b)[t] == GroupsForEntityType(config, t) + [b]
  {
    assert NoDup(GroupsForEntityType(config, t));
  }

  /** Removing the appended bundle writes back the list before it. */
  lemma RemovedAdded(c: GroupMap, t: string, b: string, l: seq<string>)
    requires t in c && c[t] == l + [b] && b !in l
    ensures RemovedConfig(c, t, b) == Prune(c[t := l])
  {
    RemoveFirstAppended(l, b);
  }

  /** Overwriting the added type's list forgets the addition. */
  lemma OverwriteAdded(config: GroupMap, t: string, b: string, l: seq<string>)
    ensures AddedConfig(config, t, b)[t := l] == config[t := l]
  {
    var c := AddedConfig(config, t, b);
    assert c[t := l].Keys == config[t := l].Keys;
  }

  /** The appended bundle is the first occurrence when it was missing. */
  lemma RemoveFirstAppended(l: seq<string>, b: string)
    requires b !in l
    ensures RemoveFirst(l + [b], b) == l
  {
    var l' := l + [b];
    assert forall j | 0 <= j < |l| :: l'[j] != b;
    assert FirstIndex(l', b) == Some(|l|);
    assert RemoveAt(l', |l|) == l;
  }

  /** Writing back an entity type's list, or an empty one when it had none,
      is invisible after pruning. */
  lemma PruneRestore(config: GroupMap, t: string)
    ensures Prune(config[t := GroupsForEntityType(config, t)]) == Prune(config)
  {
    var c2 := config[t := GroupsForEntityType(config, t)];
    forall k | k in Prune(c2) ensures k in Prune(config) && Prune(c2)[k] == Prune(config)[k] {
    }
    forall k | k in Prune(config) ensures k in Prune(c2) {
    }
  }

  /** The roles left by an addition followed by a removal that took exactly
      the pair's roles: the additions were all the pair's, so what is left
      is the original store without the pair's roles. */
  lemma RoundTripRoles(before: seq<Role>, after: seq<Role>, final: seq<Role>, t: string, b: string)
    requires ExtendsWithDefaults(before, after, t, b)
    requires forall x | x in final :: x in after && !(x.groupType == t && x.groupBundle == b)
    requires forall x | x in after && !(x.groupType == t && x.groupBundle == b) :: x in final
    ensures RolesWithout(before, final, t, b)
  {
    forall x | x in before && !(x.groupType == t && x.groupBundle == b) ensures x in final {
      var i :| 0 <= i < |before| && before[i] == x;
      assert after[i] == x;
    }
    forall x | x in final ensures x in before {
      var i :| 0 <= i < |after| && after[i] == x;
      if i < |before| {
        assert before[i] == x;
      } else {
        assert false;
      }
    }
  }

  /** Removing a pair right after adding it restores the map (pruned of
      empty lists) and deletes exactly the pair's roles, the provisioned ones
      included. */
  lemma AddRemoveRoundTrip(s: Registry, t: string, b: string)
    requires Valid(s) && !IsGroup(s.config, t, b)
    ensures RemoveGroup(AddGroup(s, t, b).state, t, b).Completed()
    ensures RemoveGroup(AddGroup(s, t, b).state, t, b).state.config == Prune(s.config)
    ensures RemoveGroup(AddGroup(s, t, b).state, t, b).state.snapshot == Prune(s.config)
    ensures RolesWithout(s.roles, RemoveGroup(AddGroup(s, t, b).state, t, b).state.roles, t, b)
  {
    var r1 := AddGroup(s, t, b).state;
    AddPart(s, t, b);
    RemoveAfterAddConfig(s.config, t, b);
    RemovePart(s.roles, r1, t, b);
  }

  /** `after` holds exactly the roles of `before` outside the pair. */
  predicate RolesWithout(before: seq<Role>, after: seq<Role>, t: string, b: string) {
    && (forall x | x in before && !(x.groupType == t && x.groupBundle == b) :: x in after)
    && (forall x | x in after :: x in before && !(x.groupType == t && x.groupBundle == b))
  }

  /** `after` extends `before` with saved default roles of the pair only. */
  predicate ExtendsWithDefaults(before: seq<Role>, after: seq<Role>, t: string, b: string) {
    && |before| <= |after| && after[..|before|] == before
    && forall i | |before| <= i < |after| :: IsSavedDefaultRole(after[i], t, b, DEFAULT_ROLE_NAMES)
  }

  /** The addition half of the round trip. */
  lemma AddPart(s: Registry, t: string, b: string)
    requires Valid(s)
    ensures Valid(AddGroup(s, t, b).state)
    ensures AddGroup(s, t, b).state.config == AddedConfig(s.config, t, b)
    ensures ExtendsWithDefaults(s.roles, AddGroup(s, t, b).state.roles, t, b)
  {
  }

  /** The removal half of the round trip, stated over the intermediate registry. */
  lemma RemovePart(before: seq<Role>, r1: Registry, t: string, b: string)
    requires Valid(r1) && t in r1.config
    requires ExtendsWithDefaults(before, r1.roles, t, b)
    ensures RemoveGroup(r1, t, b).Completed()
    ensures RemoveGroup(r1, t, b).state.snapshot == RemoveGroup(r1, t, b).state.config
    ensures RolesWithout(before, RemoveGroup(r1, t, b).state.roles, t, b)
  {
    var r := RemoveGroup(r1, t, b);
    RoundTripRoles(before, r1.roles, r.state.roles, t, b);
  }

  /** In the source's order, with a guard that recognises the prefixed ids,
      removing a provisioned group throws: the manager's map still lists the
      pair when its "member" role is deleted. The persisted map has already
      lost the pair, so the in-memory copy is left stale. Refreshing first,
      as RemoveGroup does, completes. */
  lemma StaleMapBlocksRemoval(s: Registry, t: string, b: string)
    requires ListsNoDup(s.config) && IsGroup(s.config, t, b) && IsGroup(s.snapshot, t, b)
    requires SavedDefaultRole(t, b, AUTHENTICATED) in s.roles
    ensures RemoveGroupStaleMap(s, t, b).error == Some(RequiredRole)
    ensures !IsGroup(RemoveGroupStaleMap(s, t, b).state.config, t, b)
    ensures IsGroup(RemoveGroupStaleMap(s, t, b).state.snapshot, t, b)
    ensures RemoveGroup(s, t, b).Completed()
  {
    var x := SavedDefaultRole(t, b, AUTHENTICATED);
    SavedDefaultRoleName(t, b, AUTHENTICATED);
    assert x in ScopedRoles(s.roles, t, b);
  }

  /** As written, a role stored under the bare id "member" for a registered
      pair blocks the pair's removal the same way. */
  lemma StaleMapBlocksRemovalAsWritten(s: Registry, t: string, b: string, x: Role)
    requires ListsNoDup(s.config) && IsGroup(s.config, t, b) && IsGroup(s.snapshot, t, b)
    requires x in s.roles && x.groupType == t && x.groupBundle == b && x.id == AUTHENTICATED
    ensures !RemoveGroupAsWritten(s, t, b).Completed()
    ensures !IsGroup(RemoveGroupAsWritten(s, t, b).state.config, t, b)
    ensures IsGroup(RemoveGroupAsWritten(s, t, b).state.snapshot, t, b)
  {
    assert x in ScopedRoles(s.roles, t, b);
  }

  /** The registry after the pair is added to an empty one. */
  function AddedToEmpty(t: string, b: string): Partial<Registry> {
    AddGroup(NewGroupManager(map[], []), t, b)
  }

  /** Adding a pair to an empty registry registers it and stores its three
      default roles. */
  lemma AddToEmpty(t: string, b: string)
    requires !PhpEmpty(t) && !PhpEmpty(b)
    ensures AddedToEmpty(t, b).Completed()
    ensures AddedToEmpty(t, b).state.config == map[t := [b]]
    ensures AddedToEmpty(t, b).state.snapshot == map[t := [b]]
    ensures AddedToEmpty(t, b).state.roles
            == [SavedDefaultRole(t, b, ANONYMOUS), SavedDefaultRole(t, b, AUTHENTICATED), SavedDefaultRole(t, b, ADMINISTRATOR)]
  {
    FreshProvisioning([], t, b, ScopedId);
    assert AddedList([], b) == [b];
  }

  /** For a pair added to an empty registry: removal in the source's order
      throws and leaves the in-memory map stale; the corrected removal
      completes and the queries no longer see the pair. */
  lemma StaleMapExample(t: string, b: string)
    requires !PhpEmpty(t) && !PhpEmpty(b)
    ensures RemoveGroupStaleMap(AddedToEmpty(t, b).state, t, b).error == Some(RequiredRole)
    ensures IsGroup(RemoveGroupStaleMap(AddedToEmpty(t, b).state, t, b).state.snapshot, t, b)
    ensures RemoveGroup(AddedToEmpty(t, b).state, t, b).Completed()
    ensures !IsGroup(RemoveGroup(AddedToEmpty(t, b).state, t, b).state.snapshot, t, b)
  {
    var a := AddedToEmpty(t, b).state;
    AddToEmpty(t, b);
    assert SavedDefaultRole(t, b, AUTHENTICATED) in a.roles;
    assert IsGroup(a.config, t, b) && ListsNoDup(a.config);
    StaleMapBlocksRemoval(a, t, b);
  }

  // ---------------------------------------------------------------------------
  // Histories of addGroup() and removeGroup()

  datatype Op = AddOp(entityType: string, bundle: string) | RemoveOp(entityType: string, bundle: string)

  function Apply(s: Registry, op: Op): Registry {
    match op
    case AddOp(t, b) => AddGroup(s, t, b).state
    case RemoveOp(t, b) => RemoveGroup(s, t, b).state
  }

  /** The registry after the calls `ops`; the map is persisted whether or not
      provisioning or deletion throws afterwards, so the run goes on. */
  function Run(s: Registry, ops: seq<Op>): Registry
    decreases |ops|
  {
    if |ops| == 0 then s else Run(Apply(s, ops[0]), ops[1..])
  }

  /** The group pairs a map registers. */
  function Pairs(m: GroupMap): set<(string, string)> {
    set t, b | t in m && b in m[t] :: (t, b)
  }

  /** The reference: a set of pairs, added to and removed from. */
  function RefApply(p: set<(string, string)>, op: Op): set<(string, string)> {
    match op
    case AddOp(t, b) => p + {(t, b)}
    case RemoveOp(t, b) => p - {(t, b)}
  }

  function RefRun(p: set<(string, string)>, ops: seq<Op>): set<(string, string)>
    decreases |ops|
  {
    if |ops| == 0 then p else RefRun(RefApply(p, ops[0]), ops[1..])
  }

  lemma PairsMatch(m: GroupMap, p: set<(string, string)>)
    requires forall q | q in p :: IsGroup(m, q.0, q.1)
    requires forall t, b | IsGroup(m, t, b) :: (t, b) in p
    ensures Pairs(m) == p
  {
    forall q | q in Pairs(m) ensures q in p {
      assert IsGroup(m, q.0, q.1);
    }
  }

  lemma AddedPairs(c0: GroupMap, c1: GroupMap, t: string, b: string)
    requires c1 == AddedConfig(c0, t, b)
    ensures Pairs(c1) == Pairs(c0) + {(t, b)}
  {
    AddedConfigGroups(c0, t, b);
    var p := Pairs(c0) + {(t, b)};
    forall q | q in p ensures IsGroup(c1, q.0, q.1) {
      if q != (t, b) { assert IsGroup(c0, q.0, q.1); }
    }
    PairsMatch(c1, p);
  }

  lemma AddMatchesReference(s: Registry, t: string, b: string)
    requires Valid(s)
    ensures Valid(AddGroup(s, t, b).state)
    ensures Pairs(AddGroup(s, t, b).state.config) == Pairs(s.config) + {(t, b)}
  {
    AddedPairs(s.config, AddGroup(s, t, b).state.config, t, b);
  }

  lemma RemoveMatchesReference(s: Registry, t: string, b: string)
    requires Valid(s)
    ensures Valid(RemoveGroup(s, t, b).state)
    ensures Pairs(RemoveGroup(s, t, b).state.config) == Pairs(s.config) - {(t, b)}
  {
    var c := RemoveGroup(s, t, b).state.config;
    var p := Pairs(s.config) - {(t, b)};
    forall q | q in p ensures IsGroup(c, q.0, q.1) {
      assert IsGroup(s.config, q.0, q.1);
    }
    PairsMatch(c, p);
  }

  lemma ApplyMatchesReference(s: Registry, op: Op)
    requires Valid(s)
    ensures Valid(Apply(s, op))
    ensures Pairs(Apply(s, op).config) == RefApply(Pairs(s.config), op)
  {
    match op
    case AddOp(t, b) => AddMatchesReference(s, t, b);
    case RemoveOp(t, b) => RemoveMatchesReference(s, t, b);
  }

  /** Whatever the calls, and whether or not their role work throws, the
      registered pairs are those a set of pairs would hold after the same
      additions and removals, and the invariants hold throughout. */
  lemma {:induction false} RunMatchesReference(s: Registry, ops: seq<Op>)
    requires Valid(s)
    ensures Valid(Run(s, ops))
    ensures Pairs(Run(s, ops).config) == RefRun(Pairs(s.config), ops)
    decreases |ops|
  {
    if |ops| > 0 {
      ApplyMatchesReference(s, ops[0]);
      RunMatchesReference(Apply(s, ops[0]), ops[1..]);
    }
  }
}
