/** The group map: entity type id -> bundle ids that are groups, as stored
    under the `groups` key of the `og.settings` configuration object. The
    queries here are the read side of GroupManager; they take the map they
    read as a parameter. */
module GroupMaps {
  import opened Outcomes
  import opened Lists

  type GroupMap = map<string, seq<string>>

  /** GroupManager::isGroup(): the entity type has a list and the bundle is on it. */
  predicate IsGroup(m: GroupMap, entityType: string, bundle: string) {
    entityType in m && bundle in m[entityType]
  }

  /** GroupManager::getGroupsForEntityType(). */
  function GroupsForEntityType(m: GroupMap, entityType: string): (r: seq<string>)
    ensures forall b | b in r :: IsGroup(m, entityType, b)
    ensures forall b | IsGroup(m, entityType, b) :: b in r
    ensures entityType in m ==> r == m[entityType]
    ensures entityType !in m ==> r == []
  {
    if entityType in m then m[entityType] else []
  }

  /** PHP turns a NULL array key into the empty string, so calling
      getAllGroupBundles() without an entity type looks up the key "". */
  function EntityTypeKey(entityType: Option<string>): string {
    match entityType
    case None => ""
    case Some(t) => t
  }

  /** getAllGroupBundles() returns either one bundle list or the whole map. */
  datatype Bundles = BundleList(bundles: seq<string>) | WholeMap(groups: GroupMap)

  /** GroupManager::getAllGroupBundles(). */
  function AllGroupBundles(m: GroupMap, entityType: Option<string>): (r: Bundles)
    ensures r.BundleList? <==> GroupsForEntityType(m, EntityTypeKey(entityType)) != []
    ensures r.BundleList? ==> r.bundles == GroupsForEntityType(m, EntityTypeKey(entityType))
    ensures r.WholeMap? ==> r.groups == m
  {
    var key := EntityTypeKey(entityType);
    if key in m && m[key] != [] then BundleList(m[key]) else WholeMap(m)
  }

  /** isGroup() reads the same list getGroupsForEntityType() and
      getAllGroupBundles() return: a type has a non-empty bundle list exactly
      when some bundle of it is a group, and the list holds exactly those. */
  lemma IsGroupAgreesWithLists(m: GroupMap, entityType: string)
    ensures forall b :: IsGroup(m, entityType, b) <==> b in GroupsForEntityType(m, entityType)
    ensures AllGroupBundles(m, Some(entityType)).BundleList? <==> exists b :: IsGroup(m, entityType, b)
    ensures AllGroupBundles(m, Some(entityType)).BundleList? ==>
              forall b :: b in AllGroupBundles(m, Some(entityType)).bundles <==> IsGroup(m, entityType, b)
  {
    if entityType in m && m[entityType] != [] {
      assert IsGroup(m, entityType, m[entityType][0]);
    }
  }

  /** array_filter() on the group map: entity types whose list is empty are
      dropped, the others kept as they are. */
  function Prune(m: GroupMap): (r: GroupMap)
    ensures forall t | t in r :: t in m && m[t] != [] && r[t] == m[t]
    ensures forall t | t in m && m[t] != [] :: t in r
    ensures forall t, b :: IsGroup(r, t, b) <==> IsGroup(m, t, b)
  {
    map t | t in m && m[t] != [] :: m[t]
  }

  /** Every bundle list is free of duplicates; addGroup() keeps it so. */
  predicate ListsNoDup(m: GroupMap) {
    forall t | t in m :: NoDup(m[t])
  }

  /** No entity type is mapped to an empty list. */
  predicate NoEmptyLists(m: GroupMap) {
    forall t | t in m :: m[t] != []
  }
}
