/** OgAccess: the group-level access decision.

    userAccess() answers with TRUE, FALSE or NULL; NULL means the entity is
    not a group, so the question does not arise. The permission names the
    account holds inside a group come from a static cache with two tiers: the
    permissions as configured ("pre-alter") and the permissions after the
    hook_og_user_access_alter() implementations have seen them. Both tiers
    are inputs here. */
module OgAccess {
  import opened Outcomes
  import opened GroupMaps

  const ADMINISTER_GROUP_PERMISSION: string := "administer group"

  /** TRUE, FALSE and NULL. */
  datatype Access = Allow | Deny | Neutral

  /** An account: its uid and its site-wide permissions (hasPermission()). */
  datatype Account = Account(id: int, permissions: set<string>)

  /** The entity userAccess() is asked about. `owner` is the owner's uid when
      the entity implements EntityOwnerInterface. */
  datatype GroupEntity = GroupEntity(entityType: string, bundle: string, id: string, owner: Option<int>)

  /** The configuration userAccess() reads: the group map behind
      Og::isGroup() and og.settings' group_manager_full_access. */
  datatype Settings = Settings(groups: GroupMap, managerFullAccess: bool)

  /** The two tiers of the permission cache for one group and account. */
  datatype Tiers = Tiers(preAlter: set<string>, altered: set<string>)

  /** The checks that grant access before any group permission is looked at:
      uid 1, the site-wide "administer group" permission unless it is
      ignored, and the owner of the group when full access is configured and
      the account is not anonymous. */
  predicate Shortcut(s: Settings, g: GroupEntity, account: Account, ignoreAdmin: bool) {
    || account.id == 1
    || (!ignoreAdmin && ADMINISTER_GROUP_PERMISSION in account.permissions)
    || (s.managerFullAccess && account.id != 0 && g.owner == Some(account.id))
  }

  /** The decision of userAccess() against the permission set `granted`:
      NULL off groups; otherwise TRUE exactly when a shortcut applies, the
      set holds "administer group" and it is not ignored, or the set holds
      the operation. */
  function Decide(s: Settings, g: GroupEntity, operation: string, account: Account, granted: set<string>, ignoreAdmin: bool): (r: Access)
    ensures r == Neutral <==> !IsGroup(s.groups, g.entityType, g.bundle)
    ensures r == Allow <==> IsGroup(s.groups, g.entityType, g.bundle) &&
                            (Shortcut(s, g, account, ignoreAdmin)
                             || (!ignoreAdmin && ADMINISTER_GROUP_PERMISSION in granted)
                             || operation in granted)
  {
    if !IsGroup(s.groups, g.entityType, g.bundle) then Neutral
    else if account.id == 1 then Allow
    else if !ignoreAdmin && ADMINISTER_GROUP_PERMISSION in account.permissions then Allow
    else if s.managerFullAccess && account.id != 0 && g.owner == Some(account.id) then Allow
    else if ADMINISTER_GROUP_PERMISSION in granted && !ignoreAdmin then Allow
    else if operation in granted then Allow
    else Deny
  }

  /** userAccess() as written: the decision reads the pre-alter tier, so the
      permissions the alter hooks produce never reach it. */
  function UserAccessAsWritten(s: Settings, g: GroupEntity, operation: string, account: Account, tiers: Tiers,
                               skipAlter: bool, ignoreAdmin: bool): (r: Access)
    ensures r == Neutral <==> !IsGroup(s.groups, g.entityType, g.bundle)
    ensures r == Allow <==> IsGroup(s.groups, g.entityType, g.bundle) &&
                            (Shortcut(s, g, account, ignoreAdmin)
                             || (!ignoreAdmin && ADMINISTER_GROUP_PERMISSION in tiers.preAlter)
                             || operation in tiers.preAlter)
  {
    Decide(s, g, operation, account, tiers.preAlter, ignoreAdmin)
  }

  /** userAccess() reading the altered tier unless the alter step is skipped. */
  function UserAccess(s: Settings, g: GroupEntity, operation: string, account: Account, tiers: Tiers,
                      skipAlter: bool, ignoreAdmin: bool): (r: Access)
    ensures r == Neutral <==> !IsGroup(s.groups, g.entityType, g.bundle)
    ensures skipAlter ==>
              (r == Allow <==> IsGroup(s.groups, g.entityType, g.bundle) &&
                               (Shortcut(s, g, account, ignoreAdmin)
                                || (!ignoreAdmin && ADMINISTER_GROUP_PERMISSION in tiers.preAlter)
                                || operation in tiers.preAlter))
    ensures !skipAlter ==>
              (r == Allow <==> IsGroup(s.groups, g.entityType, g.bundle) &&
                               (Shortcut(s, g, account, ignoreAdmin)
                                || (!ignoreAdmin && ADMINISTER_GROUP_PERMISSION in tiers.altered)
                                || operation in tiers.altered))
  {
    Decide(s, g, operation, account, if skipAlter then tiers.preAlter else tiers.altered, ignoreAdmin)
  }

  // ---------------------------------------------------------------------------
  // userAccessEntity()

  /** The entity userAccessEntity() is asked about. `groupContent` is
      Og::isGroupContent(); `audience` is Og::getEntityGroups(): for each
      group entity type, the groups the entity belongs to. */
  datatype Entity = Entity(entityType: string, bundle: string, id: string, owner: Option<int>, isNew: bool,
                           groupContent: bool, audience: seq<seq<GroupEntity>>)

  function AsGroup(e: Entity): GroupEntity {
    GroupEntity(e.entityType, e.bundle, e.id, e.owner)
  }

  /** Some group of the audience grants the operation. */
  predicate AudienceAllows(s: Settings, audience: seq<seq<GroupEntity>>, operation: string, account: Account,
                           tiersOf: GroupEntity -> Tiers)
  {
    exists i, j | 0 <= i < |audience| && 0 <= j < |audience[i]| ::
      UserAccess(s, audience[i][j], operation, account, tiersOf(audience[i][j]), false, false) == Allow
  }

  /** Some group type of the audience lists at least one group. */
  predicate HasMember(audience: seq<seq<GroupEntity>>) {
    exists i | 0 <= i < |audience| :: |audience[i]| > 0
  }

  /** userAccessEntity() as written: it passes the entity type id where
      userAccess() declares an EntityInterface parameter, so every call that
      reaches userAccess() fails with a type error, and no call answers TRUE. */
  function UserAccessEntityAsWritten(s: Settings, operation: string, entity: Option<Entity>): (r: Result<Access>)
    ensures r.Err? <==> entity.Some? && !entity.value.isNew &&
                        (IsGroup(s.groups, entity.value.entityType, entity.value.bundle)
                         || (entity.value.groupContent && HasMember(entity.value.audience)))
    ensures r.Err? ==> r.error == ArgumentTypeError
    ensures r != Ok(Allow)
    ensures r == Ok(Deny) <==> entity.Some? && !entity.value.isNew &&
                               !IsGroup(s.groups, entity.value.entityType, entity.value.bundle) &&
                               entity.value.groupContent && |entity.value.audience| > 0 &&
                               !HasMember(entity.value.audience)
  {
    match entity
    case None => Ok(Neutral)
    case Some(e) =>
      if e.isNew then Ok(Neutral)
      else if IsGroup(s.groups, e.entityType, e.bundle) then Err(ArgumentTypeError)
      else if e.groupContent && |e.audience| > 0 then
        (if HasMember(e.audience) then Err(ArgumentTypeError) else Ok(Deny))
      else Ok(Neutral)
  }

  /** userAccessEntity() calling userAccess() on the group entities: TRUE if
      the entity is a group that grants the operation; otherwise, for group
      content with an audience, TRUE exactly when one of its groups grants it
      and FALSE if none does; otherwise FALSE for a group and NULL for an
      entity outside any group context. */
  method UserAccessEntity(s: Settings, operation: string, entity: Option<Entity>, account: Account,
                          tiersOf: GroupEntity -> Tiers) returns (r: Access)
    ensures entity.None? || entity.value.isNew ==> r == Neutral
    ensures entity.Some? && !entity.value.isNew ==>
      var e := entity.value;
      var isGroup := IsGroup(s.groups, e.entityType, e.bundle);
      var groupAllows := isGroup && UserAccess(s, AsGroup(e), operation, account, tiersOf(AsGroup(e)), false, false) == Allow;
      && (groupAllows ==> r == Allow)
      && (!groupAllows && e.groupContent && |e.audience| > 0 ==>
            (r == Allow <==> AudienceAllows(s, e.audience, operation, account, tiersOf)) && r != Neutral)
      && (!groupAllows && !(e.groupContent && |e.audience| > 0) ==> r == (if isGroup then Deny else Neutral))
  {
    if entity.None? || entity.value.isNew {
      return Neutral;
    }
    var e := entity.value;
    r := Neutral;
    if IsGroup(s.groups, e.entityType, e.bundle) {
      var g := AsGroup(e);
      if UserAccess(s, g, operation, account, tiersOf(g), false, false) == Allow {
        return Allow;
      }
      r := Deny;
    }
    if e.groupContent && |e.audience| > 0 {
      var i := 0;
      while i < |e.audience|
        invariant 0 <= i <= |e.audience|
        invariant forall i', j | 0 <= i' < i && 0 <= j < |e.audience[i']| ::
                    UserAccess(s, e.audience[i'][j], operation, account, tiersOf(e.audience[i'][j]), false, false) != Allow
      {
        var ids := e.audience[i];
        var j := 0;
        while j < |ids|
          invariant 0 <= j <= |ids|
          invariant forall j' | 0 <= j' < j ::
                      UserAccess(s, ids[j'], operation, account, tiersOf(ids[j']), false, false) != Allow
        {
          if UserAccess(s, ids[j], operation, account, tiersOf(ids[j]), false, false) == Allow {
            return Allow;
          }
          j := j + 1;
        }
        i := i + 1;
      }
      return Deny;
    }
  }
}
