/** Properties of the role entity that relate several of its operations. */
module OgRoleProofs {
  import opened Outcomes
  import opened GroupMaps
  import opened OgRole

  /** isMutable() is exactly "set() never refuses": a standard role accepts
      every change, a saved role of any other type refuses each locked one. */
  lemma MutableRolesUnlocked(r: Role, c: Change)
    ensures IsMutable(r) ==> Set(r, c).Ok?
    ensures !IsMutable(r) && !r.isNew && Locked(PropertyOf(c)) ==> Set(r, c) == Err(LockedProperty)
    ensures r.isNew ==> Set(r, c).Ok?
  {
  }

  /** The default properties agree with getRoleTypeByName() for every default
      name, so the role_type that createDefaultRoles() puts first is the one
      the seed carries anyway. */
  lemma DefaultRoleTypesAgree(name: string)
    requires name in DEFAULT_ROLE_NAMES
    ensures DefaultProperties(name).Ok?
    ensures DefaultProperties(name).value.roleType == RoleTypeByName(name)
    ensures (DefaultProperties(name).value.roleType == ROLE_TYPE_IMMUTABLE) <==> name != ADMINISTRATOR
  {
  }

  /** The seeds of the three default roles. */
  lemma DefaultSeeds()
    ensures DefaultProperties(ANONYMOUS) == Ok(Defaults(ROLE_TYPE_IMMUTABLE, "Non-member", ["subscribe"]))
    ensures DefaultProperties(AUTHENTICATED) == Ok(Defaults(ROLE_TYPE_IMMUTABLE, "Member", ["unsubscribe"]))
    ensures DefaultProperties(ADMINISTRATOR) == Ok(Defaults(ROLE_TYPE_STANDARD, "Administrator",
              ["add user", "administer group", "approve and deny subscription", "manage members",
               "manage permissions", "manage roles", "update group"]))
  {
  }

  /** For a saved role, isMutable() is exactly "set() accepts every change":
      a saved role of any other type refuses a change of its id. */
  lemma MutableIffUnlocked(r: Role)
    ensures !r.isNew ==> (IsMutable(r) <==> forall c :: Set(r, c).Ok?)
  {
    if !r.isNew && !IsMutable(r) {
      assert Set(r, IdTo(r.id)).Err?;
    }
  }

  predicate HasDash(s: string) {
    exists k | 0 <= k < |s| :: s[k] == '-'
  }

  predicate HasTwoDashes(s: string) {
    exists i, j | 0 <= i < j < |s| :: s[i] == '-' && s[j] == '-'
  }

  lemma ReservedNamesDashes()
    ensures !HasDash(AUTHENTICATED)
    ensures !HasTwoDashes(ANONYMOUS)
  {
    assert AUTHENTICATED == ['m', 'e', 'm', 'b', 'e', 'r'];
    assert ANONYMOUS == ['n', 'o', 'n', '-', 'm', 'e', 'm', 'b', 'e', 'r'];
  }

  /** An id that save() has prefixed carries a '-' right after the group type
      and another right after the group bundle. */
  lemma PrefixedIdDashes(t: string, b: string, g: string, id: string)
    ensures HasDash(ScopePrefix(t, b, g) + id)
    ensures HasTwoDashes(ScopePrefix(t, b, g) + id)
  {
    var s := ScopePrefix(t, b, g) + id;
    assert s == t + "-" + b + "-" + (if PhpEmpty(g) then "" else g + "-") + id;
    assert s[|t|] == '-' && s[|t| + 1 + |b|] == '-';
  }

  /** A role saved for the first time never has a bare reserved name as id:
      the prefix puts two '-' into the id, and "member" has none and
      "non-member" only one. */
  lemma {:induction false} SavedIdNeverBare(r: Role, store: seq<Role>)
    requires r.isNew && Save(r, store).Ok?
    ensures !Reserved(Save(r, store).value.role.id)
  {
    var s := Save(r, store).value.role.id;
    assert s == ScopePrefix(r.groupType, r.groupBundle, r.groupId) + r.id;
    PrefixedIdDashes(r.groupType, r.groupBundle, r.groupId, r.id);
    ReservedNamesDashes();
  }

  /** Removing the scope from a freshly saved id gives back the id the role
      was created with. */
  lemma {:induction false} RoleNameAfterSave(r: Role, store: seq<Role>)
    requires r.isNew && Save(r, store).Ok?
    ensures RoleName(Save(r, store).value.role) == r.id
  {
    var saved := Save(r, store).value.role;
    var p := RolePrefix(saved);
    assert p == RolePrefix(r);
    assert saved.id == p + r.id;
    assert saved.id[..|p|] == p;
    assert saved.id[|p|..] == r.id;
  }

  /** As written, delete() lets a saved "member" or "non-member" role go even
      while its group is registered: the guard never matches a prefixed id. */
  lemma SavedReservedRoleDeletableAsWritten(r: Role, store: seq<Role>, groups: GroupMap)
    requires r.isNew && Reserved(r.id) && Save(r, store).Ok?
    requires IsGroup(groups, r.groupType, r.groupBundle)
    ensures DeleteAsWritten(Save(r, store).value.role, Save(r, store).value.store, groups).Ok?
  {
    SavedIdNeverBare(r, store);
  }

  /** With the guard reading the role's name, the same saved reserved role
      cannot be deleted while its group is registered. */
  lemma SavedReservedRoleProtected(r: Role, store: seq<Role>, groups: GroupMap)
    requires r.isNew && Reserved(r.id) && Save(r, store).Ok?
    requires IsGroup(groups, r.groupType, r.groupBundle)
    ensures Delete(Save(r, store).value.role, Save(r, store).value.store, groups) == Err(RequiredRole)
  {
    RoleNameAfterSave(r, store);
  }

  /** A concrete instance: the "member" role of node/article. */
  lemma MemberRoleExample()
    ensures var r := Role(AUTHENTICATED, "Member", "node", "article", "", ["unsubscribe"], ROLE_TYPE_IMMUTABLE, true);
      var groups: GroupMap := map["node" := ["article"]];
      && Save(r, []).Ok?
      && Save(r, []).value.role.id == "node-article-member"
      && DeleteAsWritten(Save(r, []).value.role, Save(r, []).value.store, groups).Ok?
      && Delete(Save(r, []).value.role, Save(r, []).value.store, groups) == Err(RequiredRole)
  {
    var r := Role(AUTHENTICATED, "Member", "node", "article", "", ["unsubscribe"], ROLE_TYPE_IMMUTABLE, true);
    var groups: GroupMap := map["node" := ["article"]];
    assert "article" in groups["node"];
    assert RolePrefix(r) == "node-article-";
    assert RolePrefix(r) + r.id == "node-article-member";
    SavedReservedRoleDeletableAsWritten(r, [], groups);
    SavedReservedRoleProtected(r, [], groups);
  }
}
