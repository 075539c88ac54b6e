/** Properties of the access decision. */
module OgAccessProofs {
  import opened Outcomes
  import opened GroupMaps
  import opened OgAccess

  /** Holding more group permissions never takes access away. */
  lemma GrantsMonotone(s: Settings, g: GroupEntity, operation: string, account: Account,
                       fewer: set<string>, more: set<string>, ignoreAdmin: bool)
    requires fewer <= more
    ensures Decide(s, g, operation, account, fewer, ignoreAdmin) == Allow ==>
            Decide(s, g, operation, account, more, ignoreAdmin) == Allow
  {
  }

  /** Ignoring "administer group" only ever narrows access. */
  lemma IgnoreAdminNarrows(s: Settings, g: GroupEntity, operation: string, account: Account, granted: set<string>)
    ensures Decide(s, g, operation, account, granted, true) == Allow ==>
            Decide(s, g, operation, account, granted, false) == Allow
    ensures Decide(s, g, operation, account, granted, true) == Neutral <==>
            Decide(s, g, operation, account, granted, false) == Neutral
  {
  }

  /** A group administrator may do anything in the group, unless the
      caller asks to ignore that permission. */
  lemma GroupAdminAllowsEverything(s: Settings, g: GroupEntity, account: Account, granted: set<string>)
    requires IsGroup(s.groups, g.entityType, g.bundle) && ADMINISTER_GROUP_PERMISSION in granted
    ensures forall operation :: Decide(s, g, operation, account, granted, false) == Allow
  {
  }

  /** The cache accessor has an empty body, so as written the pre-alter tier
      is empty: only uid 1, site-wide group administrators and, when
      configured, the group's owner get access. */
  lemma EmptyTierOnlyShortcuts(s: Settings, g: GroupEntity, operation: string, account: Account,
                               skipAlter: bool, ignoreAdmin: bool)
    ensures UserAccessAsWritten(s, g, operation, account, Tiers({}, {}), skipAlter, ignoreAdmin)
            == if !IsGroup(s.groups, g.entityType, g.bundle) then Neutral
               else if Shortcut(s, g, account, ignoreAdmin) then Allow
               else Deny
  {
  }

  /** As written, neither the alter hooks' result nor skip_alter changes
      the answer: only the pre-alter tier is read. */
  lemma AlterIgnoredAsWritten(s: Settings, g: GroupEntity, operation: string, account: Account,
                              t1: Tiers, t2: Tiers, skip1: bool, skip2: bool, ignoreAdmin: bool)
    requires t1.preAlter == t2.preAlter
    ensures UserAccessAsWritten(s, g, operation, account, t1, skip1, ignoreAdmin)
            == UserAccessAsWritten(s, g, operation, account, t2, skip2, ignoreAdmin)
  {
  }

  /** A permission an alter hook grants is honoured by UserAccess unless the
      alter step is skipped. */
  lemma AlterHonoured(s: Settings, g: GroupEntity, operation: string, account: Account, tiers: Tiers, ignoreAdmin: bool)
    requires IsGroup(s.groups, g.entityType, g.bundle) && operation in tiers.altered
    ensures UserAccess(s, g, operation, account, tiers, false, ignoreAdmin) == Allow
  {
  }

  /** A concrete instance: uid 2 in node/article, the hooks granting "edit". */
  lemma AlterHookExample()
    ensures var s := Settings(map["node" := ["article"]], false);
      var g := GroupEntity("node", "article", "1", None);
      var a := Account(2, {});
      var t := Tiers({}, {"edit"});
      && UserAccessAsWritten(s, g, "edit", a, t, false, false) == Deny
      && UserAccess(s, g, "edit", a, t, false, false) == Allow
      && UserAccess(s, g, "edit", a, t, true, false) == Deny
  {
    var s := Settings(map["node" := ["article"]], false);
    assert "article" in s.groups["node"];
    assert "edit" != ADMINISTER_GROUP_PERMISSION;
  }

  /** As written, asking about a registered group entity that has been saved
      always fails with the type error. */
  lemma UserAccessEntityExample()
    ensures var s := Settings(map["node" := ["article"]], false);
      var e := Entity("node", "article", "1", None, false, false, []);
      UserAccessEntityAsWritten(s, "view", Some(e)) == Err(ArgumentTypeError)
  {
    var s := Settings(map["node" := ["article"]], false);
    assert "article" in s.groups["node"];
  }

  /** uid 1 is granted every operation by any group of the audience that is
      registered. */
  lemma SuperUserAudience(s: Settings, audience: seq<seq<GroupEntity>>, operation: string, account: Account,
                          tiersOf: GroupEntity -> Tiers, i: nat, j: nat)
    requires account.id == 1 && i < |audience| && j < |audience[i]|
    requires IsGroup(s.groups, audience[i][j].entityType, audience[i][j].bundle)
    ensures AudienceAllows(s, audience, operation, account, tiersOf)
  {
    assert UserAccess(s, audience[i][j], operation, account, tiersOf(audience[i][j]), false, false) == Allow;
  }
}
