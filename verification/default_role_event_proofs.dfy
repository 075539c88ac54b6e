/** Properties of the default-role map: the single-role operations against
    each other, and the bulk operations against the single-role ones. */
module DefaultRoleEventProofs {
  import opened Outcomes
  import opened OgRole
  import opened DefaultRoleEvent

  /** The single-role writers keep every stored name non-empty. */
  lemma WritersKeepValid(roles: Roles, name: string, p: Properties)
    requires Valid(roles)
    ensures SetRole(roles, name, p).Ok? ==> Valid(SetRole(roles, name, p).value)
    ensures AddRole(roles, name, p).Ok? ==> Valid(AddRole(roles, name, p).value)
    ensures Valid(DeleteRole(roles, name))
  {
  }

  /** hasRole() agrees with getRole() and getRoles(), holds after a
      successful addRole() or setRole() and fails after deleteRole(). */
  lemma HasRoleAgrees(roles: Roles, name: string, p: Properties)
    ensures HasRole(roles, name) <==> GetRole(roles, name).Ok?
    ensures HasRole(roles, name) <==> name in GetRoles(roles)
    ensures SetRole(roles, name, p).Ok? ==> HasRole(SetRole(roles, name, p).value, name)
    ensures AddRole(roles, name, p).Ok? ==> HasRole(AddRole(roles, name, p).value, name)
    ensures !HasRole(DeleteRole(roles, name), name)
  {
  }

  /** Adding a new role and deleting it again gives back the map. */
  lemma AddThenDelete(roles: Roles, name: string, p: Properties)
    requires AddRole(roles, name, p).Ok?
    ensures !HasRole(roles, name)
    ensures DeleteRole(AddRole(roles, name, p).value, name) == roles
  {
    assert DeleteRole(AddRole(roles, name, p).value, name).Keys == roles.Keys;
  }

  /** What getRole() answers after a successful setRole(). */
  lemma GetAfterSet(roles: Roles, name: string, p: Properties, other: string)
    requires SetRole(roles, name, p).Ok?
    ensures GetRole(SetRole(roles, name, p).value, name) == Ok(Normalize(p))
    ensures other != name ==> GetRole(SetRole(roles, name, p).value, other) == GetRole(roles, other)
  {
  }

  /** addRole() without role_type stores a standard role. */
  lemma AddDefaultsToStandard(roles: Roles, name: string, text: string)
    requires !HasRole(roles, name) && !PhpEmpty(name)
    ensures GetRole(AddRole(roles, name, map["label" := text]).value, name)
         == Ok(DefaultRole(text, ROLE_TYPE_STANDARD))
  {
  }

  /** Deleting twice is deleting once. */
  lemma DeleteIdempotent(roles: Roles, name: string)
    ensures DeleteRole(DeleteRole(roles, name), name) == DeleteRole(roles, name)
  {
  }

  /** The entry at which the bulk operations stop: every entry before it is
      acceptable and it is not. */
  predicate FirstRejected(entries: seq<Entry>, k: int) {
    && 0 <= k < |entries|
    && Acceptable(entries[..k])
    && (PhpEmpty(entries[k].name) || "label" !in entries[k].properties)
  }

  function SetRejection(e: Entry): Error {
    if PhpEmpty(e.name) then EmptyRoleName else MissingLabel
  }

  lemma AcceptableShift(entries: seq<Entry>)
    requires |entries| > 0
    ensures Acceptable(entries) <==>
              !PhpEmpty(entries[0].name) && "label" in entries[0].properties && Acceptable(entries[1..])
    ensures forall k | 0 < k <= |entries| :: entries[1..][..k - 1] == entries[..k][1..]
  {
    assert forall i | 0 < i < |entries| :: entries[i] == entries[1..][i - 1];
  }

  /** setRoles() finishes exactly when every entry is acceptable; otherwise
      it reports the first bad entry and keeps what came before it. */
  lemma {:induction false} SetRolesOutcome(roles: Roles, entries: seq<Entry>)
    ensures SetRoles(roles, entries).Completed() <==> Acceptable(entries)
    ensures !SetRoles(roles, entries).Completed() ==>
              exists k | FirstRejected(entries, k) ::
                && SetRoles(roles, entries).error == Some(SetRejection(entries[k]))
                && SetRoles(roles, entries).state == SetRoles(roles, entries[..k]).state
    decreases |entries|
  {
    if |entries| > 0 {
      AcceptableShift(entries);
      var e := entries[0];
      if PhpEmpty(e.name) || "label" !in e.properties {
        assert SetRoles(roles, entries) == Partial(roles, Some(SetRejection(e)));
        assert entries[..0] == [];
        assert FirstRejected(entries, 0);
      } else {
        var next := SetRole(roles, e.name, e.properties).value;
        assert SetRoles(roles, entries) == SetRoles(next, entries[1..]);
        SetRolesOutcome(next, entries[1..]);
        if !SetRoles(next, entries[1..]).Completed() {
          var k :| FirstRejected(entries[1..], k)
                  && SetRoles(next, entries[1..]).error == Some(SetRejection(entries[1..][k]))
                  && SetRoles(next, entries[1..]).state == SetRoles(next, entries[1..][..k]).state;
          assert entries[..k + 1][0] == e;
          assert entries[..k + 1][1..] == entries[1..][..k];
          assert FirstRejected(entries, k + 1);
        }
      }
    }
  }

  /** setRoles() only touches the names it is given. */
  lemma {:induction false} SetRolesFrame(roles: Roles, entries: seq<Entry>)
    ensures SetRoles(roles, entries).state.Keys <= roles.Keys + Names(entries)
    ensures roles.Keys <= SetRoles(roles, entries).state.Keys
    ensures forall n | n in roles && n !in Names(entries) :: SetRoles(roles, entries).state[n] == roles[n]
    decreases |entries|
  {
    if |entries| > 0 {
      var e := entries[0];
      if !PhpEmpty(e.name) && "label" in e.properties {
        SetRolesFrame(SetRole(roles, e.name, e.properties).value, entries[1..]);
      }
    }
  }

  /** A finished setRoles() adds exactly the names it is given. */
  lemma SetRolesKeys(roles: Roles, entries: seq<Entry>)
    requires SetRoles(roles, entries).Completed()
    ensures Acceptable(entries)
    ensures SetRoles(roles, entries).state.Keys == roles.Keys + Names(entries)
  {
    SetRolesOutcome(roles, entries);
    SetRolesFrame(roles, entries);
    SetRolesCovers(roles, entries);
  }

  lemma {:induction false} SetRolesCovers(roles: Roles, entries: seq<Entry>)
    requires SetRoles(roles, entries).Completed()
    ensures Names(entries) <= SetRoles(roles, entries).state.Keys
    decreases |entries|
  {
    if |entries| > 0 {
      var e := entries[0];
      var next := SetRole(roles, e.name, e.properties).value;
      SetRolesCovers(next, entries[1..]);
      SetRolesFrame(next, entries[1..]);
    }
  }

  /** A finished setRoles() with distinct names stores each entry. */
  lemma {:induction false} SetRolesStores(roles: Roles, entries: seq<Entry>)
    requires SetRoles(roles, entries).Completed() && DistinctNames(entries)
    ensures Acceptable(entries)
    ensures Names(entries) <= SetRoles(roles, entries).state.Keys
    ensures forall i | 0 <= i < |entries| ::
              SetRoles(roles, entries).state[entries[i].name] == Normalize(entries[i].properties)
    decreases |entries|
  {
    SetRolesKeys(roles, entries);
    if |entries| > 0 {
      var e, rest := entries[0], entries[1..];
      var next := SetRole(roles, e.name, e.properties).value;
      var st := SetRoles(roles, entries).state;
      assert st == SetRoles(next, rest).state;
      assert DistinctNames(rest) by {
        forall i, j | 0 <= i < j < |rest| ensures rest[i].name != rest[j].name {
          assert rest[i] == entries[i + 1] && rest[j] == entries[j + 1];
        }
      }
      SetRolesStores(next, rest);
      HeadStored(next, rest, e.name, Normalize(e.properties)) by {
        forall i | 0 <= i < |rest| ensures rest[i].name != e.name {
          assert rest[i] == entries[i + 1];
        }
      }
      forall i | 0 < i < |entries|
        ensures st[entries[i].name] == Normalize(entries[i].properties)
      {
        assert entries[i] == rest[i - 1];
      }
    }
  }

  /** A name setRoles() is not given keeps its role. */
  lemma HeadStored(roles: Roles, entries: seq<Entry>, name: string, d: DefaultRole)
    requires name in roles && roles[name] == d
    requires forall i | 0 <= i < |entries| :: entries[i].name != name
    ensures name in SetRoles(roles, entries).state && SetRoles(roles, entries).state[name] == d
  {
    SetRolesFrame(roles, entries);
  }

  /** addRoles() finishes exactly when every entry is acceptable, the names
      are distinct and none is taken, and then it ends where setRoles()
      does. */
  lemma {:induction false} AddRolesAgreesWithSetRoles(roles: Roles, entries: seq<Entry>)
    ensures AddRoles(roles, entries).Completed() <==>
              Acceptable(entries) && DistinctNames(entries) && Names(entries) !! roles.Keys
    ensures AddRoles(roles, entries).Completed() ==> AddRoles(roles, entries).state == SetRoles(roles, entries).state
    decreases |entries|
  {
    if |entries| > 0 {
      AcceptableShift(entries);
      var e := entries[0];
      assert forall i | 0 < i < |entries| :: entries[i] == entries[1..][i - 1];
      if !(e.name in roles) && !PhpEmpty(e.name) && "label" in e.properties {
        var next := SetRole(roles, e.name, e.properties).value;
        AddRolesAgreesWithSetRoles(next, entries[1..]);
        assert DistinctNames(entries) <==> DistinctNames(entries[1..]) && e.name !in Names(entries[1..]);
      } else {
        assert e.name in roles ==> e.name in Names(entries);
      }
    }
  }

  /** Two bulk additions in a row are one over the joined entries. */
  lemma {:induction false} AddRolesAppend(roles: Roles, first: seq<Entry>, second: seq<Entry>)
    requires AddRoles(roles, first).Completed()
    ensures AddRoles(roles, first + second) == AddRoles(AddRoles(roles, first).state, second)
    decreases |first|
  {
    if |first| > 0 {
      assert AddRole(roles, first[0].name, first[0].properties).Ok?;
      assert (first + second)[0] == first[0];
      assert (first + second)[1..] == first[1..] + second;
      AddRolesAppend(AddRole(roles, first[0].name, first[0].properties).value, first[1..], second);
    } else {
      assert first + second == second;
    }
  }
}
