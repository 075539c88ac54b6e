/** OgGroupAudienceHelper: checking an audience field's cardinality and
    finding the audience field through which a content entity can reference
    a group of a given type and bundle. */
module OgGroupAudienceHelper {
  import opened Outcomes
  import opened Lists

  /** FieldStorageDefinitionInterface::CARDINALITY_UNLIMITED. */
  const CARDINALITY_UNLIMITED: int := -1

  /** A field of a content entity: `audience` is Og::isGroupAudienceField();
      `cardinality` comes from the field storage; `count` is the number of
      items the entity holds in the field; `targetType` and `targetBundles`
      are the target_type setting and the handler's target_bundles (empty
      when none are configured). */
  datatype Field = Field(name: string, audience: bool, cardinality: int, count: nat,
                         targetType: string, targetBundles: seq<string>)

  datatype ContentEntity = ContentEntity(entityType: string, bundle: string, fields: seq<Field>)

  /** Field names are keys of the entity's field definitions. */
  predicate UniqueNames(fields: seq<Field>) {
    forall i, j | 0 <= i < j < |fields| :: fields[i].name != fields[j].name
  }

  /** getFieldDefinition(): the field with that name. */
  function FindField(fields: seq<Field>, name: string): (r: Option<Field>)
    ensures r.None? <==> forall f | f in fields :: f.name != name
    ensures r.Some? ==> r.value in fields && r.value.name == name
  {
    if |fields| == 0 then None
    else if fields[0].name == name then Some(fields[0])
    else FindField(fields[1..], name)
  }

  /** The field may take another item: its cardinality is unlimited or above
      the number of items it holds. */
  predicate HasRoom(f: Field) {
    f.cardinality == CARDINALITY_UNLIMITED || f.count < f.cardinality
  }

  /** OgGroupAudienceHelper::checkFieldCardinality(). */
  function CheckFieldCardinality(e: ContentEntity, name: string): (r: Result<bool>)
    ensures r == Err(NoSuchField) <==> forall f | f in e.fields :: f.name != name
    ensures r == Err(NotAudienceField) <==> FindField(e.fields, name).Some? && !FindField(e.fields, name).value.audience
    ensures r.Ok? ==> FindField(e.fields, name).Some? && FindField(e.fields, name).value.audience
    ensures r.Ok? ==> (r.value <==> HasRoom(FindField(e.fields, name).value))
  {
    match FindField(e.fields, name)
    case None => Err(NoSuchField)
    case Some(f) =>
      if !f.audience then Err(NotAudienceField)
      else if f.cardinality == CARDINALITY_UNLIMITED then Ok(true)
      else Ok(f.count < f.cardinality)
  }

  /** Og::getAllGroupAudienceFields() for the entity's bundle, in order. */
  function AudienceFields(e: ContentEntity): (r: seq<Field>)
    ensures forall f | f in r :: f in e.fields && f.audience
    ensures forall f | f in e.fields && f.audience :: f in r
  {
    Filter(e.fields, (f: Field) => f.audience)
  }

  /** A field getMatchingField() accepts: it targets the group type, its
      target bundles are unrestricted or include the bundle, it has room for
      another item, and, when access is checked, the user may view it. */
  predicate Accepts(f: Field, groupType: string, groupBundle: string, checkAccess: bool, viewable: set<string>) {
    && f.targetType == groupType
    && (|f.targetBundles| == 0 || groupBundle in f.targetBundles)
    && HasRoom(f)
    && (!checkAccess || f.name in viewable)
  }

  /** With unique names, the field found by name is the field itself. */
  lemma FindsItself(fields: seq<Field>, f: Field)
    requires UniqueNames(fields) && f in fields
    ensures FindField(fields, f.name) == Some(f)
    decreases |fields|
  {
    if fields[0] != f {
      assert fields[0].name != f.name;
      assert f in fields[1..];
      assert UniqueNames(fields[1..]);
      FindsItself(fields[1..], f);
    }
  }

  /** `fields` are audience fields of the entity, whose names are unique. */
  predicate OwnAudienceFields(e: ContentEntity, fields: seq<Field>) {
    UniqueNames(e.fields) && forall f | f in fields :: f in e.fields && f.audience
  }

  /** The loop of getMatchingField() over `fields`, asking
      checkFieldCardinality() about each field that passes the target checks. */
  function MatchFrom(e: ContentEntity, fields: seq<Field>, groupType: string, groupBundle: string,
                     checkAccess: bool, viewable: set<string>): (r: Result<Option<string>>)
    ensures r.Err? ==> r.error == NotAudienceField || r.error == NoSuchField
    ensures OwnAudienceFields(e, fields) ==> r.Ok?
    ensures OwnAudienceFields(e, fields) ==>
              (r.value.None? <==> forall k | 0 <= k < |fields| :: !Accepts(fields[k], groupType, groupBundle, checkAccess, viewable))
    ensures OwnAudienceFields(e, fields) && r.Ok? && r.value.Some? ==>
              exists k | 0 <= k < |fields| ::
                && fields[k].name == r.value.value
                && Accepts(fields[k], groupType, groupBundle, checkAccess, viewable)
                && forall k' | 0 <= k' < k :: !Accepts(fields[k'], groupType, groupBundle, checkAccess, viewable)
    decreases |fields|
  {
    if |fields| == 0 then Ok(None)
    else
      var f := fields[0];
      var rest := MatchFrom(e, fields[1..], groupType, groupBundle, checkAccess, viewable);
      FirstMatchShift(fields, groupType, groupBundle, checkAccess, viewable);
      FoundFieldIsItself(e, fields);
      if f.targetType != groupType then rest
      else if |f.targetBundles| > 0 && groupBundle !in f.targetBundles then rest
      else match CheckFieldCardinality(e, f.name)
        case Err(err) => Err(err)
        case Ok(room) =>
          if !room then rest
          else if checkAccess && f.name !in viewable then rest
          else Ok(Some(f.name))
  }

  lemma FoundFieldIsItself(e: ContentEntity, fields: seq<Field>)
    requires |fields| > 0
    ensures OwnAudienceFields(e, fields) ==>
              FindField(e.fields, fields[0].name) == Some(fields[0]) && fields[0].audience && OwnAudienceFields(e, fields[1..])
  {
    if OwnAudienceFields(e, fields) { FindsItself(e.fields, fields[0]); }
  }

  lemma FirstMatchShift(fields: seq<Field>, groupType: string, groupBundle: string, checkAccess: bool,
                        viewable: set<string>)
    requires |fields| > 0
    ensures forall k | 0 < k < |fields| :: fields[k] == fields[1..][k - 1]
  {
  }

  /** OgGroupAudienceHelper::getMatchingField(): the name of the first
      audience field that accepts a group of the given type and bundle, or
      None when there is none. */
  function GetMatchingField(e: ContentEntity, groupType: string, groupBundle: string,
                            checkAccess: bool, viewable: set<string>): (r: Result<Option<string>>)
    ensures AudienceFields(e) == [] ==> r == Ok(None)
    ensures UniqueNames(e.fields) ==> r.Ok?
    ensures UniqueNames(e.fields) ==>
              (r.value.None? <==> forall f | f in AudienceFields(e) :: !Accepts(f, groupType, groupBundle, checkAccess, viewable))
    ensures UniqueNames(e.fields) && r.value.Some? ==>
              exists k | 0 <= k < |AudienceFields(e)| ::
                && AudienceFields(e)[k].name == r.value.value
                && Accepts(AudienceFields(e)[k], groupType, groupBundle, checkAccess, viewable)
                && forall k' | 0 <= k' < k :: !Accepts(AudienceFields(e)[k'], groupType, groupBundle, checkAccess, viewable)
  {
    var fields := AudienceFields(e);
    if fields == [] then Ok(None) else MatchFrom(e, fields, groupType, groupBundle, checkAccess, viewable)
  }

  /** Without the access check the fields the user may view do not matter. */
  lemma {:induction false} MatchIgnoresViewable(e: ContentEntity, fields: seq<Field>, groupType: string,
                                               groupBundle: string, viewable: set<string>, viewable': set<string>)
    ensures MatchFrom(e, fields, groupType, groupBundle, false, viewable)
         == MatchFrom(e, fields, groupType, groupBundle, false, viewable')
    decreases |fields|
  {
    if |fields| > 0 {
      MatchIgnoresViewable(e, fields[1..], groupType, groupBundle, viewable, viewable');
    }
  }

  lemma MatchingFieldIgnoresViewable(e: ContentEntity, groupType: string, groupBundle: string,
                                     viewable: set<string>, viewable': set<string>)
    ensures GetMatchingField(e, groupType, groupBundle, false, viewable)
         == GetMatchingField(e, groupType, groupBundle, false, viewable')
  {
    MatchIgnoresViewable(e, AudienceFields(e), groupType, groupBundle, viewable, viewable');
  }

  /** A full field is passed over in favour of the next one that has room. */
  lemma FullFieldSkipped()
    ensures GetMatchingField(
              ContentEntity("node", "article",
                [Field("og_audience", true, 1, 1, "node", []),
                 Field("other_groups", true, CARDINALITY_UNLIMITED, 3, "node", ["club"])]),
              "node", "club", true, {"og_audience", "other_groups"})
         == Ok(Some("other_groups"))
  {
    var e := ContentEntity("node", "article",
                [Field("og_audience", true, 1, 1, "node", []),
                 Field("other_groups", true, CARDINALITY_UNLIMITED, 3, "node", ["club"])]);
    assert AudienceFields(e) == e.fields;
  }
}
