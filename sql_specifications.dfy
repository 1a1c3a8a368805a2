/** Leaf specifications that can be evaluated both in memory (`test`) and by
    the database (a where-clause template with `?` placeholders and the
    parameters bound to them, in order). */
module SqlSpecifications {
  import opened Domain

  /** A value bound to a placeholder or read from a column. */
  datatype SqlValue = UuidValue(uuid: Uuid) | TextValue(text: string) | IntValue(number: int)

  /** The columns the two specifications compare or read. */
  datatype Column =
    | ClassSchemeIdColumn | ClassIdColumn | PropertyIdColumn | IndexColumn | LangColumn | ValueColumn
    | AttributeSchemeIdColumn | AttributeDomainIdColumn | AttributeIdColumn | RoleColumn | PermissionColumn

  function ColumnName(c: Column): string
  {
    match c
    case ClassSchemeIdColumn => "class_scheme_id"
    case ClassIdColumn => "class_id"
    case PropertyIdColumn => "property_id"
    case IndexColumn => "index"
    case LangColumn => "lang"
    case ValueColumn => "value"
    case AttributeSchemeIdColumn => "reference_attribute_scheme_id"
    case AttributeDomainIdColumn => "reference_attribute_domain_id"
    case AttributeIdColumn => "reference_attribute_id"
    case RoleColumn => "role"
    case PermissionColumn => "permission"
  }

  /** A table row: the value in each column, None for a column the table lacks. */
  type Row = Column -> Option<SqlValue>

  // ---------------------------------------------------------------------------
  // Where clauses of the form `c1 = ? and c2 = ? and ...`

  /** The where clause comparing each column, in order, with a placeholder. */
  function EqualsTemplate(columns: seq<Column>): string
  {
    if |columns| == 0 then ""
    else if |columns| == 1 then ColumnName(columns[0]) + " = ?"
    else ColumnName(columns[0]) + " = ? and " + EqualsTemplate(columns[1..])
  }

  /** The number of `?` placeholders in a template. */
  function Placeholders(s: string): nat
  {
    if s == [] then 0 else (if s[0] == '?' then 1 else 0) + Placeholders(s[1..])
  }

  /** Whether a row satisfies `columns[i] = parameters[i]` for every i. */
  predicate Matches(columns: seq<Column>, parameters: seq<SqlValue>, row: Row)
  {
    |columns| == |parameters| &&
    forall i | 0 <= i < |columns| :: row(columns[i]) == Some(parameters[i])
  }

  lemma {:induction false} PlaceholdersAppend(a: string, b: string)
    ensures Placeholders(a + b) == Placeholders(a) + Placeholders(b)
  {
    if a == [] {
      assert a + b == b;
    } else {
      assert (a + b)[1..] == a[1..] + b;
      PlaceholdersAppend(a[1..], b);
    }
  }

  /** An equality template has exactly one placeholder per column. */
  lemma {:induction false} TemplatePlaceholders(columns: seq<Column>)
    ensures Placeholders(EqualsTemplate(columns)) == |columns|
  {
    if |columns| > 0 {
      var name := ColumnName(columns[0]);
      PlaceholdersWithout(name);
      SeparatorPlaceholders();
      PlaceholdersAppend(name, " = ?");
      if |columns| > 1 {
        PlaceholdersAppend(name, " = ? and ");
        TemplatePlaceholders(columns[1..]);
        PlaceholdersAppend(name + " = ? and ", EqualsTemplate(columns[1..]));
      }
    }
  }

  /** Each column's comparison contributes one placeholder. */
  lemma SeparatorPlaceholders()
    ensures Placeholders(" = ?") == 1
    ensures Placeholders(" = ? and ") == 1
  {
    PlaceholdersAppend(" = ", "?");
    PlaceholdersAppend(" = ?", " and ");
  }

  lemma {:induction false} PlaceholdersWithout(s: string)
    requires '?' !in s
    ensures Placeholders(s) == 0
  {
    if s != [] {
      assert s[0] != '?';
      PlaceholdersWithout(s[1..]);
    }
  }

  // ---------------------------------------------------------------------------
  // ClassPropertiesByClassId

  /** The property values of one class. The constructor does not reject a null
      class id. */
  datatype ClassPropertiesByClassId = ClassPropertiesByClassId(classId: Option<ClassId>)

  const ClassPropertyColumns: seq<Column> := [ClassSchemeIdColumn, ClassIdColumn]

  /** The row of the class property table holding `value` under `key`. */
  function ClassPropertyRow(key: ValueId<ClassId>, value: LangValue): Row
  {
    (column: Column) =>
      match column
      case ClassSchemeIdColumn => Some(UuidValue(key.subject.schemeId))
      case ClassIdColumn => Some(TextValue(key.subject.id))
      case PropertyIdColumn => Some(TextValue(key.attribute))
      case IndexColumn => Some(IntValue(key.index))
      case LangColumn => Some(TextValue(value.lang))
      case ValueColumn => Some(TextValue(value.value))
      case _ => None
  }

  /** test(key, value): the key's subject is the class; the value is not looked at. */
  function ClassPropertiesTest(spec: ClassPropertiesByClassId, key: ValueId<ClassId>, value: LangValue): bool
  {
    spec.classId == Some(key.subject)
  }

  /** sqlQueryTemplate(): a fixed string, the equality template over the two class columns. */
  function ClassPropertiesTemplate(spec: ClassPropertiesByClassId): (r: string)
    ensures r == EqualsTemplate(ClassPropertyColumns)
    ensures Placeholders(r) == 2
  {
    assert ClassPropertyColumns[1..] == [ClassIdColumn];
    TemplatePlaceholders(ClassPropertyColumns);
    "class_scheme_id = ? and class_id = ?"
  }

  /** sqlQueryParameters(): the scheme id then the class id; dereferencing a
      null class id throws. */
  function ClassPropertiesParameters(spec: ClassPropertiesByClassId): (r: Result<seq<SqlValue>>)
    ensures r.Ok? <==> spec.classId.Some?
    ensures r.Err? ==> r.error == NullDereference
    ensures r.Ok? ==> |r.value| == |ClassPropertyColumns|
  {
    match spec.classId
    case None => Err(NullDereference)
    case Some(c) => Ok([UuidValue(c.schemeId), TextValue(c.id)])
  }

  /** The in-memory test and the database query select the same rows: the
      parameters line up with the template's columns. */
  lemma ClassPropertiesSqlAgrees(spec: ClassPropertiesByClassId, key: ValueId<ClassId>, value: LangValue)
    requires spec.classId.Some?
    ensures ClassPropertiesTest(spec, key, value)
        <==> Matches(ClassPropertyColumns, ClassPropertiesParameters(spec).value, ClassPropertyRow(key, value))
  {
    var c := spec.classId.value;
    var ps := ClassPropertiesParameters(spec).value;
    var row := ClassPropertyRow(key, value);
    assert ps == [UuidValue(c.schemeId), TextValue(c.id)];
    assert row(ClassSchemeIdColumn) == Some(UuidValue(key.subject.schemeId));
    assert row(ClassIdColumn) == Some(TextValue(key.subject.id));
    if Matches(ClassPropertyColumns, ps, row) {
      assert row(ClassPropertyColumns[0]) == Some(ps[0]);
      assert row(ClassPropertyColumns[1]) == Some(ps[1]);
    }
  }

  /** test depends on the key's subject alone. */
  lemma ClassPropertiesTestBySubject(spec: ClassPropertiesByClassId, key: ValueId<ClassId>, value: LangValue)
    ensures ClassPropertiesTest(spec, key, value) <==> spec.classId.Some? && key.subject == spec.classId.value
  {
  }

  /** hashCode(): Objects.hashCode(classId), 0 for null. */
  function ClassPropertiesHash(spec: ClassPropertiesByClassId, classIdHash: ClassId -> Int32): Int32
  {
    NullableHash(spec.classId, classIdHash)
  }

  /** equals compares the class ids, and equal specifications hash alike. */
  lemma ClassPropertiesEquality(a: ClassPropertiesByClassId, b: ClassPropertiesByClassId, classIdHash: ClassId -> Int32)
    ensures a == b <==> a.classId == b.classId
    ensures a == b ==> ClassPropertiesHash(a, classIdHash) == ClassPropertiesHash(b, classIdHash)
  {
  }

  // ---------------------------------------------------------------------------
  // ReferenceAttributePermissionsByReferenceAttributeId

  /** The permissions granted on one reference attribute. The constructor does
      not reject a null attribute id. */
  datatype ReferenceAttributePermissionsById = ReferenceAttributePermissionsById(attributeId: Option<ReferenceAttributeId>)

  const ReferenceAttributePermissionColumns: seq<Column> :=
    [AttributeSchemeIdColumn, AttributeDomainIdColumn, AttributeIdColumn]

  /** The row of the reference attribute permission table for `key`. */
  function ReferenceAttributePermissionRow(key: ObjectRolePermission<ReferenceAttributeId>): Row
  {
    (column: Column) =>
      match column
      case AttributeSchemeIdColumn => Some(UuidValue(key.objectId.domainId.schemeId))
      case AttributeDomainIdColumn => Some(TextValue(key.objectId.domainId.id))
      case AttributeIdColumn => Some(TextValue(key.objectId.id))
      case RoleColumn => Some(TextValue(key.role))
      case PermissionColumn => Some(TextValue(PermissionName(key.permission)))
      case _ => None
  }

  function PermissionName(p: Permission): string
  {
    match p
    case READ => "READ"
    case INSERT => "INSERT"
    case UPDATE => "UPDATE"
    case DELETE => "DELETE"
  }

  /** test(key, value): the permission is on the attribute. */
  function ReferenceAttributePermissionsTest(spec: ReferenceAttributePermissionsById,
                                             key: ObjectRolePermission<ReferenceAttributeId>,
                                             value: GrantedPermission): bool
  {
    spec.attributeId == Some(key.objectId)
  }

  /** sqlQueryTemplate(): the equality template over the three attribute columns. */
  function ReferenceAttributePermissionsTemplate(spec: ReferenceAttributePermissionsById): (r: string)
    ensures r == EqualsTemplate(ReferenceAttributePermissionColumns)
    ensures Placeholders(r) == 3
  {
    ReferenceAttributePermissionsTemplateText();
    TemplatePlaceholders(ReferenceAttributePermissionColumns);
    "reference_attribute_scheme_id = ? and " + "reference_attribute_domain_id = ? and " + "reference_attribute_id = ?"
  }

  lemma ReferenceAttributePermissionsTemplateText()
    ensures EqualsTemplate(ReferenceAttributePermissionColumns)
         == "reference_attribute_scheme_id = ? and " + "reference_attribute_domain_id = ? and " + "reference_attribute_id = ?"
  {
    var cs := ReferenceAttributePermissionColumns;
    assert cs[1..] == [AttributeDomainIdColumn, AttributeIdColumn];
    assert cs[1..][1..] == [AttributeIdColumn];
    assert EqualsTemplate([AttributeIdColumn]) == "reference_attribute_id = ?";
    assert "reference_attribute_scheme_id" + " = ? and " == "reference_attribute_scheme_id = ? and ";
    assert "reference_attribute_domain_id" + " = ? and " == "reference_attribute_domain_id = ? and ";
  }

  /** sqlQueryParameters(): the domain's scheme id, the domain id, the
      attribute id; dereferencing a null attribute id throws. */
  function ReferenceAttributePermissionsParameters(spec: ReferenceAttributePermissionsById): (r: Result<seq<SqlValue>>)
    ensures r.Ok? <==> spec.attributeId.Some?
    ensures r.Err? ==> r.error == NullDereference
    ensures r.Ok? ==> |r.value| == |ReferenceAttributePermissionColumns|
  {
    match spec.attributeId
    case None => Err(NullDereference)
    case Some(a) => Ok([UuidValue(a.domainId.schemeId), TextValue(a.domainId.id), TextValue(a.id)])
  }

  /** The in-memory test and the database query select the same rows. */
  lemma ReferenceAttributePermissionsSqlAgrees(spec: ReferenceAttributePermissionsById,
                                               key: ObjectRolePermission<ReferenceAttributeId>,
                                               value: GrantedPermission)
    requires spec.attributeId.Some?
    ensures ReferenceAttributePermissionsTest(spec, key, value)
        <==> Matches(ReferenceAttributePermissionColumns, ReferenceAttributePermissionsParameters(spec).value,
                     ReferenceAttributePermissionRow(key))
  {
    var ps := ReferenceAttributePermissionsParameters(spec).value;
    var row := ReferenceAttributePermissionRow(key);
    var cs := ReferenceAttributePermissionColumns;
    if Matches(cs, ps, row) {
      assert row(cs[0]) == Some(ps[0]);
      assert row(cs[1]) == Some(ps[1]);
      assert row(cs[2]) == Some(ps[2]);
    }
  }

  /** test looks at the object id only, never at role, permission or value. */
  lemma ReferenceAttributePermissionsTestByObject(spec: ReferenceAttributePermissionsById,
                                                  key: ObjectRolePermission<ReferenceAttributeId>,
                                                  value: GrantedPermission)
    ensures ReferenceAttributePermissionsTest(spec, key, value)
        <==> spec.attributeId.Some? && key.objectId == spec.attributeId.value
  {
  }

  /** hashCode(): Objects.hashCode(attributeId), 0 for null. */
  function ReferenceAttributePermissionsHash(spec: ReferenceAttributePermissionsById,
                                             attributeIdHash: ReferenceAttributeId -> Int32): Int32
  {
    NullableHash(spec.attributeId, attributeIdHash)
  }

  /** equals compares the attribute ids, and equal specifications hash alike. */
  lemma ReferenceAttributePermissionsEquality(a: ReferenceAttributePermissionsById, b: ReferenceAttributePermissionsById,
                                              attributeIdHash: ReferenceAttributeId -> Int32)
    ensures a == b <==> a.attributeId == b.attributeId
    ensures a == b ==> ReferenceAttributePermissionsHash(a, attributeIdHash) == ReferenceAttributePermissionsHash(b, attributeIdHash)
  {
  }
}
