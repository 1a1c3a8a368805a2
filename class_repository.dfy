/** The class repository: a class row plus four dependent collections
    (role permissions, property values, text attributes, reference
    attributes), each kept in its own store. */
module SchemeService {
  import opened Domain
  import opened Collect
  import opened Transforms
  import opened Persistence

  // ---------------------------------------------------------------------------
  // Keys and owners of the attribute rows.

  /** TextAttributeToIdEntry(id): a text attribute of class `id` is keyed by (id, attribute id). */
  function TextKey(id: ClassId): string -> TextAttributeId
  {
    a => TextAttributeId(id, a)
  }

  /** ReferenceAttributeToIdEntry(id). */
  function ReferenceKey(id: ClassId): string -> ReferenceAttributeId
  {
    a => ReferenceAttributeId(id, a)
  }

  /** The text attribute rows of class `id` (TextAttributesByClassId). */
  function TextAttributesByClass(id: ClassId): TextAttributeId -> bool
  {
    (k: TextAttributeId) => k.domainId == id
  }

  /** The reference attribute rows of class `id` (ReferenceAttributesByClassId). */
  function ReferenceAttributesByClass(id: ClassId): ReferenceAttributeId -> bool
  {
    (k: ReferenceAttributeId) => k.domainId == id
  }

  function TextAttributeClass(k: TextAttributeId): ClassId
  {
    k.domainId
  }

  function ReferenceAttributeClass(k: ReferenceAttributeId): ClassId
  {
    k.domainId
  }

  // ---------------------------------------------------------------------------
  // The rows a class gives each store.

  function Permissions(id: ClassId, cls: Class): map<ObjectRolePermission<ClassId>, GrantedPermission>
  {
    PermissionModel(id, cls.permissions)
  }

  ghost function Properties(id: ClassId, cls: Class): map<ValueId<ClassId>, LangValue>
  {
    IndexedValues(id, cls.properties)
  }

  function TextAttributes(id: ClassId, attributes: seq<TextAttribute>): map<TextAttributeId, TextAttribute>
  {
    AttributeMap(attributes, TextKey(id))
  }

  function ReferenceAttributes(id: ClassId, attributes: seq<ReferenceAttribute>)
    : map<ReferenceAttributeId, ReferenceAttribute>
  {
    AttributeMap(attributes, ReferenceKey(id))
  }

  /** Every row derived for class `id` belongs to `id`. */
  lemma DerivedOwned(id: ClassId, cls: Class, text: seq<TextAttribute>, refs: seq<ReferenceAttribute>)
    ensures forall k | k in Permissions(id, cls) :: k.objectId == id
    ensures forall k | k in Properties(id, cls) :: k.subject == id
    ensures forall k | k in TextAttributes(id, text) :: k.domainId == id
    ensures forall k | k in ReferenceAttributes(id, refs) :: k.domainId == id
  {
    forall k | k in Permissions(id, cls) ensures k.objectId == id {
      PermissionKeys(id, cls.permissions, k);
    }
    forall k | k in Properties(id, cls) ensures k.subject == id {
      IndexedKeys(id, cls.properties, k);
    }
    forall k | k in TextAttributes(id, text) ensures k.domainId == id {
      AttributeMapAt(text, TextKey(id), k);
    }
    forall k | k in ReferenceAttributes(id, refs) ensures k.domainId == id {
      AttributeMapAt(refs, ReferenceKey(id), k);
    }
  }

  // The rows of every class of a bulk insert, by class id.

  function AllPermissions(m: map<ClassId, Class>): ClassId -> map<ObjectRolePermission<ClassId>, GrantedPermission>
  {
    id => if id in m then Permissions(id, m[id]) else map[]
  }

  ghost function AllProperties(m: map<ClassId, Class>): ClassId -> map<ValueId<ClassId>, LangValue>
  {
    id => if id in m then Properties(id, m[id]) else map[]
  }

  function AllTextAttributes(m: map<ClassId, Class>): ClassId -> map<TextAttributeId, TextAttribute>
  {
    id => if id in m then TextAttributes(id, WithIndices(m[id].textAttributes)) else map[]
  }

  function AllReferenceAttributes(m: map<ClassId, Class>): ClassId -> map<ReferenceAttributeId, ReferenceAttribute>
  {
    id => if id in m then ReferenceAttributes(id, WithIndices(m[id].referenceAttributes)) else map[]
  }

  lemma AllOwned(m: map<ClassId, Class>)
    ensures OwnedBy(PermissionObject, AllPermissions(m))
    ensures OwnedBy(PropertySubject, AllProperties(m))
    ensures OwnedBy(TextAttributeClass, AllTextAttributes(m))
    ensures OwnedBy(ReferenceAttributeClass, AllReferenceAttributes(m))
  {
    forall id | id in m {
      DerivedOwned(id, m[id], WithIndices(m[id].textAttributes), WithIndices(m[id].referenceAttributes));
    }
  }

  /** Each store holds the dependent rows of every class of `m` in `done`
      and, for the keys of other classes, the rows it held before (`p0` .. `r0`). */
  ghost predicate BulkInserted(m: map<ClassId, Class>, done: set<ClassId>,
                               p: map<ObjectRolePermission<ClassId>, GrantedPermission>,
                               v: map<ValueId<ClassId>, LangValue>,
                               t: map<TextAttributeId, TextAttribute>,
                               r: map<ReferenceAttributeId, ReferenceAttribute>,
                               p0: map<ObjectRolePermission<ClassId>, GrantedPermission>,
                               v0: map<ValueId<ClassId>, LangValue>,
                               t0: map<TextAttributeId, TextAttribute>,
                               r0: map<ReferenceAttributeId, ReferenceAttribute>)
  {
    InsertedFor(p, p0, done, PermissionObject, AllPermissions(m)) &&
    InsertedFor(v, v0, done, PropertySubject, AllProperties(m)) &&
    InsertedFor(t, t0, done, TextAttributeClass, AllTextAttributes(m)) &&
    InsertedFor(r, r0, done, ReferenceAttributeClass, AllReferenceAttributes(m))
  }

  /** The state of insert(map)'s loop: the classes not in `todo` have had
      their dependent rows inserted, once each, in the order `order`, and one
      round of dependent inserts per class has reached the journal. */
  ghost predicate InsertLoop(m: map<ClassId, Class>, todo: set<ClassId>, order: seq<ClassId>,
                             p: map<ObjectRolePermission<ClassId>, GrantedPermission>,
                             v: map<ValueId<ClassId>, LangValue>,
                             t: map<TextAttributeId, TextAttribute>,
                             r: map<ReferenceAttributeId, ReferenceAttribute>,
                             calls: seq<Call>,
                             p0: map<ObjectRolePermission<ClassId>, GrantedPermission>,
                             v0: map<ValueId<ClassId>, LangValue>,
                             t0: map<TextAttributeId, TextAttribute>,
                             r0: map<ReferenceAttributeId, ReferenceAttribute>,
                             c0: seq<Call>)
  {
    todo <= m.Keys && Owners(order) == m.Keys - todo && |order| == |Owners(order)| &&
    InsertLoopRows(m, order, p, v, t, r, p0, v0, t0, r0) &&
    calls == c0 + Repeat(DependentInserts, |order|)
  }

  /** The stores after the dependent rows of the classes of `order` were
      inserted, class after class, over `p0` .. `r0`. */
  ghost predicate InsertLoopRows(m: map<ClassId, Class>, order: seq<ClassId>,
                                 p: map<ObjectRolePermission<ClassId>, GrantedPermission>,
                                 v: map<ValueId<ClassId>, LangValue>,
                                 t: map<TextAttributeId, TextAttribute>,
                                 r: map<ReferenceAttributeId, ReferenceAttribute>,
                                 p0: map<ObjectRolePermission<ClassId>, GrantedPermission>,
                                 v0: map<ValueId<ClassId>, LangValue>,
                                 t0: map<TextAttributeId, TextAttribute>,
                                 r0: map<ReferenceAttributeId, ReferenceAttribute>)
  {
    p == InsertedInOrder(p0, AllPermissions(m), order) &&
    v == InsertedInOrder(v0, AllProperties(m), order) &&
    t == InsertedInOrder(t0, AllTextAttributes(m), order) &&
    r == InsertedInOrder(r0, AllReferenceAttributes(m), order)
  }

  lemma InsertLoopRowsStep(m: map<ClassId, Class>, id: ClassId, order: seq<ClassId>,
                           p: map<ObjectRolePermission<ClassId>, GrantedPermission>,
                           v: map<ValueId<ClassId>, LangValue>,
                           t: map<TextAttributeId, TextAttribute>,
                           r: map<ReferenceAttributeId, ReferenceAttribute>,
                           p0: map<ObjectRolePermission<ClassId>, GrantedPermission>,
                           v0: map<ValueId<ClassId>, LangValue>,
                           t0: map<TextAttributeId, TextAttribute>,
                           r0: map<ReferenceAttributeId, ReferenceAttribute>)
    requires InsertLoopRows(m, order, p, v, t, r, p0, v0, t0, r0)
    ensures InsertLoopRows(m, order + [id],
                           Inserted(p, AllPermissions(m)(id)), Inserted(v, AllProperties(m)(id)),
                           Inserted(t, AllTextAttributes(m)(id)), Inserted(r, AllReferenceAttributes(m)(id)),
                           p0, v0, t0, r0)
  {
    InsertedInOrderStep(p0, AllPermissions(m), order, id);
    InsertedInOrderStep(v0, AllProperties(m), order, id);
    InsertedInOrderStep(t0, AllTextAttributes(m), order, id);
    InsertedInOrderStep(r0, AllReferenceAttributes(m), order, id);
  }

  /** One more class: its dependent rows inserted after the others', and
      one more round of dependent inserts in the journal. */
  lemma InsertLoopStep(m: map<ClassId, Class>, id: ClassId, todo: set<ClassId>, order: seq<ClassId>,
                       p: map<ObjectRolePermission<ClassId>, GrantedPermission>,
                       v: map<ValueId<ClassId>, LangValue>,
                       t: map<TextAttributeId, TextAttribute>,
                       r: map<ReferenceAttributeId, ReferenceAttribute>,
                       calls: seq<Call>,
                       p0: map<ObjectRolePermission<ClassId>, GrantedPermission>,
                       v0: map<ValueId<ClassId>, LangValue>,
                       t0: map<TextAttributeId, TextAttribute>,
                       r0: map<ReferenceAttributeId, ReferenceAttribute>,
                       c0: seq<Call>)
    requires id in todo && InsertLoop(m, todo, order, p, v, t, r, calls, p0, v0, t0, r0, c0)
    ensures InsertLoop(m, todo - {id}, order + [id],
                       Inserted(p, AllPermissions(m)(id)), Inserted(v, AllProperties(m)(id)),
                       Inserted(t, AllTextAttributes(m)(id)), Inserted(r, AllReferenceAttributes(m)(id)),
                       calls + DependentInserts, p0, v0, t0, r0, c0)
  {
    InsertLoopRowsStep(m, id, order, p, v, t, r, p0, v0, t0, r0);
    JournalStep(c0, calls, |order|);
    OwnersLoopStep(m.Keys, todo, order, id);
  }

  lemma JournalStep(c0: seq<Call>, calls: seq<Call>, n: nat)
    requires calls == c0 + Repeat(DependentInserts, n)
    ensures calls + DependentInserts == c0 + Repeat(DependentInserts, n + 1)
  {
    RepeatOneMore(DependentInserts, n);
    AppendAssociates(c0, Repeat(DependentInserts, n), DependentInserts);
  }

  lemma OwnersLoopStep<O>(all: set<O>, todo: set<O>, order: seq<O>, o: O)
    requires o in todo && todo <= all && Owners(order) == all - todo && |order| == |Owners(order)|
    ensures todo - {o} <= all && Owners(order + [o]) == all - (todo - {o}) && |order + [o]| == |Owners(order + [o])|
  {
    OwnersStep(order, o);
    assert o !in Owners(order);
  }

  /** When no class is left, every class's rows are in place and the journal
      holds one round of dependent inserts per class. */
  lemma InsertLoopDone(m: map<ClassId, Class>, order: seq<ClassId>,
                       p: map<ObjectRolePermission<ClassId>, GrantedPermission>,
                       v: map<ValueId<ClassId>, LangValue>,
                       t: map<TextAttributeId, TextAttribute>,
                       r: map<ReferenceAttributeId, ReferenceAttribute>,
                       calls: seq<Call>,
                       p0: map<ObjectRolePermission<ClassId>, GrantedPermission>,
                       v0: map<ValueId<ClassId>, LangValue>,
                       t0: map<TextAttributeId, TextAttribute>,
                       r0: map<ReferenceAttributeId, ReferenceAttribute>,
                       c0: seq<Call>)
    requires InsertLoop(m, {}, order, p, v, t, r, calls, p0, v0, t0, r0, c0)
    ensures BulkInserted(m, m.Keys, p, v, t, r, p0, v0, t0, r0)
    ensures calls == c0 + Repeat(DependentInserts, |m.Keys|)
  {
    assert m.Keys - {} == m.Keys;
    AllOwned(m);
    InsertedInOrderFor(p0, PermissionObject, AllPermissions(m), order);
    InsertedInOrderFor(v0, PropertySubject, AllProperties(m), order);
    InsertedInOrderFor(t0, TextAttributeClass, AllTextAttributes(m), order);
    InsertedInOrderFor(r0, ReferenceAttributeClass, AllReferenceAttributes(m), order);
  }

  /** The write calls that insert one class's dependent rows, in order. */
  const DependentInserts: seq<Call> :=
    [Call(ClassPermissionStore, InsertOp), Call(ClassPropertyStore, InsertOp),
     Call(TextAttributeStore, InsertOp), Call(ReferenceAttributeStore, InsertOp)]

  /** `n` copies of `calls`, one after another. */
  function Repeat(calls: seq<Call>, n: nat): seq<Call>
  {
    if n == 0 then [] else Repeat(calls, n - 1) + calls
  }

  lemma RepeatOneMore(calls: seq<Call>, n: nat)
    ensures Repeat(calls, n + 1) == Repeat(calls, n) + calls
  {
  }

  lemma AppendAssociates<T>(a: seq<T>, b: seq<T>, c: seq<T>)
    ensures (a + b) + c == a + (b + c)
  {
  }

  /** Every call of a bulk insert after the class rows writes a dependent store. */
  lemma {:induction false} RepeatDependent(n: nat)
    ensures forall i | 0 <= i < |Repeat(DependentInserts, n)| ::
      IsDependentStore(Repeat(DependentInserts, n)[i].store) && Repeat(DependentInserts, n)[i].op == InsertOp
  {
    if n > 0 {
      RepeatDependent(n - 1);
      var r := Repeat(DependentInserts, n);
      assert r == Repeat(DependentInserts, n - 1) + DependentInserts;
    }
  }

  /** The stores holding rows that depend on a class row. */
  predicate IsDependentStore(store: Store)
  {
    store in {ClassPermissionStore, ClassPropertyStore, TextAttributeStore, ReferenceAttributeStore}
  }

  /** addTextAttrIndices / addRefAttrIndices on a list: the elements are
      indexed in place, then the list is handed on. */
  method IndexedCopy<P>(attributes: seq<Attribute<P>>) returns (r: seq<Attribute<P>>)
    ensures r == WithIndices(attributes)
  {
    var a := new Attribute<P>[|attributes|](i requires 0 <= i < |attributes| => attributes[i]);
    assert a[..] == attributes;
    AddIndices(a);
    r := a[..];
  }

  /** `r` lists the values of `m` in the order of the keys `ks`, which name
      every key of `m` exactly once. */
  ghost predicate ListedBy<K, V>(r: seq<V>, m: map<K, V>, ks: seq<K>)
  {
    |ks| == |r| && Distinct(ks) && (forall k | k in m :: k in ks) &&
    forall i | 0 <= i < |ks| :: ks[i] in m && r[i] == m[ks[i]]
  }

  /** The values of a map, each listed once per key, in no particular order. */
  ghost predicate ListsValues<K(!new), V>(r: seq<V>, m: map<K, V>)
  {
    exists ks: seq<K> :: ListedBy(r, m, ks)
  }

  /** A listing of a map's values has one entry per key and holds exactly the
      map's values. */
  lemma ListsValuesCounts<K(!new), V>(r: seq<V>, m: map<K, V>)
    requires ListsValues(r, m)
    ensures |r| == |m.Keys|
    ensures forall v :: v in r <==> v in m.Values
  {
    var ks :| ListedBy(r, m, ks);
    KeysListed(r, m, ks);
    forall v | v in r ensures v in m.Values {
      var i :| 0 <= i < |r| && r[i] == v;
      assert ks[i] in m;
    }
    forall v | v in m.Values ensures v in r {
      var k :| k in m && m[k] == v;
      var i :| 0 <= i < |ks| && ks[i] == k;
      assert r[i] == v;
    }
  }

  /** Distinct keys that name every key of a map are as many as the map has. */
  lemma KeysListed<K, V>(r: seq<V>, m: map<K, V>, ks: seq<K>)
    requires ListedBy(r, m, ks)
    ensures |r| == |m.Keys|
  {
    var keys := set k | k in ks;
    assert keys <= m.Keys by {
      forall k | k in keys ensures k in m {
        var i :| 0 <= i < |ks| && ks[i] == k;
      }
    }
    assert m.Keys <= keys;
    assert keys == m.Keys;
    DistinctCardinality(ks);
    assert |keys| == |ks|;
  }

  /** The result of a query on a repository: the values of the rows it
      selects, as a list. */
  method ValueList<K(!new), V>(m: map<K, V>) returns (r: seq<V>)
    ensures ListsValues(r, m)
  {
    r := [];
    var todo := m.Keys;
    ghost var ks: seq<K> := [];
    while todo != {}
      invariant todo <= m.Keys
      invariant |ks| == |r| && Distinct(ks)
      invariant forall i | 0 <= i < |ks| :: ks[i] in m && ks[i] !in todo && r[i] == m[ks[i]]
      invariant forall k | k in m && k !in todo :: k in ks
      decreases todo
    {
      var k :| k in todo;
      r := r + [m[k]];
      ks := ks + [k];
      todo := todo - {k};
    }
    assert ListedBy(r, m, ks);
  }

  // ---------------------------------------------------------------------------
  // The repository.

  class ClassRepository {
    const classes: Dao<ClassId, Class>
    const permissions: Dao<ObjectRolePermission<ClassId>, GrantedPermission>
    const properties: Dao<ValueId<ClassId>, LangValue>
    const textAttributes: Dao<TextAttributeId, TextAttribute>
    const referenceAttributes: Dao<ReferenceAttributeId, ReferenceAttribute>
    const journal: Journal

    /** Each store is the table it is named for and records its calls in the journal. */
    ghost predicate Valid()
    {
      classes.store == ClassStore && classes.journal == journal &&
      permissions.store == ClassPermissionStore && permissions.journal == journal &&
      properties.store == ClassPropertyStore && properties.journal == journal &&
      textAttributes.store == TextAttributeStore && textAttributes.journal == journal &&
      referenceAttributes.store == ReferenceAttributeStore && referenceAttributes.journal == journal &&
      classes as object != permissions && classes as object != properties &&
      classes as object != textAttributes && classes as object != referenceAttributes &&
      permissions as object != properties && permissions as object != textAttributes &&
      permissions as object != referenceAttributes && properties as object != textAttributes &&
      properties as object != referenceAttributes && textAttributes as object != referenceAttributes
    }

    constructor (classes: Dao<ClassId, Class>,
                 permissions: Dao<ObjectRolePermission<ClassId>, GrantedPermission>,
                 properties: Dao<ValueId<ClassId>, LangValue>,
                 textAttributes: Dao<TextAttributeId, TextAttribute>,
                 referenceAttributes: Dao<ReferenceAttributeId, ReferenceAttribute>,
                 journal: Journal)
      requires classes.store == ClassStore && classes.journal == journal
      requires permissions.store == ClassPermissionStore && permissions.journal == journal
      requires properties.store == ClassPropertyStore && properties.journal == journal
      requires textAttributes.store == TextAttributeStore && textAttributes.journal == journal
      requires referenceAttributes.store == ReferenceAttributeStore && referenceAttributes.journal == journal
      ensures Valid()
      ensures this.classes == classes && this.permissions == permissions && this.properties == properties
      ensures this.textAttributes == textAttributes && this.referenceAttributes == referenceAttributes
      ensures this.journal == journal
    {
      this.classes := classes;
      this.permissions := permissions;
      this.properties := properties;
      this.textAttributes := textAttributes;
      this.referenceAttributes := referenceAttributes;
      this.journal := journal;
    }

    /** insertPermissions, insertProperties, insertTextAttributes and
        insertReferenceAttributes for one class, in that order. */
    method InsertDependents(id: ClassId, cls: Class)
      requires Valid()
      modifies permissions, properties, textAttributes, referenceAttributes, journal
      ensures permissions.rows == Inserted(old(permissions.rows), Permissions(id, cls))
      ensures properties.rows == Inserted(old(properties.rows), Properties(id, cls))
      ensures textAttributes.rows == Inserted(old(textAttributes.rows), TextAttributes(id, WithIndices(cls.textAttributes)))
      ensures referenceAttributes.rows ==
        Inserted(old(referenceAttributes.rows), ReferenceAttributes(id, WithIndices(cls.referenceAttributes)))
      ensures journal.calls == old(journal.calls) + DependentInserts
    {
      permissions.Insert(PermissionModel(id, cls.permissions));
      var values := DtoToModel(id, cls.properties);
      properties.Insert(values);
      var text := IndexedCopy(cls.textAttributes);
      textAttributes.Insert(AttributeMap(text, TextKey(id)));
      var refs := IndexedCopy(cls.referenceAttributes);
      referenceAttributes.Insert(AttributeMap(refs, ReferenceKey(id)));
    }

    /** insert(id, cls): the class row first, then its dependent rows. */
    method Insert(id: ClassId, cls: Class)
      requires Valid()
      modifies classes, permissions, properties, textAttributes, referenceAttributes, journal
      ensures classes.rows == Inserted(old(classes.rows), map[id := cls])
      ensures permissions.rows == Inserted(old(permissions.rows), Permissions(id, cls))
      ensures properties.rows == Inserted(old(properties.rows), Properties(id, cls))
      ensures textAttributes.rows == Inserted(old(textAttributes.rows), TextAttributes(id, WithIndices(cls.textAttributes)))
      ensures referenceAttributes.rows ==
        Inserted(old(referenceAttributes.rows), ReferenceAttributes(id, WithIndices(cls.referenceAttributes)))
      ensures journal.calls == old(journal.calls) + [Call(ClassStore, InsertOp)] + DependentInserts
    {
      classes.Insert(map[id := cls]);
      InsertDependents(id, cls);
    }

    /** insert(map): every class row first, then the dependent rows class by
        class; each class's rows land in the stores whatever the order. */
    method InsertAll(m: map<ClassId, Class>)
      requires Valid()
      modifies classes, permissions, properties, textAttributes, referenceAttributes, journal
      ensures classes.rows == Inserted(old(classes.rows), m)
      ensures BulkInserted(m, m.Keys, permissions.rows, properties.rows, textAttributes.rows, referenceAttributes.rows,
                           old(permissions.rows), old(properties.rows), old(textAttributes.rows), old(referenceAttributes.rows))
      ensures journal.calls == old(journal.calls) + [Call(ClassStore, InsertOp)] + Repeat(DependentInserts, |m.Keys|)
    {
      classes.Insert(m);
      InsertEachDependents(m);
    }

    /** The loop of insert(map): the dependent rows of each class in turn. */
    method InsertEachDependents(m: map<ClassId, Class>)
      requires Valid()
      modifies permissions, properties, textAttributes, referenceAttributes, journal
      ensures BulkInserted(m, m.Keys, permissions.rows, properties.rows, textAttributes.rows, referenceAttributes.rows,
                           old(permissions.rows), old(properties.rows), old(textAttributes.rows), old(referenceAttributes.rows))
      ensures journal.calls == old(journal.calls) + Repeat(DependentInserts, |m.Keys|)
    {
      ghost var p0, v0, t0, r0, c0 :=
        permissions.rows, properties.rows, textAttributes.rows, referenceAttributes.rows, journal.calls;
      var todo := m.Keys;
      ghost var order: seq<ClassId> := [];
      while todo != {}
        invariant InsertLoop(m, todo, order, permissions.rows, properties.rows, textAttributes.rows,
                             referenceAttributes.rows, journal.calls, p0, v0, t0, r0, c0)
        decreases todo
      {
        var id :| id in todo;
        InsertNext(m, id, todo, order, p0, v0, t0, r0, c0);
        todo := todo - {id};
        order := order + [id];
      }
      InsertLoopDone(m, order, permissions.rows, properties.rows, textAttributes.rows, referenceAttributes.rows,
                     journal.calls, p0, v0, t0, r0, c0);
    }

    /** One round of the bulk insert's loop: the dependent rows of class `id`
        are inserted after those of the classes listed in `order`. */
    method InsertNext(m: map<ClassId, Class>, id: ClassId, ghost todo: set<ClassId>, ghost order: seq<ClassId>,
                      ghost p0: map<ObjectRolePermission<ClassId>, GrantedPermission>,
                      ghost v0: map<ValueId<ClassId>, LangValue>,
                      ghost t0: map<TextAttributeId, TextAttribute>,
                      ghost r0: map<ReferenceAttributeId, ReferenceAttribute>,
                      ghost c0: seq<Call>)
      requires Valid() && id in todo
      requires InsertLoop(m, todo, order, permissions.rows, properties.rows, textAttributes.rows,
                          referenceAttributes.rows, journal.calls, p0, v0, t0, r0, c0)
      modifies permissions, properties, textAttributes, referenceAttributes, journal
      ensures InsertLoop(m, todo - {id}, order + [id], permissions.rows, properties.rows, textAttributes.rows,
                         referenceAttributes.rows, journal.calls, p0, v0, t0, r0, c0)
    {
      InsertLoopStep(m, id, todo, order, permissions.rows, properties.rows, textAttributes.rows,
                     referenceAttributes.rows, journal.calls, p0, v0, t0, r0, c0);
      InsertDependents(id, m[id]);
      assert AllPermissions(m)(id) == Permissions(id, m[id]);
      assert AllProperties(m)(id) == Properties(id, m[id]);
      assert AllTextAttributes(m)(id) == TextAttributes(id, WithIndices(m[id].textAttributes));
      assert AllReferenceAttributes(m)(id) == ReferenceAttributes(id, WithIndices(m[id].referenceAttributes));
    }

    /** update(id, newClass, oldClass): the class row, then each dependent
        collection by the difference of the rows derived from the new class
        against those derived from the old one the caller supplies. */
    method Update(id: ClassId, newClass: Class, oldClass: Class)
      requires Valid()
      modifies classes, permissions, properties, textAttributes, referenceAttributes, journal
      ensures classes.rows == Updated(old(classes.rows), map[id := newClass])
      ensures permissions.rows ==
        ApplyKeys(old(permissions.rows), KeyDifference(Permissions(id, newClass), Permissions(id, oldClass)))
      ensures properties.rows ==
        Apply(old(properties.rows), Difference(Properties(id, newClass), Properties(id, oldClass)))
      ensures textAttributes.rows ==
        Apply(old(textAttributes.rows), Difference(TextAttributes(id, WithIndices(newClass.textAttributes)),
                                                   TextAttributes(id, oldClass.textAttributes)))
      ensures referenceAttributes.rows ==
        Apply(old(referenceAttributes.rows), Difference(ReferenceAttributes(id, WithIndices(newClass.referenceAttributes)),
                                                        ReferenceAttributes(id, oldClass.referenceAttributes)))
      ensures journal.calls == old(journal.calls) + [Call(ClassStore, UpdateOp)] +
        [Call(ClassPermissionStore, InsertOp), Call(ClassPermissionStore, DeleteOp)] +
        [Call(ClassPropertyStore, InsertOp), Call(ClassPropertyStore, UpdateOp), Call(ClassPropertyStore, DeleteOp)] +
        [Call(TextAttributeStore, InsertOp), Call(TextAttributeStore, UpdateOp), Call(TextAttributeStore, DeleteOp)] +
        [Call(ReferenceAttributeStore, InsertOp), Call(ReferenceAttributeStore, UpdateOp),
         Call(ReferenceAttributeStore, DeleteOp)]
    {
      classes.Update(map[id := newClass]);
      ghost var classRows := classes.rows;
      UpdatePermissions(id, newClass, oldClass);
      ghost var permissionRows := permissions.rows;
      assert classes.rows == classRows;
      UpdateProperties(id, newClass, oldClass);
      ghost var propertyRows := properties.rows;
      assert classes.rows == classRows && permissions.rows == permissionRows;
      UpdateTextAttributes(id, newClass, oldClass);
      ghost var textRows := textAttributes.rows;
      assert classes.rows == classRows && permissions.rows == permissionRows && properties.rows == propertyRows;
      UpdateReferenceAttributes(id, newClass, oldClass);
      assert classes.rows == classRows && permissions.rows == permissionRows && properties.rows == propertyRows;
      assert textAttributes.rows == textRows;
    }

    /** updatePermissions: granted rows only on the new side are inserted,
        those only on the old side deleted. */
    method UpdatePermissions(id: ClassId, newClass: Class, oldClass: Class)
      requires Valid()
      modifies permissions, journal
      ensures permissions.rows ==
        ApplyKeys(old(permissions.rows), KeyDifference(Permissions(id, newClass), Permissions(id, oldClass)))
      ensures journal.calls == old(journal.calls) +
        [Call(ClassPermissionStore, InsertOp), Call(ClassPermissionStore, DeleteOp)]
    {
      var diff := KeyDifference(PermissionModel(id, newClass.permissions), PermissionModel(id, oldClass.permissions));
      permissions.WriteKeyDifference(diff);
    }

    /** updateProperties: insert, update and delete by the difference. */
    method UpdateProperties(id: ClassId, newClass: Class, oldClass: Class)
      requires Valid()
      modifies properties, journal
      ensures properties.rows ==
        Apply(old(properties.rows), Difference(Properties(id, newClass), Properties(id, oldClass)))
      ensures journal.calls == old(journal.calls) +
        [Call(ClassPropertyStore, InsertOp), Call(ClassPropertyStore, UpdateOp), Call(ClassPropertyStore, DeleteOp)]
    {
      var newProperties := DtoToModel(id, newClass.properties);
      var oldProperties := DtoToModel(id, oldClass.properties);
      properties.WriteDifference(Difference(newProperties, oldProperties));
    }

    /** updateTextAttributes: the new list is indexed, then both lists keyed
        by attribute id and reconciled by their difference. */
    method UpdateTextAttributes(id: ClassId, newClass: Class, oldClass: Class)
      requires Valid()
      modifies textAttributes, journal
      ensures textAttributes.rows ==
        Apply(old(textAttributes.rows), Difference(TextAttributes(id, WithIndices(newClass.textAttributes)),
                                                   TextAttributes(id, oldClass.textAttributes)))
      ensures journal.calls == old(journal.calls) +
        [Call(TextAttributeStore, InsertOp), Call(TextAttributeStore, UpdateOp), Call(TextAttributeStore, DeleteOp)]
    {
      var newText := IndexedCopy(newClass.textAttributes);
      textAttributes.WriteDifference(Difference(AttributeMap(newText, TextKey(id)),
                                                AttributeMap(oldClass.textAttributes, TextKey(id))));
    }

    /** updateReferenceAttributes: as for text attributes. */
    method UpdateReferenceAttributes(id: ClassId, newClass: Class, oldClass: Class)
      requires Valid()
      modifies referenceAttributes, journal
      ensures referenceAttributes.rows ==
        Apply(old(referenceAttributes.rows), Difference(ReferenceAttributes(id, WithIndices(newClass.referenceAttributes)),
                                                        ReferenceAttributes(id, oldClass.referenceAttributes)))
      ensures journal.calls == old(journal.calls) +
        [Call(ReferenceAttributeStore, InsertOp), Call(ReferenceAttributeStore, UpdateOp),
         Call(ReferenceAttributeStore, DeleteOp)]
    {
      var newRefs := IndexedCopy(newClass.referenceAttributes);
      referenceAttributes.WriteDifference(Difference(AttributeMap(newRefs, ReferenceKey(id)),
                                                     AttributeMap(oldClass.referenceAttributes, ReferenceKey(id))));
    }

    /** delete(id, cls): the four dependent collections derived from `cls`,
        then the class row. */
    method Delete(id: ClassId, cls: Class)
      requires Valid()
      modifies classes, permissions, properties, textAttributes, referenceAttributes, journal
      ensures permissions.rows == Deleted(old(permissions.rows), Permissions(id, cls).Keys)
      ensures properties.rows == Deleted(old(properties.rows), Properties(id, cls).Keys)
      ensures textAttributes.rows == Deleted(old(textAttributes.rows), TextAttributes(id, cls.textAttributes).Keys)
      ensures referenceAttributes.rows ==
        Deleted(old(referenceAttributes.rows), ReferenceAttributes(id, cls.referenceAttributes).Keys)
      ensures classes.rows == Deleted(old(classes.rows), {id})
      ensures journal.calls == old(journal.calls) +
        [Call(ClassPermissionStore, DeleteOp), Call(ClassPropertyStore, DeleteOp),
         Call(TextAttributeStore, DeleteOp), Call(ReferenceAttributeStore, DeleteOp), Call(ClassStore, DeleteOp)]
    {
      permissions.Delete(PermissionModel(id, cls.permissions).Keys);
      var values := DtoToModel(id, cls.properties);
      properties.Delete(values.Keys);
      textAttributes.Delete(AttributeMap(cls.textAttributes, TextKey(id)).Keys);
      referenceAttributes.Delete(AttributeMap(cls.referenceAttributes, ReferenceKey(id)).Keys);
      classes.Delete({id});
    }

    /** delete(id): loads the class and deletes it; a missing class fails
        with NoSuchElement before anything is written. */
    method DeleteById(id: ClassId) returns (r: Result<()>, ghost loaded: Class)
      requires Valid()
      modifies classes, permissions, properties, textAttributes, referenceAttributes, journal
      ensures id !in old(classes.rows) ==> r == Err(NoSuchElement)
      ensures id !in old(classes.rows) ==>
        classes.rows == old(classes.rows) && permissions.rows == old(permissions.rows) &&
        properties.rows == old(properties.rows) && textAttributes.rows == old(textAttributes.rows) &&
        referenceAttributes.rows == old(referenceAttributes.rows) && journal.calls == old(journal.calls)
      ensures id in old(classes.rows) ==> r == Ok(()) && old(Populated(loaded, classes.rows[id]))
      ensures id in old(classes.rows) ==>
        classes.rows == Deleted(old(classes.rows), {id}) &&
        permissions.rows == Deleted(old(permissions.rows), Permissions(id, loaded).Keys) &&
        properties.rows == Deleted(old(properties.rows), Properties(id, loaded).Keys) &&
        textAttributes.rows == Deleted(old(textAttributes.rows), TextAttributes(id, loaded.textAttributes).Keys) &&
        referenceAttributes.rows ==
          Deleted(old(referenceAttributes.rows), ReferenceAttributes(id, loaded.referenceAttributes).Keys)
      ensures id in old(classes.rows) && ClassIdOf(old(classes.rows)[id]) == id ==>
        Slice(permissions.rows, PermissionsByObject(id)) == map[]
      ensures forall k: ObjectRolePermission<ClassId> | k.objectId != id ::
        (k in permissions.rows <==> k in old(permissions.rows))
      ensures forall k: ValueId<ClassId> | k.subject != id ::
        (k in properties.rows <==> k in old(properties.rows))
      ensures forall k: TextAttributeId | k.domainId != id ::
        (k in textAttributes.rows <==> k in old(textAttributes.rows))
      ensures forall k: ReferenceAttributeId | k.domainId != id ::
        (k in referenceAttributes.rows <==> k in old(referenceAttributes.rows))
    {
      var found := Get(id);
      if found.None? {
        r, loaded := Err(NoSuchElement), Class(id.schemeId, id.id, map[], map[], [], []);
        return;
      }
      loaded := found.value;
      ghost var before := permissions.rows;
      if ClassIdOf(classes.rows[id]) == id {
        PermissionModelOfDto(id, Slice(before, PermissionsByObject(id)));
        Drain(before, PermissionsByObject(id));
      }
      DerivedOwned(id, loaded, loaded.textAttributes, loaded.referenceAttributes);
      Delete(id, found.value);
      r := Ok(());
    }
    /** exists(id): forwarded to the class store. */
    method Exists(id: ClassId) returns (b: bool)
      requires Valid()
      ensures b <==> id in classes.rows
    {
      b := classes.Exists(id);
    }

    method Get(id: ClassId) returns (r: Option<Class>)
      requires Valid()
      ensures r.None? <==> id !in classes.rows
      ensures r.Some? ==> Populated(r.value, classes.rows[id])
    {
      var row := classes.Get(id);
      if row.None? {
        return None;
      }
      var cls := PopulateValue(row.value);
      return Some(cls);
    }

    /** `r` is `cls` with the dependent collections stored for its class id. */
    ghost predicate Populated(r: Class, cls: Class)
      reads permissions, properties, textAttributes, referenceAttributes
    {
      var cid := ClassIdOf(cls);
      r.schemeId == cls.schemeId && r.id == cls.id &&
      r.permissions == PermissionDto(Slice(permissions.rows, PermissionsByObject(cid))) &&
      r.properties == ValuesDto(Slice(properties.rows, PropertiesBySubject(cid)), cid) &&
      ListsValues(r.textAttributes, Slice(textAttributes.rows, TextAttributesByClass(cid))) &&
      ListsValues(r.referenceAttributes, Slice(referenceAttributes.rows, ReferenceAttributesByClass(cid)))
    }

    /** populateValue(cls): a copy of `cls` with its permissions, properties
        and attributes loaded for its own class id; nothing is written. */
    method PopulateValue(cls: Class) returns (r: Class)
      requires Valid()
      ensures Populated(r, cls)
    {
      var cid := ClassId(cls.schemeId, cls.id);
      var permissionRows := permissions.GetMap(PermissionsByObject(cid));
      var propertyRows := properties.GetMap(PropertiesBySubject(cid));
      var text := ValueList(Slice(textAttributes.rows, TextAttributesByClass(cid)));
      var refs := ValueList(Slice(referenceAttributes.rows, ReferenceAttributesByClass(cid)));
      r := cls.(permissions := PermissionDto(permissionRows),
                properties := ValuesDto(propertyRows, cid),
                textAttributes := text,
                referenceAttributes := refs);
    }
  }

  // ---------------------------------------------------------------------------
  // Properties of the repository's writes.

  /** Permissions read back from an object's granted rows give those rows again. */
  lemma PermissionModelOfDto<K>(id: K, rows: map<ObjectRolePermission<K>, GrantedPermission>)
    requires forall k | k in rows :: k.objectId == id
    ensures PermissionModel(id, PermissionDto(rows)) == rows
  {
    var dto := PermissionDto(rows);
    var l := PermissionModel(id, dto);
    forall k ensures k in l <==> k in rows {
      PermissionKeys(id, dto, k);
      if k in rows {
        assert k.role in RolesOf(rows);
        assert dto[k.role] == PermissionsOf(rows, k.role);
        assert k.permission in PermissionsOf(rows, k.role);
      }
      if k in l {
        assert k.role in RolesOf(rows);
        assert k.permission in PermissionsOf(rows, k.role);
        var k' :| k' in rows && k'.role == k.role && k'.permission == k.permission;
        assert k'.objectId == id == k.objectId;
        assert k' == k;
      }
    }
    forall k | k in l ensures l[k] == rows[k] {
      assert l[k] == Granted && rows[k] == Granted;
    }
  }

  /** updatePermissions against an old class that matches the store: the
      class's granted rows become the new class's, and every other object's
      rows stay. */
  lemma UpdatePermissionsReconciles(id: ClassId, newClass: Class, oldClass: Class,
                                    rows: map<ObjectRolePermission<ClassId>, GrantedPermission>)
    requires Slice(rows, PermissionsByObject(id)) == Permissions(id, oldClass)
    ensures var after := ApplyKeys(rows, KeyDifference(Permissions(id, newClass), Permissions(id, oldClass)));
      Slice(after, PermissionsByObject(id)) == Permissions(id, newClass) &&
      forall k: ObjectRolePermission<ClassId> | k.objectId != id :: (k in after <==> k in rows)
  {
    DerivedOwned(id, newClass, [], []);
    DerivedOwned(id, oldClass, [], []);
    KeysSuffice(rows, Permissions(id, newClass), Permissions(id, oldClass));
    Reconcile(rows, PermissionsByObject(id), Permissions(id, newClass), Permissions(id, oldClass));
    ApplyKeepsOthers(rows, PermissionsByObject(id), Permissions(id, newClass), Permissions(id, oldClass));
  }

  /** updateProperties against an old class that matches the store. */
  lemma UpdatePropertiesReconciles(id: ClassId, newClass: Class, oldClass: Class,
                                   rows: map<ValueId<ClassId>, LangValue>)
    requires Slice(rows, PropertiesBySubject(id)) == Properties(id, oldClass)
    ensures var after := Apply(rows, Difference(Properties(id, newClass), Properties(id, oldClass)));
      Slice(after, PropertiesBySubject(id)) == Properties(id, newClass) &&
      forall k: ValueId<ClassId> | k.subject != id && k in rows :: k in after && after[k] == rows[k]
  {
    DerivedOwned(id, newClass, [], []);
    DerivedOwned(id, oldClass, [], []);
    Reconcile(rows, PropertiesBySubject(id), Properties(id, newClass), Properties(id, oldClass));
    ApplyKeepsOthers(rows, PropertiesBySubject(id), Properties(id, newClass), Properties(id, oldClass));
  }

  /** updateTextAttributes against an old class that matches the store: the
      new list, indexed, becomes the class's text attribute rows. */
  lemma UpdateTextAttributesReconciles(id: ClassId, newClass: Class, oldClass: Class,
                                       rows: map<TextAttributeId, TextAttribute>)
    requires Slice(rows, TextAttributesByClass(id)) == TextAttributes(id, oldClass.textAttributes)
    ensures var desired := TextAttributes(id, WithIndices(newClass.textAttributes));
      var after := Apply(rows, Difference(desired, TextAttributes(id, oldClass.textAttributes)));
      Slice(after, TextAttributesByClass(id)) == desired &&
      forall k: TextAttributeId | k.domainId != id && k in rows :: k in after && after[k] == rows[k]
  {
    var desired := TextAttributes(id, WithIndices(newClass.textAttributes));
    var current := TextAttributes(id, oldClass.textAttributes);
    DerivedOwned(id, newClass, WithIndices(newClass.textAttributes), []);
    DerivedOwned(id, oldClass, oldClass.textAttributes, []);
    Reconcile(rows, TextAttributesByClass(id), desired, current);
    ApplyKeepsOthers(rows, TextAttributesByClass(id), desired, current);
  }

  /** updateReferenceAttributes against an old class that matches the store. */
  lemma UpdateReferenceAttributesReconciles(id: ClassId, newClass: Class, oldClass: Class,
                                            rows: map<ReferenceAttributeId, ReferenceAttribute>)
    requires Slice(rows, ReferenceAttributesByClass(id)) == ReferenceAttributes(id, oldClass.referenceAttributes)
    ensures var desired := ReferenceAttributes(id, WithIndices(newClass.referenceAttributes));
      var after := Apply(rows, Difference(desired, ReferenceAttributes(id, oldClass.referenceAttributes)));
      Slice(after, ReferenceAttributesByClass(id)) == desired &&
      forall k: ReferenceAttributeId | k.domainId != id && k in rows :: k in after && after[k] == rows[k]
  {
    var desired := ReferenceAttributes(id, WithIndices(newClass.referenceAttributes));
    var current := ReferenceAttributes(id, oldClass.referenceAttributes);
    DerivedOwned(id, newClass, [], WithIndices(newClass.referenceAttributes));
    DerivedOwned(id, oldClass, [], oldClass.referenceAttributes);
    Reconcile(rows, ReferenceAttributesByClass(id), desired, current);
    ApplyKeepsOthers(rows, ReferenceAttributesByClass(id), desired, current);
  }

  /** When the caller's old class is what the stores hold for `id`, update
      leaves each of the four dependent stores holding, for `id`, exactly the
      rows derived from the new class, and keeps every other class's rows. */
  lemma UpdateReconciles(id: ClassId, newClass: Class, oldClass: Class,
                         permissionRows: map<ObjectRolePermission<ClassId>, GrantedPermission>,
                         propertyRows: map<ValueId<ClassId>, LangValue>,
                         textRows: map<TextAttributeId, TextAttribute>,
                         referenceRows: map<ReferenceAttributeId, ReferenceAttribute>)
    requires Slice(permissionRows, PermissionsByObject(id)) == Permissions(id, oldClass)
    requires Slice(propertyRows, PropertiesBySubject(id)) == Properties(id, oldClass)
    requires Slice(textRows, TextAttributesByClass(id)) == TextAttributes(id, oldClass.textAttributes)
    requires Slice(referenceRows, ReferenceAttributesByClass(id)) == ReferenceAttributes(id, oldClass.referenceAttributes)
    ensures var after := ApplyKeys(permissionRows, KeyDifference(Permissions(id, newClass), Permissions(id, oldClass)));
      Slice(after, PermissionsByObject(id)) == Permissions(id, newClass) &&
      forall k: ObjectRolePermission<ClassId> | k.objectId != id :: (k in after <==> k in permissionRows)
    ensures var after := Apply(propertyRows, Difference(Properties(id, newClass), Properties(id, oldClass)));
      Slice(after, PropertiesBySubject(id)) == Properties(id, newClass) &&
      forall k: ValueId<ClassId> | k.subject != id && k in propertyRows :: k in after && after[k] == propertyRows[k]
    ensures var desired := TextAttributes(id, WithIndices(newClass.textAttributes));
      var after := Apply(textRows, Difference(desired, TextAttributes(id, oldClass.textAttributes)));
      Slice(after, TextAttributesByClass(id)) == desired &&
      forall k: TextAttributeId | k.domainId != id && k in textRows :: k in after && after[k] == textRows[k]
    ensures var desired := ReferenceAttributes(id, WithIndices(newClass.referenceAttributes));
      var after := Apply(referenceRows, Difference(desired, ReferenceAttributes(id, oldClass.referenceAttributes)));
      Slice(after, ReferenceAttributesByClass(id)) == desired &&
      forall k: ReferenceAttributeId | k.domainId != id && k in referenceRows :: k in after && after[k] == referenceRows[k]
  {
    UpdatePermissionsReconciles(id, newClass, oldClass, permissionRows);
    UpdatePropertiesReconciles(id, newClass, oldClass, propertyRows);
    UpdateTextAttributesReconciles(id, newClass, oldClass, textRows);
    UpdateReferenceAttributesReconciles(id, newClass, oldClass, referenceRows);
  }

  /** The caller's old class is trusted: when the store holds a permission
      the old class does not list, updating to a class without it leaves the
      row in place. */
  lemma StaleOldKeepsRows(id: ClassId, cls: Class, role: string)
    requires cls.permissions == map[]
    ensures var rows := map[ObjectRolePermission(id, role, READ) := Granted];
      var after := ApplyKeys(rows, KeyDifference(Permissions(id, cls), Permissions(id, cls)));
      Slice(after, PermissionsByObject(id)) != Permissions(id, cls)
  {
    var key := ObjectRolePermission(id, role, READ);
    var rows := map[key := Granted];
    PermissionKeys(id, cls.permissions, key);
    var d := KeyDifference(Permissions(id, cls), Permissions(id, cls));
    assert key in ApplyKeys(rows, d);
    assert key in Slice(ApplyKeys(rows, d), PermissionsByObject(id));
  }

  /** A class inserted where nothing was stored for its id reads back with
      its permissions, and its property values de-duplicated. */
  lemma InsertThenPopulate(id: ClassId, cls: Class,
                           permissionRows: map<ObjectRolePermission<ClassId>, GrantedPermission>,
                           propertyRows: map<ValueId<ClassId>, LangValue>)
    requires Slice(permissionRows, PermissionsByObject(id)) == map[]
    requires Slice(propertyRows, PropertiesBySubject(id)) == map[]
    ensures PermissionDto(Slice(Inserted(permissionRows, Permissions(id, cls)), PermissionsByObject(id)))
         == NonEmptyPermissions(cls.permissions)
    ensures ValuesDto(Slice(Inserted(propertyRows, Properties(id, cls)), PropertiesBySubject(id)), id)
         == NonEmptyValues(DedupeAll(cls.properties))
  {
    DerivedOwned(id, cls, [], []);
    SliceInserted(permissionRows, PermissionsByObject(id), Permissions(id, cls));
    SliceInserted(propertyRows, PropertiesBySubject(id), Properties(id, cls));
    PermissionRoundTrip(id, cls.permissions);
    ValuesRoundTrip(id, cls.properties);
  }

  /** When the stores hold exactly the rows derived from `cls`, delete(id, cls)
      leaves nothing of the class in any of the four dependent stores, and
      keeps every other class's rows. */
  lemma DeleteDrains(id: ClassId, cls: Class,
                     permissionRows: map<ObjectRolePermission<ClassId>, GrantedPermission>,
                     propertyRows: map<ValueId<ClassId>, LangValue>,
                     textRows: map<TextAttributeId, TextAttribute>,
                     referenceRows: map<ReferenceAttributeId, ReferenceAttribute>)
    requires Slice(permissionRows, PermissionsByObject(id)) == Permissions(id, cls)
    requires Slice(propertyRows, PropertiesBySubject(id)) == Properties(id, cls)
    requires Slice(textRows, TextAttributesByClass(id)) == TextAttributes(id, cls.textAttributes)
    requires Slice(referenceRows, ReferenceAttributesByClass(id)) == ReferenceAttributes(id, cls.referenceAttributes)
    ensures Slice(Deleted(permissionRows, Permissions(id, cls).Keys), PermissionsByObject(id)) == map[]
    ensures Slice(Deleted(propertyRows, Properties(id, cls).Keys), PropertiesBySubject(id)) == map[]
    ensures Slice(Deleted(textRows, TextAttributes(id, cls.textAttributes).Keys), TextAttributesByClass(id)) == map[]
    ensures Slice(Deleted(referenceRows, ReferenceAttributes(id, cls.referenceAttributes).Keys),
                  ReferenceAttributesByClass(id)) == map[]
    ensures forall k: ObjectRolePermission<ClassId> | k.objectId != id ::
      (k in Deleted(permissionRows, Permissions(id, cls).Keys) <==> k in permissionRows)
    ensures forall k: ValueId<ClassId> | k.subject != id ::
      (k in Deleted(propertyRows, Properties(id, cls).Keys) <==> k in propertyRows)
    ensures forall k: TextAttributeId | k.domainId != id ::
      (k in Deleted(textRows, TextAttributes(id, cls.textAttributes).Keys) <==> k in textRows)
    ensures forall k: ReferenceAttributeId | k.domainId != id ::
      (k in Deleted(referenceRows, ReferenceAttributes(id, cls.referenceAttributes).Keys) <==> k in referenceRows)
  {
    Drain(permissionRows, PermissionsByObject(id));
    Drain(propertyRows, PropertiesBySubject(id));
    Drain(textRows, TextAttributesByClass(id));
    Drain(referenceRows, ReferenceAttributesByClass(id));
  }
}
