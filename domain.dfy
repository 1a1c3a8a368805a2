/** The value types of the entity store: identifiers, nodes, classes, graphs,
    permissions, and the Java conventions they follow (null checks that throw,
    componentwise equality, 32-bit hash codes). */
module Domain {

  datatype Option<T> = None | Some(value: T)

  /** The exceptions the modelled code can throw. */
  datatype Error =
    | NullPointer(message: string)   // Preconditions.checkNotNull
    | NullDereference                // a method called on a null reference
    | IllegalArgument                // Preconditions.checkArgument
    | NoSuchElement                  // Optional.get on an empty value

  datatype Result<T> = Ok(value: T) | Err(error: Error)

  /** A UUID, identified with its canonical textual form. */
  datatype Uuid = Uuid(text: string)

  datatype GraphId = GraphId(id: Uuid)

  datatype TypeId = TypeId(id: string, graph: GraphId)

  /** A node's identity: its own UUID and the type it belongs to. */
  datatype NodeId = NodeId(id: Uuid, nodeType: TypeId)

  /** The parts of a node this model reads: its identity and its references,
      a multimap from attribute id to referenced node ids (an absent key is
      an empty collection). */
  datatype Node = Node(id: Uuid, typeId: string, typeGraphId: Uuid, references: map<string, seq<NodeId>>)

  datatype Permission = READ | INSERT | UPDATE | DELETE

  /** The value stored for a granted permission and for a graph role: there is
      nothing in it. */
  datatype GrantedPermission = Granted
  datatype Empty = Empty

  /** A permission `permission` granted to `role` on the object `objectId`. */
  datatype ObjectRolePermission<K> = ObjectRolePermission(objectId: K, role: string, permission: Permission)

  datatype ClassId = ClassId(schemeId: Uuid, id: string)

  datatype TextAttributeId = TextAttributeId(domainId: ClassId, id: string)

  datatype ReferenceAttributeId = ReferenceAttributeId(domainId: ClassId, id: string)

  datatype GraphRole = GraphRole(graph: GraphId, role: string)

  datatype LangValue = LangValue(lang: string, value: string)

  /** The key of the `index`-th value of attribute `attribute` of `subject`:
      a property value id when the subject is a class or graph, a resource
      attribute value id when it is a resource. */
  datatype ValueId<S> = ValueId(subject: S, attribute: string, index: int)

  /** A text or reference attribute of a class. `payload` stands for what the
      attribute carries besides its id and position (a text attribute's regex,
      a reference attribute's range); `index` is null until set. */
  datatype Attribute<P> = Attribute(id: string, payload: P, index: Option<int>)

  type TextAttribute = Attribute<string>

  type ReferenceAttribute = Attribute<ClassId>

  /** A class with its dependent collections: permissions and properties as
      multimaps, attributes as lists. */
  datatype Class = Class(
    schemeId: Uuid,
    id: string,
    permissions: map<string, set<Permission>>,
    properties: map<string, seq<LangValue>>,
    textAttributes: seq<TextAttribute>,
    referenceAttributes: seq<ReferenceAttribute>)

  /** A graph with its roles, role permissions and properties. */
  datatype Graph = Graph(
    id: GraphId,
    roles: set<string>,
    permissions: map<string, set<Permission>>,
    properties: map<string, seq<LangValue>>)

  function ClassIdOf(cls: Class): ClassId
  {
    ClassId(cls.schemeId, cls.id)
  }

  // ---------------------------------------------------------------------------
  // NodeId

  const NodeIdClass := "class fi.thl.termed.domain.NodeId"

  /** new NodeId(id, type): both must be non-null; the id is checked first. */
  function NewNodeId(id: Option<Uuid>, nodeType: Option<TypeId>): (r: Result<NodeId>)
    ensures r.Ok? <==> id.Some? && nodeType.Some?
    ensures r.Ok? ==> r.value.id == id.value && r.value.nodeType == nodeType.value
    ensures id.None? ==> r == Err(NullPointer("id can't be null in " + NodeIdClass))
    ensures id.Some? && nodeType.None? ==> r == Err(NullPointer("type can't be null in " + NodeIdClass))
  {
    match (id, nodeType)
    case (None, _) => Err(NullPointer("id can't be null in " + NodeIdClass))
    case (_, None) => Err(NullPointer("type can't be null in " + NodeIdClass))
    case (Some(i), Some(t)) => Ok(NodeId(i, t))
  }

  /** new NodeId(id, typeId, graphId): builds the type from its two parts. */
  function NewNodeIdOfParts(id: Option<Uuid>, typeId: string, graphId: Uuid): Result<NodeId>
  {
    NewNodeId(id, Some(TypeId(typeId, GraphId(graphId))))
  }

  /** new NodeId(node). */
  function NodeIdOfNode(node: Node): (r: NodeId)
    ensures NewNodeIdOfParts(Some(node.id), node.typeId, node.typeGraphId) == Ok(r)
    ensures r.id == node.id && TypeIdOf(r) == node.typeId && TypeGraphIdOf(r) == node.typeGraphId
  {
    NewNodeIdOfParts(Some(node.id), node.typeId, node.typeGraphId).value
  }

  /** getTypeId(): the type's own id. */
  function TypeIdOf(n: NodeId): string
  {
    n.nodeType.id
  }

  /** getTypeGraphId(): the id of the graph the type belongs to. */
  function TypeGraphIdOf(n: NodeId): Uuid
  {
    n.nodeType.graph.id
  }

  /** The getters read back what the three-part constructor was given. */
  lemma NodeIdProjections(id: Uuid, typeId: string, graphId: Uuid)
    ensures NewNodeIdOfParts(Some(id), typeId, graphId).Ok?
    ensures var n := NewNodeIdOfParts(Some(id), typeId, graphId).value;
      n.id == id && TypeIdOf(n) == typeId && TypeGraphIdOf(n) == graphId
  {
  }

  /** NodeId.equals: equal exactly when both the id and the type are equal. */
  lemma NodeIdEquality(a: NodeId, b: NodeId)
    ensures a == b <==> a.id == b.id && a.nodeType == b.nodeType
  {
  }

  // ---------------------------------------------------------------------------
  // ObjectRolePermission

  const ObjectRolePermissionClass := "class fi.thl.termed.domain.ObjectRolePermission"

  /** new ObjectRolePermission(objectId, role, permission): all three must be
      non-null, checked in that order; the getters return the arguments. */
  function NewObjectRolePermission<K>(objectId: Option<K>, role: Option<string>, permission: Option<Permission>)
    : (r: Result<ObjectRolePermission<K>>)
    ensures r.Ok? <==> objectId.Some? && role.Some? && permission.Some?
    ensures r.Ok? ==>
      r.value.objectId == objectId.value && r.value.role == role.value && r.value.permission == permission.value
    ensures objectId.None? ==> r == Err(NullPointer("objectId can't be null in " + ObjectRolePermissionClass))
    ensures objectId.Some? && role.None? ==>
      r == Err(NullPointer("role can't be null in " + ObjectRolePermissionClass))
    ensures objectId.Some? && role.Some? && permission.None? ==>
      r == Err(NullPointer("permission can't be null in " + ObjectRolePermissionClass))
  {
    match (objectId, role, permission)
    case (None, _, _) => Err(NullPointer("objectId can't be null in " + ObjectRolePermissionClass))
    case (_, None, _) => Err(NullPointer("role can't be null in " + ObjectRolePermissionClass))
    case (_, _, None) => Err(NullPointer("permission can't be null in " + ObjectRolePermissionClass))
    case (Some(o), Some(r), Some(p)) => Ok(ObjectRolePermission(o, r, p))
  }

  /** ObjectRolePermission.equals: equal exactly when object, role and permission are. */
  lemma ObjectRolePermissionEquality<K>(a: ObjectRolePermission<K>, b: ObjectRolePermission<K>)
    ensures a == b <==> a.objectId == b.objectId && a.role == b.role && a.permission == b.permission
  {
  }

  // ---------------------------------------------------------------------------
  // Java hash codes: 32-bit two's complement arithmetic.

  type Int32 = x: int | -0x8000_0000 <= x < 0x8000_0000

  /** The 32-bit wrap-around of an integer, as Java's int arithmetic does it. */
  function Wrap(x: int): (r: Int32)
    ensures (x - r) % 0x1_0000_0000 == 0
    ensures -0x8000_0000 <= x < 0x8000_0000 ==> r == x
  {
    (x + 0x8000_0000) % 0x1_0000_0000 - 0x8000_0000
  }

  /** Arrays.hashCode over element hash codes: start at 1, then 31 * h + e for
      each element, wrapping at every step. */
  function ArraysHash(hs: seq<Int32>): Int32
  {
    if hs == [] then 1 else Wrap(31 * ArraysHash(hs[..|hs| - 1]) + hs[|hs| - 1])
  }

  /** java.util.Objects.hashCode: 0 for null. */
  function NullableHash<T>(x: Option<T>, hash: T -> Int32): Int32
  {
    if x.None? then 0 else hash(x.value)
  }

  /** NodeId.hashCode: Objects.hash(type, id); the component hash codes are
      those of TypeId and UUID. */
  function NodeIdHash(n: NodeId, typeHash: TypeId -> Int32, uuidHash: Uuid -> Int32): Int32
  {
    ArraysHash([typeHash(n.nodeType), uuidHash(n.id)])
  }

  /** ObjectRolePermission.hashCode: Guava's Objects.hashCode(objectId, role, permission). */
  function ObjectRolePermissionHash<K>(p: ObjectRolePermission<K>, keyHash: K -> Int32,
                                       stringHash: string -> Int32, permissionHash: Permission -> Int32): Int32
  {
    ArraysHash([keyHash(p.objectId), stringHash(p.role), permissionHash(p.permission)])
  }

  /** Two-element hash, written out: 31 * (31 + a) + b, wrapped. */
  lemma {:induction false} ArraysHashPair(a: Int32, b: Int32)
    ensures ArraysHash([a, b]) == Wrap(31 * Wrap(31 + a) + b)
  {
    assert [a, b][..1] == [a];
    assert [a][..0] == [];
    assert ArraysHash([a]) == Wrap(31 + a);
  }

  /** Equal NodeIds have equal hash codes, whatever the component hash codes. */
  lemma NodeIdHashConsistent(a: NodeId, b: NodeId, typeHash: TypeId -> Int32, uuidHash: Uuid -> Int32)
    requires a.id == b.id && a.nodeType == b.nodeType
    ensures NodeIdHash(a, typeHash, uuidHash) == NodeIdHash(b, typeHash, uuidHash)
  {
  }

  /** Equal ObjectRolePermissions have equal hash codes. */
  lemma ObjectRolePermissionHashConsistent<K>(a: ObjectRolePermission<K>, b: ObjectRolePermission<K>,
                                              keyHash: K -> Int32, stringHash: string -> Int32,
                                              permissionHash: Permission -> Int32)
    requires a.objectId == b.objectId && a.role == b.role && a.permission == b.permission
    ensures ObjectRolePermissionHash(a, keyHash, stringHash, permissionHash)
         == ObjectRolePermissionHash(b, keyHash, stringHash, permissionHash)
  {
  }
}
