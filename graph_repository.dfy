/** The graph repository: a graph row plus three dependent collections
    (roles, role permissions, property values), each kept in its own store.
    Unlike the class repository, its updates diff the new graph against the
    rows the stores hold, not against an old value the caller supplies. */
module GraphService {
  import opened Domain
  import opened Collect
  import opened Transforms
  import opened Persistence

  // ---------------------------------------------------------------------------
  // The rows a graph owns.

  /** GraphRolesByGraphId(id): the role rows of graph `id`. */
  function RolesByGraph(id: GraphId): GraphRole -> bool
  {
    (k: GraphRole) => k.graph == id
  }

  /** GraphRoleDtoToModel(id).apply(roles). */
  function Roles(id: GraphId, graph: Graph): map<GraphRole, Empty>
  {
    RoleModel(id, graph.roles)
  }

  /** RolePermissionsDtoToModel(id, id).apply(permissions). */
  function Permissions(id: GraphId, graph: Graph): map<ObjectRolePermission<GraphId>, GrantedPermission>
  {
    PermissionModel(id, graph.permissions)
  }

  /** PropertyValueDtoToModel(id).apply(properties). */
  ghost function Properties(id: GraphId, graph: Graph): map<ValueId<GraphId>, LangValue>
  {
    IndexedValues(id, graph.properties)
  }

  /** Every row derived for graph `id` is one of its rows. */
  lemma DerivedOwned(id: GraphId, graph: Graph)
    ensures forall k | k in Roles(id, graph) :: k.graph == id
    ensures forall k | k in Permissions(id, graph) :: k.objectId == id
    ensures forall k | k in Properties(id, graph) :: k.subject == id
  {
    forall k | k in Permissions(id, graph) ensures k.objectId == id {
      PermissionKeys(id, graph.permissions, k);
    }
    forall k | k in Properties(id, graph) ensures k.subject == id {
      IndexedKeys(id, graph.properties, k);
    }
  }

  class GraphRepository {
    const graphs: Dao<GraphId, Graph>
    const roles: Dao<GraphRole, Empty>
    const permissions: Dao<ObjectRolePermission<GraphId>, GrantedPermission>
    const properties: Dao<ValueId<GraphId>, LangValue>
    const journal: Journal

    /** Each store is the table it is named for and records its calls in the journal. */
    ghost predicate Valid()
    {
      graphs.store == GraphStore && graphs.journal == journal &&
      roles.store == GraphRoleStore && roles.journal == journal &&
      permissions.store == GraphPermissionStore && permissions.journal == journal &&
      properties.store == GraphPropertyStore && properties.journal == journal &&
      graphs as object != roles && graphs as object != permissions && graphs as object != properties &&
      roles as object != permissions && roles as object != properties && permissions as object != properties
    }

    constructor (graphs: Dao<GraphId, Graph>,
                 roles: Dao<GraphRole, Empty>,
                 permissions: Dao<ObjectRolePermission<GraphId>, GrantedPermission>,
                 properties: Dao<ValueId<GraphId>, LangValue>,
                 journal: Journal)
      requires graphs.store == GraphStore && graphs.journal == journal
      requires roles.store == GraphRoleStore && roles.journal == journal
      requires permissions.store == GraphPermissionStore && permissions.journal == journal
      requires properties.store == GraphPropertyStore && properties.journal == journal
      ensures Valid()
      ensures this.graphs == graphs && this.roles == roles && this.permissions == permissions
      ensures this.properties == properties && this.journal == journal
    {
      this.graphs := graphs;
      this.roles := roles;
      this.permissions := permissions;
      this.properties := properties;
      this.journal := journal;
    }

    /** insert(id, graph): the graph row, then its roles, permissions and
        properties, each as one insert. */
    method Insert(id: GraphId, graph: Graph)
      requires Valid()
      modifies graphs, roles, permissions, properties, journal
      ensures graphs.rows == Inserted(old(graphs.rows), map[id := graph])
      ensures roles.rows == Inserted(old(roles.rows), Roles(id, graph))
      ensures permissions.rows == Inserted(old(permissions.rows), Permissions(id, graph))
      ensures properties.rows == Inserted(old(properties.rows), Properties(id, graph))
      ensures journal.calls == old(journal.calls) +
        [Call(GraphStore, InsertOp), Call(GraphRoleStore, InsertOp),
         Call(GraphPermissionStore, InsertOp), Call(GraphPropertyStore, InsertOp)]
    {
      graphs.Insert(map[id := graph]);
      roles.Insert(RoleModel(id, graph.roles));
      permissions.Insert(PermissionModel(id, graph.permissions));
      var values := DtoToModel(id, graph.properties);
      properties.Insert(values);
    }

    /** update(id, graph): the graph row, then each dependent collection
        brought to the rows derived from `graph` by its difference against
        what the store holds for `id`. */
    method Update(id: GraphId, graph: Graph)
      requires Valid()
      modifies graphs, roles, permissions, properties, journal
      ensures graphs.rows == Updated(old(graphs.rows), map[id := graph])
      ensures roles.rows ==
        ApplyKeys(old(roles.rows), KeyDifference(Roles(id, graph), Slice(old(roles.rows), RolesByGraph(id))))
      ensures permissions.rows ==
        ApplyKeys(old(permissions.rows),
                  KeyDifference(Permissions(id, graph), Slice(old(permissions.rows), PermissionsByObject(id))))
      ensures properties.rows ==
        Apply(old(properties.rows), Difference(Properties(id, graph), Slice(old(properties.rows), PropertiesBySubject(id))))
      ensures Slice(roles.rows, RolesByGraph(id)) == Roles(id, graph)
      ensures Slice(permissions.rows, PermissionsByObject(id)) == Permissions(id, graph)
      ensures Slice(properties.rows, PropertiesBySubject(id)) == Properties(id, graph)
      ensures journal.calls == old(journal.calls) + [Call(GraphStore, UpdateOp)] +
        [Call(GraphRoleStore, InsertOp), Call(GraphRoleStore, DeleteOp)] +
        [Call(GraphPermissionStore, InsertOp), Call(GraphPermissionStore, DeleteOp)] +
        [Call(GraphPropertyStore, InsertOp), Call(GraphPropertyStore, UpdateOp), Call(GraphPropertyStore, DeleteOp)]
    {
      graphs.Update(map[id := graph]);
      ghost var graphRows := graphs.rows;
      UpdateRoles(id, graph);
      ghost var roleRows := roles.rows;
      assert graphs.rows == graphRows;
      UpdatePermissions(id, graph);
      ghost var permissionRows := permissions.rows;
      assert graphs.rows == graphRows && roles.rows == roleRows;
      UpdateProperties(id, graph);
      assert graphs.rows == graphRows && roles.rows == roleRows && permissions.rows == permissionRows;
    }

    /** updateRoles: roles only in the new list are inserted, roles only in
        the store deleted. */
    method UpdateRoles(id: GraphId, graph: Graph)
      requires Valid()
      modifies roles, journal
      ensures roles.rows ==
        ApplyKeys(old(roles.rows), KeyDifference(Roles(id, graph), Slice(old(roles.rows), RolesByGraph(id))))
      ensures Slice(roles.rows, RolesByGraph(id)) == Roles(id, graph)
      ensures journal.calls == old(journal.calls) + [Call(GraphRoleStore, InsertOp), Call(GraphRoleStore, DeleteOp)]
    {
      var newRoles := RoleModel(id, graph.roles);
      var oldRoles := roles.GetMap(RolesByGraph(id));
      DerivedOwned(id, graph);
      forall k | k in newRoles && k in oldRoles ensures newRoles[k] == oldRoles[k] {
        assert newRoles[k].Empty? && oldRoles[k].Empty?;
      }
      KeysSuffice(roles.rows, newRoles, oldRoles);
      Reconcile(roles.rows, RolesByGraph(id), newRoles, oldRoles);
      roles.WriteKeyDifference(KeyDifference(newRoles, oldRoles));
    }

    /** updatePermissions: granted rows only on the new side are inserted,
        those only in the store deleted. */
    method UpdatePermissions(id: GraphId, graph: Graph)
      requires Valid()
      modifies permissions, journal
      ensures permissions.rows ==
        ApplyKeys(old(permissions.rows),
                  KeyDifference(Permissions(id, graph), Slice(old(permissions.rows), PermissionsByObject(id))))
      ensures Slice(permissions.rows, PermissionsByObject(id)) == Permissions(id, graph)
      ensures journal.calls == old(journal.calls) +
        [Call(GraphPermissionStore, InsertOp), Call(GraphPermissionStore, DeleteOp)]
    {
      var newPermissions := PermissionModel(id, graph.permissions);
      var oldPermissions := permissions.GetMap(PermissionsByObject(id));
      DerivedOwned(id, graph);
      forall k | k in newPermissions && k in oldPermissions ensures newPermissions[k] == oldPermissions[k] {
        assert newPermissions[k].Granted? && oldPermissions[k].Granted?;
      }
      KeysSuffice(permissions.rows, newPermissions, oldPermissions);
      Reconcile(permissions.rows, PermissionsByObject(id), newPermissions, oldPermissions);
      permissions.WriteKeyDifference(KeyDifference(newPermissions, oldPermissions));
    }

    /** updateProperties: insert, update and delete by the difference
        between the new values and the stored ones. */
    method UpdateProperties(id: GraphId, graph: Graph)
      requires Valid()
      modifies properties, journal
      ensures properties.rows ==
        Apply(old(properties.rows), Difference(Properties(id, graph), Slice(old(properties.rows), PropertiesBySubject(id))))
      ensures Slice(properties.rows, PropertiesBySubject(id)) == Properties(id, graph)
      ensures journal.calls == old(journal.calls) +
        [Call(GraphPropertyStore, InsertOp), Call(GraphPropertyStore, UpdateOp), Call(GraphPropertyStore, DeleteOp)]
    {
      var newProperties := DtoToModel(id, graph.properties);
      var oldProperties := properties.GetMap(PropertiesBySubject(id));
      DerivedOwned(id, graph);
      Reconcile(properties.rows, PropertiesBySubject(id), newProperties, oldProperties);
      properties.WriteDifference(Difference(newProperties, oldProperties));
    }

    /** delete(id): the roles, permissions and properties the stores hold
        for `id`, then the graph row. */
    method Delete(id: GraphId)
      requires Valid()
      modifies graphs, roles, permissions, properties, journal
      ensures roles.rows == Deleted(old(roles.rows), Slice(old(roles.rows), RolesByGraph(id)).Keys)
      ensures permissions.rows == Deleted(old(permissions.rows), Slice(old(permissions.rows), PermissionsByObject(id)).Keys)
      ensures properties.rows == Deleted(old(properties.rows), Slice(old(properties.rows), PropertiesBySubject(id)).Keys)
      ensures graphs.rows == Deleted(old(graphs.rows), {id})
      ensures journal.calls == old(journal.calls) +
        [Call(GraphRoleStore, DeleteOp), Call(GraphPermissionStore, DeleteOp),
         Call(GraphPropertyStore, DeleteOp), Call(GraphStore, DeleteOp)]
    {
      var roleKeys := roles.GetKeys(RolesByGraph(id));
      roles.Delete(roleKeys);
      var permissionKeys := permissions.GetKeys(PermissionsByObject(id));
      permissions.Delete(permissionKeys);
      var propertyKeys := properties.GetKeys(PropertiesBySubject(id));
      properties.Delete(propertyKeys);
      graphs.Delete({id});
    }

    /** exists(id): consults the graph store only. */
    method Exists(id: GraphId) returns (b: bool)
      requires Valid()
      ensures b <==> id in graphs.rows
    {
      b := graphs.Exists(id);
    }

    /** get(id): the graph row, populated, or nothing. */
    method Get(id: GraphId) returns (r: Option<Graph>)
      requires Valid()
      ensures r.None? <==> id !in graphs.rows
      ensures r.Some? ==> Populated(r.value, graphs.rows[id])
    {
      var row := graphs.Get(id);
      if row.None? {
        return None;
      }
      var graph := PopulateValue(row.value);
      return Some(graph);
    }

    /** `r` is `graph` with the dependent collections stored for its own id. */
    ghost predicate Populated(r: Graph, graph: Graph)
      reads roles, permissions, properties
    {
      r.id == graph.id &&
      r.roles == RoleDto(Slice(roles.rows, RolesByGraph(graph.id))) &&
      r.permissions == PermissionDto(Slice(permissions.rows, PermissionsByObject(graph.id))) &&
      r.properties == ValuesDto(Slice(properties.rows, PropertiesBySubject(graph.id)), graph.id)
    }

    /** populateValue(graph): a copy of `graph` with its roles, permissions
        and properties loaded for graph.identifier(); nothing is written. */
    method PopulateValue(graph: Graph) returns (r: Graph)
      requires Valid()
      ensures Populated(r, graph)
    {
      var id := graph.id;
      var roleRows := roles.GetMap(RolesByGraph(id));
      var permissionRows := permissions.GetMap(PermissionsByObject(id));
      var propertyRows := properties.GetMap(PropertiesBySubject(id));
      r := graph.(roles := RoleDto(roleRows),
                  permissions := PermissionDto(permissionRows),
                  properties := ValuesDto(propertyRows, id));
    }
  }

  // ---------------------------------------------------------------------------
  // Properties of the repository's writes.

  /** When the stores hold, for `id`, exactly the rows derived from `graph`,
      reading them back gives the graph's roles, its permissions without
      empty roles, and its property values de-duplicated. */
  lemma ReadBack(id: GraphId, graph: Graph,
                 roleRows: map<GraphRole, Empty>,
                 permissionRows: map<ObjectRolePermission<GraphId>, GrantedPermission>,
                 propertyRows: map<ValueId<GraphId>, LangValue>)
    requires Slice(roleRows, RolesByGraph(id)) == Roles(id, graph)
    requires Slice(permissionRows, PermissionsByObject(id)) == Permissions(id, graph)
    requires Slice(propertyRows, PropertiesBySubject(id)) == Properties(id, graph)
    ensures RoleDto(Slice(roleRows, RolesByGraph(id))) == graph.roles
    ensures PermissionDto(Slice(permissionRows, PermissionsByObject(id))) == NonEmptyPermissions(graph.permissions)
    ensures ValuesDto(Slice(propertyRows, PropertiesBySubject(id)), id) == NonEmptyValues(DedupeAll(graph.properties))
  {
    RoleRoundTrip(id, graph.roles);
    PermissionRoundTrip(id, graph.permissions);
    ValuesRoundTrip(id, graph.properties);
  }

  /** A graph inserted where nothing was stored for its id leaves the
      stores holding, for that id, exactly the rows derived from it. */
  lemma InsertFillsSlices(id: GraphId, graph: Graph,
                          roleRows: map<GraphRole, Empty>,
                          permissionRows: map<ObjectRolePermission<GraphId>, GrantedPermission>,
                          propertyRows: map<ValueId<GraphId>, LangValue>)
    requires Slice(roleRows, RolesByGraph(id)) == map[]
    requires Slice(permissionRows, PermissionsByObject(id)) == map[]
    requires Slice(propertyRows, PropertiesBySubject(id)) == map[]
    ensures Slice(Inserted(roleRows, Roles(id, graph)), RolesByGraph(id)) == Roles(id, graph)
    ensures Slice(Inserted(permissionRows, Permissions(id, graph)), PermissionsByObject(id)) == Permissions(id, graph)
    ensures Slice(Inserted(propertyRows, Properties(id, graph)), PropertiesBySubject(id)) == Properties(id, graph)
  {
    DerivedOwned(id, graph);
    SliceInserted(roleRows, RolesByGraph(id), Roles(id, graph));
    SliceInserted(permissionRows, PermissionsByObject(id), Permissions(id, graph));
    SliceInserted(propertyRows, PropertiesBySubject(id), Properties(id, graph));
  }

  /** update(id, graph) touches no row of another graph. */
  lemma UpdateKeepsOtherGraphs(id: GraphId, graph: Graph,
                               roleRows: map<GraphRole, Empty>,
                               permissionRows: map<ObjectRolePermission<GraphId>, GrantedPermission>,
                               propertyRows: map<ValueId<GraphId>, LangValue>)
    ensures forall k: GraphRole | k.graph != id ::
      (k in ApplyKeys(roleRows, KeyDifference(Roles(id, graph), Slice(roleRows, RolesByGraph(id)))) <==> k in roleRows)
    ensures forall k: ObjectRolePermission<GraphId> | k.objectId != id ::
      (k in ApplyKeys(permissionRows, KeyDifference(Permissions(id, graph), Slice(permissionRows, PermissionsByObject(id))))
       <==> k in permissionRows)
    ensures forall k: ValueId<GraphId> | k.subject != id && k in propertyRows ::
      var after := Apply(propertyRows, Difference(Properties(id, graph), Slice(propertyRows, PropertiesBySubject(id))));
      k in after && after[k] == propertyRows[k]
  {
    DerivedOwned(id, graph);
    var current := Slice(roleRows, RolesByGraph(id));
    forall k | k in Roles(id, graph) && k in current ensures Roles(id, graph)[k] == current[k] {
      assert Roles(id, graph)[k].Empty? && current[k].Empty?;
    }
    KeysSuffice(roleRows, Roles(id, graph), current);
    ApplyKeepsOthers(roleRows, RolesByGraph(id), Roles(id, graph), current);
    var granted := Slice(permissionRows, PermissionsByObject(id));
    forall k | k in Permissions(id, graph) && k in granted ensures Permissions(id, graph)[k] == granted[k] {
      assert Permissions(id, graph)[k].Granted? && granted[k].Granted?;
    }
    KeysSuffice(permissionRows, Permissions(id, graph), granted);
    ApplyKeepsOthers(permissionRows, PermissionsByObject(id), Permissions(id, graph), granted);
    ApplyKeepsOthers(propertyRows, PropertiesBySubject(id), Properties(id, graph), Slice(propertyRows, PropertiesBySubject(id)));
  }

  /** Updating a graph to what the stores already hold writes no row. */
  lemma UpdateUnchangedWritesNothing(id: GraphId, graph: Graph,
                                     propertyRows: map<ValueId<GraphId>, LangValue>)
    requires Slice(propertyRows, PropertiesBySubject(id)) == Properties(id, graph)
    ensures Written(Difference(Properties(id, graph), Slice(propertyRows, PropertiesBySubject(id)))) == {}
    ensures Apply(propertyRows, Difference(Properties(id, graph), Slice(propertyRows, PropertiesBySubject(id)))) == propertyRows
  {
    var d := Difference(Properties(id, graph), Properties(id, graph));
    assert d.onlyOnLeft.Keys == {} && d.onlyOnRight.Keys == {} && d.differing.Keys == {};
    assert Apply(propertyRows, d) == propertyRows;
  }

  /** delete(id) leaves nothing of the graph in any dependent store, and
      keeps every row of other graphs. */
  lemma DeleteDrains(id: GraphId,
                     roleRows: map<GraphRole, Empty>,
                     permissionRows: map<ObjectRolePermission<GraphId>, GrantedPermission>,
                     propertyRows: map<ValueId<GraphId>, LangValue>)
    ensures Slice(Deleted(roleRows, Slice(roleRows, RolesByGraph(id)).Keys), RolesByGraph(id)) == map[]
    ensures Slice(Deleted(permissionRows, Slice(permissionRows, PermissionsByObject(id)).Keys), PermissionsByObject(id)) == map[]
    ensures Slice(Deleted(propertyRows, Slice(propertyRows, PropertiesBySubject(id)).Keys), PropertiesBySubject(id)) == map[]
    ensures forall k: GraphRole | k.graph != id ::
      (k in Deleted(roleRows, Slice(roleRows, RolesByGraph(id)).Keys) <==> k in roleRows)
    ensures forall k: ObjectRolePermission<GraphId> | k.objectId != id ::
      (k in Deleted(permissionRows, Slice(permissionRows, PermissionsByObject(id)).Keys) <==> k in permissionRows)
    ensures forall k: ValueId<GraphId> | k.subject != id ::
      (k in Deleted(propertyRows, Slice(propertyRows, PropertiesBySubject(id)).Keys) <==> k in propertyRows)
  {
    Drain(roleRows, RolesByGraph(id));
    Drain(permissionRows, PermissionsByObject(id));
    Drain(propertyRows, PropertiesBySubject(id));
  }
}
