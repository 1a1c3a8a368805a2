# termed-api query and persistence core, in Dafny

This project models the part of the termed-api entity store that decides
which rows a query selects, and how the class and graph repositories keep
their dependent rows in step with the objects they save. It covers four parts.

- **The specification algebra** (`specification_utils.dfy`, module
  `Specification`). A specification is a tree of leaves, `And`, `Or` and
  `Not`. `ToCnf` and `ToDnf` normalise it as `SpecificationUtils.toCnf` and
  `toDnf` do:
  - double negations are removed;
  - De Morgan pushes a negation down;
  - nested `And`s (for CNF) or `Or`s (for DNF) are flattened;
  - an `Or` (for CNF) or `And` (for DNF) is distributed over the Cartesian
    product of its children's normal forms.

  The model proves that both conversions keep the truth value for every
  leaf valuation and return the stated normal-form shape. It also proves
  that `toDnf` is `toCnf` with `And` and `Or` exchanged, and that the
  rewrite steps are exactly the ones the source performs. The Cartesian
  product is in `collect.dfy` (module `Collect`).
- **Leaf and dependent specifications** (`sql_specifications.dfy`,
  `nodes_by_reference_path.dfy`).
  - `ClassPropertiesByClassId` and
    `ReferenceAttributePermissionsByReferenceAttributeId` each have an
    in-memory `test` and a SQL where-clause template with its parameters.
    The model proves that the template's `?` placeholders line up with the
    parameters, and that the SQL selects the same rows as `test`.
  - `NodesByReferencePath` is a class with a mutable cache of resolved node
    ids. `Resolve` fills the cache, after resolving a nested reference path
    first. `Test` and `LuceneQuery` fail while the cache is empty. After
    `Resolve`, the index query and the in-memory test select the same nodes.
- **Dense index assignment** (`value_transforms.dfy`, module `Transforms`).
  `DtoToModel` is the nested loop of `ReferenceAttributeValueIdDtoToModel`.
  It turns an attribute-to-values multimap into entries keyed by
  (subject, attribute, index). Duplicates are dropped and the first
  occurrence wins. The indices of each attribute are 0 .. k-1. The module
  also holds the role-permission and graph-role conversions, their read-back
  round trips, and the in-place attribute indexing loop.
- **The diff-based repositories** (`dao.dfy`, `class_repository.dfy`,
  `graph_repository.dfy`).
  - Each store is a `Dao` object: one `rows` map that insert, update and
    delete change. A shared `Journal` records the order of the write calls.
  - `ClassRepository` and `GraphRepository` are classes over those stores.
    Their `Insert`, `Update`, `Delete`, `Exists`, `Get` and `PopulateValue`
    methods state the new contents of every store and the exact sequence of
    write calls.
  - An update reconciles each dependent collection by the three-way map
    difference: entries only on the new side are inserted, differing ones
    updated, and entries only on the old side deleted. Lemmas show that
    this leaves exactly the desired rows for the object and touches no
    other object's rows.
  - The two repositories differ in what they diff against.
    `ClassRepository` trusts an old class given by the caller;
    `StaleOldKeepsRows` exhibits a row that survives when that old class is
    stale. `GraphRepository` diffs against the rows it reads back from the
    stores.

The value types `NodeId` and `ObjectRolePermission` (module `Domain`) keep
their constructors' null checks and messages, their componentwise equality,
and their Java hash codes with 32-bit wrap-around.

## Model

| member | source | states |
|---|---|---|
| Specification.ToCnf | src/main/java/fi/thl/termed/util/query/SpecificationUtils.java:21-34 | toCnf always returns an And |
| Specification.ToDnf | src/main/java/fi/thl/termed/util/query/SpecificationUtils.java:92-105 | toDnf always returns an Or |
| Specification.CnfSound | src/main/java/fi/thl/termed/util/query/SpecificationUtils.java:16-85 | for every valuation of the leaves, the CNF holds exactly when the original specification holds |
| Specification.DnfSound | src/main/java/fi/thl/termed/util/query/SpecificationUtils.java:87-156 | for every valuation of the leaves, the DNF holds exactly when the original specification holds |
| Specification.CnfShape | src/main/java/fi/thl/termed/util/query/SpecificationUtils.java:16-85 | toCnf yields an And whose members are literals or Ors of literals |
| Specification.DnfShape | src/main/java/fi/thl/termed/util/query/SpecificationUtils.java:87-156 | toDnf yields an Or whose members are literals or Ands of literals |
| Specification.CnfOrCount | src/main/java/fi/thl/termed/util/query/SpecificationUtils.java:44-63 | the CNF of an Or has as many clauses as the product of its children's conjunct counts, and the children's conjuncts are their own CNFs |
| Specification.CnfConcatAppend | src/main/java/fi/thl/termed/util/query/SpecificationUtils.java:36-42 | the conjuncts of an And's CNF are its children's conjuncts concatenated in order |
| Specification.CnfFlattensAnd | src/main/java/fi/thl/termed/util/query/SpecificationUtils.java:36-42 | an And nested in an And is flattened into its parent's CNF |
| Specification.CnfNegation | src/main/java/fi/thl/termed/util/query/SpecificationUtils.java:65-85 | toCnf removes double negation, rewrites Not(And) and Not(Or) by De Morgan, and wraps a negated leaf as a one-member And |
| Specification.DnfNegation | src/main/java/fi/thl/termed/util/query/SpecificationUtils.java:136-156 | toDnf removes double negation, rewrites Not(And) and Not(Or) by De Morgan, and wraps a negated leaf as a one-member Or |
| Specification.DnfIsDualOfCnf | src/main/java/fi/thl/termed/util/query/SpecificationUtils.java:92-156 | toDnf(s) is toCnf of s with And and Or exchanged everywhere, exchanged back |
| Specification.CnfDistributes | src/main/java/fi/thl/termed/util/query/SpecificationUtils.java:52-62 | an And over one Or per pick of the product holds exactly when some child's conjunct list holds entirely |
| Specification.DnfDistributes | src/main/java/fi/thl/termed/util/query/SpecificationUtils.java:123-133 | an Or over one And per pick of the product holds exactly when every child's disjunct list has a member that holds |
| Specification.FlattenOrSound | src/main/java/fi/thl/termed/util/query/SpecificationUtils.java:55-57 | splicing the children of a nested Or into its parent keeps the parent's truth value |
| Specification.FlattenAndSound | src/main/java/fi/thl/termed/util/query/SpecificationUtils.java:126-128 | splicing the children of a nested And into its parent keeps the parent's truth value |
| Specification.DeMorganAnd | src/main/java/fi/thl/termed/util/query/SpecificationUtils.java:73-77 | Not(And(xs)) holds exactly when Or of the negated children holds |
| Specification.DeMorganOr | src/main/java/fi/thl/termed/util/query/SpecificationUtils.java:78-82 | Not(Or(xs)) holds exactly when And of the negated children holds |
| Collect.DistributeMember | src/main/java/fi/thl/termed/util/query/SpecificationUtils.java:52 | a list is in the product exactly when it takes one member from each input list, in order |
| Collect.DistributeLength | src/main/java/fi/thl/termed/util/query/SpecificationUtils.java:52 | the product has as many picks as the product of the list lengths |
| Collect.Dedupe | src/main/java/fi/thl/termed/domain/transform/ReferenceAttributeValueIdDtoToModel.java:34 | the linked-set copy of a list has the same elements and no duplicates |
| Collect.DedupeFirstOccurrence | src/main/java/fi/thl/termed/domain/transform/ReferenceAttributeValueIdDtoToModel.java:34 | a value's position in the linked set is the number of distinct values before its first occurrence |
| Collect.DifferenceParts | src/main/java/fi/thl/termed/service/scheme/internal/ClassRepository.java:175-180 | the only-left, only-right and differing parts are pairwise disjoint, and with the keys whose values agree they cover the keys of both maps |
| ReferencePath.NodesByReferencePath.constructor | src/main/java/fi/thl/termed/service/node/specification/NodesByReferencePath.java:25-34 | a new path keeps its attribute id and value specification and has nothing resolved |
| ReferencePath.NodesByReferencePath.Resolve | src/main/java/fi/thl/termed/service/node/specification/NodesByReferencePath.java:45-50 | afterwards the nested path is resolved and the cache holds exactly the ids of the nodes the resolver returns for the value specification, whatever it held before |
| ReferencePath.NodesByReferencePath.Test | src/main/java/fi/thl/termed/service/node/specification/NodesByReferencePath.java:53-59 | a key other than the node's own id fails with IllegalArgument first; an unresolved path fails with "Value IDs not resolved."; otherwise true exactly when some reference under the attribute has a cached id |
| ReferencePath.NodesByReferencePath.LuceneQuery | src/main/java/fi/thl/termed/service/node/specification/NodesByReferencePath.java:62-70 | fails while unresolved; otherwise exactly one SHOULD clause per cached id, on the field references.<attributeId>.id |
| ReferencePath.QueryAgreesWithTest | src/main/java/fi/thl/termed/service/node/specification/NodesByReferencePath.java:53-70 | a node's indexed document matches the query exactly when the node references one of the ids under the attribute |
| ReferencePath.ResolvedTest | src/main/java/fi/thl/termed/service/node/specification/NodesByReferencePath.java:45-59 | after Resolve, test succeeds on a node's own id and is true exactly when the node references some node the resolver returned |
| ReferencePath.ReferenceFieldInjective | src/main/java/fi/thl/termed/service/node/specification/NodesByReferencePath.java:67 | different attributes give different index fields |
| ReferencePath.IdsOf | src/main/java/fi/thl/termed/service/node/specification/NodesByReferencePath.java:49 | an id is in the set exactly when some returned key carries it |
| SqlSpecifications.TemplatePlaceholders | src/main/java/fi/thl/termed/spesification/sql/ClassPropertiesByClassId.java:27-29 | an equality template over n columns has exactly n placeholders |
| SqlSpecifications.ClassPropertiesTemplate | src/main/java/fi/thl/termed/spesification/sql/ClassPropertiesByClassId.java:27-29 | the template compares class_scheme_id and class_id, with two placeholders |
| SqlSpecifications.ClassPropertiesParameters | src/main/java/fi/thl/termed/spesification/sql/ClassPropertiesByClassId.java:32-34 | one parameter per template column; a null class id, and only that, fails with a null dereference |
| SqlSpecifications.ClassPropertiesSqlAgrees | src/main/java/fi/thl/termed/spesification/sql/ClassPropertiesByClassId.java:21-34 | binding the parameters to the template selects a row exactly when test accepts its key and value |
| SqlSpecifications.ClassPropertiesTestBySubject | src/main/java/fi/thl/termed/spesification/sql/ClassPropertiesByClassId.java:22-24 | test is true exactly when the key's subject is the class id; the value is ignored |
| SqlSpecifications.ClassPropertiesEquality | src/main/java/fi/thl/termed/spesification/sql/ClassPropertiesByClassId.java:37-51 | two specifications are equal exactly when their class ids are, and equal ones hash alike |
| SqlSpecifications.ReferenceAttributePermissionsTemplate | src/main/java/fi/thl/termed/spesification/sql/ReferenceAttributePermissionsByReferenceAttributeId.java:29-31 | the template compares the three attribute columns, with three placeholders |
| SqlSpecifications.ReferenceAttributePermissionsTemplateText | src/main/java/fi/thl/termed/spesification/sql/ReferenceAttributePermissionsByReferenceAttributeId.java:30 | the generated template is the source's literal where clause |
| SqlSpecifications.ReferenceAttributePermissionsParameters | src/main/java/fi/thl/termed/spesification/sql/ReferenceAttributePermissionsByReferenceAttributeId.java:34-37 | one parameter per template column; a null attribute id, and only that, fails with a null dereference |
| SqlSpecifications.ReferenceAttributePermissionsSqlAgrees | src/main/java/fi/thl/termed/spesification/sql/ReferenceAttributePermissionsByReferenceAttributeId.java:23-37 | binding the parameters to the template selects a row exactly when test accepts it |
| SqlSpecifications.ReferenceAttributePermissionsTestByObject | src/main/java/fi/thl/termed/spesification/sql/ReferenceAttributePermissionsByReferenceAttributeId.java:23-26 | test is true exactly when the permission's object is the attribute, whatever the role, permission or value |
| SqlSpecifications.ReferenceAttributePermissionsEquality | src/main/java/fi/thl/termed/spesification/sql/ReferenceAttributePermissionsByReferenceAttributeId.java:40-55 | two specifications are equal exactly when their attribute ids are, and equal ones hash alike |
| Transforms.DtoToModel | src/main/java/fi/thl/termed/domain/transform/ReferenceAttributeValueIdDtoToModel.java:27-40 | the nested loop builds exactly the indexed form of the multimap |
| Transforms.IndexedKeys | src/main/java/fi/thl/termed/domain/transform/ReferenceAttributeValueIdDtoToModel.java:31-36 | every key carries the subject; a key is present exactly when its index is below its attribute's distinct-value count, and it holds that distinct value |
| Transforms.DenseIndices | src/main/java/fi/thl/termed/domain/transform/ReferenceAttributeValueIdDtoToModel.java:31-36 | the indices of each attribute are exactly 0 .. k-1, k being its number of distinct values, so the counter restarts for every attribute |
| Transforms.FirstOccurrenceWins | src/main/java/fi/thl/termed/domain/transform/ReferenceAttributeValueIdDtoToModel.java:34-35 | a value sits at the index given by its first occurrence, and at no other index |
| Transforms.IndexedValuesSize | src/main/java/fi/thl/termed/domain/transform/ReferenceAttributeValueIdDtoToModel.java:29-39 | the result has exactly as many entries as there are distinct values, summed over attributes |
| Transforms.IndexedValuesExample | src/main/java/fi/thl/termed/domain/transform/ReferenceAttributeValueIdDtoToModel.java:32-36 | values [v1, v2, v1, v3] of one attribute give {0 -> v1, 1 -> v2, 2 -> v3} |
| Transforms.ValuesRoundTrip | src/main/java/fi/thl/termed/service/graph/internal/GraphRepository.java:176-177 | reading the indexed values back gives each attribute's values de-duplicated, with empty attributes gone |
| Transforms.PermissionKeys | src/main/java/fi/thl/termed/service/scheme/internal/ClassRepository.java:101-104 | a permission key is stored exactly when its role grants its permission on the object |
| Transforms.PermissionRoundTrip | src/main/java/fi/thl/termed/service/scheme/internal/ClassRepository.java:279-282 | reading the granted keys back gives the role permissions, without roles that grant nothing |
| Transforms.RoleRoundTrip | src/main/java/fi/thl/termed/service/graph/internal/GraphRepository.java:172-173 | reading the role keys back gives the graph's roles |
| Transforms.AttributeMapAt | src/main/java/fi/thl/termed/service/scheme/internal/ClassRepository.java:188-191 | a key is present exactly when some attribute's id gives it, and holds the last such attribute |
| Transforms.WithIndices | src/main/java/fi/thl/termed/service/scheme/internal/ClassRepository.java:120-134 | every element gets its position as its index and keeps its id and payload |
| Transforms.WithIndicesIdempotent | src/main/java/fi/thl/termed/service/scheme/internal/ClassRepository.java:120-134 | indexing an indexed list changes nothing |
| Transforms.AddIndices | src/main/java/fi/thl/termed/service/scheme/internal/ClassRepository.java:120-134 | the counting loop leaves the array equal to the indexed copy of its old contents |
| Persistence.Dao.Insert | src/main/java/fi/thl/termed/service/graph/internal/GraphRepository.java:55 | the given rows are stored over the old ones, and one insert call is journalled |
| Persistence.Dao.Update | src/main/java/fi/thl/termed/service/graph/internal/GraphRepository.java:78 | present rows take the given values, absent keys are ignored, and one update call is journalled |
| Persistence.Dao.Delete | src/main/java/fi/thl/termed/service/graph/internal/GraphRepository.java:131 | the rows with the given keys are gone, and one delete call is journalled |
| Persistence.Dao.WriteDifference | src/main/java/fi/thl/termed/service/graph/internal/GraphRepository.java:121-123 | inserts the only-new entries, updates the differing ones with new values, deletes the only-old keys, in that order |
| Persistence.Dao.WriteKeyDifference | src/main/java/fi/thl/termed/service/graph/internal/GraphRepository.java:91-92 | inserts the only-new entries and deletes the only-old keys, with no update call |
| Persistence.Dao.GetMap | src/main/java/fi/thl/termed/service/graph/internal/GraphRepository.java:86-87 | returns exactly the rows the specification selects |
| Persistence.WriteLaws | src/main/java/fi/thl/termed/service/graph/internal/GraphRepository.java:121-123 | update never adds a key and equals insert on stored keys; deleting what was inserted gives the table with those keys deleted; inserting after deleting the same keys, or updating after inserting, is the insert alone |
| Persistence.DifferenceRoundTrip | src/main/java/fi/thl/termed/service/scheme/internal/ClassRepository.java:175-180 | applying the difference of two maps to the right one yields the left one |
| Persistence.Reconcile | src/main/java/fi/thl/termed/service/graph/internal/GraphRepository.java:110-124 | applying the difference of the desired rows against an object's current rows leaves exactly the desired rows for it |
| Persistence.ApplyKeepsOthers | src/main/java/fi/thl/termed/service/graph/internal/GraphRepository.java:110-124 | the difference of one object's rows changes no row of another object |
| Persistence.NoWriteForEqual | src/main/java/fi/thl/termed/service/scheme/internal/ClassRepository.java:175-180 | an entry equal on both sides is written by none of the three calls |
| Persistence.WrittenKeys | src/main/java/fi/thl/termed/service/scheme/internal/ClassRepository.java:175-180 | exactly the keys whose rows must change are written |
| Persistence.KeysSuffice | src/main/java/fi/thl/termed/service/scheme/internal/ClassRepository.java:158-162 | for rows that carry nothing but their key, nothing differs, so insert and delete alone reach the same table |
| Persistence.Drain | src/main/java/fi/thl/termed/service/graph/internal/GraphRepository.java:134-145 | deleting the keys an object holds leaves it none, and the other objects' rows as they were |
| Persistence.InsertedInOrderFor | src/main/java/fi/thl/termed/service/scheme/internal/ClassRepository.java:81-89 | inserting class after class, in any order, stores every listed class's rows and keeps every other class's rows |
| SchemeService.ClassRepository.Insert | src/main/java/fi/thl/termed/service/scheme/internal/ClassRepository.java:92-118 | the class row first, then its permissions, properties and indexed text and reference attributes; the new contents of all five stores |
| SchemeService.ClassRepository.InsertAll | src/main/java/fi/thl/termed/service/scheme/internal/ClassRepository.java:74-90 | all class rows in one insert before any dependent row, then every class's dependent rows in the stores, whatever the iteration order |
| SchemeService.ClassRepository.Update | src/main/java/fi/thl/termed/service/scheme/internal/ClassRepository.java:136-146 | the class row is updated, then each dependent store gets the difference of the new class's rows against the old class's, in the source's call order |
| SchemeService.ClassRepository.UpdatePermissions | src/main/java/fi/thl/termed/service/scheme/internal/ClassRepository.java:148-163 | granted rows only on the new side are inserted and those only on the old side deleted; no update call |
| SchemeService.ClassRepository.UpdateProperties | src/main/java/fi/thl/termed/service/scheme/internal/ClassRepository.java:165-181 | insert only-new, update differing with new values, delete only-old |
| SchemeService.ClassRepository.UpdateTextAttributes | src/main/java/fi/thl/termed/service/scheme/internal/ClassRepository.java:183-199 | the indexed new list and the old list, keyed by attribute id, reconciled by insert, update, delete |
| SchemeService.ClassRepository.UpdateReferenceAttributes | src/main/java/fi/thl/termed/service/scheme/internal/ClassRepository.java:201-217 | the same for reference attributes |
| SchemeService.ClassRepository.Delete | src/main/java/fi/thl/termed/service/scheme/internal/ClassRepository.java:224-252 | the four dependent collections derived from the class are deleted, then the class row |
| SchemeService.ClassRepository.DeleteById | src/main/java/fi/thl/termed/service/scheme/internal/ClassRepository.java:219-222 | a missing class fails with NoSuchElement and writes nothing; otherwise the class row and exactly the rows derived from the class as loaded from the stores are deleted from each store, no permission row of the class remains, and no other class's rows change |
| SchemeService.ClassRepository.Exists | src/main/java/fi/thl/termed/service/scheme/internal/ClassRepository.java:254-257 | true exactly when the class store holds the id |
| SchemeService.ClassRepository.Get | src/main/java/fi/thl/termed/service/scheme/internal/ClassRepository.java:271-274 | nothing for a missing id; otherwise the stored class populated from the dependent stores |
| SchemeService.ClassRepository.PopulateValue | src/main/java/fi/thl/termed/service/scheme/internal/ClassRepository.java:276-299 | a copy of the class with the permissions, properties and attributes stored for its own class id; nothing is written |
| SchemeService.ValueList | src/main/java/fi/thl/termed/service/scheme/internal/ClassRepository.java:289-296 | a query's result lists the selected rows' values in the order of a list of the rows' keys that names each key exactly once |
| SchemeService.ListsValuesCounts | src/main/java/fi/thl/termed/service/scheme/internal/ClassRepository.java:289-296 | such a list has one entry per selected row and holds exactly the selected values |
| SchemeService.IndexedCopy | src/main/java/fi/thl/termed/service/scheme/internal/ClassRepository.java:142-145 | the list handed on is the indexed list |
| SchemeService.UpdatePermissionsReconciles | src/main/java/fi/thl/termed/service/scheme/internal/ClassRepository.java:148-163 | when the old class's permissions match the store, the store then holds exactly the new class's granted rows for it, and no other object's rows come or go |
| SchemeService.UpdatePropertiesReconciles | src/main/java/fi/thl/termed/service/scheme/internal/ClassRepository.java:165-181 | when the old class's properties match the store, the store then holds exactly the new class's property rows for it, and every other subject's rows keep their values |
| SchemeService.UpdateTextAttributesReconciles | src/main/java/fi/thl/termed/service/scheme/internal/ClassRepository.java:183-199 | the same for text attributes, with the new list indexed |
| SchemeService.UpdateReferenceAttributesReconciles | src/main/java/fi/thl/termed/service/scheme/internal/ClassRepository.java:201-217 | the same for reference attributes, with the new list indexed |
| SchemeService.UpdateReconciles | src/main/java/fi/thl/termed/service/scheme/internal/ClassRepository.java:137-217 | when the old class matches the four stores, update leaves exactly the new class's rows for it in each, and no other class's rows change |
| SchemeService.StaleOldKeepsRows | src/main/java/fi/thl/termed/service/scheme/internal/ClassRepository.java:148-163 | a stored permission the caller's old class does not list survives an update to a class without it |
| SchemeService.InsertThenPopulate | src/main/java/fi/thl/termed/service/scheme/internal/ClassRepository.java:92-107 | a class inserted where nothing was stored reads back with its permissions and its de-duplicated properties |
| SchemeService.DeleteDrains | src/main/java/fi/thl/termed/service/scheme/internal/ClassRepository.java:224-252 | when the stores match the class, delete leaves none of its permission, property, text attribute or reference attribute rows, and no other class's row comes or goes |
| SchemeService.RepeatDependent | src/main/java/fi/thl/termed/service/scheme/internal/ClassRepository.java:74-90 | every call of a bulk insert after the class rows writes a dependent store |
| GraphService.GraphRepository.constructor | src/main/java/fi/thl/termed/service/graph/internal/GraphRepository.java:43-51 | the repository keeps the four stores it is given |
| GraphService.GraphRepository.Insert | src/main/java/fi/thl/termed/service/graph/internal/GraphRepository.java:53-74 | the graph row first, then its roles, permissions and properties, one insert each |
| GraphService.GraphRepository.Update | src/main/java/fi/thl/termed/service/graph/internal/GraphRepository.java:76-124 | each dependent store gets the difference of the new rows against the rows it holds for the graph; afterwards it holds exactly the new rows; roles and permissions are never updated |
| GraphService.GraphRepository.Delete | src/main/java/fi/thl/termed/service/graph/internal/GraphRepository.java:126-145 | every stored role, permission and property of the graph is deleted, then the graph row |
| GraphService.GraphRepository.Exists | src/main/java/fi/thl/termed/service/graph/internal/GraphRepository.java:147-150 | true exactly when the graph store holds the id |
| GraphService.GraphRepository.Get | src/main/java/fi/thl/termed/service/graph/internal/GraphRepository.java:163-166 | nothing for a missing id; otherwise the stored graph populated from the dependent stores |
| GraphService.GraphRepository.PopulateValue | src/main/java/fi/thl/termed/service/graph/internal/GraphRepository.java:168-179 | a copy of the graph with the roles, permissions and properties stored for its id; nothing is written |
| GraphService.ReadBack | src/main/java/fi/thl/termed/service/graph/internal/GraphRepository.java:168-179 | when the stores hold a graph's derived rows, reading back gives its roles, its non-empty permissions and its de-duplicated properties |
| GraphService.InsertFillsSlices | src/main/java/fi/thl/termed/service/graph/internal/GraphRepository.java:53-74 | a graph inserted where nothing was stored leaves exactly its derived rows for it |
| GraphService.UpdateKeepsOtherGraphs | src/main/java/fi/thl/termed/service/graph/internal/GraphRepository.java:84-124 | update touches no role, permission or property row of another graph |
| GraphService.UpdateUnchangedWritesNothing | src/main/java/fi/thl/termed/service/graph/internal/GraphRepository.java:110-124 | updating to the properties already stored writes no row and changes nothing |
| GraphService.DeleteDrains | src/main/java/fi/thl/termed/service/graph/internal/GraphRepository.java:126-145 | delete leaves no role, permission or property of the graph and no other graph's row comes or goes |
| Domain.NewNodeId | src/main/java/fi/thl/termed/domain/NodeId.java:24-27 | succeeds exactly when id and type are both present, checked id first, with the source's messages |
| Domain.NodeIdOfNode | src/main/java/fi/thl/termed/domain/NodeId.java:16-22 | NodeId(node) is the three-part constructor on the node's id, type id and graph id |
| Domain.NodeIdProjections | src/main/java/fi/thl/termed/domain/NodeId.java:20-43 | the getters return what the three-part constructor was given |
| Domain.NodeIdEquality | src/main/java/fi/thl/termed/domain/NodeId.java:45-56 | equal exactly when both id and type are equal |
| Domain.NodeIdHashConsistent | src/main/java/fi/thl/termed/domain/NodeId.java:58-61 | equal NodeIds have equal hash codes |
| Domain.ArraysHashPair | src/main/java/fi/thl/termed/domain/NodeId.java:58-61 | the two-element hash is 31 * (31 + a) + b with 32-bit wrap-around |
| Domain.Wrap | src/main/java/fi/thl/termed/domain/NodeId.java:58-61 | the 32-bit result is congruent to the exact value and equal to it when it fits |
| Domain.NewObjectRolePermission | termed-api/src/main/java/fi/thl/termed/domain/ObjectRolePermission.java:16-32 | succeeds exactly when all three arguments are present, checked in order with the source's messages; the getters return the arguments |
| Domain.ObjectRolePermissionEquality | termed-api/src/main/java/fi/thl/termed/domain/ObjectRolePermission.java:34-46 | equal exactly when object id, role and permission are all equal |
| Domain.ObjectRolePermissionHashConsistent | termed-api/src/main/java/fi/thl/termed/domain/ObjectRolePermission.java:48-51 | equal permissions have equal hash codes |

## Left out

- The JDBC stores are abstract keyed maps. Insert overwrites a row with the same key. The SQL they run, and their own deliberate no-op updates, are not modelled.
- StreamingJdbcTemplate, TransactionalService, DaoForwardingRepository2, SelectParser, the controllers, the RDF mapping, the index implementation and ResourceUtils are not part of this model. They are I/O, wiring, forwarding, or code whose libraries are not shown.
- The `User` argument is dropped from every call, because it carries no logic in these files.
- The Lucene query is a sequence of (field, text, SHOULD) clauses, not BooleanQuery or TermQuery objects. A node's index document is assumed to hold each referenced node id under `references.<attributeId>.id`.
- The resolver, the query executor behind `Resolve`, is a function parameter.
- The unseen component hash codes (UUID, TypeId, ClassId, strings, enums) are function parameters.
- `get(Query)`, `getKeys(Query)` and `getValues(Query)` forward a specification to the class or graph store and populate each value. They are not modelled beyond `Get` and `PopulateValue`.
- PropertyValueDtoToModel, RolePermissionsDtoToModel and their read-back counterparts are not shown. The property conversion is taken to behave like ReferenceAttributeValueIdDtoToModel. The read-back reads each attribute's values by consecutive index from 0. The scheme id argument of RolePermissionsDtoToModel is dropped because it does not appear in the keys.
- ListUtils.distribute is not shown. It is modelled as the Cartesian product with the first list varying slowest, so the product of no lists is one empty pick.
- Transforms.AddIndices: the source sets indices on the caller's list objects in place, so the caller sees them too. The model indexes an array, and the repositories use the indexed copy, which ignores that aliasing.
- A graph's roles are a set: the list's order and duplicates vanish in the role keys anyway.
- SchemeService.ClassRepository.Delete: ImmutableMap.copyOf throws when two attributes share an id. The model keeps the last attribute instead.
- The text and reference attribute repositories store further rows of their own (attribute permissions and properties). They are modelled as single stores.
- SchemeService.ClassRepository.PopulateValue: the attribute lists read back are stated as the stored values, one per row, not in the stored index order.
- SchemeService.ClassRepository.Update: the contract does not state the set of keys written. Key-only stores (granted permissions, roles) are written through the two-part difference without the differing part. For such rows nothing can differ, so the two are the same (`Persistence.KeysSuffice`).
- Property and permission read-back conversions drop attributes and roles with no values, since a multimap has no empty keys.
- GraphService.GraphRepository: the `SaveMode` and `WriteOptions` arguments of insert, update and delete (GraphRepository.java:54, 77, 127) are dropped, because these methods never read them.
- Transforms.AttributeMap: MapUtils.newLinkedHashMap is not shown. It is assumed to put the entries in list order, so a later attribute with the same id replaces an earlier one.
- Deleting a row that is not stored is a no-op, as for the graph row in `GraphService.GraphRepository.Delete`.
