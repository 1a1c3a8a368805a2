/** The dependent node specification "nodes that reference, under a given
    attribute, some node selected by another specification". It must be
    resolved (the selected node ids looked up and cached) before it can be
    tested in memory or turned into an index query. */
module ReferencePath {
  import opened Domain

  /** The specification the referenced nodes must satisfy: another reference
      path, which is resolved first, or any other specification. */
  datatype ValueSpecification<S> = Nested(path: NodesByReferencePath<S>) | Other(spec: S)

  /** What a resolver sees of a specification: for a reference path, its
      attribute, its cached ids and what it depends on. */
  datatype SpecView<S> =
    | PathView(attributeId: string, valueNodeIds: Option<set<Uuid>>, inner: SpecView<S>)
    | OtherView(spec: S)

  /** A term clause of a Lucene boolean query. */
  datatype Occur = Should | Must | MustNot
  datatype TermClause = TermClause(field: string, text: string, occur: Occur)

  /** The index field holding the ids of the nodes referenced under `attributeId`. */
  function ReferenceField(attributeId: string): string
  {
    "references." + attributeId + ".id"
  }

  /** The node ids a node references under an attribute; none when the
      attribute is absent. */
  function References(node: Node, attributeId: string): seq<NodeId>
  {
    if attributeId in node.references then node.references[attributeId] else []
  }

  /** The ids of a list of node keys. */
  function IdsOf(keys: seq<NodeId>): (r: set<Uuid>)
    ensures forall u :: u in r <==> exists i | 0 <= i < |keys| :: keys[i].id == u
  {
    set i | 0 <= i < |keys| :: keys[i].id
  }

  /** Whether some reference under `attributeId` points to one of `ids`. */
  predicate ReferencesAny(node: Node, attributeId: string, ids: set<Uuid>)
  {
    exists i | 0 <= i < |References(node, attributeId)| :: References(node, attributeId)[i].id in ids
  }

  /** The indexed form of a node: the texts stored under each field. A node's
      references under attribute `a` are stored, as id texts, in field
      ReferenceField(a). */
  function Document(node: Node): string -> set<string>
  {
    field => set a, i | a in node.references && 0 <= i < |node.references[a]| && ReferenceField(a) == field
                     :: node.references[a][i].id.text
  }

  /** A boolean query made only of SHOULD clauses matches a document when at
      least one of its terms occurs in the document. */
  predicate QueryMatches(clauses: seq<TermClause>, doc: string -> set<string>)
  {
    exists i | 0 <= i < |clauses| :: clauses[i].text in doc(clauses[i].field)
  }

  /** The query luceneQuery builds for `ids`: one SHOULD clause per id, on
      the attribute's reference field. */
  ghost predicate IsReferenceQuery(clauses: seq<TermClause>, attributeId: string, ids: set<Uuid>)
  {
    |clauses| == |ids| && ClausesFor(clauses, attributeId, ids)
  }

  /** Every clause is a SHOULD term on the reference field, and the clauses'
      terms are exactly the ids in `ids`. */
  ghost predicate ClausesFor(clauses: seq<TermClause>, attributeId: string, ids: set<Uuid>)
  {
    (forall i | 0 <= i < |clauses| :: clauses[i].field == ReferenceField(attributeId) && clauses[i].occur == Should) &&
    (forall u :: u in ids <==> exists i | 0 <= i < |clauses| :: clauses[i].text == u.text)
  }

  /** One more clause, for an id not yet covered. */
  lemma ClausesForStep(clauses: seq<TermClause>, attributeId: string, ids: set<Uuid>, u: Uuid)
    requires ClausesFor(clauses, attributeId, ids)
    ensures ClausesFor(clauses + [TermClause(ReferenceField(attributeId), u.text, Should)], attributeId, ids + {u})
  {
    var after := clauses + [TermClause(ReferenceField(attributeId), u.text, Should)];
    forall v ensures v in ids + {u} <==> exists i | 0 <= i < |after| :: after[i].text == v.text {
      if v == u {
        assert after[|clauses|].text == v.text;
      }
      if exists i | 0 <= i < |after| :: after[i].text == v.text {
        var i :| 0 <= i < |after| && after[i].text == v.text;
        if i == |clauses| {
          assert v == Uuid(v.text) && u == Uuid(u.text);
        } else {
          assert clauses[i].text == v.text;
        }
      }
      if v in ids {
        var i :| 0 <= i < |clauses| && clauses[i].text == v.text;
        assert after[i].text == v.text;
      }
    }
  }

  class NodesByReferencePath<S> {
    const attributeId: string
    const valueSpecification: ValueSpecification<S>
    var valueNodeIds: Option<set<Uuid>>

    /** This object and the reference paths it depends on. */
    ghost const Repr: set<object>

    ghost predicate Valid()
      decreases Repr
    {
      this in Repr &&
      match valueSpecification
      case Other(_) => Repr == {this}
      case Nested(p) => this !in p.Repr && Repr == {this} + p.Repr && p.Valid()
    }

    constructor (attributeId: string, valueSpecification: ValueSpecification<S>)
      requires valueSpecification.Nested? ==> valueSpecification.path.Valid()
      ensures Valid()
      ensures this.attributeId == attributeId && this.valueSpecification == valueSpecification
      ensures valueNodeIds.None?
    {
      this.attributeId := attributeId;
      this.valueSpecification := valueSpecification;
      this.valueNodeIds := None;
      this.Repr := {this} + if valueSpecification.Nested? then valueSpecification.path.Repr else {};
    }

    /** What the resolver sees of this specification. */
    function View(): SpecView<S>
      requires Valid()
      reads Repr
      decreases Repr
    {
      PathView(attributeId, valueNodeIds, ValueView())
    }

    /** What the resolver sees of the value specification. */
    function ValueView(): SpecView<S>
      requires Valid()
      reads Repr - {this}
      decreases Repr, 0
    {
      match valueSpecification
      case Other(s) => OtherView(s)
      case Nested(p) => p.View()
    }

    /** This path and every nested one hold the ids the resolver gives for
        their value specification, seen after the nested ones were resolved. */
    ghost predicate Resolved(resolver: SpecView<S> -> seq<NodeId>)
      requires Valid()
      reads Repr
      decreases Repr
    {
      valueNodeIds == Some(IdsOf(resolver(ValueView()))) &&
      (valueSpecification.Nested? ==> valueSpecification.path.Resolved(resolver))
    }

    /** resolve(resolver): resolves a nested reference path first, then caches
        the ids of the nodes the resolver returns for the value specification,
        replacing whatever was cached before. */
    method Resolve(resolver: SpecView<S> -> seq<NodeId>)
      requires Valid()
      modifies Repr
      decreases Repr
      ensures Valid() && Resolved(resolver)
    {
      if valueSpecification.Nested? {
        valueSpecification.path.Resolve(resolver);
      }
      var keys := resolver(ValueView());
      valueNodeIds := Some(IdsOf(keys));
    }

    /** test(nodeId, node): the key must be the node's own id (checked first),
        the ids must be resolved, and then the node must reference one of
        them under the attribute. */
    function Test(nodeId: NodeId, node: Node): (r: Result<bool>)
      reads this
      ensures nodeId != NodeIdOfNode(node) ==> r == Err(IllegalArgument)
      ensures nodeId == NodeIdOfNode(node) && valueNodeIds.None? ==> r == Err(NullPointer("Value IDs not resolved."))
      ensures nodeId == NodeIdOfNode(node) && valueNodeIds.Some? ==>
        r.Ok? && (r.value <==> ReferencesAny(node, attributeId, valueNodeIds.value))
    {
      if nodeId != NodeIdOfNode(node) then Err(IllegalArgument)
      else if valueNodeIds.None? then Err(NullPointer("Value IDs not resolved."))
      else Ok(exists i | 0 <= i < |References(node, attributeId)| :: References(node, attributeId)[i].id in valueNodeIds.value)
    }

    /** luceneQuery(): one SHOULD term clause per resolved id; fails while unresolved. */
    method LuceneQuery() returns (r: Result<seq<TermClause>>)
      ensures valueNodeIds.None? ==> r == Err(NullPointer("Value IDs not resolved."))
      ensures valueNodeIds.Some? ==> r.Ok? && IsReferenceQuery(r.value, attributeId, valueNodeIds.value)
    {
      if valueNodeIds.None? {
        return Err(NullPointer("Value IDs not resolved."));
      }
      var ids := valueNodeIds.value;
      var rest := ids;
      var clauses: seq<TermClause> := [];
      while rest != {}
        invariant rest <= ids
        invariant |clauses| + |rest| == |ids|
        invariant ClausesFor(clauses, attributeId, ids - rest)
        decreases rest
      {
        var u :| u in rest;
        ClausesForStep(clauses, attributeId, ids - rest, u);
        assert ids - (rest - {u}) == (ids - rest) + {u};
        clauses := clauses + [TermClause(ReferenceField(attributeId), u.text, Should)];
        rest := rest - {u};
      }
      assert ids - rest == ids;
      return Ok(clauses);
    }
  }

  // ---------------------------------------------------------------------------
  // The index query and the in-memory test select the same nodes.

  lemma {:induction false} ReferenceFieldInjective(a: string, b: string)
    requires ReferenceField(a) == ReferenceField(b)
    ensures a == b
  {
    var fa, fb := ReferenceField(a), ReferenceField(b);
    assert |a| == |b|;
    assert fa[11..11 + |a|] == a;
    assert fb[11..11 + |b|] == b;
  }

  /** A node matches the query built from `ids` exactly when it references one of
      them under the attribute, which is what a resolved test answers. */
  lemma QueryAgreesWithTest(clauses: seq<TermClause>, attributeId: string, ids: set<Uuid>, node: Node)
    requires IsReferenceQuery(clauses, attributeId, ids)
    ensures QueryMatches(clauses, Document(node)) <==> ReferencesAny(node, attributeId, ids)
  {
    var doc := Document(node);
    var refs := References(node, attributeId);
    if QueryMatches(clauses, doc) {
      var i :| 0 <= i < |clauses| && clauses[i].text in doc(clauses[i].field);
      var a, j :| a in node.references && 0 <= j < |node.references[a]| && ReferenceField(a) == clauses[i].field
               && node.references[a][j].id.text == clauses[i].text;
      ReferenceFieldInjective(a, attributeId);
      assert exists u :: u in ids && u.text == clauses[i].text;
      var u :| u in ids && u.text == clauses[i].text;
      assert refs[j].id == u;
    }
    if ReferencesAny(node, attributeId, ids) {
      var j :| 0 <= j < |refs| && refs[j].id in ids;
      var i :| 0 <= i < |clauses| && clauses[i].text == refs[j].id.text;
      assert clauses[i].text in doc(clauses[i].field);
    }
  }

  /** Some reference of `node` under the attribute has the id of one of `keys`. */
  predicate ReferencesSomeKey(node: Node, attributeId: string, keys: seq<NodeId>)
  {
    exists i, k | 0 <= i < |References(node, attributeId)| && 0 <= k < |keys| ::
      References(node, attributeId)[i].id == keys[k].id
  }

  /** After resolve, test answers true exactly for the nodes that reference,
      under the attribute, a node the resolver returned for the value specification. */
  lemma ResolvedTest<S>(p: NodesByReferencePath<S>, resolver: SpecView<S> -> seq<NodeId>, node: Node)
    requires p.Valid() && p.Resolved(resolver)
    ensures p.Test(NodeIdOfNode(node), node).Ok?
    ensures p.Test(NodeIdOfNode(node), node).value <==> ReferencesSomeKey(node, p.attributeId, resolver(p.ValueView()))
  {
    var refs := References(node, p.attributeId);
    var keys := resolver(p.ValueView());
    assert p.valueNodeIds.value == IdsOf(keys);
    var t := p.Test(NodeIdOfNode(node), node);
    assert t.Ok?;
    assert t.value == ReferencesAny(node, p.attributeId, IdsOf(keys));
    if ReferencesAny(node, p.attributeId, IdsOf(keys)) {
      var i :| 0 <= i < |refs| && refs[i].id in IdsOf(keys);
      var k :| 0 <= k < |keys| && keys[k].id == refs[i].id;
    }
    if ReferencesSomeKey(node, p.attributeId, keys) {
      var i, k :| 0 <= i < |refs| && 0 <= k < |keys| && refs[i].id == keys[k].id;
      assert refs[i].id in IdsOf(keys);
    }
  }
}
