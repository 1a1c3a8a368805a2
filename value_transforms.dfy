/** The conversions between the multimap form of a class's or graph's
    dependent values (as the API carries them) and the keyed maps the stores
    hold, and the positional indices given to attribute lists. */
module Transforms {
  import opened Domain
  import opened Collect

  // ---------------------------------------------------------------------------
  // Multimap of values to keyed values: attribute -> [v0, v1, ...] becomes
  // (subject, attribute, i) -> vi, duplicates dropped.

  /** The keyed form of `input`: for every attribute, its distinct values in
      order of first occurrence, at indices 0, 1, ... */
  ghost function IndexedValues<S, V(!new)>(subject: S, input: map<string, seq<V>>): map<ValueId<S>, V>
    decreases |input|
  {
    if input == map[] then map[]
    else
      var a := Pick(input.Keys);
      IndexedValues(subject, input - {a}) + Prefix(subject, a, Dedupe(input[a]), |Dedupe(input[a])|)
  }

  /** Some attribute of a non-empty set. */
  ghost function Pick(attributes: set<string>): (a: string)
    requires attributes != {}
    ensures a in attributes
  {
    var a :| a in attributes; a
  }

  /** The entries for the first `n` values of one attribute. */
  function Prefix<S(==), V>(subject: S, attribute: string, values: seq<V>, n: nat): map<ValueId<S>, V>
    requires n <= |values|
  {
    if n == 0 then map[] else Prefix(subject, attribute, values, n - 1)[ValueId(subject, attribute, n - 1) := values[n - 1]]
  }

  /** The entries for attributes in `done`, and for the first `n` values of
      `attribute`, are those of IndexedValues. */
  ghost predicate IndexedUpTo<S(!new), V(!new)>(result: map<ValueId<S>, V>, subject: S, input: map<string, seq<V>>,
                                          done: set<string>, attribute: string, n: nat)
  {
    (forall k :: k in result <==>
       k.subject == subject && k.attribute in input &&
       (k.attribute in done || (k.attribute == attribute && k.index < n)) &&
       0 <= k.index < |Dedupe(input[k.attribute])|) &&
    (forall k | k in result :: result[k] == Dedupe(input[k.attribute])[k.index])
  }

  /** ReferenceAttributeValueIdDtoToModel(subject).apply(input): for each
      attribute, walk its de-duplicated values with a counter that starts at
      0, putting each value under (subject, attribute, counter). */
  method DtoToModel<S(==,!new), V(==,!new)>(subject: S, input: map<string, seq<V>>) returns (result: map<ValueId<S>, V>)
    ensures result == IndexedValues(subject, input)
  {
    result := map[];
    var todo := input.Keys;
    while todo != {}
      invariant todo <= input.Keys
      invariant IndexedUpTo(result, subject, input, input.Keys - todo, "", 0)
      decreases todo
    {
      var attribute :| attribute in todo;
      ghost var done := input.Keys - todo;
      var values := Dedupe(input[attribute]);
      var index := 0;
      while index < |values|
        invariant 0 <= index <= |values|
        invariant IndexedUpTo(result, subject, input, done, attribute, index)
      {
        result := result[ValueId(subject, attribute, index) := values[index]];
        index := index + 1;
      }
      todo := todo - {attribute};
      assert input.Keys - todo == done + {attribute};
    }
    forall k ensures k in result <==> k in IndexedValues(subject, input) {
      IndexedKeys(subject, input, k);
    }
    forall k | k in result ensures result[k] == IndexedValues(subject, input)[k] {
      IndexedKeys(subject, input, k);
    }
  }

  /** Every key carries the subject, and a key is present exactly when its
      index is below the number of distinct values of its attribute. */
  lemma {:induction false} IndexedKeys<S, V(!new)>(subject: S, input: map<string, seq<V>>, k: ValueId<S>)
    ensures k in IndexedValues(subject, input) <==>
      k.subject == subject && k.attribute in input && 0 <= k.index < |Dedupe(input[k.attribute])|
    ensures k in IndexedValues(subject, input) ==> IndexedValues(subject, input)[k] == Dedupe(input[k.attribute])[k.index]
    decreases |input|
  {
    if input != map[] {
      var a := Pick(input.Keys);
      var rest := input - {a};
      IndexedKeys(subject, rest, k);
      PrefixAt(subject, a, Dedupe(input[a]), |Dedupe(input[a])|, k);
      if k.attribute != a && k.attribute in input {
        assert k.attribute in rest && rest[k.attribute] == input[k.attribute];
      }
    }
  }

  /** The indices of each attribute are exactly 0 .. k-1, k being its number of
      distinct values: the counter restarts for every attribute. */
  lemma {:induction false} DenseIndices<S, V(!new)>(subject: S, input: map<string, seq<V>>, a: string)
    requires a in input
    ensures forall i :: ValueId(subject, a, i) in IndexedValues(subject, input) <==> 0 <= i < DistinctCount(input[a])
  {
    DedupeCount(input[a]);
    var n := |Dedupe(input[a])|;
    forall i ensures ValueId(subject, a, i) in IndexedValues(subject, input) <==> 0 <= i < n {
      IndexedKeys(subject, input, ValueId(subject, a, i));
    }
  }

  /** Each distinct value of an attribute appears exactly once among its
      entries, and the first occurrence decides its position. */
  lemma FirstOccurrenceWins<S, V(!new)>(subject: S, input: map<string, seq<V>>, a: string, j: nat)
    requires a in input && j < |input[a]| && input[a][j] !in input[a][..j]
    ensures var k := ValueId(subject, a, DistinctCount(input[a][..j]));
      k in IndexedValues(subject, input) && IndexedValues(subject, input)[k] == input[a][j]
    ensures forall i | ValueId(subject, a, i) in IndexedValues(subject, input) &&
                       IndexedValues(subject, input)[ValueId(subject, a, i)] == input[a][j]
              :: i == DistinctCount(input[a][..j])
  {
    var xs := input[a];
    DedupeCount(xs[..j]);
    DedupeFirstOccurrence(xs, j);
    var m := IndexedValues(subject, input);
    var p := |Dedupe(xs[..j])|;
    IndexedKeys(subject, input, ValueId(subject, a, p));
    forall i | ValueId(subject, a, i) in m && m[ValueId(subject, a, i)] == xs[j] ensures i == p {
      IndexedKeys(subject, input, ValueId(subject, a, i));
      assert Dedupe(xs)[i] == Dedupe(xs)[p];
    }
  }

  /** The number of distinct values in a list. */
  function DistinctCount<V(==,!new)>(xs: seq<V>): nat
  {
    |set x | x in xs|
  }

  /** De-duplication keeps one copy of each distinct value. */
  lemma DedupeCount<V(!new)>(xs: seq<V>)
    ensures |Dedupe(xs)| == DistinctCount(xs)
  {
    DistinctCardinality(Dedupe(xs));
    assert (set x | x in Dedupe(xs)) == (set x | x in xs);
  }

  /** The sum over attributes of their numbers of distinct values. */
  ghost function TotalDistinct<V(!new)>(input: map<string, seq<V>>): nat
    decreases |input|
  {
    if input == map[] then 0
    else
      var a :| a in input;
      DistinctCount(input[a]) + TotalDistinct(input - {a})
  }

  lemma {:induction false} PrefixAt<S, V>(subject: S, a: string, values: seq<V>, n: nat, k: ValueId<S>)
    requires n <= |values|
    ensures k in Prefix(subject, a, values, n) <==> k.subject == subject && k.attribute == a && 0 <= k.index < n
    ensures k in Prefix(subject, a, values, n) ==> Prefix(subject, a, values, n)[k] == values[k.index]
  {
    if n > 0 {
      PrefixAt(subject, a, values, n - 1, k);
    }
  }

  lemma {:induction false} PrefixSize<S, V>(subject: S, a: string, values: seq<V>, n: nat)
    requires n <= |values|
    ensures |Prefix(subject, a, values, n).Keys| == n
  {
    if n > 0 {
      PrefixSize(subject, a, values, n - 1);
      PrefixAt(subject, a, values, n - 1, ValueId(subject, a, n - 1));
    }
  }

  /** The keys of one attribute split off from the others. */
  lemma SplitAttribute<S, V(!new)>(subject: S, input: map<string, seq<V>>, a: string)
    requires a in input
    ensures var head := Prefix(subject, a, Dedupe(input[a]), |Dedupe(input[a])|).Keys;
      var rest := IndexedValues(subject, input - {a}).Keys;
      IndexedValues(subject, input).Keys == rest + head && rest !! head
  {
    var head := Prefix(subject, a, Dedupe(input[a]), |Dedupe(input[a])|).Keys;
    var rest := IndexedValues(subject, input - {a}).Keys;
    var all := IndexedValues(subject, input).Keys;
    forall k | k in all ensures k in rest + head {
      SplitAttributeAt(subject, input, a, k);
    }
    forall k | k in rest + head ensures k in all {
      SplitAttributeAt(subject, input, a, k);
    }
    forall k | k in rest ensures k !in head {
      SplitAttributeAt(subject, input, a, k);
    }
  }

  lemma SplitAttributeAt<S, V(!new)>(subject: S, input: map<string, seq<V>>, a: string, k: ValueId<S>)
    requires a in input
    ensures k in IndexedValues(subject, input) <==>
      k in IndexedValues(subject, input - {a}) || k in Prefix(subject, a, Dedupe(input[a]), |Dedupe(input[a])|)
    ensures !(k in IndexedValues(subject, input - {a}) && k in Prefix(subject, a, Dedupe(input[a]), |Dedupe(input[a])|))
  {
    var rest := input - {a};
    IndexedKeys(subject, input, k);
    IndexedKeys(subject, rest, k);
    PrefixAt(subject, a, Dedupe(input[a]), |Dedupe(input[a])|, k);
    if k.attribute != a && k.attribute in input {
      assert k.attribute in rest && rest[k.attribute] == input[k.attribute];
    } else {
      assert k.attribute !in rest;
    }
  }

  /** The result has one entry per distinct value of each attribute, no more. */
  lemma {:induction false} IndexedValuesSize<S, V(!new)>(subject: S, input: map<string, seq<V>>)
    ensures |IndexedValues(subject, input).Keys| == TotalDistinct(input)
    decreases |input|
  {
    if input != map[] {
      var a :| a in input && TotalDistinct(input) == DistinctCount(input[a]) + TotalDistinct(input - {a});
      IndexedValuesSize(subject, input - {a});
      var values := Dedupe(input[a]);
      PrefixSize(subject, a, values, |values|);
      DedupeCount(input[a]);
      SplitAttribute(subject, input, a);
    } else {
      forall k ensures k !in IndexedValues(subject, input) {
        IndexedKeys(subject, input, k);
      }
      assert IndexedValues(subject, input).Keys == {};
    }
  }

  lemma DedupeExample<V(!new)>(v1: V, v2: V, v3: V)
    requires v1 != v2 && v1 != v3 && v2 != v3
    ensures Dedupe([v1, v2, v1, v3]) == [v1, v2, v3]
  {
    assert [v1, v2, v1, v3][..3] == [v1, v2, v1];
    assert [v1, v2, v1][..2] == [v1, v2];
    assert [v1, v2][..1] == [v1];
    assert [v1][..0] == [];
    assert Dedupe([v1]) == [v1];
    assert Dedupe([v1, v2]) == [v1, v2];
    assert Dedupe([v1, v2, v1]) == [v1, v2];
  }

  /** The worked example: values [v1, v2, v1, v3] of one attribute give
      {0 -> v1, 1 -> v2, 2 -> v3}. */
  lemma IndexedValuesExample<S, V(!new)>(subject: S, a: string, v1: V, v2: V, v3: V)
    requires v1 != v2 && v1 != v3 && v2 != v3
    ensures IndexedValues(subject, map[a := [v1, v2, v1, v3]])
         == map[ValueId(subject, a, 0) := v1, ValueId(subject, a, 1) := v2, ValueId(subject, a, 2) := v3]
  {
    var input := map[a := [v1, v2, v1, v3]];
    DedupeExample(v1, v2, v3);
    var m := IndexedValues(subject, input);
    var e := map[ValueId(subject, a, 0) := v1, ValueId(subject, a, 1) := v2, ValueId(subject, a, 2) := v3];
    forall k ensures k in m <==> k in e {
      IndexedKeys(subject, input, k);
      if k in m {
        assert k == ValueId(subject, a, k.index);
      }
    }
    forall k | k in m ensures k in e && e[k] == m[k] {
      IndexedKeys(subject, input, k);
      assert k == ValueId(subject, a, k.index);
    }
  }

  // ---------------------------------------------------------------------------
  // Keyed values back to a multimap, by consecutive index from 0.

  /** The values of one attribute at indices i, i + 1, ... up to the first missing index. */
  function ValuesFrom<S(==), V>(m: map<ValueId<S>, V>, subject: S, attribute: string, i: int): seq<V>
    decreases |m|
  {
    var k := ValueId(subject, attribute, i);
    if k in m then [m[k]] + ValuesFrom(m - {k}, subject, attribute, i + 1) else []
  }

  /** PropertyValueModelToDto: the attributes of `subject` present in `m`,
      each with its values in index order. */
  function ValuesDto<S(==), V>(m: map<ValueId<S>, V>, subject: S): map<string, seq<V>>
  {
    map a | a in (set k | k in m && k.subject == subject :: k.attribute) :: ValuesFrom(m, subject, a, 0)
  }

  /** A multimap has no key without values: the attributes that have some. */
  function NonEmptyValues<V>(input: map<string, seq<V>>): map<string, seq<V>>
  {
    map a | a in input && input[a] != [] :: input[a]
  }

  lemma {:induction false} ValuesFromDense<S, V>(m: map<ValueId<S>, V>, subject: S, attribute: string, values: seq<V>, i: nat)
    requires i <= |values|
    requires forall j | i <= j < |values| :: ValueId(subject, attribute, j) in m && m[ValueId(subject, attribute, j)] == values[j]
    requires ValueId(subject, attribute, |values|) !in m
    ensures ValuesFrom(m, subject, attribute, i) == values[i..]
    decreases |values| - i
  {
    if i < |values| {
      var k := ValueId(subject, attribute, i);
      ValuesFromDense(m - {k}, subject, attribute, values, i + 1);
      assert values[i..] == [values[i]] + values[i + 1..];
    }
  }

  /** Reading back the keyed values gives, per attribute, its distinct values
      in order of first occurrence: the multimap, de-duplicated. */
  lemma ValuesRoundTrip<S, V(!new)>(subject: S, input: map<string, seq<V>>)
    ensures ValuesDto(IndexedValues(subject, input), subject) == NonEmptyValues(DedupeAll(input))
  {
    var m := IndexedValues(subject, input);
    var l := ValuesDto(m, subject);
    var r := NonEmptyValues(DedupeAll(input));
    forall a ensures a in l <==> a in r {
      if a in r {
        IndexedKeys(subject, input, ValueId(subject, a, 0));
      }
      if a in l {
        var k :| k in m && k.subject == subject && k.attribute == a;
        IndexedKeys(subject, input, k);
      }
    }
    forall a | a in l ensures l[a] == r[a] {
      var values := Dedupe(input[a]);
      forall j | 0 <= j < |values| ensures ValueId(subject, a, j) in m && m[ValueId(subject, a, j)] == values[j] {
        IndexedKeys(subject, input, ValueId(subject, a, j));
      }
      IndexedKeys(subject, input, ValueId(subject, a, |values|));
      ValuesFromDense(m, subject, a, values, 0);
    }
  }

  /** Every attribute's values de-duplicated. */
  function DedupeAll<V(==,!new)>(input: map<string, seq<V>>): (r: map<string, seq<V>>)
    ensures r.Keys == input.Keys
    ensures forall a | a in r :: r[a] == Dedupe(input[a])
  {
    map a | a in input :: Dedupe(input[a])
  }

  // ---------------------------------------------------------------------------
  // Role permissions: role -> {permission} to ObjectRolePermission keys.

  /** RolePermissionsDtoToModel: one granted key per (role, permission) pair. */
  function PermissionModel<K(==)>(objectId: K, permissions: map<string, set<Permission>>)
    : map<ObjectRolePermission<K>, GrantedPermission>
  {
    map r, p | r in permissions && p in permissions[r] :: ObjectRolePermission(objectId, r, p) := Granted
  }

  /** RolePermissionsModelToDto: the permissions of each role that has some. */
  function PermissionDto<K(==)>(m: map<ObjectRolePermission<K>, GrantedPermission>): map<string, set<Permission>>
  {
    map r | r in RolesOf(m) :: PermissionsOf(m, r)
  }

  function RolesOf<K(==)>(m: map<ObjectRolePermission<K>, GrantedPermission>): set<string>
  {
    set k | k in m :: k.role
  }

  function PermissionsOf<K(==)>(m: map<ObjectRolePermission<K>, GrantedPermission>, role: string): set<Permission>
  {
    set k | k in m && k.role == role :: k.permission
  }

  /** A multimap has no role without permissions. */
  function NonEmptyPermissions(permissions: map<string, set<Permission>>): map<string, set<Permission>>
  {
    map r | r in permissions && permissions[r] != {} :: permissions[r]
  }

  /** A key is in the model exactly when its role grants its permission on the object. */
  lemma PermissionKeys<K>(objectId: K, permissions: map<string, set<Permission>>, k: ObjectRolePermission<K>)
    ensures k in PermissionModel(objectId, permissions) <==>
      k.objectId == objectId && k.role in permissions && k.permission in permissions[k.role]
  {
    if k.objectId == objectId && k.role in permissions && k.permission in permissions[k.role] {
      assert k == ObjectRolePermission(objectId, k.role, k.permission);
    }
  }

  /** Reading back the granted keys gives the role permissions again. */
  lemma PermissionRoundTrip<K>(objectId: K, permissions: map<string, set<Permission>>)
    ensures PermissionDto(PermissionModel(objectId, permissions)) == NonEmptyPermissions(permissions)
  {
    var m := PermissionModel(objectId, permissions);
    var l := PermissionDto(m);
    var r := NonEmptyPermissions(permissions);
    forall a ensures a in l <==> a in r {
      if a in r {
        var p :| p in permissions[a];
        PermissionKeys(objectId, permissions, ObjectRolePermission(objectId, a, p));
      }
    }
    forall a | a in l ensures l[a] == r[a] {
      forall p ensures p in l[a] <==> p in r[a] {
        PermissionKeys(objectId, permissions, ObjectRolePermission(objectId, a, p));
      }
    }
  }

  // ---------------------------------------------------------------------------
  // Graph roles.

  /** GraphRoleDtoToModel: one key per role of the graph. */
  function RoleModel(graphId: GraphId, roles: set<string>): map<GraphRole, Empty>
  {
    map r | r in roles :: GraphRole(graphId, r) := Empty
  }

  /** GraphRoleModelToDto: the role names. */
  function RoleDto(m: map<GraphRole, Empty>): set<string>
  {
    set k | k in m :: k.role
  }

  /** Reading back the role keys gives the roles again. */
  lemma RoleRoundTrip(graphId: GraphId, roles: set<string>)
    ensures RoleDto(RoleModel(graphId, roles)) == roles
  {
    forall r | r in roles ensures r in RoleDto(RoleModel(graphId, roles)) {
      assert GraphRole(graphId, r) in RoleModel(graphId, roles);
    }
  }

  // ---------------------------------------------------------------------------
  // Attribute lists.

  /** newLinkedHashMap(transform(attributes, ToIdEntry(domain))): each
      attribute under the key built from its id; a later attribute with the
      same id replaces an earlier one. */
  function AttributeMap<P, K(==)>(attributes: seq<Attribute<P>>, key: string -> K): map<K, Attribute<P>>
  {
    if attributes == [] then map[]
    else
      var last := attributes[|attributes| - 1];
      AttributeMap(attributes[..|attributes| - 1], key)[key(last.id) := last]
  }

  /** A key is present exactly when some attribute's id gives it, and holds the
      last such attribute. */
  lemma {:induction false} AttributeMapAt<P, K>(attributes: seq<Attribute<P>>, key: string -> K, k: K)
    ensures k in AttributeMap(attributes, key) <==> exists i | 0 <= i < |attributes| :: key(attributes[i].id) == k
    ensures k in AttributeMap(attributes, key) ==>
      exists i | 0 <= i < |attributes| :: key(attributes[i].id) == k && AttributeMap(attributes, key)[k] == attributes[i] &&
        forall j | i < j < |attributes| :: key(attributes[j].id) != k
  {
    if attributes != [] {
      var n := |attributes| - 1;
      var init := attributes[..n];
      if key(attributes[n].id) == k {
        assert AttributeMap(attributes, key)[k] == attributes[n];
      } else {
        AttributeMapAt(init, key, k);
        assert k in AttributeMap(attributes, key) <==> k in AttributeMap(init, key);
        if k in AttributeMap(init, key) {
          var i :| 0 <= i < |init| && key(init[i].id) == k && AttributeMap(init, key)[k] == init[i] &&
            forall j | i < j < |init| :: key(init[j].id) != k;
          assert attributes[i] == init[i];
        } else {
          forall i | 0 <= i < |attributes| ensures key(attributes[i].id) != k {
            if i < n { assert init[i] == attributes[i]; }
          }
        }
      }
    }
  }

  /** The list with every element's index set to its position. */
  function WithIndices<P>(attributes: seq<Attribute<P>>): (r: seq<Attribute<P>>)
    ensures |r| == |attributes|
    ensures forall i | 0 <= i < |r| ::
      r[i].index == Some(i) && r[i].id == attributes[i].id && r[i].payload == attributes[i].payload
  {
    seq(|attributes|, i requires 0 <= i < |attributes| => attributes[i].(index := Some(i)))
  }

  /** Setting the indices again changes nothing. */
  lemma WithIndicesIdempotent<P>(attributes: seq<Attribute<P>>)
    ensures WithIndices(WithIndices(attributes)) == WithIndices(attributes)
  {
  }

  /** addTextAttrIndices / addRefAttrIndices: a counting loop that sets each
      element's index to its position, in place. */
  method AddIndices<P>(attributes: array<Attribute<P>>)
    modifies attributes
    ensures attributes[..] == WithIndices(old(attributes[..]))
  {
    var i := 0;
    while i < attributes.Length
      invariant 0 <= i <= attributes.Length
      invariant forall j | 0 <= j < i :: attributes[j] == old(attributes[j]).(index := Some(j))
      invariant forall j | i <= j < attributes.Length :: attributes[j] == old(attributes[j])
    {
      attributes[i] := attributes[i].(index := Some(i));
      i := i + 1;
    }
  }
}
