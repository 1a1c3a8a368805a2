/** The keyed stores the repositories write through: each one a table of
    rows from key to value, with the calls made on every store recorded in
    one shared journal so that the order of writes can be stated. */
module Persistence {
  import opened Domain
  import opened Collect

  /** The tables behind the class and graph repositories. */
  datatype Store =
    | ClassStore | ClassPermissionStore | ClassPropertyStore
    | TextAttributeStore | ReferenceAttributeStore
    | GraphStore | GraphRoleStore | GraphPermissionStore | GraphPropertyStore

  datatype Op = InsertOp | UpdateOp | DeleteOp

  /** One write call: which store, which operation. */
  datatype Call = Call(store: Store, op: Op)

  /** The order in which write calls reached the stores. */
  class Journal {
    var calls: seq<Call>

    constructor ()
      ensures calls == []
    {
      calls := [];
    }
  }

  // ---------------------------------------------------------------------------
  // The effect of each write on a table, as functions.

  /** insert: every given row is stored, replacing a row with the same key. */
  function Inserted<K, V>(rows: map<K, V>, m: map<K, V>): (r: map<K, V>)
  {
    rows + m
  }

  /** update: rows already present take the given values; keys not present are ignored. */
  function Updated<K, V>(rows: map<K, V>, m: map<K, V>): (r: map<K, V>)
  {
    map k | k in rows :: if k in m then m[k] else rows[k]
  }

  /** delete: the rows with the given keys are gone. */
  function Deleted<K, V>(rows: map<K, V>, ks: set<K>): (r: map<K, V>)
  {
    rows - ks
  }

  /** How the writes combine: an update never adds a row, and is an insert
      when every given key is present; deleting what was just inserted is
      deleting those keys; inserting over a delete of the same keys is the
      insert alone; updating with the rows just inserted changes nothing. */
  lemma WriteLaws<K, V>(rows: map<K, V>, m: map<K, V>)
    ensures Updated(rows, m).Keys == rows.Keys
    ensures m.Keys <= rows.Keys ==> Updated(rows, m) == Inserted(rows, m)
    ensures Deleted(Inserted(rows, m), m.Keys) == Deleted(rows, m.Keys)
    ensures Inserted(Deleted(rows, m.Keys), m) == Inserted(rows, m)
    ensures Updated(Inserted(rows, m), m) == Inserted(rows, m)
  {
  }

  /** The rows a specification selects: getMap(spec). */
  function Slice<K(!new), V>(rows: map<K, V>, owned: K -> bool): (r: map<K, V>)
    ensures forall k :: k in r <==> k in rows && owned(k)
    ensures forall k | k in r :: r[k] == rows[k]
  {
    map k | k in rows && owned(k) :: rows[k]
  }

  /** A table after the writes a three-way difference calls for: insert the
      entries only on the left, update the differing ones with their left
      values, delete the keys only on the right. */
  function Apply<K, V>(rows: map<K, V>, d: MapDifference<K, V>): map<K, V>
  {
    Deleted(Updated(Inserted(rows, d.onlyOnLeft), LeftValues(d.differing)), d.onlyOnRight.Keys)
  }

  /** The same without the update step, for tables whose rows carry nothing
      beyond their key (granted permissions, roles). */
  function ApplyKeys<K, V>(rows: map<K, V>, d: MapDifference<K, V>): map<K, V>
  {
    Deleted(Inserted(rows, d.onlyOnLeft), d.onlyOnRight.Keys)
  }

  /** The keys a difference writes. */
  function Written<K, V>(d: MapDifference<K, V>): set<K>
  {
    d.onlyOnLeft.Keys + d.differing.Keys + d.onlyOnRight.Keys
  }

  // ---------------------------------------------------------------------------
  // The specifications that select one owner's dependent rows.

  /** The permission rows granted on object `id` (ClassPermissionsByClassId,
      GraphPermissionsByGraphId). */
  function PermissionsByObject<K(==)>(id: K): ObjectRolePermission<K> -> bool
  {
    (k: ObjectRolePermission<K>) => k.objectId == id
  }

  /** The property value rows of subject `id` (ClassPropertiesByClassId,
      GraphPropertiesByGraphId). */
  function PropertiesBySubject<S(==)>(id: S): ValueId<S> -> bool
  {
    (k: ValueId<S>) => k.subject == id
  }

  function PermissionObject<K>(k: ObjectRolePermission<K>): K
  {
    k.objectId
  }

  function PropertySubject<S>(k: ValueId<S>): S
  {
    k.subject
  }

  // ---------------------------------------------------------------------------
  // A store.

  class Dao<K(==,!new), V(==)> {
    const store: Store
    const journal: Journal
    /** The table's rows. */
    var rows: map<K, V>
    /** Every key some write call has been given. */
    ghost var written: set<K>

    constructor (store: Store, journal: Journal)
      ensures this.store == store && this.journal == journal
      ensures rows == map[] && written == {}
    {
      this.store := store;
      this.journal := journal;
      rows := map[];
      written := {};
    }

    method Insert(m: map<K, V>)
      modifies this, journal
      ensures rows == Inserted(old(rows), m)
      ensures written == old(written) + m.Keys
      ensures journal.calls == old(journal.calls) + [Call(store, InsertOp)]
    {
      rows := Inserted(rows, m);
      written := written + m.Keys;
      journal.calls := journal.calls + [Call(store, InsertOp)];
    }

    method Update(m: map<K, V>)
      modifies this, journal
      ensures rows == Updated(old(rows), m)
      ensures written == old(written) + m.Keys
      ensures journal.calls == old(journal.calls) + [Call(store, UpdateOp)]
    {
      rows := Updated(rows, m);
      written := written + m.Keys;
      journal.calls := journal.calls + [Call(store, UpdateOp)];
    }

    method Delete(ks: set<K>)
      modifies this, journal
      ensures rows == Deleted(old(rows), ks)
      ensures written == old(written) + ks
      ensures journal.calls == old(journal.calls) + [Call(store, DeleteOp)]
    {
      rows := Deleted(rows, ks);
      written := written + ks;
      journal.calls := journal.calls + [Call(store, DeleteOp)];
    }

    /** The writes a three-way difference calls for, in the order the
        repositories issue them: insert, update, delete. */
    method WriteDifference(d: MapDifference<K, V>)
      modifies this, journal
      ensures rows == Apply(old(rows), d)
      ensures written == old(written) + Written(d)
      ensures journal.calls == old(journal.calls) + [Call(store, InsertOp), Call(store, UpdateOp), Call(store, DeleteOp)]
    {
      Insert(d.onlyOnLeft);
      Update(LeftValues(d.differing));
      Delete(d.onlyOnRight.Keys);
    }

    /** The same without the update, for rows that carry nothing beyond their key. */
    method WriteKeyDifference(d: MapDifference<K, V>)
      modifies this, journal
      ensures rows == ApplyKeys(old(rows), d)
      ensures written == old(written) + d.onlyOnLeft.Keys + d.onlyOnRight.Keys
      ensures journal.calls == old(journal.calls) + [Call(store, InsertOp), Call(store, DeleteOp)]
    {
      Insert(d.onlyOnLeft);
      Delete(d.onlyOnRight.Keys);
    }

    method Exists(k: K) returns (b: bool)
      ensures b <==> k in rows
    {
      b := k in rows;
    }

    method Get(k: K) returns (r: Option<V>)
      ensures r.Some? <==> k in rows
      ensures r.Some? ==> r.value == rows[k]
    {
      r := if k in rows then Some(rows[k]) else None;
    }

    method GetMap(owned: K -> bool) returns (r: map<K, V>)
      ensures r == Slice(rows, owned)
    {
      r := Slice(rows, owned);
    }

    method GetKeys(owned: K -> bool) returns (r: set<K>)
      ensures r == Slice(rows, owned).Keys
    {
      r := Slice(rows, owned).Keys;
    }
  }

  // ---------------------------------------------------------------------------
  // Reconciling one owner's rows with a desired map.

  /** If `current` is what the table holds for an owner, applying the
      difference of `desired` against it leaves exactly `desired` for that owner. */
  lemma Reconcile<K(!new), V>(rows: map<K, V>, owned: K -> bool, desired: map<K, V>, current: map<K, V>)
    requires Slice(rows, owned) == current
    requires forall k | k in desired :: owned(k)
    ensures Slice(Apply(rows, Difference(desired, current)), owned) == desired
  {
    var d := Difference(desired, current);
    var after := Apply(rows, d);
    forall k ensures k in Slice(after, owned) <==> k in desired {
      if k in desired { assert owned(k); }
      if k in current { assert k in rows && owned(k); }
    }
    forall k | k in desired ensures Slice(after, owned)[k] == desired[k] {
      if k in current { assert current[k] == rows[k]; }
    }
  }

  /** Applying the difference of `left` against `right` to `right` gives
      `left`: the three writes turn the old map into the new one. */
  lemma DifferenceRoundTrip<K(!new), V>(left: map<K, V>, right: map<K, V>)
    ensures Apply(right, Difference(left, right)) == left
  {
    var after := Apply(right, Difference(left, right));
    forall k ensures k in after <==> k in left {
    }
    forall k | k in after ensures after[k] == left[k] {
    }
  }

  /** A difference between two maps of one owner's rows leaves every other
      owner's rows as they were. */
  lemma ApplyKeepsOthers<K(!new), V>(rows: map<K, V>, owned: K -> bool, desired: map<K, V>, current: map<K, V>)
    requires forall k | k in desired :: owned(k)
    requires forall k | k in current :: owned(k)
    ensures forall k | !owned(k) :: (k in Apply(rows, Difference(desired, current)) <==> k in rows)
    ensures forall k | !owned(k) && k in rows :: Apply(rows, Difference(desired, current))[k] == rows[k]
  {
    var d := Difference(desired, current);
    forall k | !owned(k) ensures k !in d.onlyOnLeft && k !in d.differing && k !in d.onlyOnRight {
      assert k !in desired && k !in current;
    }
  }

  /** Rows with nothing but a key never differ, so inserting and deleting
      alone reach the same table. */
  lemma KeysSuffice<K(!new), V>(rows: map<K, V>, desired: map<K, V>, current: map<K, V>)
    requires forall k | k in desired && k in current :: desired[k] == current[k]
    ensures Difference(desired, current).differing == map[]
    ensures ApplyKeys(rows, KeyDifference(desired, current)) == Apply(rows, Difference(desired, current))
  {
    var d := Difference(desired, current);
    assert d.differing.Keys == {};
    assert LeftValues(d.differing) == map[];
    var i := Inserted(rows, d.onlyOnLeft);
    assert Updated(i, map[]) == i;
    assert KeyDifference(desired, current).onlyOnLeft == d.onlyOnLeft;
    assert KeyDifference(desired, current).onlyOnRight == d.onlyOnRight;
  }


  /** An entry present with the same value on both sides is written by none
      of the three calls. */
  lemma NoWriteForEqual<K(!new), V>(desired: map<K, V>, current: map<K, V>, k: K)
    requires k in desired && k in current && desired[k] == current[k]
    ensures k !in Written(Difference(desired, current))
  {
  }

  /** Exactly the keys whose rows must change are written. */
  lemma WrittenKeys<K(!new), V>(desired: map<K, V>, current: map<K, V>, k: K)
    ensures k in Written(Difference(desired, current)) <==>
      (k in desired <==> k !in current) || (k in desired && k in current && desired[k] != current[k])
  {
  }

  /** Deleting the keys an owner holds leaves it none, and the other owners' rows as they were. */
  lemma Drain<K(!new), V>(rows: map<K, V>, owned: K -> bool)
    ensures Slice(Deleted(rows, Slice(rows, owned).Keys), owned) == map[]
    ensures forall k | !owned(k) :: (k in Deleted(rows, Slice(rows, owned).Keys) <==> k in rows)
  {
    var after := Deleted(rows, Slice(rows, owned).Keys);
    forall k ensures k !in Slice(after, owned) {
      if k in rows && owned(k) {
        assert k in Slice(rows, owned);
      }
    }
  }

  /** Inserting an owner's rows where it had none makes them exactly its rows. */
  lemma SliceInserted<K(!new), V>(rows: map<K, V>, owned: K -> bool, m: map<K, V>)
    requires Slice(rows, owned) == map[]
    requires forall k | k in m :: owned(k)
    ensures Slice(Inserted(rows, m), owned) == m
  {
    var after := Slice(Inserted(rows, m), owned);
    forall k ensures k in after <==> k in m {
      assert k in rows && owned(k) ==> k in Slice(rows, owned);
    }
  }

  // ---------------------------------------------------------------------------
  // Inserting the rows of several owners one owner at a time.

  /** Every row `derived(o)` holds belongs to `o`. */
  ghost predicate OwnedBy<O(!new), K(!new), V>(owner: K -> O, derived: O -> map<K, V>)
  {
    forall o, k | k in derived(o) :: owner(k) == o
  }

  /** `rows` holds the derived rows of every owner in `done`, and agrees with
      `before` on the keys of every other owner. */
  ghost predicate InsertedFor<O(!new), K(!new), V>(rows: map<K, V>, before: map<K, V>, done: set<O>,
                                                  owner: K -> O, derived: O -> map<K, V>)
  {
    (forall o, k | o in done && k in derived(o) :: k in rows && rows[k] == derived(o)[k]) &&
    (forall k | owner(k) !in done :: (k in rows <==> k in before) && (k in rows ==> rows[k] == before[k]))
  }

  lemma InsertOwner<O(!new), K(!new), V>(rows: map<K, V>, before: map<K, V>, done: set<O>,
                                         owner: K -> O, derived: O -> map<K, V>, o: O)
    requires OwnedBy(owner, derived)
    requires InsertedFor(rows, before, done, owner, derived)
    ensures InsertedFor(Inserted(rows, derived(o)), before, done + {o}, owner, derived)
  {
    var after := Inserted(rows, derived(o));
    forall o', k | o' in done + {o} && k in derived(o') ensures k in after && after[k] == derived(o')[k] {
      if k in derived(o) {
        assert owner(k) == o && owner(k) == o';
      }
    }
    forall k | owner(k) !in done + {o}
      ensures (k in after <==> k in before) && (k in after ==> after[k] == before[k])
    {
      assert k !in derived(o);
    }
  }

  /** The owners listed in an insertion order. */
  function Owners<O>(order: seq<O>): set<O>
  {
    if order == [] then {} else Owners(order[..|order| - 1]) + {order[|order| - 1]}
  }

  lemma OwnersStep<O>(order: seq<O>, o: O)
    ensures Owners(order + [o]) == Owners(order) + {o}
  {
    assert (order + [o])[..|order|] == order;
  }

  /** A table after inserting the derived rows of each owner of `order`, in that order. */
  function InsertedInOrder<O, K, V>(rows: map<K, V>, derived: O -> map<K, V>, order: seq<O>): map<K, V>
    decreases |order|
  {
    if order == [] then rows
    else Inserted(InsertedInOrder(rows, derived, order[..|order| - 1]), derived(order[|order| - 1]))
  }

  lemma InsertedInOrderStep<O, K, V>(rows: map<K, V>, derived: O -> map<K, V>, order: seq<O>, o: O)
    ensures InsertedInOrder(rows, derived, order + [o]) == Inserted(InsertedInOrder(rows, derived, order), derived(o))
  {
    assert (order + [o])[..|order|] == order;
  }

  /** Whatever the order, inserting owner after owner leaves every listed
      owner's derived rows in the table and every other owner's rows untouched. */
  lemma {:induction false} InsertedInOrderFor<O(!new), K(!new), V>(rows: map<K, V>, owner: K -> O,
                                                                   derived: O -> map<K, V>, order: seq<O>)
    requires OwnedBy(owner, derived)
    ensures InsertedFor(InsertedInOrder(rows, derived, order), rows, Owners(order), owner, derived)
    decreases |order|
  {
    if order != [] {
      var init, last := order[..|order| - 1], order[|order| - 1];
      InsertedInOrderFor(rows, owner, derived, init);
      InsertOwner(InsertedInOrder(rows, derived, init), rows, Owners(init), owner, derived, last);
    }
  }
}
