/** The specification algebra and its conjunctive/disjunctive normalisers
    (SpecificationUtils.toCnf / toDnf). A leaf is any specification that is not
    an And, an Or or a Not; its truth at the (key, value) under test is given
    by `test`. */
module Specification {
  import opened Collect

  datatype Spec<L> =
    | Leaf(literal: L)
    | And(specs: seq<Spec<L>>)
    | Or(specs: seq<Spec<L>>)
    | Not(spec: Spec<L>)

  /** `test` on a specification: And needs every child (so And([]) holds), Or
      needs some child (so Or([]) fails), Not negates. */
  predicate Holds<L>(s: Spec<L>, test: L -> bool)
  {
    match s
    case Leaf(l) => test(l)
    case And(xs) => forall i | 0 <= i < |xs| :: Holds(xs[i], test)
    case Or(xs) => exists i | 0 <= i < |xs| :: Holds(xs[i], test)
    case Not(x) => !Holds(x, test)
  }

  // ---------------------------------------------------------------------------
  // Termination measure: a Not weighs twice its child, so pushing a Not into an
  // And or an Or (De Morgan) and removing a double Not both make progress.

  function Rank<L>(s: Spec<L>): (r: nat)
    ensures r >= 1
  {
    match s
    case Leaf(_) => 1
    case And(xs) => 1 + RankAll(xs)
    case Or(xs) => 1 + RankAll(xs)
    case Not(x) => 2 * Rank(x)
  }

  function RankAll<L>(xs: seq<Spec<L>>): nat
  {
    if xs == [] then 0 else Rank(xs[0]) + RankAll(xs[1..])
  }

  /** NotSpecification::not applied to every child. */
  function MapNot<L>(xs: seq<Spec<L>>): (r: seq<Spec<L>>)
    ensures |r| == |xs| && forall i | 0 <= i < |xs| :: r[i] == Not(xs[i])
    ensures RankAll(r) == 2 * RankAll(xs)
  {
    if xs == [] then [] else [Not(xs[0])] + MapNot(xs[1..])
  }

  // ---------------------------------------------------------------------------
  // Normal-form shapes.

  /** A leaf or a negated leaf. */
  predicate IsLiteral<L>(s: Spec<L>)
  {
    s.Leaf? || (s.Not? && s.spec.Leaf?)
  }

  /** A CNF clause: a literal or an Or of literals. */
  predicate IsClause<L>(s: Spec<L>)
  {
    IsLiteral(s) || (s.Or? && forall i | 0 <= i < |s.specs| :: IsLiteral(s.specs[i]))
  }

  /** A DNF term: a literal or an And of literals. */
  predicate IsTerm<L>(s: Spec<L>)
  {
    IsLiteral(s) || (s.And? && forall i | 0 <= i < |s.specs| :: IsLiteral(s.specs[i]))
  }

  predicate IsCnf<L>(s: Spec<L>)
  {
    s.And? && forall i | 0 <= i < |s.specs| :: IsClause(s.specs[i])
  }

  predicate IsDnf<L>(s: Spec<L>)
  {
    s.Or? && forall i | 0 <= i < |s.specs| :: IsTerm(s.specs[i])
  }

  // ---------------------------------------------------------------------------
  // toCnf

  /** SpecificationUtils.toCnf: always an And. */
  function ToCnf<L>(s: Spec<L>): (r: Spec<L>)
    ensures r.And?
    decreases Rank(s), 0
  {
    match s
    case And(xs) => And(CnfConcat(xs))
    case Or(xs) => And(OrClauses(Distribute(CnfConjuncts(xs))))
    case Not(x) =>
      (match x
       case Not(y) => assert Rank(s) == 4 * Rank(y); ToCnf(y)
       case And(ys) => assert Rank(Or(MapNot(ys))) < Rank(s); ToCnf(Or(MapNot(ys)))
       case Or(ys) => assert Rank(And(MapNot(ys))) < Rank(s); ToCnf(And(MapNot(ys)))
       case Leaf(_) => And([s]))
    case Leaf(_) => And([s])
  }

  /** The conjuncts of the children's CNFs, concatenated in order (flattens ANDs). */
  function CnfConcat<L>(xs: seq<Spec<L>>): seq<Spec<L>>
    decreases RankAll(xs), 1
  {
    if xs == [] then [] else ToCnf(xs[0]).specs + CnfConcat(xs[1..])
  }

  /** The list of conjuncts of each child's CNF. */
  function CnfConjuncts<L>(xs: seq<Spec<L>>): (r: seq<seq<Spec<L>>>)
    ensures |r| == |xs|
    decreases RankAll(xs), 1
  {
    if xs == [] then [] else [ToCnf(xs[0]).specs] + CnfConjuncts(xs[1..])
  }

  /** Children of `d`, with a directly nested Or replaced by its children. */
  function FlattenOr<L>(d: seq<Spec<L>>): seq<Spec<L>>
  {
    if d == [] then [] else (if d[0].Or? then d[0].specs else [d[0]]) + FlattenOr(d[1..])
  }

  /** One flattened Or per distributed pick. */
  function OrClauses<L>(ds: seq<seq<Spec<L>>>): (r: seq<Spec<L>>)
    ensures |r| == |ds| && forall i | 0 <= i < |ds| :: r[i] == Or(FlattenOr(ds[i]))
  {
    seq(|ds|, i requires 0 <= i < |ds| => Or(FlattenOr(ds[i])))
  }

  // ---------------------------------------------------------------------------
  // toDnf: the same algorithm with And and Or exchanged.

  /** SpecificationUtils.toDnf: always an Or. */
  function ToDnf<L>(s: Spec<L>): (r: Spec<L>)
    ensures r.Or?
    decreases Rank(s), 0
  {
    match s
    case Or(xs) => Or(DnfConcat(xs))
    case And(xs) => Or(AndTerms(Distribute(DnfDisjuncts(xs))))
    case Not(x) =>
      (match x
       case Not(y) => assert Rank(s) == 4 * Rank(y); ToDnf(y)
       case And(ys) => assert Rank(Or(MapNot(ys))) < Rank(s); ToDnf(Or(MapNot(ys)))
       case Or(ys) => assert Rank(And(MapNot(ys))) < Rank(s); ToDnf(And(MapNot(ys)))
       case Leaf(_) => Or([s]))
    case Leaf(_) => Or([s])
  }

  /** The disjuncts of the children's DNFs, concatenated in order (flattens ORs). */
  function DnfConcat<L>(xs: seq<Spec<L>>): seq<Spec<L>>
    decreases RankAll(xs), 1
  {
    if xs == [] then [] else ToDnf(xs[0]).specs + DnfConcat(xs[1..])
  }

  /** The list of disjuncts of each child's DNF. */
  function DnfDisjuncts<L>(xs: seq<Spec<L>>): (r: seq<seq<Spec<L>>>)
    ensures |r| == |xs|
    decreases RankAll(xs), 1
  {
    if xs == [] then [] else [ToDnf(xs[0]).specs] + DnfDisjuncts(xs[1..])
  }

  /** Children of `d`, with a directly nested And replaced by its children. */
  function FlattenAnd<L>(d: seq<Spec<L>>): seq<Spec<L>>
  {
    if d == [] then [] else (if d[0].And? then d[0].specs else [d[0]]) + FlattenAnd(d[1..])
  }

  /** One flattened And per distributed pick. */
  function AndTerms<L>(ds: seq<seq<Spec<L>>>): (r: seq<Spec<L>>)
    ensures |r| == |ds| && forall i | 0 <= i < |ds| :: r[i] == And(FlattenAnd(ds[i]))
  {
    seq(|ds|, i requires 0 <= i < |ds| => And(FlattenAnd(ds[i])))
  }

  // ---------------------------------------------------------------------------
  // Semantics of concatenation and flattening.

  lemma AndConcat<L>(a: seq<Spec<L>>, b: seq<Spec<L>>, t: L -> bool)
    ensures Holds(And(a + b), t) == (Holds(And(a), t) && Holds(And(b), t))
  {
    var ab := a + b;
    if Holds(And(a), t) && Holds(And(b), t) {
      forall i | 0 <= i < |ab| ensures Holds(ab[i], t) {
        if i >= |a| { assert ab[i] == b[i - |a|]; }
      }
    }
    if Holds(And(ab), t) {
      forall i | 0 <= i < |a| ensures Holds(a[i], t) {
        assert ab[i] == a[i];
      }
      forall i | 0 <= i < |b| ensures Holds(b[i], t) {
        assert ab[i + |a|] == b[i];
      }
    }
  }

  lemma OrConcat<L>(a: seq<Spec<L>>, b: seq<Spec<L>>, t: L -> bool)
    ensures Holds(Or(a + b), t) == (Holds(Or(a), t) || Holds(Or(b), t))
  {
    var ab := a + b;
    if Holds(Or(ab), t) {
      var i :| 0 <= i < |ab| && Holds(ab[i], t);
      if i >= |a| { assert ab[i] == b[i - |a|]; }
    }
    if Holds(Or(a), t) {
      var i :| 0 <= i < |a| && Holds(a[i], t);
      assert ab[i] == a[i];
    }
    if Holds(Or(b), t) {
      var i :| 0 <= i < |b| && Holds(b[i], t);
      assert ab[i + |a|] == b[i];
    }
  }

  /** Splicing the children of nested Ors into their parent keeps its meaning. */
  lemma {:induction false} FlattenOrSound<L>(d: seq<Spec<L>>, t: L -> bool)
    ensures Holds(Or(FlattenOr(d)), t) == Holds(Or(d), t)
  {
    if d != [] {
      var head := if d[0].Or? then d[0].specs else [d[0]];
      FlattenOrSound(d[1..], t);
      OrConcat(head, FlattenOr(d[1..]), t);
      OrConcat([d[0]], d[1..], t);
      assert [d[0]] + d[1..] == d;
    }
  }

  /** Splicing the children of nested Ands into their parent keeps its meaning. */
  lemma {:induction false} FlattenAndSound<L>(d: seq<Spec<L>>, t: L -> bool)
    ensures Holds(And(FlattenAnd(d)), t) == Holds(And(d), t)
  {
    if d != [] {
      var head := if d[0].And? then d[0].specs else [d[0]];
      FlattenAndSound(d[1..], t);
      AndConcat(head, FlattenAnd(d[1..]), t);
      AndConcat([d[0]], d[1..], t);
      assert [d[0]] + d[1..] == d;
    }
  }

  // ---------------------------------------------------------------------------
  // Distributive laws over the Cartesian product.

  /** Every pick of one member from each list has a member that holds. */
  predicate EveryPickHolds<L>(xss: seq<seq<Spec<L>>>, t: L -> bool)
  {
    forall j | 0 <= j < |Distribute(xss)| :: Holds(Or(Distribute(xss)[j]), t)
  }

  /** Some list has all its members holding. */
  predicate SomeListHolds<L>(xss: seq<seq<Spec<L>>>, t: L -> bool)
  {
    exists i | 0 <= i < |xss| :: Holds(And(xss[i]), t)
  }

  /** An And of Ors over every pick holds exactly when some list holds entirely. */
  lemma CnfDistributes<L>(xss: seq<seq<Spec<L>>>, t: L -> bool)
    ensures EveryPickHolds(xss, t) <==> SomeListHolds(xss, t)
  {
    CnfSomeListHolds(xss, t);
    if SomeListHolds(xss, t) {
      var i :| 0 <= i < |xss| && Holds(And(xss[i]), t);
      CnfPicksHold(xss, t, i);
    }
  }

  /** When list `i` holds entirely, every pick takes a true member from it. */
  lemma CnfPicksHold<L>(xss: seq<seq<Spec<L>>>, t: L -> bool, i: int)
    requires 0 <= i < |xss| && Holds(And(xss[i]), t)
    ensures EveryPickHolds(xss, t)
  {
    var ds := Distribute(xss);
    forall j | 0 <= j < |ds| ensures Holds(Or(ds[j]), t) {
      var c := ds[j];
      DistributeMember(xss, c);
      var k :| 0 <= k < |xss[i]| && xss[i][k] == c[i];
      assert Holds(c[i], t);
    }
  }

  /** When every pick holds, some list holds entirely: otherwise a false
      member of the first list, put before each pick of the rest, shows the
      rest has a list that holds. */
  lemma {:induction false} CnfSomeListHolds<L>(xss: seq<seq<Spec<L>>>, t: L -> bool)
    ensures EveryPickHolds(xss, t) ==> SomeListHolds(xss, t)
  {
    var ds := Distribute(xss);
    if xss == [] {
      assert ds == [[]];
      assert !Holds(Or(ds[0]), t);
    } else if EveryPickHolds(xss, t) && !Holds(And(xss[0]), t) {
      var rest := Distribute(xss[1..]);
      var k :| 0 <= k < |xss[0]| && !Holds(xss[0][k], t);
      var y := xss[0][k];
      forall j | 0 <= j < |rest| ensures Holds(Or(rest[j]), t) {
        var c := [y] + rest[j];
        assert c[1..] == rest[j];
        PrependEachMember(xss[0], rest, c);
        var m :| 0 <= m < |ds| && ds[m] == c;
        assert Holds(Or(c), t);
        var w :| 0 <= w < |c| && Holds(c[w], t);
        assert c[w] == rest[j][w - 1];
      }
      assert EveryPickHolds(xss[1..], t);
      CnfSomeListHolds(xss[1..], t);
      var i :| 0 <= i < |xss[1..]| && Holds(And(xss[1..][i]), t);
      assert xss[i + 1] == xss[1..][i];
    }
  }

  /** Some pick of one member from each list has all its members holding. */
  predicate SomePickHolds<L>(xss: seq<seq<Spec<L>>>, t: L -> bool)
  {
    exists j | 0 <= j < |Distribute(xss)| :: Holds(And(Distribute(xss)[j]), t)
  }

  /** Every list has a member that holds. */
  predicate EveryListHolds<L>(xss: seq<seq<Spec<L>>>, t: L -> bool)
  {
    forall i | 0 <= i < |xss| :: Holds(Or(xss[i]), t)
  }

  /** An Or of Ands over every pick holds exactly when every list has a member that holds. */
  lemma DnfDistributes<L>(xss: seq<seq<Spec<L>>>, t: L -> bool)
    ensures SomePickHolds(xss, t) <==> EveryListHolds(xss, t)
  {
    DnfSomePickHolds(xss, t);
    if SomePickHolds(xss, t) {
      var j :| 0 <= j < |Distribute(xss)| && Holds(And(Distribute(xss)[j]), t);
      DnfListsHold(xss, t, j);
    }
  }

  /** When pick `j` holds entirely, each list has its member in that pick holding. */
  lemma DnfListsHold<L>(xss: seq<seq<Spec<L>>>, t: L -> bool, j: int)
    requires 0 <= j < |Distribute(xss)| && Holds(And(Distribute(xss)[j]), t)
    ensures EveryListHolds(xss, t)
  {
    var c := Distribute(xss)[j];
    DistributeMember(xss, c);
    forall i | 0 <= i < |xss| ensures Holds(Or(xss[i]), t) {
      var k :| 0 <= k < |xss[i]| && xss[i][k] == c[i];
      assert Holds(c[i], t);
    }
  }

  /** When every list has a member that holds, a true member of the first
      list put before a pick of the rest that holds is a pick that holds. */
  lemma {:induction false} DnfSomePickHolds<L>(xss: seq<seq<Spec<L>>>, t: L -> bool)
    ensures EveryListHolds(xss, t) ==> SomePickHolds(xss, t)
  {
    var ds := Distribute(xss);
    if xss == [] {
      assert ds == [[]];
      assert Holds(And(ds[0]), t);
    } else if EveryListHolds(xss, t) {
      var rest := Distribute(xss[1..]);
      forall i | 0 <= i < |xss[1..]| ensures Holds(Or(xss[1..][i]), t) {
        assert xss[1..][i] == xss[i + 1];
      }
      DnfSomePickHolds(xss[1..], t);
      var j' :| 0 <= j' < |rest| && Holds(And(rest[j']), t);
      assert Holds(Or(xss[0]), t);
      var k :| 0 <= k < |xss[0]| && Holds(xss[0][k], t);
      var c := [xss[0][k]] + rest[j'];
      assert c[1..] == rest[j'];
      PrependEachMember(xss[0], rest, c);
      var m :| 0 <= m < |ds| && ds[m] == c;
      forall w | 0 <= w < |c| ensures Holds(c[w], t) {
        if w > 0 { assert c[w] == rest[j'][w - 1]; }
      }
      assert Holds(And(ds[m]), t);
    }
  }

  // ---------------------------------------------------------------------------
  // toCnf preserves truth for every assignment of the leaves.

  lemma {:induction false} CnfSound<L>(s: Spec<L>, t: L -> bool)
    ensures Holds(ToCnf(s), t) == Holds(s, t)
    decreases Rank(s), 0
  {
    match s
    case Leaf(_) => assert ToCnf(s).specs[0] == s;
    case And(xs) => CnfConcatSound(xs, t);
    case Or(xs) =>
      CnfConjunctsSound(xs, t);
      CnfOfOrSound(xs, CnfConjuncts(xs), t);
    case Not(x) =>
      match x
      case Leaf(_) => assert ToCnf(s).specs[0] == s;
      case Not(y) =>
        assert Rank(s) == 4 * Rank(y);
        CnfSound(y, t);
      case And(ys) =>
        assert Rank(Or(MapNot(ys))) < Rank(s);
        CnfSound(Or(MapNot(ys)), t);
        DeMorganAnd(ys, t);
      case Or(ys) =>
        assert Rank(And(MapNot(ys))) < Rank(s);
        CnfSound(And(MapNot(ys)), t);
        DeMorganOr(ys, t);
  }

  /** The CNF of an Or, the flattened Ors of every pick from lists `ls` whose
      Ands mean what the Or's children mean, holds exactly when the Or does. */
  lemma CnfOfOrSound<L>(xs: seq<Spec<L>>, ls: seq<seq<Spec<L>>>, t: L -> bool)
    requires |ls| == |xs| && forall i | 0 <= i < |xs| :: Holds(And(ls[i]), t) == Holds(xs[i], t)
    ensures Holds(And(OrClauses(Distribute(ls))), t) == Holds(Or(xs), t)
  {
    var ds := Distribute(ls);
    var cs := OrClauses(ds);
    assert Holds(And(cs), t) == EveryPickHolds(ls, t) by {
      forall j | 0 <= j < |ds| ensures Holds(cs[j], t) == Holds(Or(ds[j]), t) {
        FlattenOrSound(ds[j], t);
      }
    }
    assert SomeListHolds(ls, t) == Holds(Or(xs), t) by {
      if Holds(Or(xs), t) {
        var i :| 0 <= i < |xs| && Holds(xs[i], t);
        assert Holds(And(ls[i]), t);
      }
    }
    CnfDistributes(ls, t);
  }

  lemma {:induction false} CnfConcatSound<L>(xs: seq<Spec<L>>, t: L -> bool)
    ensures Holds(And(CnfConcat(xs)), t) == Holds(And(xs), t)
    decreases RankAll(xs), 1
  {
    if xs != [] {
      CnfSound(xs[0], t);
      CnfConcatSound(xs[1..], t);
      AndConcat(ToCnf(xs[0]).specs, CnfConcat(xs[1..]), t);
      AndConcat([xs[0]], xs[1..], t);
      assert [xs[0]] + xs[1..] == xs;
    }
  }

  lemma {:induction false} CnfConjunctsSound<L>(xs: seq<Spec<L>>, t: L -> bool)
    ensures forall i | 0 <= i < |xs| :: Holds(And(CnfConjuncts(xs)[i]), t) == Holds(xs[i], t)
    decreases RankAll(xs), 1
  {
    if xs != [] {
      CnfSound(xs[0], t);
      CnfConjunctsSound(xs[1..], t);
      forall i | 1 <= i < |xs| ensures Holds(And(CnfConjuncts(xs)[i]), t) == Holds(xs[i], t) {
        assert CnfConjuncts(xs)[i] == CnfConjuncts(xs[1..])[i - 1];
        assert xs[i] == xs[1..][i - 1];
      }
    }
  }

  /** De Morgan: not(and xs) holds exactly when or(map not xs) does. */
  lemma DeMorganAnd<L>(xs: seq<Spec<L>>, t: L -> bool)
    ensures Holds(Or(MapNot(xs)), t) == Holds(Not(And(xs)), t)
  {
    var nxs := MapNot(xs);
    if Holds(Not(And(xs)), t) {
      assert !Holds(And(xs), t);
      var i :| 0 <= i < |xs| && !Holds(xs[i], t);
      assert Holds(nxs[i], t);
    }
  }

  /** De Morgan: not(or xs) holds exactly when and(map not xs) does. */
  lemma DeMorganOr<L>(xs: seq<Spec<L>>, t: L -> bool)
    ensures Holds(And(MapNot(xs)), t) == Holds(Not(Or(xs)), t)
  {
    var nxs := MapNot(xs);
    if Holds(Not(Or(xs)), t) {
      assert !Holds(Or(xs), t);
      forall i | 0 <= i < |xs| ensures Holds(nxs[i], t) {
        assert nxs[i] == Not(xs[i]);
      }
    }
  }

  // ---------------------------------------------------------------------------
  // toDnf preserves truth for every assignment of the leaves.

  lemma {:induction false} DnfSound<L>(s: Spec<L>, t: L -> bool)
    ensures Holds(ToDnf(s), t) == Holds(s, t)
    decreases Rank(s), 0
  {
    match s
    case Leaf(_) => assert ToDnf(s).specs[0] == s;
    case Or(xs) => DnfConcatSound(xs, t);
    case And(xs) =>
      DnfDisjunctsSound(xs, t);
      DnfOfAndSound(xs, DnfDisjuncts(xs), t);
    case Not(x) =>
      match x
      case Leaf(_) => assert ToDnf(s).specs[0] == s;
      case Not(y) =>
        assert Rank(s) == 4 * Rank(y);
        DnfSound(y, t);
      case And(ys) =>
        assert Rank(Or(MapNot(ys))) < Rank(s);
        DnfSound(Or(MapNot(ys)), t);
        DeMorganAnd(ys, t);
      case Or(ys) =>
        assert Rank(And(MapNot(ys))) < Rank(s);
        DnfSound(And(MapNot(ys)), t);
        DeMorganOr(ys, t);
  }

  /** The DNF of an And, the flattened Ands of every pick from lists `ls` whose
      Ors mean what the And's children mean, holds exactly when the And does. */
  lemma DnfOfAndSound<L>(xs: seq<Spec<L>>, ls: seq<seq<Spec<L>>>, t: L -> bool)
    requires |ls| == |xs| && forall i | 0 <= i < |xs| :: Holds(Or(ls[i]), t) == Holds(xs[i], t)
    ensures Holds(Or(AndTerms(Distribute(ls))), t) == Holds(And(xs), t)
  {
    var ds := Distribute(ls);
    var cs := AndTerms(ds);
    assert Holds(Or(cs), t) == SomePickHolds(ls, t) by {
      forall j | 0 <= j < |ds| ensures Holds(cs[j], t) == Holds(And(ds[j]), t) {
        FlattenAndSound(ds[j], t);
      }
      if Holds(Or(cs), t) {
        var j :| 0 <= j < |cs| && Holds(cs[j], t);
        assert Holds(And(ds[j]), t);
      }
    }
    assert EveryListHolds(ls, t) == Holds(And(xs), t) by {
      if Holds(And(xs), t) {
        forall i | 0 <= i < |ls| ensures Holds(Or(ls[i]), t) {
          assert Holds(xs[i], t);
        }
      }
    }
    DnfDistributes(ls, t);
  }

  lemma {:induction false} DnfConcatSound<L>(xs: seq<Spec<L>>, t: L -> bool)
    ensures Holds(Or(DnfConcat(xs)), t) == Holds(Or(xs), t)
    decreases RankAll(xs), 1
  {
    if xs != [] {
      DnfSound(xs[0], t);
      DnfConcatSound(xs[1..], t);
      OrConcat(ToDnf(xs[0]).specs, DnfConcat(xs[1..]), t);
      OrConcat([xs[0]], xs[1..], t);
      assert [xs[0]] + xs[1..] == xs;
    }
  }

  lemma {:induction false} DnfDisjunctsSound<L>(xs: seq<Spec<L>>, t: L -> bool)
    ensures forall i | 0 <= i < |xs| :: Holds(Or(DnfDisjuncts(xs)[i]), t) == Holds(xs[i], t)
    decreases RankAll(xs), 1
  {
    if xs != [] {
      DnfSound(xs[0], t);
      DnfDisjunctsSound(xs[1..], t);
      forall i | 1 <= i < |xs| ensures Holds(Or(DnfDisjuncts(xs)[i]), t) == Holds(xs[i], t) {
        assert DnfDisjuncts(xs)[i] == DnfDisjuncts(xs[1..])[i - 1];
        assert xs[i] == xs[1..][i - 1];
      }
    }
  }

  // ---------------------------------------------------------------------------
  // Output shape: toCnf gives an And of clauses, toDnf an Or of terms.

  lemma {:induction false} FlattenOrLiterals<L>(d: seq<Spec<L>>)
    requires forall m | 0 <= m < |d| :: IsClause(d[m])
    ensures forall k | 0 <= k < |FlattenOr(d)| :: IsLiteral(FlattenOr(d)[k])
  {
    if d != [] {
      FlattenOrLiterals(d[1..]);
      var head := if d[0].Or? then d[0].specs else [d[0]];
      assert forall k | 0 <= k < |head| :: IsLiteral(head[k]);
      assert FlattenOr(d) == head + FlattenOr(d[1..]);
    }
  }

  lemma {:induction false} FlattenAndLiterals<L>(d: seq<Spec<L>>)
    requires forall m | 0 <= m < |d| :: IsTerm(d[m])
    ensures forall k | 0 <= k < |FlattenAnd(d)| :: IsLiteral(FlattenAnd(d)[k])
  {
    if d != [] {
      FlattenAndLiterals(d[1..]);
      var head := if d[0].And? then d[0].specs else [d[0]];
      assert forall k | 0 <= k < |head| :: IsLiteral(head[k]);
      assert FlattenAnd(d) == head + FlattenAnd(d[1..]);
    }
  }

  /** toCnf yields a conjunction of literals and Ors of literals. */
  lemma {:induction false} CnfShape<L>(s: Spec<L>)
    ensures IsCnf(ToCnf(s))
    decreases Rank(s), 0
  {
    match s
    case Leaf(_) => assert ToCnf(s).specs == [s];
    case And(xs) => CnfConcatShape(xs);
    case Or(xs) =>
      var ls := CnfConjuncts(xs);
      var ds := Distribute(ls);
      CnfConjunctsShape(xs);
      forall j | 0 <= j < |ds| ensures IsClause(Or(FlattenOr(ds[j]))) {
        DistributeMember(ls, ds[j]);
        forall m | 0 <= m < |ds[j]| ensures IsClause(ds[j][m]) {
          var k :| 0 <= k < |ls[m]| && ls[m][k] == ds[j][m];
        }
        FlattenOrLiterals(ds[j]);
      }
    case Not(x) =>
      match x
      case Leaf(_) => assert ToCnf(s).specs == [s];
      case Not(y) =>
        assert Rank(s) == 4 * Rank(y);
        CnfShape(y);
      case And(ys) =>
        assert Rank(Or(MapNot(ys))) < Rank(s);
        CnfShape(Or(MapNot(ys)));
      case Or(ys) =>
        assert Rank(And(MapNot(ys))) < Rank(s);
        CnfShape(And(MapNot(ys)));
  }

  lemma {:induction false} CnfConcatShape<L>(xs: seq<Spec<L>>)
    ensures forall k | 0 <= k < |CnfConcat(xs)| :: IsClause(CnfConcat(xs)[k])
    decreases RankAll(xs), 1
  {
    if xs != [] {
      CnfShape(xs[0]);
      CnfConcatShape(xs[1..]);
    }
  }

  lemma {:induction false} CnfConjunctsShape<L>(xs: seq<Spec<L>>)
    ensures forall i, k | 0 <= i < |xs| && 0 <= k < |CnfConjuncts(xs)[i]| :: IsClause(CnfConjuncts(xs)[i][k])
    decreases RankAll(xs), 1
  {
    if xs != [] {
      CnfShape(xs[0]);
      CnfConjunctsShape(xs[1..]);
      forall i | 1 <= i < |xs| ensures CnfConjuncts(xs)[i] == CnfConjuncts(xs[1..])[i - 1] {
      }
    }
  }

  /** toDnf yields a disjunction of literals and Ands of literals. */
  lemma {:induction false} DnfShape<L>(s: Spec<L>)
    ensures IsDnf(ToDnf(s))
    decreases Rank(s), 0
  {
    match s
    case Leaf(_) => assert ToDnf(s).specs == [s];
    case Or(xs) => DnfConcatShape(xs);
    case And(xs) =>
      var ls := DnfDisjuncts(xs);
      var ds := Distribute(ls);
      DnfDisjunctsShape(xs);
      forall j | 0 <= j < |ds| ensures IsTerm(And(FlattenAnd(ds[j]))) {
        DistributeMember(ls, ds[j]);
        forall m | 0 <= m < |ds[j]| ensures IsTerm(ds[j][m]) {
          var k :| 0 <= k < |ls[m]| && ls[m][k] == ds[j][m];
        }
        FlattenAndLiterals(ds[j]);
      }
    case Not(x) =>
      match x
      case Leaf(_) => assert ToDnf(s).specs == [s];
      case Not(y) =>
        assert Rank(s) == 4 * Rank(y);
        DnfShape(y);
      case And(ys) =>
        assert Rank(Or(MapNot(ys))) < Rank(s);
        DnfShape(Or(MapNot(ys)));
      case Or(ys) =>
        assert Rank(And(MapNot(ys))) < Rank(s);
        DnfShape(And(MapNot(ys)));
  }

  lemma {:induction false} DnfConcatShape<L>(xs: seq<Spec<L>>)
    ensures forall k | 0 <= k < |DnfConcat(xs)| :: IsTerm(DnfConcat(xs)[k])
    decreases RankAll(xs), 1
  {
    if xs != [] {
      DnfShape(xs[0]);
      DnfConcatShape(xs[1..]);
    }
  }

  lemma {:induction false} DnfDisjunctsShape<L>(xs: seq<Spec<L>>)
    ensures forall i, k | 0 <= i < |xs| && 0 <= k < |DnfDisjuncts(xs)[i]| :: IsTerm(DnfDisjuncts(xs)[i][k])
    decreases RankAll(xs), 1
  {
    if xs != [] {
      DnfShape(xs[0]);
      DnfDisjunctsShape(xs[1..]);
      forall i | 1 <= i < |xs| ensures DnfDisjuncts(xs)[i] == DnfDisjuncts(xs[1..])[i - 1] {
      }
    }
  }

  // ---------------------------------------------------------------------------
  // Structure of individual cases.

  /** The CNF of an Or has one clause per combination of the children's
      conjuncts: the product of their conjunct counts. */
  lemma {:induction false} CnfOrCount<L>(xs: seq<Spec<L>>)
    ensures |ToCnf(Or(xs)).specs| == Product(CnfConjuncts(xs))
    ensures forall i | 0 <= i < |xs| :: CnfConjuncts(xs)[i] == ToCnf(xs[i]).specs
  {
    DistributeLength(CnfConjuncts(xs));
    CnfConjunctsAt(xs);
  }

  lemma {:induction false} CnfConjunctsAt<L>(xs: seq<Spec<L>>)
    ensures forall i | 0 <= i < |xs| :: CnfConjuncts(xs)[i] == ToCnf(xs[i]).specs
  {
    if xs != [] {
      CnfConjunctsAt(xs[1..]);
      forall i | 1 <= i < |xs| ensures CnfConjuncts(xs)[i] == ToCnf(xs[i]).specs {
        assert CnfConjuncts(xs)[i] == CnfConjuncts(xs[1..])[i - 1];
      }
    }
  }

  lemma {:induction false} CnfConcatAppend<L>(a: seq<Spec<L>>, b: seq<Spec<L>>)
    ensures CnfConcat(a + b) == CnfConcat(a) + CnfConcat(b)
  {
    if a == [] {
      assert a + b == b;
    } else {
      assert (a + b)[1..] == a[1..] + b;
      CnfConcatAppend(a[1..], b);
    }
  }

  /** A nested And is flattened into its parent's CNF: converting And([And(a)] + b)
      gives the same conjuncts as converting And(a + b). */
  lemma CnfFlattensAnd<L>(a: seq<Spec<L>>, b: seq<Spec<L>>)
    ensures ToCnf(And([And(a)] + b)) == ToCnf(And(a + b))
  {
    var xs := [And(a)] + b;
    assert xs[0] == And(a) && xs[1..] == b;
    assert CnfConcat(xs) == ToCnf(And(a)).specs + CnfConcat(b);
    CnfConcatAppend(a, b);
  }

  /** Double negation, De Morgan and negated literals, as toCnf rewrites them. */
  lemma CnfNegation<L>(s: Spec<L>, xs: seq<Spec<L>>, l: L)
    ensures ToCnf(Not(Not(s))) == ToCnf(s)
    ensures ToCnf(Not(And(xs))) == ToCnf(Or(MapNot(xs)))
    ensures ToCnf(Not(Or(xs))) == ToCnf(And(MapNot(xs)))
    ensures ToCnf(Not(Leaf(l))) == And([Not(Leaf(l))])
  {
  }

  /** Double negation, De Morgan and negated literals, as toDnf rewrites them. */
  lemma DnfNegation<L>(s: Spec<L>, xs: seq<Spec<L>>, l: L)
    ensures ToDnf(Not(Not(s))) == ToDnf(s)
    ensures ToDnf(Not(And(xs))) == ToDnf(Or(MapNot(xs)))
    ensures ToDnf(Not(Or(xs))) == ToDnf(And(MapNot(xs)))
    ensures ToDnf(Not(Leaf(l))) == Or([Not(Leaf(l))])
  {
  }

  // ---------------------------------------------------------------------------
  // toDnf is toCnf with And and Or exchanged throughout.

  /** Exchanges And and Or at every level. */
  function Swap<L>(s: Spec<L>): Spec<L>
  {
    match s
    case Leaf(_) => s
    case And(xs) => Or(SwapAll(xs))
    case Or(xs) => And(SwapAll(xs))
    case Not(x) => Not(Swap(x))
  }

  function SwapAll<L>(xs: seq<Spec<L>>): (r: seq<Spec<L>>)
    ensures |r| == |xs| && forall i | 0 <= i < |xs| :: r[i] == Swap(xs[i])
  {
    if xs == [] then [] else [Swap(xs[0])] + SwapAll(xs[1..])
  }

  function SwapEach<L>(ds: seq<seq<Spec<L>>>): (r: seq<seq<Spec<L>>>)
    ensures |r| == |ds| && forall i | 0 <= i < |ds| :: r[i] == SwapAll(ds[i])
  {
    seq(|ds|, i requires 0 <= i < |ds| => SwapAll(ds[i]))
  }

  lemma SwapAllAppend<L>(a: seq<Spec<L>>, b: seq<Spec<L>>)
    ensures SwapAll(a + b) == SwapAll(a) + SwapAll(b)
  {
    var l, r := SwapAll(a + b), SwapAll(a) + SwapAll(b);
    assert |l| == |r|;
    forall i | 0 <= i < |l| ensures l[i] == r[i] {
      if i < |a| {
        assert (a + b)[i] == a[i] && r[i] == SwapAll(a)[i];
      } else {
        assert (a + b)[i] == b[i - |a|] && r[i] == SwapAll(b)[i - |a|];
      }
    }
    assert l == r;
  }

  lemma SwapAllNot<L>(xs: seq<Spec<L>>)
    ensures SwapAll(MapNot(xs)) == MapNot(SwapAll(xs))
  {
    assert forall i | 0 <= i < |xs| :: SwapAll(MapNot(xs))[i] == MapNot(SwapAll(xs))[i];
  }

  lemma {:induction false} SwapFlatten<L>(d: seq<Spec<L>>)
    ensures SwapAll(FlattenOr(d)) == FlattenAnd(SwapAll(d))
  {
    if d != [] {
      SwapFlatten(d[1..]);
      var head := if d[0].Or? then d[0].specs else [d[0]];
      SwapAllAppend(head, FlattenOr(d[1..]));
      assert SwapAll(d)[1..] == SwapAll(d[1..]);
      assert SwapAll(head) == if SwapAll(d)[0].And? then SwapAll(d)[0].specs else [SwapAll(d)[0]];
    }
  }

  lemma {:induction false} SwapPrependEach<L>(heads: seq<Spec<L>>, tails: seq<seq<Spec<L>>>)
    ensures PrependEach(SwapAll(heads), SwapEach(tails)) == SwapEach(PrependEach(heads, tails))
  {
    if heads != [] {
      SwapPrependEach(heads[1..], tails);
      assert SwapAll(heads)[1..] == SwapAll(heads[1..]);
      var firsts := seq(|tails|, i requires 0 <= i < |tails| => [heads[0]] + tails[i]);
      var sfirsts := seq(|tails|, i requires 0 <= i < |tails| => [Swap(heads[0])] + SwapEach(tails)[i]);
      forall i | 0 <= i < |tails| ensures sfirsts[i] == SwapAll(firsts[i]) {
        SwapAllAppend([heads[0]], tails[i]);
      }
      var p := PrependEach(heads[1..], tails);
      assert SwapEach(firsts + p) == SwapEach(firsts) + SwapEach(p);
    }
  }

  lemma {:induction false} SwapDistribute<L>(xss: seq<seq<Spec<L>>>)
    ensures Distribute(SwapEach(xss)) == SwapEach(Distribute(xss))
  {
    if xss != [] {
      assert SwapEach(xss)[1..] == SwapEach(xss[1..]);
      SwapDistribute(xss[1..]);
      SwapPrependEach(xss[0], Distribute(xss[1..]));
    } else {
      assert SwapEach(xss) == [];
      assert SwapAll<L>([]) == [];
    }
  }

  /** toDnf(s) is toCnf of the swapped tree, swapped back. */
  lemma {:induction false} DnfIsDualOfCnf<L>(s: Spec<L>)
    ensures ToDnf(s) == Swap(ToCnf(Swap(s)))
    decreases Rank(s), 0
  {
    match s
    case Leaf(_) =>
    case Or(xs) => DualConcat(xs);
    case And(xs) =>
      var ls := CnfConjuncts(SwapAll(xs));
      var ds := Distribute(ls);
      DualDisjuncts(xs);
      SwapDistribute(ls);
      var cs := OrClauses(ds);
      forall j | 0 <= j < |ds| ensures SwapAll(cs)[j] == AndTerms(SwapEach(ds))[j] {
        SwapFlatten(ds[j]);
      }
    case Not(x) =>
      match x
      case Leaf(_) =>
      case Not(y) =>
        assert Rank(s) == 4 * Rank(y);
        DnfIsDualOfCnf(y);
      case And(ys) =>
        assert Rank(Or(MapNot(ys))) < Rank(s);
        DnfIsDualOfCnf(Or(MapNot(ys)));
        SwapAllNot(ys);
      case Or(ys) =>
        assert Rank(And(MapNot(ys))) < Rank(s);
        DnfIsDualOfCnf(And(MapNot(ys)));
        SwapAllNot(ys);
  }

  lemma {:induction false} DualConcat<L>(xs: seq<Spec<L>>)
    ensures DnfConcat(xs) == SwapAll(CnfConcat(SwapAll(xs)))
    decreases RankAll(xs), 1
  {
    if xs != [] {
      DnfIsDualOfCnf(xs[0]);
      DualConcat(xs[1..]);
      assert SwapAll(xs)[1..] == SwapAll(xs[1..]);
      SwapAllAppend(ToCnf(Swap(xs[0])).specs, CnfConcat(SwapAll(xs[1..])));
    }
  }

  lemma {:induction false} DualDisjuncts<L>(xs: seq<Spec<L>>)
    ensures DnfDisjuncts(xs) == SwapEach(CnfConjuncts(SwapAll(xs)))
    decreases RankAll(xs), 1
  {
    if xs != [] {
      DnfIsDualOfCnf(xs[0]);
      DualDisjuncts(xs[1..]);
      assert SwapAll(xs)[1..] == SwapAll(xs[1..]);
      var l := CnfConjuncts(SwapAll(xs));
      assert l == [ToCnf(Swap(xs[0])).specs] + CnfConjuncts(SwapAll(xs[1..]));
      assert SwapEach(l)[1..] == SwapEach(CnfConjuncts(SwapAll(xs[1..])));
    }
  }
}
