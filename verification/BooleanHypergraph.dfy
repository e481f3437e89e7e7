/** The graded AND/OR hypergraph evaluator: one worklist closure per collected grade. */
module BooleanHypergraph {
  import opened Options
  import opened Keys
  import opened Numbers
  import opened MaxMinField
  import opened MaxMinSolver

  datatype Hyperedge<S> =
    | Unary(from: Key, to: Key, strength: S)
    | And(premises: seq<Key>, to: Key, strength: S)
    | Or(premises: seq<Key>, to: Key, strength: S)
    | Identity(from: Key, to: Key)

  type RawEdge = Hyperedge<Num>
  type LegalEdge = Hyperedge<int>

  function PremisesOf<S>(e: Hyperedge<S>): seq<Key>
  {
    if e.And? || e.Or? then e.premises else [e.from]
  }

  /** Identity edges carry no strength of their own. */
  predicate StrongEnough(e: LegalEdge, grade: int)
  {
    e.Identity? || e.strength >= grade
  }

  predicate EdgeFires(e: LegalEdge, grade: int, on: set<Key>)
  {
    match e
    case Unary(from, _, strength) => strength >= grade && from in on
    case And(premises, _, strength) => strength >= grade && forall p :: p in premises ==> p in on
    case Or(premises, _, strength) => strength >= grade && exists p :: p in premises && p in on
    case Identity(from, _) => from in on
  }

  // ---------- what the evaluator is for ----------

  /** `n` has a derivation of height at most `k` from seeds and edges of at least `grade`. */
  ghost predicate Derives(seeds: map<Key, int>, edges: seq<LegalEdge>, grade: int, n: Key, k: nat)
    decreases k, 1
  {
    k > 0 &&
      ((n in seeds && seeds[n] >= grade)
       || exists e ::
            e in edges && e.to == n && StrongEnough(e, grade) && PremisesDerive(seeds, edges, grade, e, k - 1))
  }

  ghost predicate PremisesDerive(seeds: map<Key, int>, edges: seq<LegalEdge>, grade: int, e: LegalEdge, k: nat)
    decreases k, 2
  {
    if e.Or? then exists p :: p in e.premises && Derives(seeds, edges, grade, p, k)
    else forall p :: p in PremisesOf(e) ==> Derives(seeds, edges, grade, p, k)
  }

  ghost predicate Derivable(seeds: map<Key, int>, edges: seq<LegalEdge>, grade: int, n: Key)
  {
    exists k :: Derives(seeds, edges, grade, n, k)
  }

  lemma {:induction false} DerivesTaller(seeds: map<Key, int>, edges: seq<LegalEdge>, grade: int, n: Key, k: nat,
                                         m: nat)
    requires k <= m && Derives(seeds, edges, grade, n, k)
    ensures Derives(seeds, edges, grade, n, m)
    decreases k, 1
  {
    hide StrongEnough;
    if !(n in seeds && seeds[n] >= grade) {
      var e :| e in edges && e.to == n && StrongEnough(e, grade) && PremisesDerive(seeds, edges, grade, e, k - 1);
      PremisesTaller(seeds, edges, grade, e, k - 1, m - 1);
    }
  }

  lemma {:induction false} PremisesTaller(seeds: map<Key, int>, edges: seq<LegalEdge>, grade: int, e: LegalEdge,
                                          k: nat, m: nat)
    requires k <= m && PremisesDerive(seeds, edges, grade, e, k)
    ensures PremisesDerive(seeds, edges, grade, e, m)
    decreases k, 2
  {
    forall p | Derives(seeds, edges, grade, p, k) ensures Derives(seeds, edges, grade, p, m) {
      DerivesTaller(seeds, edges, grade, p, k, m);
    }
  }

  /** Finitely many derivable nodes have derivations of one common height. */
  lemma {:induction false} CommonHeight(seeds: map<Key, int>, edges: seq<LegalEdge>, grade: int, ps: seq<Key>)
    returns (k: nat)
    requires forall p :: p in ps ==> Derivable(seeds, edges, grade, p)
    ensures forall p :: p in ps ==> Derives(seeds, edges, grade, p, k)
  {
    hide Derives;
    k := 0;
    for i := 0 to |ps|
      invariant forall p :: p in ps[..i] ==> Derives(seeds, edges, grade, p, k)
    {
      assert ps[..i + 1] == ps[..i] + [ps[i]];
      assert Derivable(seeds, edges, grade, ps[i]);
      var m :| Derives(seeds, edges, grade, ps[i], m);
      var t := if k >= m then k else m;
      forall p | p in ps[..i + 1] ensures Derives(seeds, edges, grade, p, t) {
        DerivesTaller(seeds, edges, grade, p, if p in ps[..i] then k else m, t);
      }
      k := t;
    }
    assert ps[..|ps|] == ps;
  }

  lemma SeedDerivable(seeds: map<Key, int>, edges: seq<LegalEdge>, grade: int, n: Key)
    requires n in seeds && seeds[n] >= grade
    ensures Derivable(seeds, edges, grade, n)
  {
    assert Derives(seeds, edges, grade, n, 1);
  }

  /** An edge that fires from derivable nodes derives its target. */
  lemma FireDerivable(seeds: map<Key, int>, edges: seq<LegalEdge>, grade: int, e: LegalEdge, on: set<Key>)
    requires e in edges && EdgeFires(e, grade, on)
    requires forall p :: p in on ==> Derivable(seeds, edges, grade, p)
    ensures Derivable(seeds, edges, grade, e.to)
  {
    var k: nat;
    if e.Or? {
      var p :| p in e.premises && p in on;
      k :| Derives(seeds, edges, grade, p, k);
      assert PremisesDerive(seeds, edges, grade, e, k);
    } else {
      k := CommonHeight(seeds, edges, grade, PremisesOf(e));
      assert PremisesDerive(seeds, edges, grade, e, k);
    }
    assert Derives(seeds, edges, grade, e.to, k + 1);
  }

  ghost predicate ClosedAt(seeds: map<Key, int>, edges: seq<LegalEdge>, grade: int, on: set<Key>)
  {
    && (forall n :: n in seeds && seeds[n] >= grade ==> n in on)
    && (forall e :: e in edges && EdgeFires(e, grade, on) ==> e.to in on)
  }

  lemma {:induction false} ClosedHasDerived(seeds: map<Key, int>, edges: seq<LegalEdge>, grade: int, on: set<Key>,
                                            n: Key, k: nat)
    requires ClosedAt(seeds, edges, grade, on) && Derives(seeds, edges, grade, n, k)
    ensures n in on
    decreases k
  {
    if !(n in seeds && seeds[n] >= grade) {
      var e :| e in edges && e.to == n && StrongEnough(e, grade) && PremisesDerive(seeds, edges, grade, e, k - 1);
      forall p | Derives(seeds, edges, grade, p, k - 1) ensures p in on {
        ClosedHasDerived(seeds, edges, grade, on, p, k - 1);
      }
      FiresWhenOn(seeds, edges, grade, e, k - 1, on);
    }
  }

  lemma FiresWhenOn(seeds: map<Key, int>, edges: seq<LegalEdge>, grade: int, e: LegalEdge, k: nat, on: set<Key>)
    requires StrongEnough(e, grade) && PremisesDerive(seeds, edges, grade, e, k)
    requires forall p :: Derives(seeds, edges, grade, p, k) ==> p in on
    ensures EdgeFires(e, grade, on)
  {
    hide Derives;
    if !e.Or? {
      forall p | p in PremisesOf(e) ensures p in on { assert Derives(seeds, edges, grade, p, k); }
    }
  }

  // ---------- the closure at one grade ----------

  /** Every edge of `on` that fires has its target on, or a premise still pending, or waits in
      `later`. */
  ghost predicate Settling(edges: seq<LegalEdge>, grade: int, on: set<Key>, pending: seq<Key>, later: seq<LegalEdge>)
  {
    forall e :: e in edges && EdgeFires(e, grade, on) && e.to !in on ==> e in later || Waits(e, pending)
  }

  ghost predicate Waits(e: LegalEdge, pending: seq<Key>)
  {
    exists p :: p in PremisesOf(e) && p in pending
  }

  /** Turning a node on wakes only edges that have it as a premise, and it becomes pending. */
  lemma SettlingAdd(edges: seq<LegalEdge>, grade: int, on: set<Key>, pending: seq<Key>, later: seq<LegalEdge>, n: Key)
    requires Settling(edges, grade, on, pending, later)
    ensures Settling(edges, grade, on + {n}, pending + [n], later)
  {
    forall e | e in edges && EdgeFires(e, grade, on + {n}) && e.to !in on + {n} && e !in later
      ensures Waits(e, pending + [n])
    {
      if EdgeFires(e, grade, on) {
        var p :| p in PremisesOf(e) && p in pending;
        assert p in pending + [n];
      } else {
        assert n in PremisesOf(e);
        assert n in pending + [n];
      }
    }
  }

  lemma SettlingPop(edges: seq<LegalEdge>, grade: int, on: set<Key>, pending: seq<Key>, later: seq<LegalEdge>)
    requires pending != [] && Settling(edges, grade, on, pending, [])
    requires forall e :: e in edges && pending[|pending| - 1] in PremisesOf(e) ==> e in later
    ensures Settling(edges, grade, on, pending[..|pending| - 1], later)
  {
    hide EdgeFires;
    var rest, last := pending[..|pending| - 1], pending[|pending| - 1];
    assert pending == rest + [last];
    forall e | e in edges && EdgeFires(e, grade, on) && e.to !in on && e !in later
      ensures Waits(e, rest)
    {
      var p :| p in PremisesOf(e) && p in pending;
      assert p in rest;
    }
  }

  /** A considered edge leaves `later`: it does not fire, or its target is on. */
  lemma SettlingNext(edges: seq<LegalEdge>, grade: int, on: set<Key>, pending: seq<Key>, later: seq<LegalEdge>)
    requires later != [] && Settling(edges, grade, on, pending, later)
    requires later[0].to in on || !EdgeFires(later[0], grade, on)
    ensures Settling(edges, grade, on, pending, later[1..])
  {
    hide EdgeFires, Waits;
    assert later == [later[0]] + later[1..];
  }

  lemma FiresFromNothing(e: LegalEdge, grade: int)
    ensures EdgeFires(e, grade, {}) ==> e.And? && e.premises == []
  {
    if e.And? && e.premises != [] {
      assert e.premises[0] in e.premises;
    }
  }

  lemma SettlingStart(edges: seq<LegalEdge>, axioms: seq<LegalEdge>, grade: int)
    requires forall e :: e in edges && e.And? && e.premises == [] ==> e in axioms
    ensures Settling(edges, grade, {}, [], axioms)
  {
    forall e | e in edges && EdgeFires(e, grade, {}) ensures e in axioms {
      FiresFromNothing(e, grade);
    }
  }

  ghost predicate IsIndex(index: map<Key, seq<LegalEdge>>, edges: seq<LegalEdge>)
  {
    && ListsOnly(index, edges)
    && (forall e, n :: e in edges && n in PremisesOf(e) ==> n in index && e in index[n])
  }

  ghost predicate AllDerivable(seeds: map<Key, int>, edges: seq<LegalEdge>, grade: int, on: set<Key>)
  {
    forall n :: n in on ==> Derivable(seeds, edges, grade, n)
  }

  ghost function Targets(edges: seq<LegalEdge>): set<Key>
  {
    set i | 0 <= i < |edges| :: edges[i].to
  }

  lemma TargetIn(edges: seq<LegalEdge>, e: LegalEdge)
    requires e in edges
    ensures e.to in Targets(edges)
  {
  }

  /** Considers the edges in `list` once each, in order. */
  method Consider(list: seq<LegalEdge>, grade: int, on0: set<Key>, pending0: seq<Key>,
                  ghost seeds: map<Key, int>, ghost edges: seq<LegalEdge>)
    returns (on: set<Key>, pending: seq<Key>)
    requires Settling(edges, grade, on0, pending0, list) && AllDerivable(seeds, edges, grade, on0)
    requires forall e :: e in list ==> e in edges
    ensures Settling(edges, grade, on, pending, []) && AllDerivable(seeds, edges, grade, on)
    ensures on0 <= on
    ensures (on == on0 && pending == pending0) || Targets(edges) - on < Targets(edges) - on0
  {
    hide EdgeFires, Waits, Derivable, Targets, Settling;
    on, pending := on0, pending0;
    assert list[0..] == list;
    for i := 0 to |list|
      invariant Settling(edges, grade, on, pending, list[i..]) && AllDerivable(seeds, edges, grade, on) && on0 <= on
      invariant (on == on0 && pending == pending0) || Targets(edges) - on < Targets(edges) - on0
    {
      var e := list[i];
      assert list[i..][0] == e && list[i..][1..] == list[i + 1..];
      if e.to !in on && EdgeFires(e, grade, on) {
        FireDerivable(seeds, edges, grade, e, on);
        TargetIn(edges, e);
        SettlingAdd(edges, grade, on, pending, list[i..], e.to);
        on := on + {e.to};
        pending := pending + [e.to];
      }
      SettlingNext(edges, grade, on, pending, list[i..]);
    }
    assert list[|list|..] == [];
  }

  method ClosureAtGrade(grade: int, seeds: map<Key, int>, byPremise: map<Key, seq<LegalEdge>>, axioms: seq<LegalEdge>,
                        ghost edges: seq<LegalEdge>)
    returns (on: set<Key>)
    requires IsIndex(byPremise, edges)
    requires forall e :: e in axioms <==> e in edges && e.And? && e.premises == []
    ensures forall n :: n in on <==> Derivable(seeds, edges, grade, n)
  {
    hide EdgeFires, Waits, Derivable, Targets, Settling;
    var pending: seq<Key>;
    SettlingStart(edges, axioms, grade);
    on, pending := Consider(axioms, grade, {}, [], seeds, edges);
    var todo := seeds.Keys;
    while todo != {}
      invariant todo <= seeds.Keys
      invariant Settling(edges, grade, on, pending, []) && AllDerivable(seeds, edges, grade, on)
      invariant forall n :: n in seeds && seeds[n] >= grade && n !in todo ==> n in on
      decreases todo
    {
      var n :| n in todo;
      todo := todo - {n};
      if seeds[n] >= grade {
        SeedDerivable(seeds, edges, grade, n);
        SettlingAdd(edges, grade, on, pending, [], n);
        on := on + {n};
        pending := pending + [n];
      }
    }
    while |pending| > 0
      invariant Settling(edges, grade, on, pending, []) && AllDerivable(seeds, edges, grade, on)
      invariant forall n :: n in seeds && seeds[n] >= grade ==> n in on
      decreases Targets(edges) - on, |pending|
    {
      var nodeId := pending[|pending| - 1];
      var list := if nodeId in byPremise then byPremise[nodeId] else [];
      SettlingPop(edges, grade, on, pending, list);
      on, pending := Consider(list, grade, on, pending[..|pending| - 1], seeds, edges);
    }
    SettledIsClosed(seeds, edges, grade, on);
  }

  lemma SettledIsClosed(seeds: map<Key, int>, edges: seq<LegalEdge>, grade: int, on: set<Key>)
    requires Settling(edges, grade, on, [], []) && AllDerivable(seeds, edges, grade, on)
    requires forall n :: n in seeds && seeds[n] >= grade ==> n in on
    ensures forall n :: n in on <==> Derivable(seeds, edges, grade, n)
  {
    hide EdgeFires, Derives;
    assert ClosedAt(seeds, edges, grade, on);
    forall n | Derivable(seeds, edges, grade, n) ensures n in on {
      var k :| Derives(seeds, edges, grade, n, k);
      ClosedHasDerived(seeds, edges, grade, on, n, k);
    }
  }

  // ---------- preparing the input ----------

  ghost function Clamped(e: RawEdge, top: nat): LegalEdge
  {
    match e
    case Unary(from, to, strength) => Unary(from, to, ClampInteger(strength, top))
    case And(premises, to, strength) => And(premises, to, ClampInteger(strength, top))
    case Or(premises, to, strength) => Or(premises, to, ClampInteger(strength, top))
    case Identity(from, to) => Identity(from, to)
  }

  predicate Known<S>(nodes: set<Key>, e: Hyperedge<S>)
  {
    e.to in nodes && forall p :: p in PremisesOf(e) ==> p in nodes
  }

  ghost function LegalHyper(nodes: set<Key>, edges: seq<RawEdge>, top: nat): seq<LegalEdge>
  {
    if edges == [] then []
    else
      var last := edges[|edges| - 1];
      var prior := LegalHyper(nodes, edges[..|edges| - 1], top);
      if Known(nodes, last) then prior + [Clamped(last, top)] else prior
  }

  // ---------- derivations in the input itself ----------

  /** Some listed seed gives the known node `n` a clamped grade of at least `grade`. */
  ghost predicate Seeded(nodes: set<Key>, seeds: seq<(Key, Num)>, top: nat, grade: int, n: Key)
  {
    exists v :: v >= grade && Offered(nodes, seeds, top, n, v)
  }

  /** An edge counts when its target and all its premises are known, and at a grade when its clamped
      strength reaches it; identities have no strength. */
  ghost predicate CountsAt(nodes: set<Key>, e: RawEdge, top: nat, grade: int)
  {
    && e.to in nodes
    && match e
       case Unary(from, _, strength) => from in nodes && ClampInteger(strength, top) >= grade
       case And(premises, _, strength) =>
         (forall p :: p in premises ==> p in nodes) && ClampInteger(strength, top) >= grade
       case Or(premises, _, strength) =>
         (forall p :: p in premises ==> p in nodes) && ClampInteger(strength, top) >= grade
       case Identity(from, _) => from in nodes
  }

  /** A node has a derivation of height at most `k` at a grade: it is seeded, or the target of an edge
      that counts, with all premises of an AND, one of an OR, or the source derived. */
  ghost predicate InputDerives(nodes: set<Key>, seeds: seq<(Key, Num)>, edges: seq<RawEdge>, top: nat, grade: int,
                               n: Key, k: nat)
    decreases k, 1
  {
    k > 0 &&
      (Seeded(nodes, seeds, top, grade, n)
       || exists e ::
            && e in edges && e.to == n && CountsAt(nodes, e, top, grade)
            && InputPremises(nodes, seeds, edges, top, grade, e, k - 1))
  }

  ghost predicate InputPremises(nodes: set<Key>, seeds: seq<(Key, Num)>, edges: seq<RawEdge>, top: nat, grade: int,
                                e: RawEdge, k: nat)
    decreases k, 2
  {
    match e
    case Unary(from, _, _) => InputDerives(nodes, seeds, edges, top, grade, from, k)
    case And(premises, _, _) => forall p :: p in premises ==> InputDerives(nodes, seeds, edges, top, grade, p, k)
    case Or(premises, _, _) => exists p :: p in premises && InputDerives(nodes, seeds, edges, top, grade, p, k)
    case Identity(from, _) => InputDerives(nodes, seeds, edges, top, grade, from, k)
  }

  ghost predicate InputDerivable(nodes: set<Key>, seeds: seq<(Key, Num)>, edges: seq<RawEdge>, top: nat, grade: int,
                                 n: Key)
  {
    exists k :: InputDerives(nodes, seeds, edges, top, grade, n, k)
  }

  lemma {:induction false} LegalMembers(nodes: set<Key>, edges: seq<RawEdge>, top: nat, e: LegalEdge)
    ensures e in LegalHyper(nodes, edges, top) <==>
      exists raw :: raw in edges && Known(nodes, raw) && Clamped(raw, top) == e
    decreases |edges|
  {
    hide Clamped, Known;
    if edges != [] {
      var rest, last := edges[..|edges| - 1], edges[|edges| - 1];
      assert edges == rest + [last];
      LegalMembers(nodes, rest, top, e);
    }
  }

  lemma SeedsAgree(nodes: set<Key>, seeds: seq<(Key, Num)>, top: nat, grade: int, n: Key)
    ensures var m := RaiseAll(map[], nodes, seeds, top);
      Seeded(nodes, seeds, top, grade, n) <==> n in m && m[n] >= grade
  {
    hide RaiseAll, Offered;
    RaiseAllIsMaximum(map[], nodes, seeds, top);
  }

  lemma ClampedCounts(nodes: set<Key>, e: RawEdge, top: nat, grade: int)
    ensures Clamped(e, top).to == e.to
    ensures CountsAt(nodes, e, top, grade) <==> Known(nodes, e) && StrongEnough(Clamped(e, top), grade)
  {
    hide ClampInteger;
  }

  lemma {:induction false} PremisesAgree(nodes: set<Key>, seeds: seq<(Key, Num)>, edges: seq<RawEdge>, top: nat,
                                         grade: int, e: RawEdge, k: nat)
    ensures InputPremises(nodes, seeds, edges, top, grade, e, k) <==>
      PremisesDerive(RaiseAll(map[], nodes, seeds, top), LegalHyper(nodes, edges, top), grade, Clamped(e, top), k)
    decreases k, 2
  {
    hide RaiseAll, LegalHyper, ClampInteger;
    forall p
      ensures InputDerives(nodes, seeds, edges, top, grade, p, k) <==>
        Derives(RaiseAll(map[], nodes, seeds, top), LegalHyper(nodes, edges, top), grade, p, k)
    {
      DerivationsAgree(nodes, seeds, edges, top, grade, p, k);
    }
    hide InputDerives, Derives;
    assert e.Unary? || e.Identity? ==> PremisesOf(Clamped(e, top)) == [e.from];
  }

  /** Derivations in the input are the derivations from its collected seeds and legal edges. */
  lemma {:induction false} DerivationsAgree(nodes: set<Key>, seeds: seq<(Key, Num)>, edges: seq<RawEdge>, top: nat,
                                            grade: int, n: Key, k: nat)
    ensures InputDerives(nodes, seeds, edges, top, grade, n, k) <==>
      Derives(RaiseAll(map[], nodes, seeds, top), LegalHyper(nodes, edges, top), grade, n, k)
    decreases k, 1
  {
    hide RaiseAll, LegalHyper, Clamped, CountsAt, Known, StrongEnough, InputPremises, PremisesDerive;
    if k > 0 {
      var m, legal := RaiseAll(map[], nodes, seeds, top), LegalHyper(nodes, edges, top);
      SeedsAgree(nodes, seeds, top, grade, n);
      if raw :|
        && raw in edges && raw.to == n && CountsAt(nodes, raw, top, grade)
        && InputPremises(nodes, seeds, edges, top, grade, raw, k - 1)
      {
        ClampedCounts(nodes, raw, top, grade);
        LegalMembers(nodes, edges, top, Clamped(raw, top));
        PremisesAgree(nodes, seeds, edges, top, grade, raw, k - 1);
      }
      if e :| e in legal && e.to == n && StrongEnough(e, grade) && PremisesDerive(m, legal, grade, e, k - 1) {
        LegalMembers(nodes, edges, top, e);
        var raw :| raw in edges && Known(nodes, raw) && Clamped(raw, top) == e;
        ClampedCounts(nodes, raw, top, grade);
        PremisesAgree(nodes, seeds, edges, top, grade, raw, k - 1);
      }
    }
  }

  lemma DerivableAgrees(nodes: set<Key>, seeds: seq<(Key, Num)>, edges: seq<RawEdge>, top: nat, grade: int, n: Key)
    ensures InputDerivable(nodes, seeds, edges, top, grade, n) <==>
      Derivable(RaiseAll(map[], nodes, seeds, top), LegalHyper(nodes, edges, top), grade, n)
  {
    hide RaiseAll, LegalHyper, InputDerives, Derives;
    var m, legal := RaiseAll(map[], nodes, seeds, top), LegalHyper(nodes, edges, top);
    if k: nat :| InputDerives(nodes, seeds, edges, top, grade, n, k) {
      DerivationsAgree(nodes, seeds, edges, top, grade, n, k);
    }
    if k: nat :| Derives(m, legal, grade, n, k) { DerivationsAgree(nodes, seeds, edges, top, grade, n, k); }
  }

  /** What the evaluator is for, in terms of its input: a node has a derivation at a grade exactly when
      its value is there and at least that grade. */
  ghost predicate Evaluates(nodes: set<Key>, seeds: seq<(Key, Num)>, edges: seq<RawEdge>, top: nat,
                             values: map<Key, int>)
  {
    forall n, g :: InputDerivable(nodes, seeds, edges, top, g, n) <==> n in values && g <= values[n]
  }

  lemma ClosureEvaluates(nodes: set<Key>, seeds: seq<(Key, Num)>, edges: seq<RawEdge>, top: nat, values: map<Key, int>)
    ensures Evaluates(nodes, seeds, edges, top, values) <==>
      IsGradedClosure(RaiseAll(map[], nodes, seeds, top), LegalHyper(nodes, edges, top), values)
  {
    hide RaiseAll, LegalHyper, InputDerivable, Derivable;
    forall n, g
      ensures InputDerivable(nodes, seeds, edges, top, g, n) <==>
        Derivable(RaiseAll(map[], nodes, seeds, top), LegalHyper(nodes, edges, top), g, n)
    {
      DerivableAgrees(nodes, seeds, edges, top, g, n);
    }
  }

  method LegalEdges(nodes: set<Key>, edges: seq<RawEdge>, top: nat) returns (legal: seq<LegalEdge>)
    ensures legal == LegalHyper(nodes, edges, top)
    ensures forall e :: e in legal <==> exists raw :: raw in edges && Known(nodes, raw) && Clamped(raw, top) == e
  {
    hide ClampInteger;
    forall e
      ensures e in LegalHyper(nodes, edges, top) <==>
        exists raw :: raw in edges && Known(nodes, raw) && Clamped(raw, top) == e
    {
      LegalMembers(nodes, edges, top, e);
    }
    legal := [];
    for i := 0 to |edges|
      invariant legal == LegalHyper(nodes, edges[..i], top)
    {
      var e := edges[i];
      assert edges[..i + 1][..i] == edges[..i];
      if e.to in nodes {
        match e {
          case Identity(from, to) =>
            if from in nodes { legal := legal + [Identity(from, to)]; }
          case Unary(from, to, strength) =>
            if from in nodes { legal := legal + [Unary(from, to, ClampInteger(strength, top))]; }
          case And(premises, to, strength) =>
            if forall p :: p in premises ==> p in nodes {
              legal := legal + [And(premises, to, ClampInteger(strength, top))];
            }
          case Or(premises, to, strength) =>
            if forall p :: p in premises ==> p in nodes {
              legal := legal + [Or(premises, to, ClampInteger(strength, top))];
            }
        }
      }
    }
    assert edges[..|edges|] == edges;
  }

  /** Every listed edge is one of `edges` and has the node as a premise. */
  ghost predicate ListsOnly(index: map<Key, seq<LegalEdge>>, edges: seq<LegalEdge>)
  {
    forall n, e :: n in index && e in index[n] ==> e in edges && n in PremisesOf(e)
  }

  lemma ListsOneMore(index: map<Key, seq<LegalEdge>>, edges: seq<LegalEdge>, n: Key, e: LegalEdge)
    requires ListsOnly(index, edges) && e in edges && n in PremisesOf(e)
    ensures ListsOnly(index[n := (if n in index then index[n] else []) + [e]], edges)
  {
    hide PremisesOf;
  }

  method IndexByPremise(edges: seq<LegalEdge>) returns (index: map<Key, seq<LegalEdge>>)
    ensures IsIndex(index, edges)
  {
    hide PremisesOf;
    index := map[];
    for i := 0 to |edges|
      invariant IsIndex(index, edges[..i])
    {
      assert edges[..i + 1] == edges[..i] + [edges[i]];
      var premises := PremisesOf(edges[i]);
      for j := 0 to |premises|
        invariant ListsOnly(index, edges[..i + 1])
        invariant forall e, n :: e in edges[..i] && n in PremisesOf(e) ==> n in index && e in index[n]
        invariant forall n :: n in premises[..j] ==> n in index && edges[i] in index[n]
      {
        var n := premises[j];
        ListsOneMore(index, edges[..i + 1], n, edges[i]);
        index := index[n := (if n in index then index[n] else []) + [edges[i]]];
        assert premises[..j + 1] == premises[..j] + [n];
      }
      assert premises[..|premises|] == premises;
    }
    assert edges[..|edges|] == edges;
  }

  method CollectSeeds(nodes: set<Key>, seeds: seq<(Key, Num)>, top: nat) returns (collected: map<Key, int>)
    ensures collected == RaiseAll(map[], nodes, seeds, top) && IsMaximum(map[], nodes, seeds, top, collected)
  {
    hide ClampInteger, IsMaximum;
    RaiseAllIsMaximum(map[], nodes, seeds, top);
    collected := map[];
    for i := 0 to |seeds|
      invariant collected == RaiseAll(map[], nodes, seeds[..i], top)
    {
      var (nodeId, value) := seeds[i];
      RaiseAllNext(map[], nodes, seeds, top, i);
      if nodeId in nodes {
        var grade := ClampInteger(value, top);
        if nodeId !in collected || grade > collected[nodeId] { collected := collected[nodeId := grade]; }
      }
    }
    assert seeds[..|seeds|] == seeds;
  }

  // ---------- the grades that are tried ----------

  ghost function GradeOf(e: LegalEdge, top: nat): int
  {
    if e.Identity? then top else e.strength
  }

  ghost predicate IsGrade(seeds: map<Key, int>, edges: seq<LegalEdge>, top: nat, g: int)
  {
    (exists n :: n in seeds && seeds[n] == g) || (exists e :: e in edges && GradeOf(e, top) == g)
  }

  ghost predicate Descending(grades: seq<int>)
  {
    forall i, j :: 0 <= i < j < |grades| ==> grades[i] > grades[j]
  }

  /** Adds a grade to a descending list unless it is already there. */
  method AddGrade(grades: seq<int>, g: int) returns (r: seq<int>)
    requires Descending(grades)
    ensures Descending(r) && forall x :: x in r <==> x in grades || x == g
  {
    var i := 0;
    while i < |grades| && grades[i] > g
      invariant 0 <= i <= |grades| && forall j :: 0 <= j < i ==> grades[j] > g
    {
      i := i + 1;
    }
    if i < |grades| && grades[i] == g { return grades; }
    r := grades[..i] + [g] + grades[i..];
    forall x ensures x in r <==> x in grades || x == g {
      assert grades == grades[..i] + grades[i..];
    }
  }

  method DescendingGrades(seeds: map<Key, int>, edges: seq<LegalEdge>, top: nat) returns (grades: seq<int>)
    ensures Descending(grades)
    ensures forall g :: g in grades <==> IsGrade(seeds, edges, top, g)
  {
    hide Descending;
    grades := [];
    var todo := seeds.Keys;
    assert Descending(grades) by { NothingDescends(); }
    while todo != {}
      invariant todo <= seeds.Keys && Descending(grades)
      invariant forall g :: g in grades <==> exists n :: n in seeds && n !in todo && seeds[n] == g
      decreases todo
    {
      var n :| n in todo;
      todo := todo - {n};
      grades := AddGrade(grades, seeds[n]);
    }
    for i := 0 to |edges|
      invariant Descending(grades)
      invariant forall g :: g in grades <==> IsGrade(seeds, edges[..i], top, g)
    {
      ghost var prior := grades;
      grades := AddGrade(grades, if edges[i].Identity? then top else edges[i].strength);
      forall g ensures g in grades <==> IsGrade(seeds, edges[..i + 1], top, g) {
        GradeNext(seeds, edges, top, i, g);
        assert g in grades <==> g in prior || GradeOf(edges[i], top) == g;
      }
    }
    assert edges[..|edges|] == edges;
  }

  lemma NothingDescends()
    ensures Descending([])
  {
  }

  lemma GradeNext(seeds: map<Key, int>, edges: seq<LegalEdge>, top: nat, i: nat, g: int)
    requires i < |edges|
    ensures IsGrade(seeds, edges[..i + 1], top, g) <==>
      IsGrade(seeds, edges[..i], top, g) || GradeOf(edges[i], top) == g
  {
    var less, more := edges[..i], edges[..i + 1];
    assert more == less + [edges[i]];
    assert edges[i] in more;
    if exists e :: e in less && GradeOf(e, top) == g {
      var e :| e in less && GradeOf(e, top) == g;
      assert e in more;
    }
  }

  // ---------- no grade is lost ----------

  ghost predicate SameCut(seeds: map<Key, int>, edges: seq<LegalEdge>, g: int, h: int)
  {
    && (forall n :: n in seeds ==> (seeds[n] >= g <==> seeds[n] >= h))
    && (forall e :: e in edges ==> (StrongEnough(e, g) <==> StrongEnough(e, h)))
  }

  lemma {:induction false} CutDerives(seeds: map<Key, int>, edges: seq<LegalEdge>, g: int, h: int, n: Key, k: nat)
    requires SameCut(seeds, edges, g, h) && Derives(seeds, edges, g, n, k)
    ensures Derives(seeds, edges, h, n, k)
    decreases k
  {
    if !(n in seeds && seeds[n] >= g) {
      var e :| e in edges && e.to == n && StrongEnough(e, g) && PremisesDerive(seeds, edges, g, e, k - 1);
      var j := k - 1;
      forall p | Derives(seeds, edges, g, p, j) ensures Derives(seeds, edges, h, p, j) {
        CutDerives(seeds, edges, g, h, p, j);
      }
      assert PremisesDerive(seeds, edges, h, e, j);
    }
  }

  /** A derivation at `g` rests on some seed or edge, so some collected grade is at least `g`. */
  lemma {:induction false} DerivationHasGrade(seeds: map<Key, int>, edges: seq<LegalEdge>, top: nat, g: int, n: Key,
                                              k: nat)
    requires Derives(seeds, edges, g, n, k)
    ensures exists h :: IsGrade(seeds, edges, top, h) && g <= h
    decreases k
  {
    if n in seeds && seeds[n] >= g {
      assert IsGrade(seeds, edges, top, seeds[n]);
    } else {
      var e :| e in edges && e.to == n && StrongEnough(e, g) && PremisesDerive(seeds, edges, g, e, k - 1);
      if e.Identity? {
        assert e.from in PremisesOf(e);
        DerivationHasGrade(seeds, edges, top, g, e.from, k - 1);
      } else {
        assert IsGrade(seeds, edges, top, e.strength);
      }
    }
  }

  /** Trying only the collected grades loses nothing: a derivation at any grade is one at the
      least collected grade above it. */
  lemma GradeLift(seeds: map<Key, int>, edges: seq<LegalEdge>, top: nat, grades: seq<int>, g: int, n: Key)
    requires forall h :: h in grades <==> IsGrade(seeds, edges, top, h)
    requires Derivable(seeds, edges, g, n)
    ensures exists h :: h in grades && g <= h && Derivable(seeds, edges, h, n)
  {
    hide IsGrade, Derives;
    var k :| Derives(seeds, edges, g, n, k);
    DerivationHasGrade(seeds, edges, top, g, n, k);
    var h0 :| IsGrade(seeds, edges, top, h0) && g <= h0;
    var h := LeastFrom(grades, g, h0);
    CutAtGrade(seeds, edges, top, grades, g, h);
    CutDerives(seeds, edges, g, h, n, k);
    assert Derivable(seeds, edges, h, n);
  }

  lemma LeastFrom(grades: seq<int>, g: int, h0: int) returns (h: int)
    requires h0 in grades && g <= h0
    ensures h in grades && g <= h && forall x :: x in grades && g <= x ==> h <= x
  {
    h := h0;
    for i := 0 to |grades|
      invariant h in grades && g <= h && forall x :: x in grades[..i] && g <= x ==> h <= x
    {
      assert grades[..i + 1] == grades[..i] + [grades[i]];
      if g <= grades[i] < h { h := grades[i]; }
    }
    assert grades[..|grades|] == grades;
  }

  lemma CutAtGrade(seeds: map<Key, int>, edges: seq<LegalEdge>, top: nat, grades: seq<int>, g: int, h: int)
    requires forall x :: x in grades <==> IsGrade(seeds, edges, top, x)
    requires g <= h && forall x :: x in grades && g <= x ==> h <= x
    ensures SameCut(seeds, edges, g, h)
  {
    forall n | n in seeds ensures seeds[n] >= g <==> seeds[n] >= h {
      assert IsGrade(seeds, edges, top, seeds[n]);
    }
    forall e | e in edges ensures StrongEnough(e, g) <==> StrongEnough(e, h) {
      assert IsGrade(seeds, edges, top, GradeOf(e, top));
    }
  }

  lemma {:induction false} DerivesLower(seeds: map<Key, int>, edges: seq<LegalEdge>, g: int, h: int, n: Key, k: nat)
    requires g <= h && Derives(seeds, edges, h, n, k)
    ensures Derives(seeds, edges, g, n, k)
    decreases k
  {
    if !(n in seeds && seeds[n] >= h) {
      var e :| e in edges && e.to == n && StrongEnough(e, h) && PremisesDerive(seeds, edges, h, e, k - 1);
      var j := k - 1;
      forall p | Derives(seeds, edges, h, p, j) ensures Derives(seeds, edges, g, p, j) {
        DerivesLower(seeds, edges, g, h, p, j);
      }
      assert StrongEnough(e, g) && PremisesDerive(seeds, edges, g, e, j);
    }
  }

  lemma DerivableLower(seeds: map<Key, int>, edges: seq<LegalEdge>, g: int, h: int, n: Key)
    requires g <= h && Derivable(seeds, edges, h, n)
    ensures Derivable(seeds, edges, g, n)
  {
    hide Derives;
    var k :| Derives(seeds, edges, h, n, k);
    DerivesLower(seeds, edges, g, h, n, k);
  }

  // ---------- the evaluator ----------

  /** `values` holds at each derivable node its largest grade, and nothing else: for every integer
      grade, a node is derivable at it exactly when its value is at least that grade. */
  ghost predicate IsGradedClosure(seeds: map<Key, int>, edges: seq<LegalEdge>, values: map<Key, int>)
  {
    forall n, g :: Derivable(seeds, edges, g, n) <==> n in values && g <= values[n]
  }

  /** After the grades in `tried`: the first tried grade at which a node is derivable. */
  ghost predicate FirstTried(seeds: map<Key, int>, edges: seq<LegalEdge>, tried: seq<int>, values: map<Key, int>)
  {
    && (forall n :: n in values ==> values[n] in tried && Derivable(seeds, edges, values[n], n))
    && (forall n, g :: g in tried && Derivable(seeds, edges, g, n) ==> n in values && g <= values[n])
  }

  lemma TriedIsClosure(seeds: map<Key, int>, edges: seq<LegalEdge>, top: nat, grades: seq<int>, values: map<Key, int>)
    requires forall h :: h in grades <==> IsGrade(seeds, edges, top, h)
    requires FirstTried(seeds, edges, grades, values)
    ensures IsGradedClosure(seeds, edges, values)
  {
    hide Derivable, IsGrade;
    forall n, g ensures Derivable(seeds, edges, g, n) <==> n in values && g <= values[n] {
      if Derivable(seeds, edges, g, n) {
        GradeLift(seeds, edges, top, grades, g, n);
        var h :| h in grades && g <= h && Derivable(seeds, edges, h, n);
      }
      if n in values && g <= values[n] {
        DerivableLower(seeds, edges, g, values[n], n);
      }
    }
  }

  /** A `top` that is not a non-negative integer is refused. */
  method EvaluateBooleanHypergraph(nodeIds: seq<Key>, seeds: seq<(Key, Num)>, edges: seq<RawEdge>, top: Num)
    returns (r: Option<map<Key, int>>)
    ensures r.None? <==> TopOf(top).None?
    ensures r.Some? ==> Evaluates((set id | id in nodeIds), seeds, edges, TopOf(top).value, r.value)
  {
    hide Evaluates;
    var checked := TopOf(top);
    if checked.None? { return None; }
    var values := Evaluate(nodeIds, seeds, edges, checked.value);
    r := Some(values);
  }

  method Evaluate(nodeIds: seq<Key>, seeds: seq<(Key, Num)>, edges: seq<RawEdge>, top: nat)
    returns (values: map<Key, int>)
    ensures Evaluates((set id | id in nodeIds), seeds, edges, top, values)
  {
    hide Derivable, IsGrade, IsIndex, RaiseAll, LegalHyper, IsGradedClosure, Descending, Evaluates;
    var nodes := set id | id in nodeIds;
    var collected := CollectSeeds(nodes, seeds, top);
    var legal := LegalEdges(nodes, edges, top);
    var byPremise := IndexByPremise(legal);
    var axioms := Axioms(legal);
    values := map[];
    var grades := DescendingGrades(collected, legal, top);
    for i := 0 to |grades|
      invariant FirstTried(collected, legal, grades[..i], values)
    {
      var on := ClosureAtGrade(grades[i], collected, byPremise, axioms, legal);
      ghost var prior := values;
      values := Record(values, on, grades[i]);
      RecordTries(collected, legal, grades, i, on, prior, values);
    }
    assert grades[..|grades|] == grades;
    TriedIsClosure(collected, legal, top, grades, values);
    ClosureEvaluates(nodes, seeds, edges, top, values);
  }

  method Axioms(edges: seq<LegalEdge>) returns (axioms: seq<LegalEdge>)
    ensures forall e :: e in axioms <==> e in edges && e.And? && e.premises == []
  {
    axioms := [];
    for i := 0 to |edges|
      invariant forall e :: e in axioms <==> e in edges[..i] && e.And? && e.premises == []
    {
      assert edges[..i + 1] == edges[..i] + [edges[i]];
      if edges[i].And? && edges[i].premises == [] { axioms := axioms + [edges[i]]; }
    }
    assert edges[..|edges|] == edges;
  }

  /** `if (!values.has(n)) values.set(n, grade)` for every node of the closure. */
  method Record(values0: map<Key, int>, on: set<Key>, grade: int) returns (values: map<Key, int>)
    ensures values.Keys == values0.Keys + on
    ensures forall n :: n in values ==> values[n] == if n in values0 then values0[n] else grade
  {
    values := values0;
    var todo := on;
    while todo != {}
      invariant todo <= on && values.Keys == values0.Keys + (on - todo)
      invariant forall n :: n in values ==> values[n] == if n in values0 then values0[n] else grade
      decreases todo
    {
      var n :| n in todo;
      todo := todo - {n};
      if n !in values { values := values[n := grade]; }
    }
  }

  lemma RecordTries(seeds: map<Key, int>, edges: seq<LegalEdge>, grades: seq<int>, i: nat, on: set<Key>,
                    prior: map<Key, int>, values: map<Key, int>)
    requires i < |grades| && Descending(grades) && FirstTried(seeds, edges, grades[..i], prior)
    requires forall n :: n in on <==> Derivable(seeds, edges, grades[i], n)
    requires values.Keys == prior.Keys + on
    requires forall n :: n in values ==> values[n] == if n in prior then prior[n] else grades[i]
    ensures FirstTried(seeds, edges, grades[..i + 1], values)
  {
    hide Derivable;
    assert grades[..i + 1] == grades[..i] + [grades[i]];
    forall g | g in grades[..i] ensures grades[i] < g { }
  }
}
