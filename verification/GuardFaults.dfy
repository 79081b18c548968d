/**
 * When the walk of proofs/check_mutants.py stops: exactly at the faults its
 * errors name, each a matter of the shape of one node the walk comes to, of
 * levels, and of the parameters a domain depends on.
 */
module GuardFaults {
  import opened Common
  import opened Actions
  import opened GuardReader

  // --- the nodes the walk comes to

  /** A node the walk goes on to from `n`, and the definitions that are not being read there. */
  ghost predicate Part(sp: Spec, open: set<string>, n: Node, p: set<string>, k: Node) {
    match n
    case LetIn(b) => p == open && k == b
    case Exists(_, _, b) => p == open && k == b
    case Call(d, _) => d in open && d in sp.defs && p == open - {d} && k == sp.defs[d].body
    case Op(And, args) => p == open && exists i :: 0 <= i < |args| && Level(sp, args[i]) >= 2 && k == args[i]
    case Op(Or, args) => p == open && exists i :: 0 <= i < |args| && k == args[i]
    case Op(IfThenElse, args) => p == open && |args| == 3 && (k == args[1] || k == args[2])
    case _ => false
  }

  ghost predicate Visited(sp: Spec, open: set<string>, n: Node, o: set<string>, m: Node)
    decreases open, n
  {
    (o == open && m == n) || exists p, k :: Part(sp, open, n, p, k) && Visited(sp, p, k, o, m)
  }

  /** What an expression asked of UNCHANGED is spelled with: the elements of a tuple, the body of a definition. */
  ghost predicate Letter(sp: Spec, open: set<string>, e: Node, p: set<string>, k: Node) {
    match e
    case Op(TupleOf, args) => p == open && exists i :: 0 <= i < |args| && k == args[i]
    case Call(d, args) =>
      d in open && Resolves(sp, d, args) && !sp.defs[d].fact && p == open - {d} && k == sp.defs[d].body
    case _ => false
  }

  ghost predicate Spelled(sp: Spec, open: set<string>, e: Node, o: set<string>, m: Node)
    decreases open, e
  {
    (o == open && m == e) || exists p, k :: Letter(sp, open, e, p, k) && Spelled(sp, p, k, o, m)
  }

  /** A node that is neither a variable nor stands for others. */
  ghost predicate NoVariable(sp: Spec, o: set<string>, m: Node) {
    match m
    case Var(_) => false
    case Op(op, _) => !op.TupleOf?
    case Call(d, args) => d !in o || !Resolves(sp, d, args) || sp.defs[d].fact
    case _ => true
  }

  ghost predicate SpellsOther(sp: Spec, open: set<string>, e: Node) {
    exists o, m :: Spelled(sp, open, e, o, m) && NoVariable(sp, o, m)
  }

  ghost predicate Spells(sp: Spec, open: set<string>, e: Node, x: string) {
    exists o :: Spelled(sp, open, e, o, Var(x))
  }

  /** An effect on a variable. */
  ghost predicate Assigns(sp: Spec, m: Node, x: string) {
    match m
    case Op(op, args) => (op.Equals? || op.ElementOf?) && |args| == 2 && args[0] == Prime(x)
    case Unchanged(e) => Spells(sp, sp.defs.Keys, e, x)
    case _ => false
  }

  /** Whether the walk comes to an effect on a variable. */
  ghost predicate Gives(sp: Spec, open: set<string>, n: Node, x: string) {
    exists o, m :: Visited(sp, open, n, o, m) && Assigns(sp, m, x)
  }

  /** Two conjuncts that are actions and give one variable. */
  ghost predicate Clash(sp: Spec, open: set<string>, args: seq<Node>, i: nat, j: nat, x: string) {
    && i < j < |args| && Level(sp, args[i]) >= 2 && Level(sp, args[j]) >= 2
    && Gives(sp, open, args[i], x) && Gives(sp, open, args[j], x)
  }

  /** What the walk refuses in a node itself; `open` are the definitions not being read. */
  ghost predicate Faulty(sp: Spec, open: set<string>, m: Node) {
    match m
    case LetIn(_) => false
    case Exists(_, dom, _) => Level(sp, dom) > 0 || ParamsUnder(sp, sp.defs.Keys, dom) != {}
    case Call(d, args) =>
      || !Resolves(sp, d, args) || sp.defs[d].level < 2 || sp.defs[d].fact
      || d !in open || exists i :: 0 <= i < |args| && Level(sp, args[i]) >= 2
    case Op(And, args) => exists i, j, x :: Clash(sp, open, args, i, j, x)
    case Op(Or, args) => exists i :: 0 <= i < |args| && Level(sp, args[i]) < 2
    case Op(IfThenElse, args) => |args| != 3 || Level(sp, args[1]) < 2 || Level(sp, args[2]) < 2
    case Op(Equals, args) => |args| != 2 || !args[0].Prime?
    case Op(ElementOf, args) => |args| != 2 || !args[0].Prime?
    case Unchanged(e) => SpellsOther(sp, sp.defs.Keys, e)
    case _ => true
  }

  ghost predicate Stops(sp: Spec, open: set<string>, n: Node) {
    exists o, m :: Visited(sp, open, n, o, m) && Faulty(sp, o, m)
  }

  // --- one step at a time

  lemma StopsUnder(sp: Spec, open: set<string>, n: Node)
    ensures Stops(sp, open, n) <==>
      Faulty(sp, open, n) || exists p, k :: Part(sp, open, n, p, k) && Stops(sp, p, k)
  {
    hide Faulty, Part;
    assert Visited(sp, open, n, open, n);
    if Stops(sp, open, n) && !Faulty(sp, open, n) {
      var o, m :| Visited(sp, open, n, o, m) && Faulty(sp, o, m);
      var p, k :| Part(sp, open, n, p, k) && Visited(sp, p, k, o, m);
      assert Stops(sp, p, k);
    }
    forall p, k | Part(sp, open, n, p, k) && Stops(sp, p, k) ensures Stops(sp, open, n) {
      var o, m :| Visited(sp, p, k, o, m) && Faulty(sp, o, m);
      assert Visited(sp, open, n, o, m);
    }
  }

  lemma GivesUnder(sp: Spec, open: set<string>, n: Node, x: string)
    ensures Gives(sp, open, n, x) <==>
      Assigns(sp, n, x) || exists p, k :: Part(sp, open, n, p, k) && Gives(sp, p, k, x)
  {
    hide Assigns, Part;
    assert Visited(sp, open, n, open, n);
    if Gives(sp, open, n, x) && !Assigns(sp, n, x) {
      var o, m :| Visited(sp, open, n, o, m) && Assigns(sp, m, x);
      var p, k :| Part(sp, open, n, p, k) && Visited(sp, p, k, o, m);
      assert Gives(sp, p, k, x);
    }
    forall p, k | Part(sp, open, n, p, k) && Gives(sp, p, k, x) ensures Gives(sp, open, n, x) {
      var o, m :| Visited(sp, p, k, o, m) && Assigns(sp, m, x);
      assert Visited(sp, open, n, o, m);
    }
  }

  lemma SpellsOtherUnder(sp: Spec, open: set<string>, e: Node)
    ensures SpellsOther(sp, open, e) <==>
      NoVariable(sp, open, e) || exists p, k :: Letter(sp, open, e, p, k) && SpellsOther(sp, p, k)
  {
    hide NoVariable, Letter;
    assert Spelled(sp, open, e, open, e);
    if SpellsOther(sp, open, e) && !NoVariable(sp, open, e) {
      var o, m :| Spelled(sp, open, e, o, m) && NoVariable(sp, o, m);
      var p, k :| Letter(sp, open, e, p, k) && Spelled(sp, p, k, o, m);
      assert SpellsOther(sp, p, k);
    }
    forall p, k | Letter(sp, open, e, p, k) && SpellsOther(sp, p, k) ensures SpellsOther(sp, open, e) {
      var o, m :| Spelled(sp, p, k, o, m) && NoVariable(sp, o, m);
      assert Spelled(sp, open, e, o, m);
    }
  }

  lemma SpellsUnder(sp: Spec, open: set<string>, e: Node, x: string)
    ensures Spells(sp, open, e, x) <==>
      e == Var(x) || exists p, k :: Letter(sp, open, e, p, k) && Spells(sp, p, k, x)
  {
    hide Letter;
    assert Spelled(sp, open, e, open, e);
    if Spells(sp, open, e, x) && e != Var(x) {
      var o :| Spelled(sp, open, e, o, Var(x));
      var p, k :| Letter(sp, open, e, p, k) && Spelled(sp, p, k, o, Var(x));
      assert Spells(sp, p, k, x);
    }
    forall p, k | Letter(sp, open, e, p, k) && Spells(sp, p, k, x) ensures Spells(sp, open, e, x) {
      var o :| Spelled(sp, p, k, o, Var(x));
      assert Spelled(sp, open, e, o, Var(x));
    }
  }

  // --- UNCHANGED

  /** What UNCHANGED is asked of is read exactly if it is spelled with variables alone, and then as these. */
  lemma {:induction false} VarsAreSpelled(sp: Spec, open: set<string>, e: Node)
    ensures VarsNamed(sp, open, e).None? <==> SpellsOther(sp, open, e)
    ensures VarsNamed(sp, open, e).Some? ==> forall x :: x in VarsNamed(sp, open, e).value <==> Spells(sp, open, e, x)
    decreases open, e, 1
  {
    hide SpellsOther, Spells;
    SpellsOtherUnder(sp, open, e);
    forall x { SpellsUnder(sp, open, e, x); }
    match e
    case Op(TupleOf, args) => AllVarsAreSpelled(sp, open, args);
    case Call(d, args) =>
      if d in open && Resolves(sp, d, args) && !sp.defs[d].fact { VarsAreSpelled(sp, open - {d}, sp.defs[d].body); }
    case _ =>
  }

  lemma {:induction false} AllVarsAreSpelled(sp: Spec, open: set<string>, es: seq<Node>)
    ensures AllVarsNamed(sp, open, es).None? <==> exists i :: 0 <= i < |es| && SpellsOther(sp, open, es[i])
    ensures AllVarsNamed(sp, open, es).Some? ==>
      forall x :: x in AllVarsNamed(sp, open, es).value <==> exists i :: 0 <= i < |es| && Spells(sp, open, es[i], x)
    decreases open, es, 0
  {
    hide SpellsOther, Spells;
    if es != [] {
      VarsAreSpelled(sp, open, es[0]);
      AllVarsAreSpelled(sp, open, es[1..]);
    }
  }

  // --- the walk

  /** The walk of one node, by its faults and effects. */
  ghost predicate Exact(sp: Spec, open: set<string>, n: Node) {
    && (Walk(sp, open, n).None? <==> Stops(sp, open, n))
    && (Walk(sp, open, n).Some? ==> forall x :: x in Walk(sp, open, n).value <==> Gives(sp, open, n, x))
  }

  lemma {:induction false} OrIsExact(sp: Spec, open: set<string>, args: seq<Node>)
    requires forall i :: 0 <= i < |args| ==> Exact(sp, open, args[i])
    ensures WalkOr(sp, open, args).None? <==>
      exists i :: 0 <= i < |args| && (Level(sp, args[i]) < 2 || Stops(sp, open, args[i]))
    ensures WalkOr(sp, open, args).Some? ==>
      forall x :: x in WalkOr(sp, open, args).value <==> exists i :: 0 <= i < |args| && Gives(sp, open, args[i], x)
    decreases args
  {
    hide Walk, Stops, Gives;
    if args != [] {
      var last := |args| - 1;
      OrIsExact(sp, open, args[..last]);
      assert args == args[..last] + [args[last]];
    }
  }

  ghost predicate SomeStops(sp: Spec, open: set<string>, args: seq<Node>) {
    exists i :: 0 <= i < |args| && Level(sp, args[i]) >= 2 && Stops(sp, open, args[i])
  }

  ghost predicate SomeGives(sp: Spec, open: set<string>, args: seq<Node>, x: string) {
    exists i :: 0 <= i < |args| && Level(sp, args[i]) >= 2 && Gives(sp, open, args[i], x)
  }

  ghost predicate SomeClash(sp: Spec, open: set<string>, args: seq<Node>) {
    exists i, j, x :: Clash(sp, open, args, i, j, x)
  }

  /** One more conjunct stops the walk by itself, or clashes with one before it. */
  lemma OneMoreConjunct(sp: Spec, open: set<string>, some: seq<Node>, n: Node)
    ensures SomeStops(sp, open, some + [n]) <==> SomeStops(sp, open, some) || (Level(sp, n) >= 2 && Stops(sp, open, n))
    ensures forall x :: SomeGives(sp, open, some + [n], x) <==>
      SomeGives(sp, open, some, x) || (Level(sp, n) >= 2 && Gives(sp, open, n, x))
    ensures SomeClash(sp, open, some + [n]) <==>
      || SomeClash(sp, open, some)
      || (Level(sp, n) >= 2 && exists x :: SomeGives(sp, open, some, x) && Gives(sp, open, n, x))
  {
    hide Stops, Gives;
    var args, last := some + [n], |some|;
    assert args[last] == n;
    forall i | 0 <= i < last
      ensures Stops(sp, open, some[i]) && Level(sp, some[i]) >= 2 ==> SomeStops(sp, open, args)
      ensures forall x :: Gives(sp, open, some[i], x) && Level(sp, some[i]) >= 2 ==> SomeGives(sp, open, args, x)
    {
      assert args[i] == some[i];
    }
    forall i: nat, j: nat, x | Clash(sp, open, args, i, j, x)
      ensures j < last ==> Clash(sp, open, some, i, j, x)
      ensures j == last ==> SomeGives(sp, open, some, x)
    {
    }
    forall i: nat, j: nat, x | Clash(sp, open, some, i, j, x) ensures Clash(sp, open, args, i, j, x) {
    }
    forall x | Level(sp, n) >= 2 && SomeGives(sp, open, some, x) && Gives(sp, open, n, x)
      ensures SomeClash(sp, open, args)
    {
      var i :| 0 <= i < |some| && Level(sp, some[i]) >= 2 && Gives(sp, open, some[i], x);
      assert Clash(sp, open, args, i, last, x);
    }
  }

  lemma {:induction false} AndIsExact(sp: Spec, open: set<string>, args: seq<Node>)
    requires forall i :: 0 <= i < |args| && Level(sp, args[i]) >= 2 ==> Exact(sp, open, args[i])
    ensures WalkAnd(sp, open, args).None? <==> SomeStops(sp, open, args) || SomeClash(sp, open, args)
    ensures WalkAnd(sp, open, args).Some? ==>
      forall x :: x in WalkAnd(sp, open, args).value <==> SomeGives(sp, open, args, x)
    decreases args
  {
    hide Walk, Stops, Gives;
    if args != [] {
      var last := |args| - 1;
      AndIsExact(sp, open, args[..last]);
      hide SomeStops, SomeGives, SomeClash;
      OneMoreConjunct(sp, open, args[..last], args[last]);
      assert args == args[..last] + [args[last]];
    }
  }

  /**
   * The walk of a node stops exactly if it comes to a fault, and otherwise
   * returns exactly the variables it comes to an effect on.
   */
  lemma {:induction false} WalkIsExact(sp: Spec, open: set<string>, n: Node)
    ensures Walk(sp, open, n).None? <==> Stops(sp, open, n)
    ensures Walk(sp, open, n).Some? ==> forall x :: x in Walk(sp, open, n).value <==> Gives(sp, open, n, x)
    decreases open, n
  {
    hide Stops, Gives;
    StopsUnder(sp, open, n);
    forall x { GivesUnder(sp, open, n, x); }
    match n
    case LetIn(b) => WalkIsExact(sp, open, b);
    case Exists(_, _, b) => WalkIsExact(sp, open, b);
    case Call(d, args) => if d in open && d in sp.defs { WalkIsExact(sp, open - {d}, sp.defs[d].body); }
    case Op(And, args) =>
      forall i | 0 <= i < |args| { WalkIsExact(sp, open, args[i]); }
      AndIsExact(sp, open, args);
    case Op(Or, args) =>
      forall i | 0 <= i < |args| { WalkIsExact(sp, open, args[i]); }
      OrIsExact(sp, open, args);
    case Op(IfThenElse, args) =>
      forall i | 0 <= i < |args| { WalkIsExact(sp, open, args[i]); }
    case Unchanged(e) => VarsAreSpelled(sp, sp.defs.Keys, e);
    case _ =>
  }

  // --- the actions it follows

  ghost predicate ComesToCall(sp: Spec, open: set<string>, n: Node, d: string) {
    exists o, args :: Visited(sp, open, n, o, Call(d, args))
  }

  lemma ComesToCallUnder(sp: Spec, open: set<string>, n: Node, d: string)
    ensures ComesToCall(sp, open, n, d) <==>
      (n.Call? && n.def == d) || exists p, k :: Part(sp, open, n, p, k) && ComesToCall(sp, p, k, d)
  {
    hide Part;
    assert Visited(sp, open, n, open, n);
    if ComesToCall(sp, open, n, d) && !(n.Call? && n.def == d) {
      var o, args :| Visited(sp, open, n, o, Call(d, args));
      var p, k :| Part(sp, open, n, p, k) && Visited(sp, p, k, o, Call(d, args));
      assert ComesToCall(sp, p, k, d);
    }
    forall p, k | Part(sp, open, n, p, k) && ComesToCall(sp, p, k, d) ensures ComesToCall(sp, open, n, d) {
      var o, args :| Visited(sp, p, k, o, Call(d, args));
      assert Visited(sp, open, n, o, Call(d, args));
    }
  }

  /** The definitions an accepted node follows are those of the calls the walk comes to. */
  lemma {:induction false} FollowsCalls(sp: Spec, open: set<string>, n: Node)
    requires Walk(sp, open, n).Some?
    ensures forall d :: d in Follows(sp, open, n) <==> ComesToCall(sp, open, n, d)
    decreases open, n, 1
  {
    hide ComesToCall;
    forall d { ComesToCallUnder(sp, open, n, d); }
    match n
    case LetIn(b) => FollowsCalls(sp, open, b);
    case Exists(_, _, b) => FollowsCalls(sp, open, b);
    case Call(d, args) => FollowsCalls(sp, open - {d}, sp.defs[d].body);
    case Op(And, args) =>
      forall i | 0 <= i < |args| && Level(sp, args[i]) >= 2 ensures Walk(sp, open, args[i]).Some? {
        AndOperand(sp, open, args, i, |args|);
      }
      AllFollowsCalls(sp, open, args);
    case Op(Or, args) =>
      forall i | 0 <= i < |args| ensures Level(sp, args[i]) >= 2 && Walk(sp, open, args[i]).Some? {
        OrOperand(sp, open, args, i);
      }
      AllFollowsCalls(sp, open, args);
    case Op(IfThenElse, args) =>
      FollowsCalls(sp, open, args[1]);
      FollowsCalls(sp, open, args[2]);
    case _ =>
  }

  lemma {:induction false} AllFollowsCalls(sp: Spec, open: set<string>, args: seq<Node>)
    requires forall i :: 0 <= i < |args| && Level(sp, args[i]) >= 2 ==> Walk(sp, open, args[i]).Some?
    ensures forall d :: d in AllFollows(sp, open, args) <==>
      exists i :: 0 <= i < |args| && Level(sp, args[i]) >= 2 && ComesToCall(sp, open, args[i], d)
    decreases open, args, 0
  {
    hide ComesToCall, Walk;
    if args != [] {
      var last := |args| - 1;
      AllFollowsCalls(sp, open, args[..last]);
      if Level(sp, args[last]) >= 2 { FollowsCalls(sp, open, args[last]); }
      assert args == args[..last] + [args[last]];
    }
  }
}
