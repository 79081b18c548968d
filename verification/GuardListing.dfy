/**
 * The listing misses no guard: with every listed guard replaced by TRUE, an
 * accepted relation has a step from a state exactly when the sets its effects
 * and quantifiers choose from let it choose.
 */
module GuardListing {
  import opened Common
  import opened Actions
  import opened GuardReader
  import opened GuardFaults
  import opened GuardPlaces
  import opened ActionRuns
  import opened ActionBranches
  import opened GuardSweep

  // --- actions without guards

  predicate Blank(n: Node) {
    n == Lit(TRUE) || (n.Op? && n.op.And? && forall i :: 0 <= i < |n.args| ==> Blank(n.args[i]))
  }

  /** Every condition the walk would list is TRUE. */
  predicate Bare(sp: Spec, open: set<string>, n: Node)
    decreases open, n, 1
  {
    match n
    case LetIn(b) => Bare(sp, open, b)
    case Exists(_, _, b) => Bare(sp, open, b)
    case Call(f, args) => f in open && f in sp.defs ==> Bare(sp, open - {f}, sp.defs[f].body)
    case Op(Or, args) => forall i :: 0 <= i < |args| ==> Bare(sp, open, args[i])
    case Op(And, args) =>
      forall i :: 0 <= i < |args| ==> if Level(sp, args[i]) < 2 then Blank(args[i]) else Bare(sp, open, args[i])
    case Op(IfThenElse, args) => |args| == 3 ==> Bare(sp, open, args[1]) && Bare(sp, open, args[2])
    case _ => true
  }

  /**
   * Whether an action can choose: some disjunct and some value of each
   * quantifier, every conjunct that is an action, and the branch of an IF that
   * is taken find an element in each set a next value is chosen from.
   */
  ghost predicate Can(sp: Spec, open: set<string>, n: Node, x: Ctx)
    decreases open, n
  {
    match n
    case LetIn(b) => Can(sp, open, b, x)
    case Exists(y, dom, b) =>
      exists v :: v in Elements(Eval(sp, open, dom, x)) && Can(sp, open, b, x.(q := x.q[y := v]))
    case Call(f, args) =>
      f in open && Resolves(sp, f, args) &&
      Can(sp, open - {f}, sp.defs[f].body, x.(p := Bind(x.p, sp.defs[f].params, EvalAll(sp, open, args, x))))
    case Op(And, args) => forall i :: 0 <= i < |args| && Level(sp, args[i]) >= 2 ==> Can(sp, open, args[i], x)
    case Op(Or, args) => exists i :: 0 <= i < |args| && Can(sp, open, args[i], x)
    case Op(IfThenElse, args) =>
      |args| == 3 && if Eval(sp, open, args[0], x) == TRUE then Can(sp, open, args[1], x) else Can(sp, open, args[2], x)
    case Op(ElementOf, args) => |args| == 2 && Elements(Eval(sp, open, args[1], x)) != {}
    case _ => true
  }

  lemma {:induction false} BlankHolds(sp: Spec, open: set<string>, n: Node, x: Ctx)
    requires Blank(n)
    ensures Eval(sp, open, n, x) == TRUE
    decreases n
  {
    if n != Lit(TRUE) {
      forall i | 0 <= i < |n.args|
        ensures EvalAll(sp, open, n.args, x)[i] == TRUE
      {
        BlankHolds(sp, open, n.args[i], x);
      }
    }
  }

  /** An accepted action without guards has an evaluation from a fresh progress exactly when it can choose. */
  lemma {:induction false} CanRuns(sp: Spec, open: set<string>, n: Node, x: Ctx, c: Progress) returns (d: Progress)
    requires Walk(sp, open, n).Some? && Bare(sp, open, n) && Can(sp, open, n, x)
    requires c.next.Keys !! Walk(sp, open, n).value
    ensures Runs(sp, open, n, x, c, d)
    decreases open, n, 1
  {
    match n
    case LetIn(b) => d := CanRuns(sp, open, b, x, c);
    case Exists(y, dom, b) =>
      var v :| v in Elements(Eval(sp, open, dom, x)) && Can(sp, open, b, x.(q := x.q[y := v]));
      d := CanRuns(sp, open, b, x.(q := x.q[y := v]), c);
    case Call(f, args) =>
      d := CanRuns(sp, open - {f}, sp.defs[f].body,
        x.(p := Bind(x.p, sp.defs[f].params, EvalAll(sp, open, args, x))), c);
    case Op(Or, args) =>
      var i :| 0 <= i < |args| && Can(sp, open, args[i], x);
      OrOperand(sp, open, args, i);
      d := CanRuns(sp, open, args[i], x, c);
    case Op(And, args) => d := CanRunsAll(sp, open, args, x, c);
    case Op(IfThenElse, args) =>
      d := CanRuns(sp, open, if Eval(sp, open, args[0], x) == TRUE then args[1] else args[2], x, c);
    case Op(Equals, args) => d := Give(c, args[0].x, Eval(sp, open, args[1], x)).value;
    case Op(ElementOf, args) =>
      var v :| v in Elements(Eval(sp, open, args[1], x));
      d := Give(c, args[0].x, v).value;
    case Unchanged(e) =>
      var xs := VarsNamed(sp, sp.defs.Keys, e).value;
      forall y | y in xs ensures y !in c.next { assert y in Items(xs); }
      KeepWorks(c, xs, x.s);
      d := Keep(c, xs, x.s).value;
    case _ =>
  }

  lemma {:induction false} CanRunsAll(sp: Spec, open: set<string>, args: seq<Node>, x: Ctx, c: Progress)
      returns (d: Progress)
    requires WalkAnd(sp, open, args).Some? && c.next.Keys !! WalkAnd(sp, open, args).value
    requires forall i :: 0 <= i < |args| ==> if Level(sp, args[i]) < 2 then Blank(args[i]) else Bare(sp, open, args[i])
    requires forall i :: 0 <= i < |args| && Level(sp, args[i]) >= 2 ==> Can(sp, open, args[i], x)
    ensures RunsAll(sp, open, args, x, c, d)
    decreases open, args, 0
  {
    d := c;
    if args != [] {
      var last := |args| - 1;
      var mid := CanRunsAll(sp, open, args[..last], x, c);
      d := mid;
      if Level(sp, args[last]) < 2 {
        BlankHolds(sp, open, args[last], x);
      } else {
        var xs := RunAllIsBranch(sp, open, args[..last], x, c, mid);
        BranchAllWithin(sp, open, args[..last], xs);
        d := CanRuns(sp, open, args[last], x, mid);
      }
    }
  }

  lemma {:induction false} RunsCan(sp: Spec, open: set<string>, n: Node, x: Ctx, c: Progress, d: Progress)
    requires Walk(sp, open, n).Some? && Runs(sp, open, n, x, c, d)
    ensures Can(sp, open, n, x)
    decreases open, n, 1
  {
    match n
    case LetIn(b) => RunsCan(sp, open, b, x, c, d);
    case Exists(y, dom, b) =>
      var v :| v in Elements(Eval(sp, open, dom, x)) && Runs(sp, open, b, x.(q := x.q[y := v]), c, d);
      RunsCan(sp, open, b, x.(q := x.q[y := v]), c, d);
    case Call(f, args) =>
      RunsCan(sp, open - {f}, sp.defs[f].body, x.(p := Bind(x.p, sp.defs[f].params, EvalAll(sp, open, args, x))), c, d);
    case Op(Or, args) =>
      var i :| 0 <= i < |args| && Runs(sp, open, args[i], x, c, d);
      OrOperand(sp, open, args, i);
      RunsCan(sp, open, args[i], x, c, d);
    case Op(And, args) => RunsAllCan(sp, open, args, x, c, d);
    case Op(IfThenElse, args) =>
      RunsCan(sp, open, if Eval(sp, open, args[0], x) == TRUE then args[1] else args[2], x, c, d);
    case _ =>
  }

  lemma {:induction false} RunsAllCan(sp: Spec, open: set<string>, args: seq<Node>, x: Ctx, c: Progress, d: Progress)
    requires WalkAnd(sp, open, args).Some? && RunsAll(sp, open, args, x, c, d)
    ensures forall i :: 0 <= i < |args| && Level(sp, args[i]) >= 2 ==> Can(sp, open, args[i], x)
    decreases open, args, 0
  {
    if args != [] {
      var last := |args| - 1;
      var mid: Progress :| RunsAll(sp, open, args[..last], x, c, mid) &&
        if Level(sp, args[last]) < 2 then Eval(sp, open, args[last], x) == TRUE && d == mid
        else Runs(sp, open, args[last], x, mid, d);
      RunsAllCan(sp, open, args[..last], x, c, mid);
      if Level(sp, args[last]) >= 2 { RunsCan(sp, open, args[last], x, mid, d); }
      forall i | 0 <= i < |args| && Level(sp, args[i]) >= 2 ensures Can(sp, open, args[i], x) {
        assert i < last ==> args[..last][i] == args[i];
      }
    }
  }

  /** As a relation: an accepted action without guards has a next state exactly when it can choose. */
  lemma BareSteps(sp: Spec, n: Node, s: State)
    requires WellLevelled(sp) && Walk(sp, sp.defs.Keys, n).Some? && Plain(sp, sp.defs.Keys, n)
      && Bare(sp, sp.defs.Keys, n)
    requires Walk(sp, sp.defs.Keys, n).value <= s.Keys
    ensures (exists t: State :: t.Keys == s.Keys && Eval(sp, sp.defs.Keys, n, Ctx(map[], map[], s, t)) == TRUE) <==>
            Can(sp, sp.defs.Keys, n, Ctx(map[], map[], s, s))
  {
    hide Runs, Walk, Bare, Plain;
    var open, x := sp.defs.Keys, Ctx(map[], map[], s, s);
    if Can(sp, open, n, x) {
      var d := CanRuns(sp, open, n, x, NOTHING_GIVEN);
      NoSecondValue(sp, open, n, x, NOTHING_GIVEN, d);
      var t := s + d.next;
      assert Within(d.next, t) && t.Keys == s.Keys;
      RunsAreSteps(sp, n, s, t);
    }
    forall t: State | t.Keys == s.Keys && Eval(sp, open, n, Ctx(map[], map[], s, t)) == TRUE
      ensures Can(sp, open, n, x)
    {
      RunsAreSteps(sp, n, s, t);
      var d :| Runs(sp, open, n, x, NOTHING_GIVEN, d) && Within(d.next, t);
      RunsCan(sp, open, n, x, NOTHING_GIVEN, d);
    }
  }

  // --- removing all listed guards leaves an accepted action without guards

  /** Every guard of the node at `at`, and of each action in `actions`, is gone. */
  ghost predicate AllGone(sp: Spec, gone: set<Guard>, actions: set<string>, n: Node, act: string, at: seq<nat>) {
    && (forall g :: Lists(sp, act, n, at, g) ==> g in gone)
    && (forall g: Guard :: g.action in actions && ListsAction(sp, g) ==> g in gone)
  }

  lemma GoneBelow(sp: Spec, gone: set<Guard>, actions: set<string>, n: Node, act: string, at: seq<nat>, i: nat)
    requires AllGone(sp, gone, actions, n, act, at)
    requires match n
      case LetIn(_) => i == 0
      case Exists(_, _, _) => i == 0
      case Op(op, args) => ((op.And? || op.Or?) && i < |args|) || (op.IfThenElse? && |args| == 3 && 1 <= i < 3)
      case _ => false
    ensures var kid := if n.Op? then n.args[i] else n.body;
      if n.Op? && n.op.And? && Level(sp, kid) < 2
      then forall path :: IsCondition(kid, path) ==> at + [i] + path in PathsOf(gone, act)
      else AllGone(sp, gone, actions, kid, act, at + [i])
  {
    GuardStep(sp, n, act, at, i);
    var kid := if n.Op? then n.args[i] else n.body;
    if n.Op? && n.op.And? && Level(sp, kid) < 2 {
      forall path | IsCondition(kid, path) ensures at + [i] + path in PathsOf(gone, act) {
        var g := Guard(act, at + [i] + path);
        assert g.path[|at + [i]|..] == path;
        assert ListsConditions(act, kid, at + [i], g);
        assert g in gone;
      }
    }
  }

  lemma {:induction false} LevelStays(sp: Spec, sp': Spec, n: Node)
    requires sp'.defs.Keys == sp.defs.Keys && forall d :: d in sp.defs ==> sp'.defs[d].level == sp.defs[d].level
    ensures Level(sp', n) == Level(sp, n)
    decreases n, 1
  {
    match n
    case Op(_, args) => MaxLevelStays(sp, sp', args);
    case Call(_, args) => MaxLevelStays(sp, sp', args);
    case LetIn(b) => LevelStays(sp, sp', b);
    case Exists(_, dom, b) =>
      LevelStays(sp, sp', dom);
      LevelStays(sp, sp', b);
    case _ =>
  }

  lemma {:induction false} MaxLevelStays(sp: Spec, sp': Spec, ns: seq<Node>)
    requires sp'.defs.Keys == sp.defs.Keys && forall d :: d in sp.defs ==> sp'.defs[d].level == sp.defs[d].level
    ensures MaxLevel(sp', ns) == MaxLevel(sp, ns)
    decreases ns, 0
  {
    if ns != [] {
      LevelStays(sp, sp', ns[0]);
      MaxLevelStays(sp, sp', ns[1..]);
    }
  }

  lemma {:induction false} MaxLevelIs(sp: Spec, ns: seq<Node>)
    ensures MaxLevel(sp, ns) == 0 || exists i :: 0 <= i < |ns| && Level(sp, ns[i]) == MaxLevel(sp, ns)
  {
    if ns != [] {
      MaxLevelIs(sp, ns[1..]);
      if MaxLevel(sp, ns) != 0 && MaxLevel(sp, ns) == MaxLevel(sp, ns[1..]) {
        var i :| 0 <= i < |ns[1..]| && Level(sp, ns[1..][i]) == MaxLevel(sp, ns);
        assert ns[i + 1] == ns[1..][i];
      } else {
        assert MaxLevel(sp, ns) != 0 ==> Level(sp, ns[0]) == MaxLevel(sp, ns);
      }
    }
  }

  lemma {:induction false} MaxLevelFalls(sp: Spec, ns: seq<Node>, ms: seq<Node>)
    requires |ns| == |ms| && forall i :: 0 <= i < |ns| ==> Level(sp, ms[i]) <= Level(sp, ns[i])
    ensures MaxLevel(sp, ms) <= MaxLevel(sp, ns)
  {
    MaxLevelIs(sp, ms);
  }

  lemma {:induction false} ConditionsFall(sp: Spec, n: Node, gone: set<seq<nat>>, at: seq<nat>)
    ensures Level(sp, WithoutConditions(n, gone, at)) <= Level(sp, n)
    decreases n
  {
    if n.Op? && n.op.And? {
      var w := WithoutConditions(n, gone, at);
      forall i | 0 <= i < |n.args| ensures Level(sp, w.args[i]) <= Level(sp, n.args[i]) {
        ConditionsFall(sp, n.args[i], gone, at + [i]);
      }
      MaxLevelFalls(sp, n.args, w.args);
    }
  }

  /** Taking guards out of a node never raises its level. */
  lemma {:induction false} LevelFalls(sp: Spec, n: Node, gone: set<seq<nat>>, at: seq<nat>)
    ensures Level(sp, Without(sp, n, gone, at)) <= Level(sp, n)
    decreases n
  {
    var w := Without(sp, n, gone, at);
    match n
    case LetIn(b) => LevelFalls(sp, b, gone, at + [0]);
    case Exists(_, _, b) => LevelFalls(sp, b, gone, at + [0]);
    case Op(op, args) =>
      if op.And? || op.Or? || (op.IfThenElse? && |args| == 3) {
        forall i | 0 <= i < |args| ensures Level(sp, w.args[i]) <= Level(sp, args[i]) {
          ConditionsFall(sp, args[i], gone, at + [i]);
          LevelFalls(sp, args[i], gone, at + [i]);
        }
        MaxLevelFalls(sp, args, w.args);
      }
    case _ =>
  }

  /** An accepted action is still one without its guards. */
  lemma {:induction false} StaysAction(sp: Spec, open: set<string>, n: Node, gone: set<seq<nat>>, at: seq<nat>)
    requires Walk(sp, open, n).Some? && Level(sp, n) >= 2
    ensures Level(sp, Without(sp, n, gone, at)) >= 2
    decreases n
  {
    var w := Without(sp, n, gone, at);
    match n
    case LetIn(b) => StaysAction(sp, open, b, gone, at + [0]);
    case Exists(_, _, b) => StaysAction(sp, open, b, gone, at + [0]);
    case Op(op, args) =>
      if op.And? || op.Or? {
        MaxLevelIs(sp, args);
        var i :| 0 <= i < |args| && Level(sp, args[i]) >= 2;
        if op.And? { AndOperand(sp, open, args, i, |args|); } else { OrOperand(sp, open, args, i); }
        StaysAction(sp, open, args[i], gone, at + [i]);
        assert Level(sp, w.args[i]) >= 2;
      } else if op.IfThenElse? {
        StaysAction(sp, open, args[1], gone, at + [1]);
        assert w.args[1] == Without(sp, args[1], gone, at + [1]);
      }
    case _ =>
  }

  /** The removal changes nothing but the bodies of actions. */
  ghost predicate Strips(sp: Spec, sp': Spec, actions: set<string>) {
    && Changes(sp, sp', actions)
    && (forall d :: d in sp.defs ==> sp'.defs[d].level == sp.defs[d].level)
    && (forall d :: d in actions && d in sp.defs ==> sp.defs[d].level >= 2)
  }

  lemma {:induction false} VarsStay(sp: Spec, sp': Spec, actions: set<string>, open: set<string>, e: Node)
    requires WellLevelled(sp) && Strips(sp, sp', actions) && Level(sp, e) < 2
    ensures VarsNamed(sp', open, e) == VarsNamed(sp, open, e)
    decreases open, e, 1
  {
    match e
    case Op(TupleOf, args) => AllVarsStay(sp, sp', actions, open, args);
    case Call(d, args) =>
      if d in open && Resolves(sp, d, args) { VarsStay(sp, sp', actions, open - {d}, sp.defs[d].body); }
    case _ =>
  }

  lemma {:induction false} AllVarsStay(sp: Spec, sp': Spec, actions: set<string>, open: set<string>, es: seq<Node>)
    requires WellLevelled(sp) && Strips(sp, sp', actions) && forall i :: 0 <= i < |es| ==> Level(sp, es[i]) < 2
    ensures AllVarsNamed(sp', open, es) == AllVarsNamed(sp, open, es)
    decreases open, es, 0
  {
    if es != [] {
      VarsStay(sp, sp', actions, open, es[0]);
      AllVarsStay(sp, sp', actions, open, es[1..]);
    }
  }

  lemma {:induction false} ParamsStay(sp: Spec, sp': Spec, actions: set<string>, open: set<string>, e: Node)
    requires WellLevelled(sp) && Strips(sp, sp', actions) && Level(sp, e) == 0
    ensures ParamsUnder(sp', open, e) == ParamsUnder(sp, open, e)
    decreases open, e, 1
  {
    match e
    case Op(_, args) => AllParamsStay(sp, sp', actions, open, args);
    case Call(d, args) =>
      AllParamsStay(sp, sp', actions, open, args);
      if d in open && Resolves(sp, d, args) { ParamsStay(sp, sp', actions, open - {d}, sp.defs[d].body); }
    case LetIn(b) => ParamsStay(sp, sp', actions, open, b);
    case Exists(_, dom, b) =>
      ParamsStay(sp, sp', actions, open, dom);
      ParamsStay(sp, sp', actions, open, b);
    case _ =>
  }

  lemma {:induction false} AllParamsStay(sp: Spec, sp': Spec, actions: set<string>, open: set<string>, es: seq<Node>)
    requires WellLevelled(sp) && Strips(sp, sp', actions) && forall i :: 0 <= i < |es| ==> Level(sp, es[i]) == 0
    ensures AllParamsUnder(sp', open, es) == AllParamsUnder(sp, open, es)
    decreases open, es, 0
  {
    if es != [] {
      ParamsStay(sp, sp', actions, open, es[0]);
      AllParamsStay(sp, sp', actions, open, es[1..]);
    }
  }

  lemma {:induction false} ConditionsBlank(n: Node, gone: set<seq<nat>>, at: seq<nat>)
    requires forall path :: IsCondition(n, path) ==> at + path in gone
    ensures Blank(WithoutConditions(n, gone, at))
    decreases n
  {
    if n.Op? && n.op.And? {
      forall i | 0 <= i < |n.args| ensures Blank(WithoutConditions(n.args[i], gone, at + [i])) {
        forall path | IsCondition(n.args[i], path) ensures at + [i] + path in gone {
          assert ([i] + path)[1..] == path && at + ([i] + path) == at + [i] + path;
        }
        ConditionsBlank(n.args[i], gone, at + [i]);
      }
    } else {
      assert at + [] == at;
    }
  }

  /**
   * What is left of an accepted node: accepted with the same variables, without
   * guards, its values still of the current state.
   */
  ghost predicate Stripped(sp: Spec, sp': Spec, open: set<string>, n: Node, w: Node) {
    Walk(sp', open, w) == Walk(sp, open, n) && Bare(sp', open, w) && Plain(sp', open, w)
  }

  ghost predicate Strippable(sp: Spec, gone: set<Guard>, actions: set<string>, open: set<string>, n: Node) {
    && WellLevelled(sp) && Strips(sp, RemoveGuards(sp, gone), actions) && Follows(sp, open, n) <= actions
    && Walk(sp, open, n).Some? && Plain(sp, open, n)
  }

  lemma {:induction false} Strip(sp: Spec, gone: set<Guard>, actions: set<string>, open: set<string>, n: Node,
      act: string, at: seq<nat>)
    requires Strippable(sp, gone, actions, open, n) && AllGone(sp, gone, actions, n, act, at)
    ensures Stripped(sp, RemoveGuards(sp, gone), open, n, Without(sp, n, PathsOf(gone, act), at))
    decreases open, n, 1
  {
    var sp' := RemoveGuards(sp, gone);
    match n
    case LetIn(b) =>
      GoneBelow(sp, gone, actions, n, act, at, 0);
      Strip(sp, gone, actions, open, b, act, at + [0]);
    case Exists(_, dom, b) =>
      GoneBelow(sp, gone, actions, n, act, at, 0);
      Strip(sp, gone, actions, open, b, act, at + [0]);
      LevelStays(sp, sp', dom);
      ParamsStay(sp, sp', actions, sp.defs.Keys, dom);
    case Call(f, args) => StripCall(sp, gone, actions, open, f, args);
    case Op(_, _) => StripOp(sp, gone, actions, open, n, act, at);
    case Unchanged(e) =>
      LevelStays(sp, sp', e);
      VarsStay(sp, sp', actions, sp.defs.Keys, e);
    case _ =>
  }

  lemma {:induction false} StripCall(sp: Spec, gone: set<Guard>, actions: set<string>, open: set<string>, f: string,
      args: seq<Node>)
    requires Strippable(sp, gone, actions, open, Call(f, args))
    requires forall g: Guard :: g.action in actions && ListsAction(sp, g) ==> g in gone
    ensures Stripped(sp, RemoveGuards(sp, gone), open, Call(f, args), Call(f, args))
    decreases open, args, 0
  {
    var sp', def := RemoveGuards(sp, gone), sp.defs[f];
    if PathsOf(gone, f) == {} { NothingGone(sp, def.body, []); }
    forall g | Lists(sp, f, def.body, [], g) ensures g in gone { assert g.path[0..] == g.path; }
    Strip(sp, gone, actions, open - {f}, def.body, f, []);
    forall i | 0 <= i < |args| ensures Level(sp', args[i]) == Level(sp, args[i]) { LevelStays(sp, sp', args[i]); }
  }

  lemma {:induction false} StripOp(sp: Spec, gone: set<Guard>, actions: set<string>, open: set<string>, n: Node,
      act: string, at: seq<nat>)
    requires n.Op? && Strippable(sp, gone, actions, open, n) && AllGone(sp, gone, actions, n, act, at)
    ensures Stripped(sp, RemoveGuards(sp, gone), open, n, Without(sp, n, PathsOf(gone, act), at))
    decreases open, n, 0
  {
    var sp', args := RemoveGuards(sp, gone), n.args;
    var w := Without(sp, n, PathsOf(gone, act), at);
    match n.op
    case And =>
      StripConjuncts(sp, gone, actions, open, n, args, w.args, act, at);
      assert w.args[..|args|] == w.args;
    case Or =>
      StripDisjuncts(sp, gone, actions, open, n, args, w.args, act, at);
      assert w.args[..|args|] == w.args;
    case IfThenElse =>
      forall k | 1 <= k < 3 ensures Stripped(sp, sp', open, args[k], w.args[k]) && Level(sp', w.args[k]) >= 2 {
        GoneBelow(sp, gone, actions, n, act, at, k);
        Strip(sp, gone, actions, open, args[k], act, at + [k]);
        StaysAction(sp, open, args[k], PathsOf(gone, act), at + [k]);
        LevelStays(sp, sp', w.args[k]);
      }
      LevelStays(sp, sp', args[0]);
    case Equals => LevelStays(sp, sp', args[1]);
    case ElementOf => LevelStays(sp, sp', args[1]);
    case _ =>
  }

  lemma KeptOperand(sp: Spec, n: Node, gone: set<seq<nat>>, at: seq<nat>, i: nat)
    requires n.Op? && (n.op.And? || n.op.Or?) && i < |n.args|
    ensures var w := Without(sp, n, gone, at);
      && w.Op? && |w.args| == |n.args|
      && w.args[i] == if n.op.And? && Level(sp, n.args[i]) < 2 then WithoutConditions(n.args[i], gone, at + [i])
                      else Without(sp, n.args[i], gone, at + [i])
  {
  }

  lemma {:induction false} StripConjuncts(sp: Spec, gone: set<Guard>, actions: set<string>, open: set<string>, n: Node,
      args: seq<Node>, kept: seq<Node>, act: string, at: seq<nat>)
    requires n.Op? && n.op.And? && args <= n.args && AllGone(sp, gone, actions, n, act, at)
    requires kept == Without(sp, n, PathsOf(gone, act), at).args
    requires WellLevelled(sp) && Strips(sp, RemoveGuards(sp, gone), actions) && AllFollows(sp, open, args) <= actions
    requires WalkAnd(sp, open, args).Some?
    requires forall i :: 0 <= i < |args| && Level(sp, args[i]) >= 2 ==> Plain(sp, open, args[i])
    ensures var sp' := RemoveGuards(sp, gone);
      && WalkAnd(sp', open, kept[..|args|]) == WalkAnd(sp, open, args)
      && forall i :: 0 <= i < |args| ==>
           if Level(sp', kept[i]) < 2 then Blank(kept[i]) else Bare(sp', open, kept[i]) && Plain(sp', open, kept[i])
    decreases open, args, 0
  {
    hide RemoveGuards, Without, WithoutConditions, Bare, Plain, Blank, IsCondition, PathsOf, Level, Walk;
    if args != [] {
      var last := |args| - 1;
      var sp', paths := RemoveGuards(sp, gone), PathsOf(gone, act);
      KeptOperand(sp, n, paths, at, last);
      StripConjuncts(sp, gone, actions, open, n, args[..last], kept, act, at);
      GoneBelow(sp, gone, actions, n, act, at, last);
      assert kept[..|args|][..last] == kept[..last] && kept[..|args|][last] == kept[last] && args[last] == n.args[last];
      LevelStays(sp, sp', kept[last]);
      if Level(sp, args[last]) < 2 {
        ConditionsBlank(args[last], paths, at + [last]);
        ConditionsFall(sp, args[last], paths, at + [last]);
      } else {
        Strip(sp, gone, actions, open, args[last], act, at + [last]);
        StaysAction(sp, open, args[last], paths, at + [last]);
      }
    }
  }

  lemma {:induction false} StripDisjuncts(sp: Spec, gone: set<Guard>, actions: set<string>, open: set<string>, n: Node,
      args: seq<Node>, kept: seq<Node>, act: string, at: seq<nat>)
    requires n.Op? && n.op.Or? && args <= n.args && AllGone(sp, gone, actions, n, act, at)
    requires kept == Without(sp, n, PathsOf(gone, act), at).args
    requires WellLevelled(sp) && Strips(sp, RemoveGuards(sp, gone), actions) && AllFollows(sp, open, args) <= actions
    requires WalkOr(sp, open, args).Some? && forall i :: 0 <= i < |args| ==> Plain(sp, open, args[i])
    ensures var sp' := RemoveGuards(sp, gone);
      && WalkOr(sp', open, kept[..|args|]) == WalkOr(sp, open, args)
      && forall i :: 0 <= i < |args| ==> Bare(sp', open, kept[i]) && Plain(sp', open, kept[i])
    decreases open, args, 0
  {
    hide RemoveGuards, Without, Bare, Plain, IsCondition, PathsOf, Level, Walk;
    if args != [] {
      var last := |args| - 1;
      var sp' := RemoveGuards(sp, gone);
      KeptOperand(sp, n, PathsOf(gone, act), at, last);
      StripDisjuncts(sp, gone, actions, open, n, args[..last], kept, act, at);
      GoneBelow(sp, gone, actions, n, act, at, last);
      assert kept[..|args|][..last] == kept[..last] && kept[..|args|][last] == kept[last] && args[last] == n.args[last];
      Strip(sp, gone, actions, open, args[last], act, at + [last]);
      StaysAction(sp, open, args[last], PathsOf(gone, act), at + [last]);
      LevelStays(sp, sp', kept[last]);
    }
  }

  /** Every action the walk follows is recorded as one. */
  lemma {:induction false} FollowsActions(sp: Spec, open: set<string>, n: Node)
    requires Walk(sp, open, n).Some?
    ensures forall d :: d in Follows(sp, open, n) ==> d in sp.defs && sp.defs[d].level >= 2
    decreases open, n, 1
  {
    match n
    case LetIn(b) => FollowsActions(sp, open, b);
    case Exists(_, _, b) => FollowsActions(sp, open, b);
    case Call(f, args) => FollowsActions(sp, open - {f}, sp.defs[f].body);
    case Op(And, args) => AllFollowActions(sp, open, args, true);
    case Op(Or, args) => AllFollowActions(sp, open, args, false);
    case Op(IfThenElse, args) =>
      FollowsActions(sp, open, args[1]);
      FollowsActions(sp, open, args[2]);
    case _ =>
  }

  lemma {:induction false} AllFollowActions(sp: Spec, open: set<string>, args: seq<Node>, conjuncts: bool)
    requires if conjuncts then WalkAnd(sp, open, args).Some? else WalkOr(sp, open, args).Some?
    ensures forall d :: d in AllFollows(sp, open, args) ==> d in sp.defs && sp.defs[d].level >= 2
    decreases open, args, 0
  {
    if args != [] {
      var last := |args| - 1;
      AllFollowActions(sp, open, args[..last], conjuncts);
      if Level(sp, args[last]) >= 2 { FollowsActions(sp, open, args[last]); }
    }
  }

  lemma AllRemoved(sp: Spec, gone: set<Guard>)
    requires WellLevelled(sp) && sp.formula !in sp.defs
    requires Walk(sp, sp.defs.Keys, sp.next).Some? && Plain(sp, sp.defs.Keys, sp.next)
    requires forall g :: g in gone <==> Listed(sp, g)
    ensures var sp' := RemoveGuards(sp, gone);
      && sp'.defs.Keys == sp.defs.Keys && Stripped(sp, sp', sp.defs.Keys, sp.next, sp'.next)
      && WellLevelled(sp')
  {
    var sp', actions := RemoveGuards(sp, gone), Followed(sp);
    FollowsActions(sp, sp.defs.Keys, sp.next);
    RemovalChanges(sp, gone, actions);
    Strip(sp, gone, actions, sp.defs.Keys, sp.next, sp.formula, []);
    forall d | d in sp'.defs ensures Level(sp', sp'.defs[d].body) <= sp'.defs[d].level {
      LevelStays(sp, sp', sp'.defs[d].body);
      LevelFalls(sp, sp.defs[d].body, PathsOf(gone, d), []);
    }
  }

  /**
   * The listing misses no guard: once all listed guards are TRUE, the relation
   * has a step from a state if and only if the sets values are chosen from let
   * it choose. Actions may be used in any other way beside.
   */
  lemma ListingIsComplete(sp: Spec, gone: set<Guard>, s: State)
    requires WellLevelled(sp) && sp.formula !in sp.defs
    requires Walk(sp, sp.defs.Keys, sp.next).Some? && Plain(sp, sp.defs.Keys, sp.next)
    requires forall g :: g in gone <==> Listed(sp, g)
    requires Walk(sp, sp.defs.Keys, sp.next).value <= s.Keys
    ensures var sp' := RemoveGuards(sp, gone);
      (exists t: State :: t.Keys == s.Keys && Eval(sp', sp.defs.Keys, sp'.next, Ctx(map[], map[], s, t)) == TRUE) <==>
      Can(sp', sp.defs.Keys, sp'.next, Ctx(map[], map[], s, s))
  {
    AllRemoved(sp, gone);
    BareSteps(RemoveGuards(sp, gone), RemoveGuards(sp, gone).next, s);
  }

  /** Whether nothing an action chooses from is empty, wherever it may get to. */
  ghost predicate NeverEmpty(sp: Spec, open: set<string>, n: Node, x: Ctx)
    decreases open, n
  {
    match n
    case LetIn(b) => NeverEmpty(sp, open, b, x)
    case Exists(y, dom, b) =>
      var domain := Elements(Eval(sp, open, dom, x));
      domain != {} && forall v :: v in domain ==> NeverEmpty(sp, open, b, x.(q := x.q[y := v]))
    case Call(f, args) =>
      f in open && Resolves(sp, f, args) ==>
        NeverEmpty(sp, open - {f}, sp.defs[f].body, x.(p := Bind(x.p, sp.defs[f].params, EvalAll(sp, open, args, x))))
    case Op(And, args) => forall i :: 0 <= i < |args| && Level(sp, args[i]) >= 2 ==> NeverEmpty(sp, open, args[i], x)
    case Op(Or, args) => args != [] && forall i :: 0 <= i < |args| ==> NeverEmpty(sp, open, args[i], x)
    case Op(IfThenElse, args) => |args| == 3 ==> NeverEmpty(sp, open, args[1], x) && NeverEmpty(sp, open, args[2], x)
    case Op(ElementOf, args) => |args| == 2 ==> Elements(Eval(sp, open, args[1], x)) != {}
    case _ => true
  }

  /** Where nothing is empty an accepted action can choose, so it is enabled without its guards. */
  lemma {:induction false} NeverEmptyCan(sp: Spec, open: set<string>, n: Node, x: Ctx)
    requires Walk(sp, open, n).Some? && NeverEmpty(sp, open, n, x)
    ensures Can(sp, open, n, x)
    decreases open, n
  {
    match n
    case LetIn(b) => NeverEmptyCan(sp, open, b, x);
    case Exists(y, dom, b) =>
      var v :| v in Elements(Eval(sp, open, dom, x));
      NeverEmptyCan(sp, open, b, x.(q := x.q[y := v]));
    case Call(f, args) =>
      NeverEmptyCan(sp, open - {f}, sp.defs[f].body, x.(p := Bind(x.p, sp.defs[f].params, EvalAll(sp, open, args, x))));
    case Op(And, args) =>
      forall i | 0 <= i < |args| && Level(sp, args[i]) >= 2 ensures Can(sp, open, args[i], x) {
        AndOperand(sp, open, args, i, |args|);
        NeverEmptyCan(sp, open, args[i], x);
      }
    case Op(Or, args) =>
      OrOperand(sp, open, args, 0);
      NeverEmptyCan(sp, open, args[0], x);
    case Op(IfThenElse, args) =>
      NeverEmptyCan(sp, open, if Eval(sp, open, args[0], x) == TRUE then args[1] else args[2], x);
    case _ =>
  }

  /** A set with nothing in it is a condition with no row: the walk accepts it, lists no guard, and it has no step. */
  lemma EmptyChoiceHasNoRow(sp: Spec, c: Ctx)
    ensures var none := Op(ElementOf, [Prime("x"), Lit(SetOf({}))]);
      && Walk(sp, sp.defs.Keys, none) == Some({"x"})
      && (forall path :: !IsGuard(sp, none, path))
      && Eval(sp, sp.defs.Keys, none, c) != TRUE
  {
    var args := [Prime("x"), Lit(SetOf({}))];
    assert EvalAll(sp, sp.defs.Keys, args, c)[1] == SetOf({});
  }

  /** A domain the walk accepts has one value in every state, whatever a caller's parameters are. */
  lemma DomainIsConstant(sp: Spec, dom: Node, c: Ctx, d: Ctx)
    requires WellLevelled(sp) && ConstantDomain(sp, dom) && c.q == d.q
    ensures Eval(sp, sp.defs.Keys, dom, c) == Eval(sp, sp.defs.Keys, dom, d)
  {
    ReadsDecide(sp, sp.defs.Keys, dom, c, d);
  }

  /** A guard stands in the relation itself or in an action whose call the walk comes to. */
  ghost predicate IsListed(sp: Spec, g: Guard) {
    || (g.action == sp.formula && PlaceOfGuard(sp, sp.next, g.path))
    || (ComesToCall(sp, sp.defs.Keys, sp.next, g.action) && g.action in sp.defs
        && PlaceOfGuard(sp, sp.defs[g.action].body, g.path))
  }

  /** Two of them in one action with the same text. */
  ghost predicate Repeats(sp: Spec, text: Guard -> string, g: Guard, h: Guard) {
    IsListed(sp, g) && IsListed(sp, h) && g != h && g.action == h.action && text(g) == text(h)
  }

  function Texts(found: seq<Guard>, text: Guard -> string): (keys: seq<(string, string)>)
    ensures |keys| == |found| && forall i :: 0 <= i < |found| ==> keys[i] == (found[i].action, text(found[i]))
  {
    seq(|found|, i requires 0 <= i < |found| => (found[i].action, text(found[i])))
  }

  lemma RepeatedTexts(sp: Spec, text: Guard -> string, found: seq<Guard>)
    requires Distinct(found) && forall g :: g in found <==> IsListed(sp, g)
    ensures Distinct(Texts(found, text)) <==> forall g, h :: !Repeats(sp, text, g, h)
  {
    hide IsListed;
    var keys := Texts(found, text);
    forall i, j | 0 <= i < j < |keys| && keys[i] == keys[j] ensures Repeats(sp, text, found[i], found[j]) {
    }
    forall g, h | Repeats(sp, text, g, h) ensures !Distinct(keys) {
      var i :| 0 <= i < |found| && found[i] == g;
      var j :| 0 <= j < |found| && found[j] == h;
      assert i < j || j < i;
    }
  }

  lemma ListedIs(sp: Spec, g: Guard)
    requires Walk(sp, sp.defs.Keys, sp.next).Some?
    ensures Listed(sp, g) <==> IsListed(sp, g)
  {
    hide IsGuard, PlaceOfGuard, ComesToCall;
    GuardIs(sp, sp.next, g.path);
    if g.action in sp.defs { GuardIs(sp, sp.defs[g.action].body, g.path); }
    FollowsCalls(sp, sp.defs.Keys, sp.next);
  }

  /**
   * The listing as it is made: one reader walks the relation and finds each
   * guard once. It is refused exactly if the relation is no action, the walk
   * comes to a fault, or one action holds the same text twice.
   */
  method ListGuards(sp: Spec, text: Guard -> string) returns (listing: Option<seq<Guard>>)
    requires sp.formula !in sp.defs
    ensures listing.Some? <==> Level(sp, sp.next) >= 2 && !Stops(sp, sp.defs.Keys, sp.next)
                               && forall g, h :: !Repeats(sp, text, g, h)
    ensures listing.Some? ==> Distinct(listing.value) && forall g :: g in listing.value <==> IsListed(sp, g)
  {
    hide Walk, Follows, Listed, IsListed, Stops;
    if Level(sp, sp.next) < 2 { return None; }
    var reader := new Reader(sp);
    assert sp.defs.Keys - reader.reading == sp.defs.Keys;
    WalkIsExact(sp, sp.defs.Keys, sp.next);
    var given := reader.Visit(sp.next, sp.formula, []);
    if given.None? { return None; }
    var found := reader.found;
    OpenMore(sp, reader.assigns.Keys, sp.defs.Keys, sp.next);
    assert forall g :: g in found <==> Listed(sp, g) by { ReadIsListed(sp, found, reader.assigns.Keys); }
    forall g { ListedIs(sp, g); }
    RepeatedTexts(sp, text, found);
    if !Distinct(Texts(found, text)) { return None; }
    listing := Some(found);
  }

  lemma ReadIsListed(sp: Spec, found: seq<Guard>, read: set<string>)
    requires read == Followed(sp)
    requires forall g :: g in found <==>
      Lists(sp, sp.formula, sp.next, [], g) || (g.action in read && ListsAction(sp, g))
    ensures forall g :: g in found <==> Listed(sp, g)
  {
  }
}
