/**
 * The argument of proofs/guard_sweep.py: replacing guards by TRUE only adds
 * steps, so the states reached only grow, so as many states are the same
 * states. It rests on each action being used only as a step.
 */
module GuardSweep {
  import opened Common
  import opened Actions
  import opened GuardReader

  // --- a specification with some guards replaced by TRUE

  function PathsOf(gone: set<Guard>, action: string): set<seq<nat>> {
    set g | g in gone && g.action == action :: g.path
  }

  function WithoutConditions(n: Node, gone: set<seq<nat>>, at: seq<nat>): Node
    decreases n
  {
    if n.Op? && n.op.And? then
      Op(And, seq(|n.args|, i requires 0 <= i < |n.args| => WithoutConditions(n.args[i], gone, at + [i])))
    else if at in gone then Lit(TRUE) else n
  }

  function Without(sp: Spec, n: Node, gone: set<seq<nat>>, at: seq<nat>): Node
    decreases n
  {
    match n
    case LetIn(b) => LetIn(Without(sp, b, gone, at + [0]))
    case Exists(x, dom, b) => Exists(x, dom, Without(sp, b, gone, at + [0]))
    case Op(And, args) =>
      Op(And, seq(|args|, i requires 0 <= i < |args| =>
        if Level(sp, args[i]) < 2 then WithoutConditions(args[i], gone, at + [i])
        else Without(sp, args[i], gone, at + [i])))
    case Op(Or, args) =>
      Op(Or, seq(|args|, i requires 0 <= i < |args| => Without(sp, args[i], gone, at + [i])))
    case Op(IfThenElse, args) =>
      if |args| != 3 then n else
      Op(IfThenElse, [args[0], Without(sp, args[1], gone, at + [1]), Without(sp, args[2], gone, at + [2])])
    case _ => n
  }

  function DefWithout(sp: Spec, gone: set<Guard>, d: string): Def
    requires d in sp.defs
  {
    var paths := PathsOf(gone, d);
    if paths == {} then sp.defs[d] else sp.defs[d].(body := Without(sp, sp.defs[d].body, paths, []))
  }

  /** The specification with those guards, wherever they stand, replaced by TRUE and nothing else touched. */
  function RemoveGuards(sp: Spec, gone: set<Guard>): Spec {
    sp.(
      defs := map d | d in sp.defs :: DefWithout(sp, gone, d),
      next := Without(sp, sp.next, PathsOf(gone, sp.formula), []))
  }

  // --- where actions are used only as steps

  ghost predicate Free(sp: Spec, open: set<string>, n: Node, actions: set<string>) { Mentions(sp, open, n) !! actions }

  /** Whether nothing an action reads, a guard, a value, a condition or a domain, names one of `actions`. */
  ghost predicate StepsOnly(sp: Spec, open: set<string>, n: Node, actions: set<string>)
    decreases open, n
  {
    match n
    case LetIn(b) => StepsOnly(sp, open, b, actions)
    case Exists(_, dom, b) => Free(sp, open, dom, actions) && StepsOnly(sp, open, b, actions)
    case Call(d, args) =>
      && (forall i :: 0 <= i < |args| ==> Free(sp, open, args[i], actions))
      && (d in open && d in sp.defs ==> StepsOnly(sp, open - {d}, sp.defs[d].body, actions))
    case Op(And, args) =>
      forall i :: 0 <= i < |args| ==>
        if Level(sp, args[i]) < 2 then Free(sp, open, args[i], actions) else StepsOnly(sp, open, args[i], actions)
    case Op(Or, args) => forall i :: 0 <= i < |args| ==> StepsOnly(sp, open, args[i], actions)
    case Op(IfThenElse, args) =>
      |args| == 3 ==>
        && Free(sp, open, args[0], actions) && StepsOnly(sp, open, args[1], actions)
        && StepsOnly(sp, open, args[2], actions)
    case Op(_, args) => forall i :: 0 <= i < |args| ==> Free(sp, open, args[i], actions)
    case Unchanged(e) => Free(sp, open, e, actions)
    case _ => true
  }

  function Followed(sp: Spec): set<string> { Follows(sp, sp.defs.Keys, sp.next) }

  /**
   * What the sweep accepts: the walk reads the relation, and no action of it is
   * used other than as a step. The formula itself is no action.
   */
  ghost predicate Sweepable(sp: Spec) {
    && sp.formula !in sp.defs
    && Walk(sp, sp.defs.Keys, sp.next).Some?
    && StepsOnly(sp, sp.defs.Keys, sp.next, Followed(sp))
    && Free(sp, sp.defs.Keys, sp.init, Followed(sp))
    && Free(sp, sp.defs.Keys, sp.constraint, Followed(sp))
  }

  /** The guards the walk lists: those of the relation itself and of every action it follows. */
  ghost predicate Listed(sp: Spec, g: Guard) {
    || Lists(sp, sp.formula, sp.next, [], g)
    || (g.action in Followed(sp) && ListsAction(sp, g))
  }

  // --- what a removal leaves alone

  ghost predicate Changes(sp: Spec, sp': Spec, actions: set<string>) {
    && sp'.builtin == sp.builtin && sp'.defs.Keys == sp.defs.Keys
    && (forall d :: d in sp.defs ==> |sp'.defs[d].params| == |sp.defs[d].params|)
    && (forall d :: d in sp.defs && d !in actions ==> sp'.defs[d] == sp.defs[d])
  }

  lemma RemovalChanges(sp: Spec, gone: set<Guard>, actions: set<string>)
    requires forall g :: g in gone && g.action in sp.defs ==> g.action in actions
    ensures Changes(sp, RemoveGuards(sp, gone), actions)
  {
    forall d | d in sp.defs && d !in actions ensures PathsOf(gone, d) == {} {
    }
  }

  /** An expression that names no changed definition keeps its value. */
  lemma {:induction false} Unaffected(sp: Spec, sp': Spec, open: set<string>, n: Node, actions: set<string>, c: Ctx)
    requires Changes(sp, sp', actions) && Free(sp, open, n, actions)
    ensures Eval(sp', open, n, c) == Eval(sp, open, n, c)
    decreases open, n, 1
  {
    match n
    case Op(_, args) => AllUnaffected(sp, sp', open, args, actions, c);
    case Enabled(a) =>
      forall u: State ensures Eval(sp', open, a, c.(t := u)) == Eval(sp, open, a, c.(t := u)) {
        Unaffected(sp, sp', open, a, actions, c.(t := u));
      }
    case Call(d, args) =>
      AllUnaffected(sp, sp', open, args, actions, c);
      if d in open && Resolves(sp, d, args) {
        assert d !in actions;
        Unaffected(sp, sp', open - {d}, sp.defs[d].body, actions,
          c.(p := Bind(c.p, sp.defs[d].params, EvalAll(sp, open, args, c))));
      }
    case LetIn(b) => Unaffected(sp, sp', open, b, actions, c);
    case Exists(x, dom, b) =>
      Unaffected(sp, sp', open, dom, actions, c);
      forall v | v in Elements(Eval(sp, open, dom, c))
        ensures Eval(sp', open, b, c.(q := c.q[x := v])) == Eval(sp, open, b, c.(q := c.q[x := v]))
      {
        Unaffected(sp, sp', open, b, actions, c.(q := c.q[x := v]));
      }
    case Unchanged(e) =>
      Unaffected(sp, sp', open, e, actions, c.(s := c.t));
      Unaffected(sp, sp', open, e, actions, c);
    case _ =>
  }

  lemma {:induction false} AllUnaffected(sp: Spec, sp': Spec, open: set<string>, ns: seq<Node>, actions: set<string>,
      c: Ctx)
    requires Changes(sp, sp', actions) && forall i :: 0 <= i < |ns| ==> Free(sp, open, ns[i], actions)
    ensures EvalAll(sp', open, ns, c) == EvalAll(sp, open, ns, c)
    decreases open, ns, 0
  {
    forall i | 0 <= i < |ns| { Unaffected(sp, sp', open, ns[i], actions, c); }
  }

  // --- removing guards only adds steps

  lemma {:induction false} ConditionsHold(sp: Spec, sp': Spec, open: set<string>, n: Node, gone: set<seq<nat>>,
      at: seq<nat>, actions: set<string>, c: Ctx)
    requires Changes(sp, sp', actions) && Free(sp, open, n, actions) && Eval(sp, open, n, c) == TRUE
    ensures Eval(sp', open, WithoutConditions(n, gone, at), c) == TRUE
    decreases n
  {
    if n.Op? && n.op.And? {
      var w := WithoutConditions(n, gone, at);
      forall i | 0 <= i < |n.args| ensures EvalAll(sp', open, w.args, c)[i] == TRUE {
        assert EvalAll(sp, open, n.args, c)[i] == TRUE;
        ConditionsHold(sp, sp', open, n.args[i], gone, at + [i], actions, c);
      }
    } else {
      Unaffected(sp, sp', open, n, actions, c);
    }
  }

  /** A step of an accepted action is still a step once any guards are gone, there and in whatever it calls. */
  lemma {:induction false} StepSurvives(sp: Spec, gone: set<Guard>, actions: set<string>, open: set<string>, n: Node,
      act: string, at: seq<nat>, c: Ctx)
    requires Changes(sp, RemoveGuards(sp, gone), actions)
    requires Walk(sp, open, n).Some? && StepsOnly(sp, open, n, actions) && Eval(sp, open, n, c) == TRUE
    ensures Eval(RemoveGuards(sp, gone), open, Without(sp, n, PathsOf(gone, act), at), c) == TRUE
    decreases open, n, 1
  {
    var sp' := RemoveGuards(sp, gone);
    match n
    case LetIn(b) => StepSurvives(sp, gone, actions, open, b, act, at + [0], c);
    case Exists(x, dom, b) =>
      Unaffected(sp, sp', open, dom, actions, c);
      var v :| v in Elements(Eval(sp, open, dom, c)) && Eval(sp, open, b, c.(q := c.q[x := v])) == TRUE;
      StepSurvives(sp, gone, actions, open, b, act, at + [0], c.(q := c.q[x := v]));
    case Call(d, args) =>
      AllUnaffected(sp, sp', open, args, actions, c);
      CallSurvives(sp, gone, actions, open, d, args, c);
    case Op(_, _) => OpSurvives(sp, gone, actions, open, n, act, at, c);
    case Unchanged(e) =>
      Unaffected(sp, sp', open, e, actions, c.(s := c.t));
      Unaffected(sp, sp', open, e, actions, c);
    case _ =>
  }

  lemma {:induction false} OpSurvives(sp: Spec, gone: set<Guard>, actions: set<string>, open: set<string>, n: Node,
      act: string, at: seq<nat>, c: Ctx)
    requires n.Op? && Changes(sp, RemoveGuards(sp, gone), actions)
    requires Walk(sp, open, n).Some? && StepsOnly(sp, open, n, actions) && Eval(sp, open, n, c) == TRUE
    ensures Eval(RemoveGuards(sp, gone), open, Without(sp, n, PathsOf(gone, act), at), c) == TRUE
    decreases open, n, 0
  {
    hide RemoveGuards, Eval, Apply, Level;
    var sp', paths, args := RemoveGuards(sp, gone), PathsOf(gone, act), n.args;
    var w := Without(sp, n, paths, at);
    OpMeans(sp, open, n.op, args, c);
    match n.op
    case And =>
      OpMeans(sp', open, And, w.args, c);
      forall i | 0 <= i < |args| ensures Eval(sp', open, w.args[i], c) == TRUE {
        if Level(sp, args[i]) < 2 {
          ConditionsHold(sp, sp', open, args[i], paths, at + [i], actions, c);
        } else {
          AndOperand(sp, open, args, i, |args|);
          StepSurvives(sp, gone, actions, open, args[i], act, at + [i], c);
        }
      }
    case Or =>
      OpMeans(sp', open, Or, w.args, c);
      var i :| 0 <= i < |args| && Eval(sp, open, args[i], c) == TRUE;
      OrOperand(sp, open, args, i);
      StepSurvives(sp, gone, actions, open, args[i], act, at + [i], c);
      assert Eval(sp', open, w.args[i], c) == TRUE;
    case IfThenElse =>
      OpMeans(sp', open, IfThenElse, w.args, c);
      Unaffected(sp, sp', open, args[0], actions, c);
      var k := if Eval(sp, open, args[0], c) == TRUE then 1 else 2;
      StepSurvives(sp, gone, actions, open, args[k], act, at + [k], c);
    case _ => EffectSurvives(sp, sp', actions, open, n, c);
  }

  lemma EffectSurvives(sp: Spec, sp': Spec, actions: set<string>, open: set<string>, n: Node, c: Ctx)
    requires n.Op? && Changes(sp, sp', actions) && forall i :: 0 <= i < |n.args| ==> Free(sp, open, n.args[i], actions)
    ensures Eval(sp', open, n, c) == Eval(sp, open, n, c)
  {
    AllUnaffected(sp, sp', open, n.args, actions, c);
    assert forall vals :: Apply(sp', n.op, vals) == Apply(sp, n.op, vals);
  }

  lemma {:induction false} CallSurvives(sp: Spec, gone: set<Guard>, actions: set<string>, open: set<string>, d: string,
      args: seq<Node>, c: Ctx)
    requires Changes(sp, RemoveGuards(sp, gone), actions)
    requires EvalAll(RemoveGuards(sp, gone), open, args, c) == EvalAll(sp, open, args, c)
    requires Walk(sp, open, Call(d, args)).Some? && StepsOnly(sp, open, Call(d, args), actions)
      && Eval(sp, open, Call(d, args), c) == TRUE
    ensures Eval(RemoveGuards(sp, gone), open, Call(d, args), c) == TRUE
    decreases open, args, 0
  {
    var def := sp.defs[d];
    var c' := c.(p := Bind(c.p, def.params, EvalAll(sp, open, args, c)));
    if PathsOf(gone, d) == {} {
      NothingGone(sp, def.body, []);
    }
    StepSurvives(sp, gone, actions, open - {d}, def.body, d, [], c');
  }

  lemma {:induction false} NothingGone(sp: Spec, n: Node, at: seq<nat>)
    ensures Without(sp, n, {}, at) == n && WithoutConditions(n, {}, at) == n
    decreases n
  {
    match n
    case LetIn(b) => NothingGone(sp, b, at + [0]);
    case Exists(_, _, b) => NothingGone(sp, b, at + [0]);
    case Op(_, args) => forall i | 0 <= i < |args| { NothingGone(sp, args[i], at + [i]); }
    case _ =>
  }

  // --- reachable states

  ghost predicate Starts(sp: Spec, vars: set<string>, s: State) {
    s.Keys == vars && Eval(sp, sp.defs.Keys, sp.init, Ctx(map[], map[], s, s)) == TRUE
  }

  ghost predicate Step(sp: Spec, vars: set<string>, s: State, t: State) {
    && t.Keys == vars
    && Eval(sp, sp.defs.Keys, sp.constraint, Ctx(map[], map[], s, s)) == TRUE
    && Eval(sp, sp.defs.Keys, sp.next, Ctx(map[], map[], s, t)) == TRUE
  }

  ghost predicate ReachedIn(sp: Spec, vars: set<string>, k: nat, s: State) {
    if k == 0 then Starts(sp, vars, s)
    else exists r: State :: ReachedIn(sp, vars, k - 1, r) && Step(sp, vars, r, s)
  }

  ghost predicate Reached(sp: Spec, vars: set<string>, s: State) { exists k: nat :: ReachedIn(sp, vars, k, s) }

  ghost predicate RemovesListed(sp: Spec, gone: set<Guard>) {
    forall g :: g in gone && g.action in sp.defs ==> g.action in Followed(sp)
  }

  lemma {:induction false} ReachSurvives(sp: Spec, gone: set<Guard>, vars: set<string>, k: nat, s: State)
    requires Sweepable(sp) && RemovesListed(sp, gone) && ReachedIn(sp, vars, k, s)
    ensures ReachedIn(RemoveGuards(sp, gone), vars, k, s)
  {
    var sp', acts, open := RemoveGuards(sp, gone), Followed(sp), sp.defs.Keys;
    RemovalChanges(sp, gone, acts);
    assert sp'.defs.Keys == open;
    if k == 0 {
      Unaffected(sp, sp', open, sp.init, acts, Ctx(map[], map[], s, s));
    } else {
      var r: State :| ReachedIn(sp, vars, k - 1, r) && Step(sp, vars, r, s);
      ReachSurvives(sp, gone, vars, k - 1, r);
      Unaffected(sp, sp', open, sp.constraint, acts, Ctx(map[], map[], r, r));
      StepSurvives(sp, gone, acts, open, sp.next, sp.formula, [], Ctx(map[], map[], r, s));
      assert Step(sp', vars, r, s);
    }
  }

  /** Every state the specification reaches is reached without the guards. */
  lemma RemovalOnlyAdds(sp: Spec, gone: set<Guard>, vars: set<string>, s: State)
    requires Sweepable(sp) && RemovesListed(sp, gone) && Reached(sp, vars, s)
    ensures Reached(RemoveGuards(sp, gone), vars, s)
  {
    var k: nat :| ReachedIn(sp, vars, k, s);
    ReachSurvives(sp, gone, vars, k, s);
  }

  // --- the sweep's verdict

  datatype Reaches = NoNewState | NewStates

  /** What a row says of a removal that broke nothing: it compares, for each configuration, a count with a count. */
  function Verdict(states: map<string, nat>, base: map<string, nat>): Reaches {
    if states == base then NoNewState else NewStates
  }

  ghost predicate IsReachedSet(sp: Spec, vars: set<string>, r: set<State>) {
    forall s :: s in r <==> Reached(sp, vars, s)
  }

  function Counts(reached: map<string, set<State>>): map<string, nat> { map v | v in reached :: |reached[v]| }

  /** One configuration's sweep: the states reached with the guards and without them. */
  ghost predicate Swept(sp: Spec, gone: set<Guard>, vars: set<string>, with: set<State>, without: set<State>) {
    && Sweepable(sp) && RemovesListed(sp, gone)
    && IsReachedSet(sp, vars, with) && IsReachedSet(RemoveGuards(sp, gone), vars, without)
  }

  lemma SameCountSameStates(sp: Spec, gone: set<Guard>, vars: set<string>, with: set<State>, without: set<State>)
    requires Swept(sp, gone, vars, with, without)
    ensures |with| == |without| <==> with == without
  {
    forall s | s in with ensures s in without { RemovalOnlyAdds(sp, gone, vars, s); }
    SubsetCount(with, without);
  }

  /**
   * The verdict read from counts is the verdict on states: "no new state"
   * exactly when every configuration reaches the same states with the guards
   * as without them.
   */
  lemma CountsDecide(specs: map<string, Spec>, vars: set<string>, gone: set<Guard>, with: map<string, set<State>>,
      without: map<string, set<State>>)
    requires with.Keys == without.Keys == specs.Keys
    requires forall v :: v in specs ==> Swept(specs[v], gone, vars, with[v], without[v])
    ensures Verdict(Counts(without), Counts(with)) == NoNewState <==> with == without
  {
    var states, base := Counts(without), Counts(with);
    forall v | v in specs ensures |with[v]| == |without[v]| <==> with[v] == without[v] {
      SameCountSameStates(specs[v], gone, vars, with[v], without[v]);
    }
    if states == base {
      forall v | v in specs ensures with[v] == without[v] { assert states[v] == |without[v]| && base[v] == |with[v]|; }
    }
  }
}
