/**
 * How a model checker takes a step: it evaluates an action left to right and
 * fills in a partial next state. The first `x' = e` it meets gives x a value;
 * a second one is a test of the value the first gave.
 */
module ActionRuns {
  import opened Common
  import opened Actions
  import opened GuardReader

  /** A next state being filled in, and the variables given a value, in order. */
  datatype Progress = Progress(next: State, given: seq<string>)

  const NOTHING_GIVEN: Progress := Progress(map[], [])

  function Give(c: Progress, x: string, v: Value): Option<Progress> {
    if x !in c.next then Some(Progress(c.next[x := v], c.given + [x]))
    else if c.next[x] == v then Some(Progress(c.next, c.given + [x]))
    else None
  }

  function Keep(c: Progress, xs: seq<string>, s: State): Option<Progress>
    decreases xs
  {
    if xs == [] then Some(c) else
    var g := Give(c, xs[0], Lookup(s, xs[0]));
    if g.None? then None else Keep(g.value, xs[1..], s)
  }

  /** Whether some left-to-right evaluation of an action takes `c` to `d`. */
  ghost predicate Runs(sp: Spec, open: set<string>, n: Node, x: Ctx, c: Progress, d: Progress)
    decreases open, n, 1
  {
    match n
    case LetIn(b) => Runs(sp, open, b, x, c, d)
    case Call(f, args) =>
      CallsAction(sp, f, args) && f in open &&
      Runs(sp, open - {f}, sp.defs[f].body, x.(p := Bind(x.p, sp.defs[f].params, EvalAll(sp, open, args, x))), c, d)
    case Exists(y, dom, b) =>
      exists v :: v in Elements(Eval(sp, open, dom, x)) && Runs(sp, open, b, x.(q := x.q[y := v]), c, d)
    case Op(Or, args) => exists i :: 0 <= i < |args| && Runs(sp, open, args[i], x, c, d)
    case Op(And, args) => RunsAll(sp, open, args, x, c, d)
    case Op(IfThenElse, args) =>
      |args| == 3 &&
      if Eval(sp, open, args[0], x) == TRUE then Runs(sp, open, args[1], x, c, d) else Runs(sp, open, args[2], x, c, d)
    case Op(Equals, args) =>
      |args| == 2 && args[0].Prime? && Give(c, args[0].x, Eval(sp, open, args[1], x)) == Some(d)
    case Op(ElementOf, args) =>
      |args| == 2 && args[0].Prime? &&
      exists v :: v in Elements(Eval(sp, open, args[1], x)) && Give(c, args[0].x, v) == Some(d)
    case Unchanged(e) =>
      var xs := VarsNamed(sp, sp.defs.Keys, e);
      xs.Some? && Keep(c, xs.value, x.s) == Some(d)
    case _ => false
  }

  ghost predicate RunsAll(sp: Spec, open: set<string>, args: seq<Node>, x: Ctx, c: Progress, d: Progress)
    decreases open, args, 0
  {
    if args == [] then d == c else
    var last := |args| - 1;
    exists mid: Progress :: RunsAll(sp, open, args[..last], x, c, mid) &&
      if Level(sp, args[last]) < 2 then Eval(sp, open, args[last], x) == TRUE && d == mid
      else Runs(sp, open, args[last], x, mid, d)
  }

  /** What the walk takes as given of an action: its values and conditions read the current state only. */
  predicate Plain(sp: Spec, open: set<string>, n: Node)
    decreases open, n, 1
  {
    match n
    case LetIn(b) => Plain(sp, open, b)
    case Exists(_, _, b) => Plain(sp, open, b)
    case Call(f, args) => f in open && f in sp.defs ==> Plain(sp, open - {f}, sp.defs[f].body)
    case Op(Or, args) => forall i :: 0 <= i < |args| ==> Plain(sp, open, args[i])
    case Op(And, args) => forall i :: 0 <= i < |args| && Level(sp, args[i]) >= 2 ==> Plain(sp, open, args[i])
    case Op(IfThenElse, args) =>
      |args| == 3 ==> Level(sp, args[0]) < 2 && Plain(sp, open, args[1]) && Plain(sp, open, args[2])
    case Op(Equals, args) => |args| == 2 ==> Level(sp, args[1]) < 2
    case Op(ElementOf, args) => |args| == 2 ==> Level(sp, args[1]) < 2
    case Unchanged(e) => Level(sp, e) < 2
    case _ => true
  }

  // --- the runs of an action are exactly its relation

  /** Every definition that is no action is open. */
  predicate OnlyActionsClosed(sp: Spec, open: set<string>) {
    forall d :: d in sp.defs && sp.defs[d].level < 2 ==> d in open
  }

  ghost predicate Within(m: State, t: State) { forall y :: y in m ==> y in t && t[y] == m[y] }

  lemma {:induction false} VarsSame(sp: Spec, o: set<string>, o': set<string>, e: Node)
    requires WellLevelled(sp) && Level(sp, e) < 2
    requires forall d :: d in sp.defs && sp.defs[d].level < 2 ==> (d in o <==> d in o')
    ensures VarsNamed(sp, o, e) == VarsNamed(sp, o', e)
    decreases o, e, 1
  {
    match e
    case Op(TupleOf, args) => AllVarsSame(sp, o, o', args);
    case Call(d, args) => if d in o && Resolves(sp, d, args) { VarsSame(sp, o - {d}, o' - {d}, sp.defs[d].body); }
    case _ =>
  }

  lemma {:induction false} AllVarsSame(sp: Spec, o: set<string>, o': set<string>, es: seq<Node>)
    requires WellLevelled(sp) && forall i :: 0 <= i < |es| ==> Level(sp, es[i]) < 2
    requires forall d :: d in sp.defs && sp.defs[d].level < 2 ==> (d in o <==> d in o')
    ensures AllVarsNamed(sp, o, es) == AllVarsNamed(sp, o', es)
    decreases o, es, 0
  {
    if es != [] {
      VarsSame(sp, o, o', es[0]);
      AllVarsSame(sp, o, o', es[1..]);
    }
  }

  /** A tuple of variables has the same value in two states exactly when each variable has. */
  lemma {:induction false} VarsDecide(sp: Spec, open: set<string>, e: Node, c: Ctx, d: Ctx)
    requires VarsNamed(sp, open, e).Some?
    ensures Eval(sp, open, e, c) == Eval(sp, open, e, d) <==>
            forall y :: y in VarsNamed(sp, open, e).value ==> Lookup(c.s, y) == Lookup(d.s, y)
    decreases open, e, 1
  {
    match e
    case Op(TupleOf, args) => AllVarsDecide(sp, open, args, c, d);
    case Call(f, args) =>
      var def := sp.defs[f];
      VarsDecide(sp, open - {f}, def.body,
        c.(p := Bind(c.p, def.params, EvalAll(sp, open, args, c))),
        d.(p := Bind(d.p, def.params, EvalAll(sp, open, args, d))));
    case _ =>
  }

  lemma {:induction false} AllVarsDecide(sp: Spec, open: set<string>, es: seq<Node>, c: Ctx, d: Ctx)
    requires AllVarsNamed(sp, open, es).Some?
    ensures EvalAll(sp, open, es, c) == EvalAll(sp, open, es, d) <==>
            forall y :: y in AllVarsNamed(sp, open, es).value ==> Lookup(c.s, y) == Lookup(d.s, y)
    decreases open, es, 0
  {
    if es != [] {
      VarsDecide(sp, open, es[0], c, d);
      AllVarsDecide(sp, open, es[1..], c, d);
      var us, vs := EvalAll(sp, open, es, c), EvalAll(sp, open, es, d);
      assert us == vs <==> us[0] == vs[0] && us[1..] == vs[1..];
    }
  }

  lemma {:induction false} KeepFits(c: Progress, xs: seq<string>, s: State, t: State)
    requires Items(xs) <= t.Keys && Within(c.next, t)
    ensures (forall y :: y in xs ==> Lookup(s, y) == t[y]) ==>
      Keep(c, xs, s).Some? && Within(Keep(c, xs, s).value.next, t)
    ensures Keep(c, xs, s).Some? && Within(Keep(c, xs, s).value.next, t) ==>
      forall y :: y in xs ==> Lookup(s, y) == t[y]
    decreases xs
  {
    if xs != [] {
      assert xs == [xs[0]] + xs[1..];
      var g := Give(c, xs[0], Lookup(s, xs[0]));
      if g.Some? {
        if Within(g.value.next, t) {
          KeepFits(g.value, xs[1..], s, t);
        } else {
          KeepGrows(g.value, xs[1..], s);
        }
      }
    }
  }

  lemma {:induction false} KeepGrows(c: Progress, xs: seq<string>, s: State)
    ensures Keep(c, xs, s).Some? ==> Within(c.next, Keep(c, xs, s).value.next)
    decreases xs
  {
    if xs != [] && Give(c, xs[0], Lookup(s, xs[0])).Some? {
      KeepGrows(Give(c, xs[0], Lookup(s, xs[0])).value, xs[1..], s);
    }
  }

  lemma {:induction false} RunGrows(sp: Spec, open: set<string>, n: Node, x: Ctx, c: Progress, d: Progress)
    requires Runs(sp, open, n, x, c, d)
    ensures Within(c.next, d.next)
    decreases open, n, 1
  {
    match n
    case LetIn(b) => RunGrows(sp, open, b, x, c, d);
    case Call(f, args) =>
      RunGrows(sp, open - {f}, sp.defs[f].body,
        x.(p := Bind(x.p, sp.defs[f].params, EvalAll(sp, open, args, x))), c, d);
    case Exists(y, dom, b) =>
      var v :| v in Elements(Eval(sp, open, dom, x)) && Runs(sp, open, b, x.(q := x.q[y := v]), c, d);
      RunGrows(sp, open, b, x.(q := x.q[y := v]), c, d);
    case Op(Or, args) =>
      var i :| 0 <= i < |args| && Runs(sp, open, args[i], x, c, d);
      RunGrows(sp, open, args[i], x, c, d);
    case Op(And, args) => RunAllGrows(sp, open, args, x, c, d);
    case Op(IfThenElse, args) =>
      RunGrows(sp, open, if Eval(sp, open, args[0], x) == TRUE then args[1] else args[2], x, c, d);
    case Unchanged(e) => KeepGrows(c, VarsNamed(sp, sp.defs.Keys, e).value, x.s);
    case _ =>
  }

  lemma {:induction false} RunAllGrows(sp: Spec, open: set<string>, args: seq<Node>, x: Ctx, c: Progress, d: Progress)
    requires RunsAll(sp, open, args, x, c, d)
    ensures Within(c.next, d.next)
    decreases open, args, 0
  {
    if args != [] {
      var last := |args| - 1;
      var mid: Progress :| RunsAll(sp, open, args[..last], x, c, mid) &&
        if Level(sp, args[last]) < 2 then Eval(sp, open, args[last], x) == TRUE && d == mid
        else Runs(sp, open, args[last], x, mid, d);
      RunAllGrows(sp, open, args[..last], x, c, mid);
      if Level(sp, args[last]) >= 2 { RunGrows(sp, open, args[last], x, mid, d); }
    }
  }

  /** A step the checker takes is a step of the relation, in every next state that fits what it filled in. */
  lemma {:induction false} RunSound(sp: Spec, open: set<string>, n: Node, x: Ctx, c: Progress, d: Progress, t: State)
    requires WellLevelled(sp) && OnlyActionsClosed(sp, open) && open <= sp.defs.Keys
    requires Walk(sp, open, n).Some? && Walk(sp, open, n).value <= t.Keys && Plain(sp, open, n)
    requires Runs(sp, open, n, x, c, d) && Within(d.next, t)
    ensures Eval(sp, open, n, x.(t := t)) == TRUE
    decreases open, n, 1
  {
    match n
    case LetIn(b) => RunSound(sp, open, b, x, c, d, t);
    case Call(f, args) =>
      AllReadsDecide(sp, open, args, x, x.(t := t));
      RunSound(sp, open - {f}, sp.defs[f].body,
        x.(p := Bind(x.p, sp.defs[f].params, EvalAll(sp, open, args, x))), c, d, t);
    case Exists(y, dom, b) =>
      var v :| v in Elements(Eval(sp, open, dom, x)) && Runs(sp, open, b, x.(q := x.q[y := v]), c, d);
      ReadsDecide(sp, open, dom, x, x.(t := t));
      RunSound(sp, open, b, x.(q := x.q[y := v]), c, d, t);
    case Op(_, _) => RunSoundOp(sp, open, n, x, c, d, t);
    case Unchanged(e) =>
      RunGrows(sp, open, n, x, c, d);
      UnchangedFits(sp, open, e, x, c, t);
    case _ =>
  }

  lemma {:induction false} RunSoundOp(sp: Spec, open: set<string>, n: Node, x: Ctx, c: Progress, d: Progress, t: State)
    requires n.Op? && WellLevelled(sp) && OnlyActionsClosed(sp, open) && open <= sp.defs.Keys
    requires Walk(sp, open, n).Some? && Walk(sp, open, n).value <= t.Keys && Plain(sp, open, n)
    requires Runs(sp, open, n, x, c, d) && Within(d.next, t)
    ensures Eval(sp, open, n, x.(t := t)) == TRUE
    decreases open, n, 0
  {
    hide WellLevelled, OnlyActionsClosed, Within, VarsNamed, Eval, Apply;
    var args, y := n.args, x.(t := t);
    OpMeans(sp, open, n.op, args, y);
    match n.op
    case Or =>
      var i :| 0 <= i < |args| && Runs(sp, open, args[i], x, c, d);
      OrOperand(sp, open, args, i);
      RunSound(sp, open, args[i], x, c, d, t);
    case And =>
      RunSoundAll(sp, open, args, x, c, d, t);
    case IfThenElse =>
      ReadsDecide(sp, open, args[0], x, y);
      if Eval(sp, open, args[0], x) == TRUE {
        RunSound(sp, open, args[1], x, c, d, t);
      } else {
        RunSound(sp, open, args[2], x, c, d, t);
      }
    case _ => RunSoundEffect(sp, open, n, x, c, d, t);
  }

  lemma RunSoundEffect(sp: Spec, open: set<string>, n: Node, x: Ctx, c: Progress, d: Progress, t: State)
    requires n.Op? && !n.op.Or? && !n.op.And? && !n.op.IfThenElse? && WellLevelled(sp)
    requires Walk(sp, open, n).Some? && Plain(sp, open, n) && Runs(sp, open, n, x, c, d) && Within(d.next, t)
    ensures Eval(sp, open, n, x.(t := t)) == TRUE
  {
    var args, y := n.args, x.(t := t);
    var vals := EvalAll(sp, open, args, y);
    ReadsDecide(sp, open, args[1], x, y);
    assert vals[0] == Lookup(t, args[0].x);
  }

  lemma {:induction false} RunSoundAll(sp: Spec, open: set<string>, args: seq<Node>, x: Ctx, c: Progress, d: Progress,
      t: State)
    requires WellLevelled(sp) && OnlyActionsClosed(sp, open) && open <= sp.defs.Keys
    requires WalkAnd(sp, open, args).Some? && WalkAnd(sp, open, args).value <= t.Keys
    requires forall i :: 0 <= i < |args| && Level(sp, args[i]) >= 2 ==> Plain(sp, open, args[i])
    requires RunsAll(sp, open, args, x, c, d) && Within(d.next, t)
    ensures forall i :: 0 <= i < |args| ==> Eval(sp, open, args[i], x.(t := t)) == TRUE
    decreases open, args, 0
  {
    if args != [] {
      var last := |args| - 1;
      var mid: Progress :| RunsAll(sp, open, args[..last], x, c, mid) &&
        if Level(sp, args[last]) < 2 then Eval(sp, open, args[last], x) == TRUE && d == mid
        else Runs(sp, open, args[last], x, mid, d);
      if Level(sp, args[last]) >= 2 {
        RunGrows(sp, open, args[last], x, mid, d);
        RunSound(sp, open, args[last], x, mid, d, t);
      } else {
        ReadsDecide(sp, open, args[last], x, x.(t := t));
      }
      RunSoundAll(sp, open, args[..last], x, c, mid, t);
      assert forall i :: 0 <= i < last ==> args[..last][i] == args[i];
    }
  }

  lemma UnchangedFits(sp: Spec, open: set<string>, e: Node, x: Ctx, c: Progress, t: State)
    requires WellLevelled(sp) && OnlyActionsClosed(sp, open) && open <= sp.defs.Keys && Level(sp, e) < 2
    requires VarsNamed(sp, sp.defs.Keys, e).Some? && Items(VarsNamed(sp, sp.defs.Keys, e).value) <= t.Keys
    requires Within(c.next, t)
    ensures var kept := Keep(c, VarsNamed(sp, sp.defs.Keys, e).value, x.s);
      kept.Some? && Within(kept.value.next, t) <==> Eval(sp, open, Unchanged(e), x.(t := t)) == TRUE
  {
    var xs := VarsNamed(sp, sp.defs.Keys, e).value;
    VarsSame(sp, sp.defs.Keys, open, e);
    VarsDecide(sp, open, e, x.(t := t).(s := t), x.(t := t));
    KeepFits(c, xs, x.s, t);
  }

  /** Every step of the relation is one the checker takes. */
  lemma {:induction false} RunComplete(sp: Spec, open: set<string>, n: Node, x: Ctx, c: Progress, t: State)
      returns (d: Progress)
    requires WellLevelled(sp) && OnlyActionsClosed(sp, open) && open <= sp.defs.Keys
    requires Walk(sp, open, n).Some? && Walk(sp, open, n).value <= t.Keys && Plain(sp, open, n)
    requires Within(c.next, t) && Eval(sp, open, n, x.(t := t)) == TRUE
    ensures Runs(sp, open, n, x, c, d) && Within(d.next, t)
    decreases open, n, 1
  {
    match n
    case LetIn(b) => d := RunComplete(sp, open, b, x, c, t);
    case Call(f, args) =>
      AllReadsDecide(sp, open, args, x, x.(t := t));
      d := RunComplete(sp, open - {f}, sp.defs[f].body,
        x.(p := Bind(x.p, sp.defs[f].params, EvalAll(sp, open, args, x))), c, t);
    case Exists(y, dom, b) =>
      ReadsDecide(sp, open, dom, x, x.(t := t));
      var v :| v in Elements(Eval(sp, open, dom, x)) && Eval(sp, open, b, x.(t := t).(q := x.q[y := v])) == TRUE;
      d := RunComplete(sp, open, b, x.(q := x.q[y := v]), c, t);
    case Op(_, _) => d := RunCompleteOp(sp, open, n, x, c, t);
    case Unchanged(e) =>
      UnchangedFits(sp, open, e, x, c, t);
      d := Keep(c, VarsNamed(sp, sp.defs.Keys, e).value, x.s).value;
    case _ => d := c;
  }

  lemma {:induction false} RunCompleteOp(sp: Spec, open: set<string>, n: Node, x: Ctx, c: Progress, t: State)
      returns (d: Progress)
    requires n.Op? && WellLevelled(sp) && OnlyActionsClosed(sp, open) && open <= sp.defs.Keys
    requires Walk(sp, open, n).Some? && Walk(sp, open, n).value <= t.Keys && Plain(sp, open, n)
    requires Within(c.next, t) && Eval(sp, open, n, x.(t := t)) == TRUE
    ensures Runs(sp, open, n, x, c, d) && Within(d.next, t)
    decreases open, n, 0
  {
    match n
    case Op(Or, args) =>
      var i :| 0 <= i < |args| && EvalAll(sp, open, args, x.(t := t))[i] == TRUE;
      OrOperand(sp, open, args, i);
      d := RunComplete(sp, open, args[i], x, c, t);
    case Op(And, args) =>
      forall i | 0 <= i < |args| ensures Eval(sp, open, args[i], x.(t := t)) == TRUE {
        assert EvalAll(sp, open, args, x.(t := t))[i] == TRUE;
      }
      d := RunCompleteAll(sp, open, args, x, c, t);
    case Op(IfThenElse, args) =>
      ReadsDecide(sp, open, args[0], x, x.(t := t));
      d := RunComplete(sp, open, if Eval(sp, open, args[0], x) == TRUE then args[1] else args[2], x, c, t);
    case Op(Equals, args) =>
      ReadsDecide(sp, open, args[1], x, x.(t := t));
      d := Give(c, args[0].x, t[args[0].x]).value;
    case Op(ElementOf, args) =>
      ReadsDecide(sp, open, args[1], x, x.(t := t));
      d := Give(c, args[0].x, t[args[0].x]).value;
    case _ => d := c;
  }

  lemma {:induction false} RunCompleteAll(sp: Spec, open: set<string>, args: seq<Node>, x: Ctx, c: Progress, t: State)
      returns (d: Progress)
    requires WellLevelled(sp) && OnlyActionsClosed(sp, open) && open <= sp.defs.Keys
    requires WalkAnd(sp, open, args).Some? && WalkAnd(sp, open, args).value <= t.Keys
    requires forall i :: 0 <= i < |args| && Level(sp, args[i]) >= 2 ==> Plain(sp, open, args[i])
    requires Within(c.next, t) && forall i :: 0 <= i < |args| ==> Eval(sp, open, args[i], x.(t := t)) == TRUE
    ensures RunsAll(sp, open, args, x, c, d) && Within(d.next, t)
    decreases open, args, 0
  {
    if args == [] { return c; }
    var last := |args| - 1;
    var mid := RunCompleteAll(sp, open, args[..last], x, c, t);
    if Level(sp, args[last]) >= 2 {
      d := RunComplete(sp, open, args[last], x, mid, t);
    } else {
      ReadsDecide(sp, open, args[last], x, x.(t := t));
      d := mid;
    }
  }

  /** The model checker's left-to-right evaluation of an accepted action computes exactly its relation. */
  lemma RunsAreSteps(sp: Spec, n: Node, s: State, t: State)
    requires WellLevelled(sp) && Walk(sp, sp.defs.Keys, n).Some? && Plain(sp, sp.defs.Keys, n)
    requires Walk(sp, sp.defs.Keys, n).value <= t.Keys
    ensures Eval(sp, sp.defs.Keys, n, Ctx(map[], map[], s, t)) == TRUE <==>
            exists d :: Runs(sp, sp.defs.Keys, n, Ctx(map[], map[], s, s), NOTHING_GIVEN, d) && Within(d.next, t)
  {
    var x := Ctx(map[], map[], s, s);
    if Eval(sp, sp.defs.Keys, n, x.(t := t)) == TRUE {
      var d := RunComplete(sp, sp.defs.Keys, n, x, NOTHING_GIVEN, t);
    }
    forall d | Runs(sp, sp.defs.Keys, n, x, NOTHING_GIVEN, d) && Within(d.next, t)
      ensures Eval(sp, sp.defs.Keys, n, x.(t := t)) == TRUE
    {
      RunSound(sp, sp.defs.Keys, n, x, NOTHING_GIVEN, d, t);
    }
  }
}
