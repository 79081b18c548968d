/**
 * Why proofs/guard_sweep.py refuses an action that is used other than as a
 * step. A specification asks whether an action is ENABLED; removing the guard
 * of that action loses one state and gains another, and the counts agree.
 */
module GuardMisuse {
  import opened Common
  import opened Actions
  import opened GuardReader
  import opened GuardSweep

  const A := Call("A", [])
  const IsOne := Op(Equals, [Var("x"), Lit(Num(1))])
  const BecomesOne := Op(Equals, [Prime("x"), Lit(Num(1))])
  const BecomesTwo := Op(Equals, [Prime("x"), Lit(Num(2))])
  const NotEnabled := Op(Builtin("not"), [Enabled(A)])

  const Guarded := Op(And, [IsOne, BecomesOne])
  const Bare := Op(And, [Lit(TRUE), BecomesOne])
  const Blocked := Op(And, [NotEnabled, BecomesTwo])

  function Negation(name: string, vals: seq<Value>): Value { Bool(|vals| == 1 && vals[0] != TRUE) }

  /** `x = 0 /\ [][A \/ (~ENABLED A /\ x' = 2)]_x`, with A as given. */
  function Asking(a: Node): Spec {
    Spec("Spec", map["A" := Def(2, [], a, false)], (name, vals) => Negation(name, vals),
         Op(Equals, [Var("x"), Lit(Num(0))]), Op(Or, [A, Blocked]), Lit(TRUE))
  }

  function At(n: int): State { map["x" := Num(n)] }

  // --- what the pieces mean

  lemma Pair(sp: Spec, open: set<string>, op: Operator, a: Node, b: Node, c: Ctx)
    ensures Eval(sp, open, Op(op, [a, b]), c) == Apply(sp, op, [Eval(sp, open, a, c), Eval(sp, open, b, c)])
  {
    assert EvalAll(sp, open, [a, b], c) == [Eval(sp, open, a, c), Eval(sp, open, b, c)];
  }

  lemma GuardedMeans(sp: Spec, open: set<string>, c: Ctx)
    ensures Eval(sp, open, Guarded, c) == TRUE <==> Lookup(c.s, "x") == Num(1) && Lookup(c.t, "x") == Num(1)
  {
    Pair(sp, open, And, IsOne, BecomesOne, c);
    Pair(sp, open, Equals, Var("x"), Lit(Num(1)), c);
    Pair(sp, open, Equals, Prime("x"), Lit(Num(1)), c);
    BothTrue(sp, Eval(sp, open, IsOne, c), Eval(sp, open, BecomesOne, c));
  }

  lemma BareMeans(sp: Spec, open: set<string>, c: Ctx)
    ensures Eval(sp, open, Bare, c) == TRUE <==> Lookup(c.t, "x") == Num(1)
  {
    Pair(sp, open, And, Lit(TRUE), BecomesOne, c);
    Pair(sp, open, Equals, Prime("x"), Lit(Num(1)), c);
    BothTrue(sp, TRUE, Eval(sp, open, BecomesOne, c));
  }

  lemma BothTrue(sp: Spec, a: Value, b: Value)
    ensures Apply(sp, And, [a, b]) == TRUE <==> a == TRUE && b == TRUE
    ensures Apply(sp, Or, [a, b]) == TRUE <==> a == TRUE || b == TRUE
  {
    assert [a, b][0] == a && [a, b][1] == b;
  }

  lemma CallMeans(a: Node, c: Ctx)
    ensures Eval(Asking(a), {"A"}, A, c) == Eval(Asking(a), {}, a, c)
  {
    var sp := Asking(a);
    assert {"A"} - {"A"} == {};
    assert EvalAll(sp, {"A"}, [], c) == [];
    assert c.(p := Bind(c.p, [], [])) == c;
  }

  lemma BlockedMeans(a: Node, c: Ctx)
    ensures Eval(Asking(a), {"A"}, Blocked, c) == TRUE <==>
            Eval(Asking(a), {"A"}, Enabled(A), c) != TRUE && Lookup(c.t, "x") == Num(2)
  {
    var sp := Asking(a);
    Pair(sp, {"A"}, And, NotEnabled, BecomesTwo, c);
    Pair(sp, {"A"}, Equals, Prime("x"), Lit(Num(2)), c);
    assert EvalAll(sp, {"A"}, [Enabled(A)], c) == [Eval(sp, {"A"}, Enabled(A), c)];
    BothTrue(sp, Eval(sp, {"A"}, NotEnabled, c), Eval(sp, {"A"}, BecomesTwo, c));
  }

  lemma EnabledMeans(c: Ctx)
    requires c.s.Keys == {"x"}
    ensures Eval(Asking(Guarded), {"A"}, Enabled(A), c) == TRUE <==> Lookup(c.s, "x") == Num(1)
    ensures Eval(Asking(Bare), {"A"}, Enabled(A), c) == TRUE
  {
    forall u: State
      ensures Eval(Asking(Guarded), {"A"}, A, c.(t := u)) == TRUE <==>
        Lookup(c.s, "x") == Num(1) && Lookup(u, "x") == Num(1)
      ensures Eval(Asking(Bare), {"A"}, A, c.(t := u)) == TRUE <==> Lookup(u, "x") == Num(1)
    {
      CallMeans(Guarded, c.(t := u));
      CallMeans(Bare, c.(t := u));
      GuardedMeans(Asking(Guarded), {}, c.(t := u));
      BareMeans(Asking(Bare), {}, c.(t := u));
    }
    assert At(1).Keys == c.s.Keys && Lookup(At(1), "x") == Num(1);
  }

  lemma Steps(s: State, t: State)
    requires s.Keys == {"x"}
    ensures Step(Asking(Guarded), {"x"}, s, t) <==> t == if s == At(1) then At(1) else At(2)
    ensures Step(Asking(Bare), {"x"}, s, t) <==> t == At(1)
  {
    var c := Ctx(map[], map[], s, t);
    OneVariable(s, 1);
    OneVariable(t, 1);
    OneVariable(t, 2);
    EnabledMeans(c);
    forall a | a == Guarded || a == Bare
      ensures Eval(Asking(a), {"A"}, Asking(a).next, c) == TRUE <==>
        Eval(Asking(a), {}, a, c) == TRUE || (Eval(Asking(a), {"A"}, Enabled(A), c) != TRUE && Lookup(t, "x") == Num(2))
    {
      Pair(Asking(a), {"A"}, Or, A, Blocked, c);
      BothTrue(Asking(a), Eval(Asking(a), {"A"}, A, c), Eval(Asking(a), {"A"}, Blocked, c));
      CallMeans(a, c);
      BlockedMeans(a, c);
    }
    GuardedMeans(Asking(Guarded), {}, c);
    BareMeans(Asking(Bare), {}, c);
    assert Asking(Guarded).defs.Keys == {"A"} && Asking(Bare).defs.Keys == {"A"};
  }

  lemma OneVariable(s: State, n: int)
    ensures s == At(n) <==> s.Keys == {"x"} && Lookup(s, "x") == Num(n)
  {
    if s.Keys == {"x"} && Lookup(s, "x") == Num(n) { assert forall y :: y in s ==> s[y] == At(n)[y]; }
  }

  lemma Starting(a: Node, s: State)
    ensures Starts(Asking(a), {"x"}, s) <==> s == At(0)
  {
    OneVariable(s, 0);
    Pair(Asking(a), Asking(a).defs.Keys, Equals, Var("x"), Lit(Num(0)), Ctx(map[], map[], s, s));
  }

  lemma {:induction false} ReachedGuarded(k: nat, s: State)
    ensures ReachedIn(Asking(Guarded), {"x"}, k, s) <==> s == if k == 0 then At(0) else At(2)
  {
    hide Step, Starts, Asking;
    if k == 0 {
      Starting(Guarded, s);
    } else {
      var last := if k == 1 then At(0) else At(2);
      var before: nat := k - 1;
      forall r ensures ReachedIn(Asking(Guarded), {"x"}, before, r) <==> r == last { ReachedGuarded(before, r); }
      Steps(last, s);
      assert last["x"] != At(1)["x"];
    }
  }

  lemma {:induction false} ReachedBare(k: nat, s: State)
    ensures ReachedIn(Asking(Bare), {"x"}, k, s) <==> s == if k == 0 then At(0) else At(1)
  {
    hide Step, Starts, Asking;
    if k == 0 {
      Starting(Bare, s);
    } else {
      var last := if k == 1 then At(0) else At(1);
      var before: nat := k - 1;
      forall r ensures ReachedIn(Asking(Bare), {"x"}, before, r) <==> r == last { ReachedBare(before, r); }
      Steps(last, s);
    }
  }

  lemma ReachedSets()
    ensures IsReachedSet(Asking(Guarded), {"x"}, {At(0), At(2)}) && IsReachedSet(Asking(Bare), {"x"}, {At(0), At(1)})
  {
    hide ReachedIn, Asking, At;
    forall s
      ensures Reached(Asking(Guarded), {"x"}, s) <==> s == At(0) || s == At(2)
      ensures Reached(Asking(Bare), {"x"}, s) <==> s == At(0) || s == At(1)
    {
      forall k: nat
        ensures ReachedIn(Asking(Guarded), {"x"}, k, s) <==> s == if k == 0 then At(0) else At(2)
        ensures ReachedIn(Asking(Bare), {"x"}, k, s) <==> s == if k == 0 then At(0) else At(1)
      {
        ReachedGuarded(k, s);
        ReachedBare(k, s);
      }
      assert ReachedIn(Asking(Guarded), {"x"}, 0, s) || ReachedIn(Asking(Guarded), {"x"}, 1, s) ==>
        Reached(Asking(Guarded), {"x"}, s);
      assert ReachedIn(Asking(Bare), {"x"}, 0, s) || ReachedIn(Asking(Bare), {"x"}, 1, s) ==>
        Reached(Asking(Bare), {"x"}, s);
    }
  }

  // --- what the walk makes of it

  lemma Levels(sp: Spec)
    ensures Level(sp, IsOne) == 1 && Level(sp, BecomesOne) == 2 && Level(sp, BecomesTwo) == 2
      && Level(sp, NotEnabled) == 1
    ensures Level(sp, Blocked) == 2
  {
    TwoLevels(sp, Var("x"), Lit(Num(1)));
    TwoLevels(sp, Prime("x"), Lit(Num(1)));
    TwoLevels(sp, Prime("x"), Lit(Num(2)));
    TwoLevels(sp, NotEnabled, BecomesTwo);
    assert [Enabled(A)][1..] == [];
    assert MaxLevel(sp, []) == 0;
  }

  lemma TwoLevels(sp: Spec, a: Node, b: Node)
    ensures MaxLevel(sp, [a, b]) == Max(Level(sp, a), Level(sp, b))
  {
    assert [a, b][1..] == [b] && [b][1..] == [];
    assert MaxLevel(sp, []) == 0;
  }

  lemma BodyWithout(sp: Spec)
    ensures Without(sp, Guarded, {[0]}, []) == Bare
  {
    Levels(sp);
    var paths: set<seq<nat>>, at: seq<nat> := {[0]}, [];
    var body := Without(sp, Guarded, paths, at);
    assert at + [0] == [0] && at + [1] == [1];
    assert Guarded.args[0] == IsOne && Guarded.args[1] == BecomesOne;
    assert Without(sp, BecomesOne, paths, [1]) == BecomesOne;
    assert WithoutConditions(IsOne, paths, [0]) == Lit(TRUE);
    assert body.args == [Lit(TRUE), BecomesOne];
  }

  lemma Removing()
    ensures RemoveGuards(Asking(Guarded), {Guard("A", [0])}) == Asking(Bare)
  {
    hide Without;
    var sp, gone := Asking(Guarded), {Guard("A", [0])};
    assert PathsOf(gone, "Spec") == {};
    NothingGone(sp, sp.next, []);
    assert Guard("A", [0]) in gone;
    assert PathsOf(gone, "A") == {[0]};
    BodyWithout(sp);
    assert DefWithout(sp, gone, "A") == Def(2, [], Bare, false);
  }

  lemma Accepted()
    ensures var sp := Asking(Guarded); Walk(sp, sp.defs.Keys, sp.next) == Some({"x"})
  {
    var sp := Asking(Guarded);
    assert sp.defs.Keys == {"A"};
    WalkA();
    WalkBlocked();
    Levels(sp);
    assert Level(sp, A) >= 2;
    WalkEither(sp, {"A"}, A, Blocked, {"x"});
    assert Walk(sp, {"A"}, Op(Or, [A, Blocked])) == WalkOr(sp, {"A"}, [A, Blocked]);
  }

  lemma WalkEither(sp: Spec, open: set<string>, a: Node, b: Node, xs: set<string>)
    requires Level(sp, a) >= 2 && Level(sp, b) >= 2 && Walk(sp, open, a) == Walk(sp, open, b) == Some(xs)
    ensures WalkOr(sp, open, [a, b]) == Some(xs)
  {
    hide Walk, Level;
    assert [a, b][..1] == [a] && [a][..0] == [];
    assert WalkOr(sp, open, []) == Some({});
    assert WalkOr(sp, open, [a]) == Join(Some({}), Some(xs)) == Some({} + xs);
    assert {} + xs + xs == xs;
  }

  lemma WalkA()
    ensures Walk(Asking(Guarded), {"A"}, A) == Some({"x"})
  {
    var sp := Asking(Guarded);
    Levels(sp);
    WalkPair(sp, {}, IsOne, BecomesOne);
    assert {"A"} - {"A"} == {};
    assert CallsAction(sp, "A", []);
    assert Walk(sp, {}, Guarded) == WalkAnd(sp, {}, [IsOne, BecomesOne]);
  }

  lemma WalkBlocked()
    ensures Walk(Asking(Guarded), {"A"}, Blocked) == Some({"x"})
  {
    var sp := Asking(Guarded);
    Levels(sp);
    WalkPair(sp, {"A"}, NotEnabled, BecomesTwo);
    assert Walk(sp, {"A"}, Blocked) == WalkAnd(sp, {"A"}, [NotEnabled, BecomesTwo]);
  }

  lemma WalkPair(sp: Spec, open: set<string>, a: Node, b: Node)
    requires Level(sp, a) < 2 && Level(sp, b) >= 2
    ensures WalkAnd(sp, open, [a, b]) == Walk(sp, open, b)
  {
    assert [a, b][..1] == [a] && [a][..0] == [];
    assert WalkAnd(sp, open, []) == Some({});
    assert WalkAnd(sp, open, [a]) == Some({});
    var given := Walk(sp, open, b);
    assert given.Some? ==> {} + given.value == given.value;
  }

  lemma Misused()
    ensures var sp := Asking(Guarded); "A" in Followed(sp) && !StepsOnly(sp, sp.defs.Keys, sp.next, Followed(sp))
  {
    var sp := Asking(Guarded);
    var open := sp.defs.Keys;
    var next := sp.next;
    assert next.args[0] == A && next.args[1] == Blocked;
    assert "A" in Follows(sp, open, A);
    assert "A" in Followed(sp);
    Levels(sp);
    assert Mentions(sp, open, Enabled(A)) == Mentions(sp, open, A) && "A" in Mentions(sp, open, A);
    assert [Enabled(A)][0] == Enabled(A) && "A" in Mentions(sp, open, NotEnabled);
    assert Blocked.args[0] == NotEnabled;
    assert !Free(sp, open, NotEnabled, Followed(sp));
    assert !StepsOnly(sp, open, Blocked, Followed(sp));
  }

  /**
   * The walk accepts the relation and lists the guard `x = 1` of A. With it two
   * states are reached, 0 and 2; without it two states, 0 and 1. So equal counts
   * say nothing where an action is also asked to be ENABLED.
   */
  lemma CountsMislead()
    ensures var sp, gone := Asking(Guarded), {Guard("A", [0])};
      && Walk(sp, sp.defs.Keys, sp.next).Some? && Listed(sp, Guard("A", [0])) && RemovesListed(sp, gone)
      && !Sweepable(sp)
      && IsReachedSet(sp, {"x"}, {At(0), At(2)}) && IsReachedSet(RemoveGuards(sp, gone), {"x"}, {At(0), At(1)})
      && |{At(0), At(2)}| == |{At(0), At(1)}| && {At(0), At(2)} != {At(0), At(1)}
  {
    var sp := Asking(Guarded);
    Accepted();
    Misused();
    ListedGuard();
    Removing();
    ReachedSets();
    hide Asking;
    assert At(0)["x"] != At(1)["x"] && At(0)["x"] != At(2)["x"] && At(1)["x"] != At(2)["x"];
    assert At(2) in {At(0), At(2)} && At(2) !in {At(0), At(1)};
  }

  lemma ListedGuard()
    ensures ListsAction(Asking(Guarded), Guard("A", [0]))
  {
    Levels(Asking(Guarded));
    assert Guarded.args[0] == IsOne && [0][1..] == [];
    assert IsGuard(Asking(Guarded), Guarded, [0]);
  }
}
