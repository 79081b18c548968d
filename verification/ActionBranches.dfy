/**
 * The branches of an action: which variables a left-to-right evaluation gives a
 * value, in order, whatever its conditions say. The walk of
 * proofs/check_mutants.py promises that none gives a variable twice.
 */
module ActionBranches {
  import opened Common
  import opened Actions
  import opened GuardReader
  import opened ActionRuns

  /** Whether some branch gives exactly these variables a value, conditions ignored. */
  ghost predicate Branch(sp: Spec, open: set<string>, n: Node, xs: seq<string>)
    decreases open, n, 1
  {
    match n
    case LetIn(b) => Branch(sp, open, b, xs)
    case Call(f, args) => CallsAction(sp, f, args) && f in open && Branch(sp, open - {f}, sp.defs[f].body, xs)
    case Exists(_, _, b) => Branch(sp, open, b, xs)
    case Op(Or, args) => exists i :: 0 <= i < |args| && Branch(sp, open, args[i], xs)
    case Op(And, args) => BranchAll(sp, open, args, xs)
    case Op(IfThenElse, args) => |args| == 3 && (Branch(sp, open, args[1], xs) || Branch(sp, open, args[2], xs))
    case Op(Equals, args) => |args| == 2 && args[0].Prime? && xs == [args[0].x]
    case Op(ElementOf, args) => |args| == 2 && args[0].Prime? && xs == [args[0].x]
    case Unchanged(e) => VarsNamed(sp, sp.defs.Keys, e) == Some(xs)
    case _ => false
  }

  ghost predicate BranchAll(sp: Spec, open: set<string>, args: seq<Node>, xs: seq<string>)
    decreases open, args, 0
  {
    if args == [] then xs == [] else
    var last := |args| - 1;
    exists k :: 0 <= k <= |xs| && BranchAll(sp, open, args[..last], xs[..k]) &&
      if Level(sp, args[last]) < 2 then xs[k..] == [] else Branch(sp, open, args[last], xs[k..])
  }

  /** Whether no UNCHANGED the action reaches names a variable twice. */
  predicate NamesOnce(sp: Spec, open: set<string>, n: Node)
    decreases open, n, 1
  {
    match n
    case LetIn(b) => NamesOnce(sp, open, b)
    case Exists(_, _, b) => NamesOnce(sp, open, b)
    case Call(f, args) => f in open && f in sp.defs ==> NamesOnce(sp, open - {f}, sp.defs[f].body)
    case Op(Or, args) => forall i :: 0 <= i < |args| ==> NamesOnce(sp, open, args[i])
    case Op(And, args) => forall i :: 0 <= i < |args| && Level(sp, args[i]) >= 2 ==> NamesOnce(sp, open, args[i])
    case Op(IfThenElse, args) => |args| == 3 ==> NamesOnce(sp, open, args[1]) && NamesOnce(sp, open, args[2])
    case Unchanged(e) => VarsNamed(sp, sp.defs.Keys, e).Some? ==> Distinct(VarsNamed(sp, sp.defs.Keys, e).value)
    case _ => true
  }

  /** Every disjunction has a disjunct, as every one that is written has. */
  predicate Written(sp: Spec, open: set<string>, n: Node)
    decreases open, n, 1
  {
    match n
    case LetIn(b) => Written(sp, open, b)
    case Exists(_, _, b) => Written(sp, open, b)
    case Call(f, args) => f in open && f in sp.defs ==> Written(sp, open - {f}, sp.defs[f].body)
    case Op(Or, args) => args != [] && forall i :: 0 <= i < |args| ==> Written(sp, open, args[i])
    case Op(And, args) => forall i :: 0 <= i < |args| && Level(sp, args[i]) >= 2 ==> Written(sp, open, args[i])
    case Op(IfThenElse, args) => |args| == 3 ==> Written(sp, open, args[1]) && Written(sp, open, args[2])
    case _ => true
  }

  // --- evaluations follow branches

  /** `d` is `c` after giving these variables, in this order. */
  ghost predicate Gave(c: Progress, d: Progress, xs: seq<string>) {
    d.given == c.given + xs && d.next.Keys == c.next.Keys + Items(xs)
  }

  lemma NoItems()
    ensures Items([]) == {}
  {
  }

  lemma ItemsJoin(a: seq<string>, b: seq<string>)
    ensures Items(a + b) == Items(a) + Items(b)
  {
  }

  lemma GaveJoin(c: Progress, m: Progress, d: Progress, a: seq<string>, b: seq<string>)
    requires Gave(c, m, a) && Gave(m, d, b)
    ensures Gave(c, d, a + b)
  {
    ItemsJoin(a, b);
    assert c.given + a + b == c.given + (a + b);
  }

  lemma BranchJoin(sp: Spec, open: set<string>, args: seq<Node>, a: seq<string>, b: seq<string>)
    requires args != [] && BranchAll(sp, open, args[..|args| - 1], a)
    requires var last := args[|args| - 1]; if Level(sp, last) < 2 then b == [] else Branch(sp, open, last, b)
    ensures BranchAll(sp, open, args, a + b)
  {
    assert (a + b)[..|a|] == a && (a + b)[|a|..] == b;
  }

  lemma {:induction false} KeepGave(c: Progress, xs: seq<string>, s: State, d: Progress)
    requires Keep(c, xs, s) == Some(d)
    ensures Gave(c, d, xs)
    decreases xs
  {
    if xs != [] {
      KeepGave(Give(c, xs[0], Lookup(s, xs[0])).value, xs[1..], s, d);
      assert xs == [xs[0]] + xs[1..];
      assert c.given + [xs[0]] + xs[1..] == c.given + xs;
    }
  }

  /** Whatever an evaluation gives is given along a branch. */
  lemma {:induction false} RunIsBranch(sp: Spec, open: set<string>, n: Node, x: Ctx, c: Progress, d: Progress)
      returns (xs: seq<string>)
    requires Runs(sp, open, n, x, c, d)
    ensures Branch(sp, open, n, xs) && Gave(c, d, xs)
    decreases open, n, 1
  {
    match n
    case LetIn(b) => xs := RunIsBranch(sp, open, b, x, c, d);
    case Call(f, args) =>
      xs := RunIsBranch(sp, open - {f}, sp.defs[f].body,
        x.(p := Bind(x.p, sp.defs[f].params, EvalAll(sp, open, args, x))), c, d);
    case Exists(y, dom, b) =>
      var v :| v in Elements(Eval(sp, open, dom, x)) && Runs(sp, open, b, x.(q := x.q[y := v]), c, d);
      xs := RunIsBranch(sp, open, b, x.(q := x.q[y := v]), c, d);
    case Op(Or, args) =>
      var i :| 0 <= i < |args| && Runs(sp, open, args[i], x, c, d);
      xs := RunIsBranch(sp, open, args[i], x, c, d);
    case Op(And, args) => xs := RunAllIsBranch(sp, open, args, x, c, d);
    case Op(IfThenElse, args) =>
      xs := RunIsBranch(sp, open, if Eval(sp, open, args[0], x) == TRUE then args[1] else args[2], x, c, d);
    case Op(Equals, args) => xs := [args[0].x];
    case Op(ElementOf, args) => xs := [args[0].x];
    case Unchanged(e) =>
      xs := VarsNamed(sp, sp.defs.Keys, e).value;
      KeepGave(c, xs, x.s, d);
    case _ =>
  }

  lemma {:induction false} RunAllIsBranch(sp: Spec, open: set<string>, args: seq<Node>, x: Ctx, c: Progress,
      d: Progress) returns (xs: seq<string>)
    requires RunsAll(sp, open, args, x, c, d)
    ensures BranchAll(sp, open, args, xs) && Gave(c, d, xs)
    decreases open, args, 0
  {
    hide Items, Branch, Runs;
    NoItems();
    xs := [];
    if args != [] {
      var last := |args| - 1;
      var mid: Progress :| RunsAll(sp, open, args[..last], x, c, mid) &&
        if Level(sp, args[last]) < 2 then Eval(sp, open, args[last], x) == TRUE && d == mid
        else Runs(sp, open, args[last], x, mid, d);
      var before := RunAllIsBranch(sp, open, args[..last], x, c, mid);
      var more: seq<string> := [];
      if Level(sp, args[last]) >= 2 { more := RunIsBranch(sp, open, args[last], x, mid, d); }
      xs := before + more;
      BranchJoin(sp, open, args, before, more);
      if Level(sp, args[last]) < 2 { assert before + more == before; } else { GaveJoin(c, mid, d, before, more); }
    }
  }

  // --- no branch gives a variable twice, exactly when no UNCHANGED names one twice

  lemma {:induction false} BranchWithin(sp: Spec, open: set<string>, n: Node, xs: seq<string>)
    requires Walk(sp, open, n).Some? && Branch(sp, open, n, xs)
    ensures Items(xs) <= Walk(sp, open, n).value
    decreases open, n, 1
  {
    match n
    case LetIn(b) => BranchWithin(sp, open, b, xs);
    case Call(f, args) => BranchWithin(sp, open - {f}, sp.defs[f].body, xs);
    case Exists(_, _, b) => BranchWithin(sp, open, b, xs);
    case Op(Or, args) =>
      var i :| 0 <= i < |args| && Branch(sp, open, args[i], xs);
      OrOperand(sp, open, args, i);
      BranchWithin(sp, open, args[i], xs);
    case Op(And, args) => BranchAllWithin(sp, open, args, xs);
    case Op(IfThenElse, args) => BranchWithin(sp, open, if Branch(sp, open, args[1], xs) then args[1] else args[2], xs);
    case _ =>
  }

  lemma {:induction false} BranchAllWithin(sp: Spec, open: set<string>, args: seq<Node>, xs: seq<string>)
    requires WalkAnd(sp, open, args).Some? && BranchAll(sp, open, args, xs)
    ensures Items(xs) <= WalkAnd(sp, open, args).value
    decreases open, args, 0
  {
    hide Items, Branch, BranchAll;
    if args == [] {
      NoBranchOfNothing(sp, open, xs);
    } else {
      var last := |args| - 1;
      var before, more := BranchSplit(sp, open, args, xs);
      BranchAllWithin(sp, open, args[..last], before);
      if Level(sp, args[last]) >= 2 { BranchWithin(sp, open, args[last], more); }
      ItemsJoin(before, more);
      NoItems();
    }
  }

  lemma NoBranchOfNothing(sp: Spec, open: set<string>, xs: seq<string>)
    requires BranchAll(sp, open, [], xs)
    ensures Items(xs) == {}
  {
  }

  lemma BranchSplit(sp: Spec, open: set<string>, args: seq<Node>, xs: seq<string>)
      returns (a: seq<string>, b: seq<string>)
    requires args != [] && BranchAll(sp, open, args, xs)
    ensures xs == a + b && BranchAll(sp, open, args[..|args| - 1], a)
    ensures var last := args[|args| - 1]; if Level(sp, last) < 2 then b == [] else Branch(sp, open, last, b)
  {
    var last := |args| - 1;
    var k :| 0 <= k <= |xs| && BranchAll(sp, open, args[..last], xs[..k]) &&
      if Level(sp, args[last]) < 2 then xs[k..] == [] else Branch(sp, open, args[last], xs[k..]);
    a, b := xs[..k], xs[k..];
  }

  lemma DistinctJoin(a: seq<string>, b: seq<string>)
    requires Distinct(a) && Distinct(b) && Items(a) !! Items(b)
    ensures Distinct(a + b)
  {
    var xs, k := a + b, |a|;
    forall i, j | 0 <= i < j < |xs| ensures xs[i] != xs[j] {
      if i < k <= j {
        assert a[i] in Items(a) && b[j - k] in Items(b);
      } else if j < k {
        assert a[i] != a[j];
      } else {
        assert b[i - k] != b[j - k];
      }
    }
  }

  lemma {:induction false} OnceIsDistinct(sp: Spec, open: set<string>, n: Node, xs: seq<string>)
    requires Walk(sp, open, n).Some? && NamesOnce(sp, open, n) && Branch(sp, open, n, xs)
    ensures Distinct(xs)
    decreases open, n, 1
  {
    match n
    case LetIn(b) => OnceIsDistinct(sp, open, b, xs);
    case Call(f, args) => OnceIsDistinct(sp, open - {f}, sp.defs[f].body, xs);
    case Exists(_, _, b) => OnceIsDistinct(sp, open, b, xs);
    case Op(Or, args) =>
      var i :| 0 <= i < |args| && Branch(sp, open, args[i], xs);
      OrOperand(sp, open, args, i);
      OnceIsDistinct(sp, open, args[i], xs);
    case Op(And, args) => OnceIsDistinctInAll(sp, open, args, xs);
    case Op(IfThenElse, args) =>
      OnceIsDistinct(sp, open, if Branch(sp, open, args[1], xs) then args[1] else args[2], xs);
    case _ =>
  }

  lemma {:induction false} OnceIsDistinctInAll(sp: Spec, open: set<string>, args: seq<Node>, xs: seq<string>)
    requires WalkAnd(sp, open, args).Some? && BranchAll(sp, open, args, xs)
    requires forall i :: 0 <= i < |args| && Level(sp, args[i]) >= 2 ==> NamesOnce(sp, open, args[i])
    ensures Distinct(xs)
    decreases open, args, 0
  {
    hide Branch, NamesOnce, Walk, Distinct, Items;
    if args == [] {
      NothingIsDistinct(sp, open, xs);
    } else {
      var last := |args| - 1;
      var before, more := BranchSplit(sp, open, args, xs);
      OnceIsDistinctInAll(sp, open, args[..last], before);
      BranchAllWithin(sp, open, args[..last], before);
      if Level(sp, args[last]) >= 2 {
        OnceIsDistinct(sp, open, args[last], more);
        BranchWithin(sp, open, args[last], more);
        DistinctJoin(before, more);
      } else {
        assert before + more == before;
      }
    }
  }

  lemma NothingIsDistinct(sp: Spec, open: set<string>, xs: seq<string>)
    requires BranchAll(sp, open, [], xs)
    ensures Distinct(xs)
  {
  }

  /** An accepted action has a branch. */
  lemma {:induction false} SomeBranch(sp: Spec, open: set<string>, n: Node) returns (xs: seq<string>)
    requires Walk(sp, open, n).Some? && Written(sp, open, n)
    ensures Branch(sp, open, n, xs)
    decreases open, n, 1
  {
    match n
    case LetIn(b) => xs := SomeBranch(sp, open, b);
    case Call(f, args) => xs := SomeBranch(sp, open - {f}, sp.defs[f].body);
    case Exists(_, _, b) => xs := SomeBranch(sp, open, b);
    case Op(Or, args) =>
      OrOperand(sp, open, args, 0);
      xs := SomeBranch(sp, open, args[0]);
    case Op(And, args) => xs := SomeBranchOfAll(sp, open, args);
    case Op(IfThenElse, args) => xs := SomeBranch(sp, open, args[1]);
    case Op(Equals, args) => xs := [args[0].x];
    case Op(ElementOf, args) => xs := [args[0].x];
    case Unchanged(e) => xs := VarsNamed(sp, sp.defs.Keys, e).value;
    case _ =>
  }

  lemma {:induction false} SomeBranchOfAll(sp: Spec, open: set<string>, args: seq<Node>) returns (xs: seq<string>)
    requires WalkAnd(sp, open, args).Some?
    requires forall i :: 0 <= i < |args| && Level(sp, args[i]) >= 2 ==> Written(sp, open, args[i])
    ensures BranchAll(sp, open, args, xs)
    decreases open, args, 0
  {
    xs := [];
    if args != [] {
      var last := |args| - 1;
      var before := SomeBranchOfAll(sp, open, args[..last]);
      var more: seq<string> := [];
      if Level(sp, args[last]) >= 2 { more := SomeBranch(sp, open, args[last]); }
      xs := before + more;
      BranchJoin(sp, open, args, before, more);
    }
  }

  /** A branch of one conjunct is part of a branch of the conjunction. */
  lemma {:induction false} Through(sp: Spec, open: set<string>, args: seq<Node>, i: nat, ys: seq<string>)
      returns (xs: seq<string>, a: nat)
    requires i < |args| && Level(sp, args[i]) >= 2 && Branch(sp, open, args[i], ys) && WalkAnd(sp, open, args).Some?
    requires forall j :: 0 <= j < |args| && Level(sp, args[j]) >= 2 ==> Written(sp, open, args[j])
    ensures BranchAll(sp, open, args, xs) && a + |ys| <= |xs| && xs[a..a + |ys|] == ys
    decreases open, args, 0
  {
    var last := |args| - 1;
    var before: seq<string>, more: seq<string> := [], [];
    if i == last {
      before := SomeBranchOfAll(sp, open, args[..last]);
      more, a := ys, |before|;
    } else {
      before, a := Through(sp, open, args[..last], i, ys);
      if Level(sp, args[last]) >= 2 { more := SomeBranch(sp, open, args[last]); }
    }
    xs := before + more;
    BranchJoin(sp, open, args, before, more);
    assert i == last ==> xs[a..a + |ys|] == more;
    assert i < last ==> xs[a..a + |ys|] == before[a..a + |ys|];
  }

  /** Where an UNCHANGED names a variable twice, some branch gives it twice. */
  lemma {:induction false} TwiceIsGiven(sp: Spec, open: set<string>, n: Node) returns (xs: seq<string>)
    requires Walk(sp, open, n).Some? && Written(sp, open, n) && !NamesOnce(sp, open, n)
    ensures Branch(sp, open, n, xs) && !Distinct(xs)
    decreases open, n, 1
  {
    match n
    case LetIn(b) => xs := TwiceIsGiven(sp, open, b);
    case Call(f, args) => xs := TwiceIsGiven(sp, open - {f}, sp.defs[f].body);
    case Exists(_, _, b) => xs := TwiceIsGiven(sp, open, b);
    case Op(Or, args) =>
      var i :| 0 <= i < |args| && !NamesOnce(sp, open, args[i]);
      OrOperand(sp, open, args, i);
      xs := TwiceIsGiven(sp, open, args[i]);
    case Op(And, args) =>
      var i :| 0 <= i < |args| && Level(sp, args[i]) >= 2 && !NamesOnce(sp, open, args[i]);
      AndOperand(sp, open, args, i, |args|);
      var ys := TwiceIsGiven(sp, open, args[i]);
      var a;
      xs, a := Through(sp, open, args, i, ys);
      var j, k :| 0 <= j < k < |ys| && ys[j] == ys[k];
      assert xs[a + j] == xs[a..a + |ys|][j] == xs[a..a + |ys|][k] == xs[a + k];
    case Op(IfThenElse, args) =>
      xs := TwiceIsGiven(sp, open, if NamesOnce(sp, open, args[1]) then args[2] else args[1]);
    case Unchanged(e) => xs := VarsNamed(sp, sp.defs.Keys, e).value;
    case _ =>
  }

  /** No branch of an accepted action gives a variable twice if and only if no UNCHANGED it reaches names one twice. */
  lemma GivesOnceExactly(sp: Spec, open: set<string>, n: Node)
    requires Walk(sp, open, n).Some? && Written(sp, open, n)
    ensures NamesOnce(sp, open, n) <==> forall xs :: Branch(sp, open, n, xs) ==> Distinct(xs)
  {
    if NamesOnce(sp, open, n) {
      forall xs | Branch(sp, open, n, xs) ensures Distinct(xs) { OnceIsDistinct(sp, open, n, xs); }
    } else {
      var xs := TwiceIsGiven(sp, open, n);
    }
  }

  /**
   * So no evaluation of such an action gives a variable a value twice, and what
   * any evaluation gives lies in the set the walk returns.
   */
  lemma NoSecondValue(sp: Spec, open: set<string>, n: Node, x: Ctx, c: Progress, d: Progress)
    requires Walk(sp, open, n).Some? && Runs(sp, open, n, x, c, d)
    ensures c.given <= d.given && Items(d.given[|c.given|..]) <= Walk(sp, open, n).value
    ensures d.next.Keys == c.next.Keys + Items(d.given[|c.given|..])
    ensures NamesOnce(sp, open, n) ==> Distinct(d.given[|c.given|..])
  {
    var xs := RunIsBranch(sp, open, n, x, c, d);
    assert d.given[|c.given|..] == xs;
    BranchWithin(sp, open, n, xs);
    if NamesOnce(sp, open, n) { OnceIsDistinct(sp, open, n, xs); }
  }

  /** The walk accepts a tuple that names a variable twice, and running it gives that variable twice. */
  lemma RepeatedUnchanged(sp: Spec, s: State)
    ensures var twice := Unchanged(Op(TupleOf, [Var("x"), Var("x")]));
      && Walk(sp, {}, twice) == Some({"x"}) && !NamesOnce(sp, {}, twice)
      && exists d :: Runs(sp, {}, twice, Ctx(map[], map[], s, s), NOTHING_GIVEN, d) && d.given == ["x", "x"]
  {
    var vars, v := [Var("x"), Var("x")], Lookup(s, "x");
    TwoVarsNamed(sp, sp.defs.Keys, "x", "x");
    var d := Progress(map["x" := v], ["x", "x"]);
    TwoKept("x", s);
    assert Items(["x", "x"]) == {"x"};
    assert ["x", "x"][0] == ["x", "x"][1];
    assert Runs(sp, {}, Unchanged(Op(TupleOf, vars)), Ctx(map[], map[], s, s), NOTHING_GIVEN, d);
  }

  lemma TwoVarsNamed(sp: Spec, open: set<string>, a: string, b: string)
    ensures AllVarsNamed(sp, open, [Var(a), Var(b)]) == Some([a, b])
  {
    assert [Var(a), Var(b)][1..] == [Var(b)] && [Var(b)][1..] == [];
    assert AllVarsNamed(sp, open, []) == Some([]);
    assert AllVarsNamed(sp, open, [Var(b)]) == Some([b] + []);
    assert [a] + ([b] + []) == [a, b];
  }

  lemma TwoKept(a: string, s: State)
    ensures Keep(NOTHING_GIVEN, [a, a], s) == Some(Progress(map[a := Lookup(s, a)], [a, a]))
  {
    var once := Progress(map[a := Lookup(s, a)], [a]);
    assert [] + [a] == [a] && [a] + [a] == [a, a] && [a, a][1..] == [a] && [a][1..] == [];
    assert Give(NOTHING_GIVEN, a, Lookup(s, a)) == Some(once);
    assert Keep(once, [a], s) == Keep(Progress(once.next, [a, a]), [], s);
  }

  // --- no value ever clashes with one given before

  /** Whether some evaluation comes to an effect whose value differs from the one its variable has. */
  ghost predicate Clashes(sp: Spec, open: set<string>, n: Node, x: Ctx, c: Progress)
    decreases open, n, 1
  {
    match n
    case LetIn(b) => Clashes(sp, open, b, x, c)
    case Call(f, args) =>
      CallsAction(sp, f, args) && f in open &&
      Clashes(sp, open - {f}, sp.defs[f].body, x.(p := Bind(x.p, sp.defs[f].params, EvalAll(sp, open, args, x))), c)
    case Exists(y, dom, b) =>
      exists v :: v in Elements(Eval(sp, open, dom, x)) && Clashes(sp, open, b, x.(q := x.q[y := v]), c)
    case Op(Or, args) => exists i :: 0 <= i < |args| && Clashes(sp, open, args[i], x, c)
    case Op(And, args) => ClashesInAll(sp, open, args, x, c)
    case Op(IfThenElse, args) =>
      |args| == 3 &&
      if Eval(sp, open, args[0], x) == TRUE then Clashes(sp, open, args[1], x, c) else Clashes(sp, open, args[2], x, c)
    case Op(Equals, args) =>
      |args| == 2 && args[0].Prime? && Give(c, args[0].x, Eval(sp, open, args[1], x)).None?
    case Op(ElementOf, args) =>
      |args| == 2 && args[0].Prime? &&
      exists v :: v in Elements(Eval(sp, open, args[1], x)) && Give(c, args[0].x, v).None?
    case Unchanged(e) =>
      var xs := VarsNamed(sp, sp.defs.Keys, e);
      xs.Some? && Keep(c, xs.value, x.s).None?
    case _ => false
  }

  /** In a conjunction the clash comes after the conjuncts before it have run. */
  ghost predicate ClashesInAll(sp: Spec, open: set<string>, args: seq<Node>, x: Ctx, c: Progress)
    decreases open, args, 0
  {
    args != [] &&
    var last := |args| - 1;
    || ClashesInAll(sp, open, args[..last], x, c)
    || (Level(sp, args[last]) >= 2 &&
        exists mid: Progress :: RunsAll(sp, open, args[..last], x, c, mid) && Clashes(sp, open, args[last], x, mid))
  }

  lemma {:induction false} KeepWorks(c: Progress, xs: seq<string>, s: State)
    requires forall y :: y in xs && y in c.next ==> c.next[y] == Lookup(s, y)
    ensures Keep(c, xs, s).Some?
    decreases xs
  {
    if xs != [] {
      assert xs == [xs[0]] + xs[1..];
      KeepWorks(Give(c, xs[0], Lookup(s, xs[0])).value, xs[1..], s);
    }
  }

  /**
   * What the walk's disjointness is for: from a progress that has none of the
   * action's variables, as a step starts from, no effect of an accepted action
   * ever meets a value it could differ from, repeated variables or not.
   */
  lemma {:induction false} NeverClashes(sp: Spec, open: set<string>, n: Node, x: Ctx, c: Progress)
    requires Walk(sp, open, n).Some? && c.next.Keys !! Walk(sp, open, n).value
    ensures !Clashes(sp, open, n, x, c)
    decreases open, n, 1
  {
    match n
    case LetIn(b) => NeverClashes(sp, open, b, x, c);
    case Call(f, args) =>
      NeverClashes(sp, open - {f}, sp.defs[f].body,
        x.(p := Bind(x.p, sp.defs[f].params, EvalAll(sp, open, args, x))), c);
    case Exists(y, dom, b) =>
      forall v | v in Elements(Eval(sp, open, dom, x)) ensures !Clashes(sp, open, b, x.(q := x.q[y := v]), c) {
        NeverClashes(sp, open, b, x.(q := x.q[y := v]), c);
      }
    case Op(Or, args) =>
      forall i | 0 <= i < |args| ensures !Clashes(sp, open, args[i], x, c) {
        OrOperand(sp, open, args, i);
        NeverClashes(sp, open, args[i], x, c);
      }
    case Op(And, args) => NeverClashesInAll(sp, open, args, x, c);
    case Op(IfThenElse, args) =>
      NeverClashes(sp, open, args[1], x, c);
      NeverClashes(sp, open, args[2], x, c);
    case Unchanged(e) =>
      var xs := VarsNamed(sp, sp.defs.Keys, e).value;
      forall y | y in xs ensures y !in c.next { assert y in Items(xs); }
      KeepWorks(c, xs, x.s);
    case _ =>
  }

  lemma {:induction false} NeverClashesInAll(sp: Spec, open: set<string>, args: seq<Node>, x: Ctx, c: Progress)
    requires WalkAnd(sp, open, args).Some? && c.next.Keys !! WalkAnd(sp, open, args).value
    ensures !ClashesInAll(sp, open, args, x, c)
    decreases open, args, 0
  {
    if args != [] {
      var last := |args| - 1;
      NeverClashesInAll(sp, open, args[..last], x, c);
      if Level(sp, args[last]) >= 2 {
        forall mid: Progress | RunsAll(sp, open, args[..last], x, c, mid)
          ensures !Clashes(sp, open, args[last], x, mid)
        {
          var xs := RunAllIsBranch(sp, open, args[..last], x, c, mid);
          BranchAllWithin(sp, open, args[..last], xs);
          NeverClashes(sp, open, args[last], x, mid);
        }
      }
    }
  }
}
