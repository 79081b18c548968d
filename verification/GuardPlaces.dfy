/**
 * Where guards stand, what a level says, and which parameters an expression
 * depends on, each said of single nodes and the way to them.
 */
module GuardPlaces {
  import opened Common
  import opened Actions
  import opened GuardReader

  // --- levels

  /** The nodes whose levels make up the level of an expression: nothing under ENABLED or UNCHANGED counts. */
  ghost predicate Counts(n: Node, m: Node)
    decreases n
  {
    || m == n
    || match n
       case Op(_, args) => exists i :: 0 <= i < |args| && Counts(args[i], m)
       case Call(_, args) => exists i :: 0 <= i < |args| && Counts(args[i], m)
       case LetIn(b) => Counts(b, m)
       case Exists(_, dom, b) => Counts(dom, m) || Counts(b, m)
       case _ => false
  }

  /**
   * A variable reads the state, as ENABLED does; a prime and UNCHANGED read the
   * next; a call has the recorded level.
   */
  ghost predicate ReadsAtLeast(sp: Spec, m: Node, l: nat) {
    match m
    case Var(_) => l <= 1
    case Prime(_) => l <= 2
    case Enabled(_) => l <= 1
    case Unchanged(_) => l <= 2
    case Call(d, _) => l == 0 || (d in sp.defs && l <= sp.defs[d].level)
    case _ => l == 0
  }

  lemma {:induction false} LevelMeans(sp: Spec, n: Node, l: nat)
    ensures Level(sp, n) >= l <==> exists m :: Counts(n, m) && ReadsAtLeast(sp, m, l)
    decreases n, 1
  {
    assert Counts(n, n);
    match n
    case Op(_, args) => MaxLevelMeans(sp, args, l);
    case Call(_, args) => MaxLevelMeans(sp, args, l);
    case LetIn(b) => LevelMeans(sp, b, l);
    case Exists(_, dom, b) =>
      LevelMeans(sp, dom, l);
      LevelMeans(sp, b, l);
    case _ =>
  }

  lemma {:induction false} MaxLevelMeans(sp: Spec, ns: seq<Node>, l: nat)
    ensures MaxLevel(sp, ns) >= l <==>
      l == 0 || exists i, m :: 0 <= i < |ns| && Counts(ns[i], m) && ReadsAtLeast(sp, m, l)
    decreases ns, 0
  {
    if ns != [] {
      LevelMeans(sp, ns[0], l);
      MaxLevelMeans(sp, ns[1..], l);
    }
  }

  // --- parameters

  /**
   * A part of an expression that can bring in parameter `x`: the body of a
   * definition unless it has a parameter `x`.
   */
  ghost predicate Brings(sp: Spec, open: set<string>, n: Node, x: string, p: set<string>, k: Node) {
    match n
    case Op(_, args) => p == open && exists i :: 0 <= i < |args| && k == args[i]
    case Enabled(a) => p == open && k == a
    case Call(d, args) =>
      || (p == open && exists i :: 0 <= i < |args| && k == args[i])
      || (d in open && Resolves(sp, d, args) && x !in sp.defs[d].params && p == open - {d} && k == sp.defs[d].body)
    case LetIn(b) => p == open && k == b
    case Exists(_, dom, b) => p == open && (k == dom || k == b)
    case Unchanged(e) => p == open && k == e
    case _ => false
  }

  ghost predicate DependsOn(sp: Spec, open: set<string>, n: Node, x: string)
    decreases open, n
  {
    n == Param(x) || exists p, k :: Brings(sp, open, n, x, p, k) && DependsOn(sp, p, k, x)
  }

  lemma {:induction false} ParamsMean(sp: Spec, open: set<string>, n: Node, x: string)
    ensures x in ParamsUnder(sp, open, n) <==> DependsOn(sp, open, n, x)
    decreases open, n, 1
  {
    match n
    case Op(_, args) => AllParamsMean(sp, open, args, x);
    case Enabled(a) => ParamsMean(sp, open, a, x);
    case Call(d, args) =>
      AllParamsMean(sp, open, args, x);
      if d in open && Resolves(sp, d, args) { ParamsMean(sp, open - {d}, sp.defs[d].body, x); }
    case LetIn(b) => ParamsMean(sp, open, b, x);
    case Exists(_, dom, b) =>
      ParamsMean(sp, open, dom, x);
      ParamsMean(sp, open, b, x);
    case Unchanged(e) => ParamsMean(sp, open, e, x);
    case _ =>
  }

  lemma {:induction false} AllParamsMean(sp: Spec, open: set<string>, ns: seq<Node>, x: string)
    ensures x in AllParamsUnder(sp, open, ns) <==> exists i :: 0 <= i < |ns| && DependsOn(sp, open, ns[i], x)
    decreases open, ns, 0
  {
    if ns != [] {
      ParamsMean(sp, open, ns[0], x);
      AllParamsMean(sp, open, ns[1..], x);
    }
  }

  // --- the places of guards

  /** The operands a path can take; a quantifier's domain is none. */
  function Operand(n: Node, i: nat): Option<Node> {
    match n
    case LetIn(b) => if i == 0 then Some(b) else None
    case Exists(_, _, b) => if i == 0 then Some(b) else None
    case Op(_, args) => if i < |args| then Some(args[i]) else None
    case _ => None
  }

  function NodeAt(n: Node, path: seq<nat>): Option<Node> {
    if path == [] then Some(n) else
    var k := Operand(n, path[0]);
    if k.None? then None else NodeAt(k.value, path[1..])
  }

  predicate IsAnd(n: Option<Node>) { n.Some? && n.value.Op? && n.value.op.And? }

  /** The walk goes on from a node to its operand `i` as to an action. */
  ghost predicate GoesOn(sp: Spec, n: Option<Node>, i: nat) {
    n.Some? && Operand(n.value, i).Some? &&
    match n.value
    case Op(op, args) =>
      (op.And? && Level(sp, args[i]) >= 2) || op.Or? || (op.IfThenElse? && |args| == 3 && i > 0)
    case _ => true
  }

  /** Operand `i` is a conjunct that reads no next state. */
  ghost predicate IsConjunct(sp: Spec, n: Option<Node>, i: nat) {
    IsAnd(n) && i < |n.value.args| && Level(sp, n.value.args[i]) < 2
  }

  /** A path through actions to such a conjunct, its step `k`, and on through conjunctions to one that is none. */
  ghost predicate LeadsToGuard(sp: Spec, n: Node, path: seq<nat>, k: nat) {
    && k < |path|
    && (forall j :: 0 <= j < k ==> GoesOn(sp, NodeAt(n, path[..j]), path[j]))
    && IsConjunct(sp, NodeAt(n, path[..k]), path[k])
    && (forall j :: k < j < |path| ==> IsAnd(NodeAt(n, path[..j])))
    && NodeAt(n, path).Some? && !IsAnd(NodeAt(n, path))
  }

  ghost predicate PlaceOfGuard(sp: Spec, n: Node, path: seq<nat>) { exists k: nat :: LeadsToGuard(sp, n, path, k) }

  lemma FirstStep(n: Node, path: seq<nat>)
    requires path != [] && Operand(n, path[0]).Some?
    ensures NodeAt(n, path[..0]) == Some(n)
    ensures forall j :: 0 <= j < |path| ==>
      NodeAt(n, path[..j + 1]) == NodeAt(Operand(n, path[0]).value, path[1..][..j])
  {
    forall j | 0 <= j < |path|
      ensures NodeAt(n, path[..j + 1]) == NodeAt(Operand(n, path[0]).value, path[1..][..j])
    {
      assert path[..j + 1][1..] == path[1..][..j];
    }
  }

  lemma {:induction false} ConditionIs(n: Node, path: seq<nat>)
    ensures IsCondition(n, path) <==>
      && (forall j :: 0 <= j < |path| ==> IsAnd(NodeAt(n, path[..j])))
      && NodeAt(n, path).Some? && !IsAnd(NodeAt(n, path))
    decreases n
  {
    if path != [] {
      assert NodeAt(n, path[..0]) == Some(n);
      if n.Op? && n.op.And? && path[0] < |n.args| {
        ConditionIs(n.args[path[0]], path[1..]);
        FirstStep(n, path);
        forall j | 0 < j < |path| ensures NodeAt(n, path[..j]) == NodeAt(n.args[path[0]], path[1..][..j - 1]) {
          var i := j - 1;
          assert path[..i + 1] == path[..j];
        }
        forall j | 0 <= j < |path| - 1 ensures NodeAt(n.args[path[0]], path[1..][..j]) == NodeAt(n, path[..j + 1]) {
        }
      }
    }
  }

  /** The last step of a path to a guard taken first, or one before it. */
  lemma LeadsLater(sp: Spec, n: Node, path: seq<nat>, k: nat)
    requires path != [] && Operand(n, path[0]).Some?
    ensures LeadsToGuard(sp, n, path, k + 1) <==>
      GoesOn(sp, Some(n), path[0]) && LeadsToGuard(sp, Operand(n, path[0]).value, path[1..], k)
  {
    hide GoesOn, IsConjunct, IsAnd;
    var kid, rest := Operand(n, path[0]).value, path[1..];
    FirstStep(n, path);
    forall j | 0 < j < |path| ensures NodeAt(n, path[..j]) == NodeAt(kid, rest[..j - 1]) && path[j] == rest[j - 1] {
      var i := j - 1;
      assert path[..i + 1] == path[..j];
    }
    if LeadsToGuard(sp, n, path, k + 1) {
      forall j | 0 <= j < k ensures GoesOn(sp, NodeAt(kid, rest[..j]), rest[j]) {
        assert GoesOn(sp, NodeAt(n, path[..j + 1]), path[j + 1]);
      }
      forall j | k < j < |rest| ensures IsAnd(NodeAt(kid, rest[..j])) { assert IsAnd(NodeAt(n, path[..j + 1])); }
    }
  }

  lemma LeadsNow(sp: Spec, n: Node, path: seq<nat>)
    requires path != []
    ensures LeadsToGuard(sp, n, path, 0) <==>
      IsConjunct(sp, Some(n), path[0]) && IsCondition(Operand(n, path[0]).value, path[1..])
  {
    assert NodeAt(n, path[..0]) == Some(n);
    if IsConjunct(sp, Some(n), path[0]) {
      var kid, rest := Operand(n, path[0]).value, path[1..];
      FirstStep(n, path);
      ConditionIs(kid, rest);
      forall j | 0 < j < |path| ensures NodeAt(n, path[..j]) == NodeAt(kid, rest[..j - 1]) {
        var i := j - 1;
        assert path[..i + 1] == path[..j];
      }
      forall j | 0 <= j < |rest| ensures NodeAt(kid, rest[..j]) == NodeAt(n, path[..j + 1]) {
      }
    }
  }

  /** The guards of a node, by the places they stand in. */
  lemma {:induction false} GuardIs(sp: Spec, n: Node, path: seq<nat>)
    ensures IsGuard(sp, n, path) <==> PlaceOfGuard(sp, n, path)
    decreases n
  {
    hide LeadsToGuard;
    if path == [] {
      NoPath(sp, n);
    } else {
      LeadsNow(sp, n, path);
      if Operand(n, path[0]).Some? {
        GuardIs(sp, Operand(n, path[0]).value, path[1..]);
      }
      OneStep(sp, n, path);
    }
  }

  lemma NoPath(sp: Spec, n: Node)
    ensures forall k :: !LeadsToGuard(sp, n, [], k)
  {
  }

  /** A path to a guard ends in its first step, or goes on from there. */
  lemma OneStep(sp: Spec, n: Node, path: seq<nat>)
    requires path != []
    ensures PlaceOfGuard(sp, n, path) <==>
      || LeadsToGuard(sp, n, path, 0)
      || (GoesOn(sp, Some(n), path[0]) && PlaceOfGuard(sp, Operand(n, path[0]).value, path[1..]))
  {
    if PlaceOfGuard(sp, n, path) {
      var k: nat :| LeadsToGuard(sp, n, path, k);
      if k > 0 {
        assert path[..0] == [];
        assert GoesOn(sp, NodeAt(n, path[..0]), path[0]);
        LeadsLater(sp, n, path, k - 1);
      }
    }
    if GoesOn(sp, Some(n), path[0]) && PlaceOfGuard(sp, Operand(n, path[0]).value, path[1..]) {
      var k: nat :| LeadsToGuard(sp, Operand(n, path[0]).value, path[1..], k);
      LeadsLater(sp, n, path, k);
      assert LeadsToGuard(sp, n, path, k + 1);
    }
  }
}
