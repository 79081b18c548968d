/**
 * The guard reader of proofs/check_mutants.py: the walk that follows every
 * action a next-state relation is built from, lists each conjunct that reads
 * no next state, and computes the variables the action may give a value.
 *
 * `Walk` is the recursion without its memory; `Reader` is the object that
 * remembers the actions it has read. A path names a node inside one
 * definition's body by the operand taken at each level.
 */
module GuardReader {
  import opened Common
  import opened Actions

  datatype Guard = Guard(action: string, path: seq<nat>)

  /** The variables an expression is made of, in order: a variable, a tuple of these, or a definition that is one. */
  function VarsNamed(sp: Spec, open: set<string>, e: Node): Option<seq<string>>
    decreases open, e, 1
  {
    match e
    case Var(x) => Some([x])
    case Op(TupleOf, args) => AllVarsNamed(sp, open, args)
    case Call(d, args) =>
      if d in open && Resolves(sp, d, args) && !sp.defs[d].fact then VarsNamed(sp, open - {d}, sp.defs[d].body)
      else None
    case _ => None
  }

  function AllVarsNamed(sp: Spec, open: set<string>, es: seq<Node>): Option<seq<string>>
    decreases open, es, 0
  {
    if es == [] then Some([]) else
    var first, rest := VarsNamed(sp, open, es[0]), AllVarsNamed(sp, open, es[1..]);
    if first.None? || rest.None? then None else Some(first.value + rest.value)
  }

  function Items(xs: seq<string>): set<string> { set x | x in xs }

  /** Whether a call is one the walk follows: to an action, no fact, with nothing primed among what it is given. */
  predicate CallsAction(sp: Spec, d: string, args: seq<Node>) {
    && Resolves(sp, d, args) && sp.defs[d].level >= 2 && !sp.defs[d].fact
    && forall i :: 0 <= i < |args| ==> Level(sp, args[i]) < 2
  }

  predicate ConstantDomain(sp: Spec, dom: Node) {
    Level(sp, dom) == 0 && ParamsUnder(sp, sp.defs.Keys, dom) == {}
  }

  function Join(a: Option<set<string>>, b: Option<set<string>>): Option<set<string>> {
    if a.None? || b.None? then None else Some(a.value + b.value)
  }

  /** The variables an action may give a value, or None where the walk stops with an error. */
  function Walk(sp: Spec, open: set<string>, n: Node): Option<set<string>>
    decreases open, n, 1
  {
    match n
    case LetIn(b) => Walk(sp, open, b)
    case Call(d, args) =>
      if CallsAction(sp, d, args) && d in open then Walk(sp, open - {d}, sp.defs[d].body) else None
    case Op(Or, args) => WalkOr(sp, open, args)
    case Op(And, args) => WalkAnd(sp, open, args)
    case Op(IfThenElse, args) =>
      if |args| == 3 && Level(sp, args[1]) >= 2 && Level(sp, args[2]) >= 2
      then Join(Walk(sp, open, args[1]), Walk(sp, open, args[2])) else None
    case Op(Equals, args) => if |args| == 2 && args[0].Prime? then Some({args[0].x}) else None
    case Op(ElementOf, args) => if |args| == 2 && args[0].Prime? then Some({args[0].x}) else None
    case Exists(_, dom, b) => if ConstantDomain(sp, dom) then Walk(sp, open, b) else None
    case Unchanged(e) =>
      var xs := VarsNamed(sp, sp.defs.Keys, e);
      if xs.None? then None else Some(Items(xs.value))
    case _ => None
  }

  function WalkOr(sp: Spec, open: set<string>, args: seq<Node>): Option<set<string>>
    decreases open, args, 0
  {
    if args == [] then Some({}) else
    var last := |args| - 1;
    if Level(sp, args[last]) < 2 then None else
    Join(WalkOr(sp, open, args[..last]), Walk(sp, open, args[last]))
  }

  function WalkAnd(sp: Spec, open: set<string>, args: seq<Node>): Option<set<string>>
    decreases open, args, 0
  {
    if args == [] then Some({}) else
    var last := |args| - 1;
    var given := WalkAnd(sp, open, args[..last]);
    if Level(sp, args[last]) < 2 then given else
    var more := Walk(sp, open, args[last]);
    if given.Some? && more.Some? && given.value !! more.value then Some(given.value + more.value) else None
  }

  /** Whether a path leads to a condition of a conjunct that reads no next state. */
  predicate IsCondition(n: Node, path: seq<nat>)
    decreases n
  {
    if n.Op? && n.op.And? then path != [] && path[0] < |n.args| && IsCondition(n.args[path[0]], path[1..])
    else path == []
  }

  /** Whether a path leads to a guard: a condition among the conjuncts of an action. */
  predicate IsGuard(sp: Spec, n: Node, path: seq<nat>)
    decreases n
  {
    path != [] &&
    match n
    case LetIn(b) => path[0] == 0 && IsGuard(sp, b, path[1..])
    case Exists(_, _, b) => path[0] == 0 && IsGuard(sp, b, path[1..])
    case Op(And, args) =>
      path[0] < |args| &&
      if Level(sp, args[path[0]]) < 2 then IsCondition(args[path[0]], path[1..])
      else IsGuard(sp, args[path[0]], path[1..])
    case Op(Or, args) => path[0] < |args| && IsGuard(sp, args[path[0]], path[1..])
    case Op(IfThenElse, args) => |args| == 3 && 1 <= path[0] < 3 && IsGuard(sp, args[path[0]], path[1..])
    case _ => false
  }

  /** The guards of the node that stands at `at` in the body of `action`. */
  ghost predicate Lists(sp: Spec, action: string, n: Node, at: seq<nat>, g: Guard) {
    g.action == action && at <= g.path && IsGuard(sp, n, g.path[|at|..])
  }

  ghost predicate ListsConditions(action: string, n: Node, at: seq<nat>, g: Guard) {
    g.action == action && at <= g.path && IsCondition(n, g.path[|at|..])
  }

  /** The guards of one action's whole body. */
  ghost predicate ListsAction(sp: Spec, g: Guard) {
    g.action in sp.defs && IsGuard(sp, sp.defs[g.action].body, g.path)
  }

  // --- the actions a walk follows

  function Follows(sp: Spec, open: set<string>, n: Node): set<string>
    decreases open, n, 1
  {
    match n
    case LetIn(b) => Follows(sp, open, b)
    case Exists(_, _, b) => Follows(sp, open, b)
    case Call(d, args) => {d} + (if d in open && d in sp.defs then Follows(sp, open - {d}, sp.defs[d].body) else {})
    case Op(And, args) => AllFollows(sp, open, args)
    case Op(Or, args) => AllFollows(sp, open, args)
    case Op(IfThenElse, args) => if |args| == 3 then Follows(sp, open, args[1]) + Follows(sp, open, args[2]) else {}
    case _ => {}
  }

  function AllFollows(sp: Spec, open: set<string>, args: seq<Node>): (r: set<string>)
    ensures forall i :: 0 <= i < |args| && Level(sp, args[i]) >= 2 ==> Follows(sp, open, args[i]) <= r
    decreases open, args, 0
  {
    if args == [] then {} else
    var last := |args| - 1;
    AllFollows(sp, open, args[..last]) + (if Level(sp, args[last]) >= 2 then Follows(sp, open, args[last]) else {})
  }

  // --- reading with more names open changes nothing

  lemma {:induction false} OpenMore(sp: Spec, o: set<string>, o': set<string>, n: Node)
    requires o <= o' && Walk(sp, o, n).Some?
    ensures Walk(sp, o', n) == Walk(sp, o, n)
    ensures Follows(sp, o', n) == Follows(sp, o, n) <= o
    decreases o, n, 1
  {
    match n
    case LetIn(b) => OpenMore(sp, o, o', b);
    case Exists(_, _, b) => OpenMore(sp, o, o', b);
    case Call(d, _) => OpenMore(sp, o - {d}, o' - {d}, sp.defs[d].body);
    case Op(Or, args) => OpenMoreOr(sp, o, o', args);
    case Op(And, args) => OpenMoreAnd(sp, o, o', args);
    case Op(IfThenElse, args) =>
      OpenMore(sp, o, o', args[1]);
      OpenMore(sp, o, o', args[2]);
    case _ =>
  }

  lemma {:induction false} OpenMoreOr(sp: Spec, o: set<string>, o': set<string>, args: seq<Node>)
    requires o <= o' && WalkOr(sp, o, args).Some?
    ensures WalkOr(sp, o', args) == WalkOr(sp, o, args)
    ensures AllFollows(sp, o', args) == AllFollows(sp, o, args) <= o
    decreases o, args, 0
  {
    if args != [] {
      OpenMoreOr(sp, o, o', args[..|args| - 1]);
      OpenMore(sp, o, o', args[|args| - 1]);
    }
  }

  lemma {:induction false} OpenMoreAnd(sp: Spec, o: set<string>, o': set<string>, args: seq<Node>)
    requires o <= o' && WalkAnd(sp, o, args).Some?
    ensures WalkAnd(sp, o', args) == WalkAnd(sp, o, args)
    ensures AllFollows(sp, o', args) == AllFollows(sp, o, args) <= o
    decreases o, args, 0
  {
    if args != [] {
      OpenMoreAnd(sp, o, o', args[..|args| - 1]);
      if Level(sp, args[|args| - 1]) >= 2 { OpenMore(sp, o, o', args[|args| - 1]); }
    }
  }

  /** What one operand of a conjunction or disjunction gives, against what the whole does. */
  lemma {:induction false} AndOperand(sp: Spec, open: set<string>, args: seq<Node>, i: nat, j: nat)
    requires WalkAnd(sp, open, args).Some? && i < j <= |args|
    requires Level(sp, args[i]) >= 2
    ensures Walk(sp, open, args[i]).Some? && Walk(sp, open, args[i]).value <= WalkAnd(sp, open, args).value
    ensures j < |args| && Level(sp, args[j]) >= 2 ==>
              Walk(sp, open, args[j]).Some? && Walk(sp, open, args[i]).value !! Walk(sp, open, args[j]).value
    decreases args
  {
    var last := |args| - 1;
    if j == last {
      AndOperand(sp, open, args[..last], i, j);
    } else if i < last {
      AndOperand(sp, open, args[..last], i, if j < last then j else last);
    }
  }

  lemma {:induction false} OrOperand(sp: Spec, open: set<string>, args: seq<Node>, i: nat)
    requires WalkOr(sp, open, args).Some? && i < |args|
    ensures Level(sp, args[i]) >= 2 && Walk(sp, open, args[i]).Some?
    ensures Walk(sp, open, args[i]).value <= WalkOr(sp, open, args).value
    decreases args
  {
    if i < |args| - 1 { OrOperand(sp, open, args[..|args| - 1], i); }
  }

  /** The object that walks: what it has found, the actions it has read, and those it is reading. */
  class Reader {
    const sp: Spec
    var found: seq<Guard>
    var assigns: map<string, set<string>>
    var reading: set<string>

    constructor (sp: Spec)
      ensures this.sp == sp && found == [] && assigns == map[] && reading == {} && Valid()
    {
      this.sp := sp;
      found, assigns, reading := [], map[], {};
    }

    /**
     * Every action remembered was read through, needs only remembered actions,
     * and is remembered right. No guard is found twice, nor before its action is read.
     */
    ghost predicate Valid()
      reads this
    {
      && assigns.Keys <= sp.defs.Keys
      && reading !! assigns.Keys
      && Distinct(found)
      && (forall g :: g in found && g.action in sp.defs ==> g.action in assigns || g.action in reading)
      && forall d :: d in assigns ==> Walk(sp, assigns.Keys - {d}, sp.defs[d].body) == Some(assigns[d])
    }

    /** Whether a visit of the node at `at` can begin: its action is being read, and nothing is found there yet. */
    ghost predicate Ready(action: string, at: seq<nat>)
      reads this
    {
      Valid() && reading <= sp.defs.Keys && (action in reading || action !in sp.defs) && Clear(found, action, at)
    }

    method Conditions(n: Node, action: string, at: seq<nat>)
      requires Distinct(found) && Clear(found, action, at)
      modifies this`found
      ensures forall g :: g in found <==> g in old(found) || ListsConditions(action, n, at, g)
      ensures Distinct(found)
      decreases n
    {
      if n.Op? && n.op.And? {
        for i := 0 to |n.args|
          invariant Distinct(found)
          invariant forall g :: g in found <==>
            (g in old(found) || (ListsConditions(action, n, at, g) && |g.path| > |at| && g.path[|at|] < i))
        {
          Conditions(n.args[i], action, at + [i]);
          forall g ensures ListsConditions(action, n.args[i], at + [i], g) <==>
            (ListsConditions(action, n, at, g) && |g.path| > |at| && g.path[|at|] == i)
          {
            ConditionStep(n, action, at, i, g);
          }
        }
      } else {
        found := found + [Guard(action, at)];
        assert forall g :: ListsConditions(action, n, at, g) <==> g == Guard(action, at);
      }
    }

    /**
     * What a visit of a node must do: agree with Walk, and list that node's guards and
     * those of each action it read.
     */
    twostate predicate Told(n: Node, action: string, at: seq<nat>, new r: Option<set<string>>)
      reads this
    {
      && r == Walk(sp, sp.defs.Keys - old(reading), n)
      && (r.Some? ==>
            && Valid() && reading == old(reading)
            && Walk(sp, assigns.Keys, n) == r
            && assigns.Keys == old(assigns.Keys) + Follows(sp, assigns.Keys, n)
            && forall g :: g in found <==>
                 (g in old(found) || Lists(sp, action, n, at, g) ||
                  (g.action in assigns.Keys - old(assigns.Keys) && ListsAction(sp, g))))
    }

    method Visit(n: Node, action: string, at: seq<nat>) returns (r: Option<set<string>>)
      requires Ready(action, at)
      modifies this
      ensures Told(n, action, at, r)
      decreases sp.defs.Keys - reading, n, 1
    {
      match n
      case LetIn(b) =>
        r := Visit(b, action, at + [0]);
        GuardStep(sp, n, action, at, 0);
      case Exists(_, dom, b) =>
        if !ConstantDomain(sp, dom) { return None; }
        r := Visit(b, action, at + [0]);
        GuardStep(sp, n, action, at, 0);
      case Call(_, _) =>
        r := VisitCall(n, action, at);
      case Op(Or, _) =>
        r := VisitOr(n, action, at);
      case Op(And, _) =>
        r := VisitAnd(n, action, at);
      case Op(IfThenElse, _) =>
        r := VisitIf(n, action, at);
      case _ =>
        r := Walk(sp, sp.defs.Keys - reading, n);
    }

    method VisitCall(n: Node, action: string, at: seq<nat>) returns (r: Option<set<string>>)
      requires n.Call?
      requires Ready(action, at)
      modifies this
      ensures Told(n, action, at, r)
      decreases sp.defs.Keys - reading, n, 0
    {
      ghost var open := sp.defs.Keys - reading;
      var d, args := n.def, n.args;
      if !CallsAction(sp, d, args) || d in reading { return None; }
      if d !in assigns {
        reading := reading + {d};
        assert sp.defs.Keys - reading == open - {d};
        var inner := Visit(sp.defs[d].body, d, []);
        if inner.None? { return None; }
        ghost var known := assigns.Keys;
        Remember(d, inner.value);
        assert assigns.Keys - {d} == known;
      }
      OpenMore(sp, assigns.Keys - {d}, open - {d}, sp.defs[d].body);
      r := Some(assigns[d]);
    }

    method VisitIf(n: Node, action: string, at: seq<nat>) returns (r: Option<set<string>>)
      requires n.Op? && n.op.IfThenElse?
      requires Ready(action, at)
      modifies this
      ensures Told(n, action, at, r)
      decreases sp.defs.Keys - reading, n, 0
    {
      hide Lists, IsGuard, IsCondition;
      var args := n.args;
      if |args| != 3 || Level(sp, args[1]) < 2 || Level(sp, args[2]) < 2 { return None; }
      BranchIsClear(sp, found, found, action, args[1], at, {});
      var yes := Visit(args[1], action, at + [1]);
      if yes.None? { return None; }
      ghost var known := assigns.Keys;
      BranchIsClear(sp, old(found), found, action, args[1], at, known - old(assigns.Keys));
      var no := Visit(args[2], action, at + [2]);
      if no.None? { return None; }
      OpenMore(sp, known, assigns.Keys, args[1]);
      BranchGuards(sp, n, action, at);
      r := Some(yes.value + no.value);
    }

    method ConditionsOf(n: Node, action: string, at: seq<nat>, i: nat)
      requires n.Op? && n.op.And? && i < |n.args| && Level(sp, n.args[i]) < 2
      requires Ready(action, at + [i])
      modifies this`found
      ensures Valid()
      ensures forall g :: g in found <==> g in old(found) || ListsAt(sp, action, n, at, i, g)
    {
      GuardStep(sp, n, action, at, i);
      Conditions(n.args[i], action, at + [i]);
    }

    method VisitOperand(n: Node, action: string, at: seq<nat>, i: nat) returns (r: Option<set<string>>)
      requires n.Op? && (n.op.And? || n.op.Or?) && i < |n.args| && Level(sp, n.args[i]) >= 2
      requires Ready(action, at + [i])
      modifies this
      ensures r == Walk(sp, sp.defs.Keys - old(reading), n.args[i])
      ensures r.Some? ==> Valid() && reading == old(reading) && Walk(sp, assigns.Keys, n.args[i]) == r
      ensures r.Some? ==> assigns.Keys == old(assigns.Keys) + Follows(sp, assigns.Keys, n.args[i])
      ensures r.Some? ==> forall g :: g in found <==>
                (g in old(found) || ListsAt(sp, action, n, at, i, g) ||
                 (g.action in assigns.Keys - old(assigns.Keys) && ListsAction(sp, g)))
      decreases sp.defs.Keys - reading, n.args[i], 2
    {
      GuardStep(sp, n, action, at, i);
      r := Visit(n.args[i], action, at + [i]);
    }

    method VisitOr(n: Node, action: string, at: seq<nat>) returns (r: Option<set<string>>)
      requires n.Op? && n.op.Or?
      requires Ready(action, at)
      modifies this
      ensures Told(n, action, at, r)
      decreases sp.defs.Keys - reading, n, 0
    {
      hide Lists, ListsBelow, ListsAt, IsGuard, IsCondition, ListsConditions, Walk, Follows, WalkAnd, WalkOr,
        AllFollows;
      JunctionReads(sp, n);
      ghost var open := sp.defs.Keys - reading;
      var args, given := n.args, {};
      BelowEnds(sp, action, n, at);
      NoOperands(sp);
      for i := 0 to |args|
        invariant Valid() && reading == old(reading)
        invariant WalkOr(sp, open, args[..i]) == Some(given) == WalkOr(sp, assigns.Keys, args[..i])
        invariant assigns.Keys == old(assigns.Keys) + AllFollows(sp, assigns.Keys, args[..i])
        invariant forall g :: g in found <==>
          (g in old(found) || ListsBelow(sp, action, n, at, i, g) ||
           (g.action in assigns.Keys - old(assigns.Keys) && ListsAction(sp, g)))
      {
        PrefixStops(sp, open, args, i + 1);
        BelowOneMore(sp, action, n, at, i);
        NextIsClear(sp, old(found), found, action, n, at, i, assigns.Keys - old(assigns.Keys));
        OneMoreOperand(sp, open, args, i);
        OneMoreOperand(sp, assigns.Keys, args, i);
        assert args[..i + 1][..i] == args[..i] && args[..i + 1][i] == args[i];
        if Level(sp, args[i]) < 2 { return None; }
        ghost var known := assigns.Keys;
        var more := VisitOperand(n, action, at, i);
        if more.None? { return None; }
        OpenMoreOr(sp, known, assigns.Keys, args[..i]);
        OneMoreOperand(sp, assigns.Keys, args, i);
        given := given + more.value;
      }
      assert args[..|args|] == args;
      r := Some(given);
    }

    method VisitAnd(n: Node, action: string, at: seq<nat>) returns (r: Option<set<string>>)
      requires n.Op? && n.op.And?
      requires Ready(action, at)
      modifies this
      ensures Told(n, action, at, r)
      decreases sp.defs.Keys - reading, n, 0
    {
      hide Lists, ListsBelow, ListsAt, IsGuard, IsCondition, ListsConditions, Walk, Follows, WalkAnd, WalkOr,
        AllFollows;
      JunctionReads(sp, n);
      ghost var open := sp.defs.Keys - reading;
      var args, given := n.args, {};
      BelowEnds(sp, action, n, at);
      NoOperands(sp);
      for i := 0 to |args|
        invariant Valid() && reading == old(reading)
        invariant WalkAnd(sp, open, args[..i]) == Some(given) == WalkAnd(sp, assigns.Keys, args[..i])
        invariant assigns.Keys == old(assigns.Keys) + AllFollows(sp, assigns.Keys, args[..i])
        invariant forall g :: g in found <==>
          (g in old(found) || ListsBelow(sp, action, n, at, i, g) ||
           (g.action in assigns.Keys - old(assigns.Keys) && ListsAction(sp, g)))
      {
        PrefixStops(sp, open, args, i + 1);
        BelowOneMore(sp, action, n, at, i);
        NextIsClear(sp, old(found), found, action, n, at, i, assigns.Keys - old(assigns.Keys));
        OneMoreOperand(sp, open, args, i);
        OneMoreOperand(sp, assigns.Keys, args, i);
        assert args[..i + 1][..i] == args[..i];
        assert args[..i + 1][i] == args[i];
        if Level(sp, args[i]) < 2 {
          ConditionsOf(n, action, at, i);
          continue;
        }
        ghost var known := assigns.Keys;
        var more := VisitOperand(n, action, at, i);
        if more.None? || !(given !! more.value) { return None; }
        OpenMoreAnd(sp, known, assigns.Keys, args[..i]);
        OneMoreOperand(sp, assigns.Keys, args, i);
        given := given + more.value;
      }
      assert args[..|args|] == args;
      r := Some(given);
    }

    /** Record what an action that has just been read gives a value. */
    method Remember(d: string, given: set<string>)
      requires Valid() && d in sp.defs && d in reading
      requires Walk(sp, assigns.Keys, sp.defs[d].body) == Some(given)
      modifies this`assigns, this`reading
      ensures Valid() && assigns == old(assigns)[d := given] && reading == old(reading) - {d}
    {
      ghost var known := assigns.Keys;
      assigns := assigns[d := given];
      reading := reading - {d};
      assert assigns.Keys - {d} == known;
      forall e | e in known ensures Walk(sp, assigns.Keys - {e}, sp.defs[e].body) == Some(assigns[e]) {
        OpenMore(sp, known - {e}, assigns.Keys - {e}, sp.defs[e].body);
      }
    }
  }

  /** None of some guards stands at a place in an action, or under it. */
  ghost predicate Clear(guards: seq<Guard>, action: string, at: seq<nat>) {
    forall g :: g in guards ==> g.action != action || !(at <= g.path)
  }

  /** After the first `i` operands, and whatever other actions were read for them, the next one's place is clear. */
  lemma NextIsClear(sp: Spec, was: seq<Guard>, now: seq<Guard>, action: string, n: Node, at: seq<nat>, i: nat,
      others: set<string>)
    requires Clear(was, action, at) && action !in others
    requires forall g :: g in now ==> g in was || ListsBelow(sp, action, n, at, i, g) || g.action in others
    ensures Clear(now, action, at + [i])
  {
    forall g: Guard | at + [i] <= g.path ensures at <= g.path && g.path[|at|] == i {
    }
  }

  /** After a first branch, and whatever other actions were read for it, the places of both are as clear as before. */
  lemma BranchIsClear(sp: Spec, was: seq<Guard>, now: seq<Guard>, action: string, kid: Node, at: seq<nat>,
      others: set<string>)
    requires Clear(was, action, at) && action !in others
    requires forall g :: g in now ==> g in was || Lists(sp, action, kid, at + [1], g) || g.action in others
    ensures Clear(now, action, at + [2])
    ensures now == was ==> Clear(now, action, at + [1])
  {
    forall i: nat, g: Guard | at + [i] <= g.path ensures at <= g.path && g.path[|at|] == i {
    }
  }

  /** The guards under operand `i`. */
  ghost predicate ListsAt(sp: Spec, action: string, n: Node, at: seq<nat>, i: nat, g: Guard) {
    Lists(sp, action, n, at, g) && |at| < |g.path| && g.path[|at|] == i
  }

  /** The guards of the first `i` operands. */
  ghost predicate ListsBelow(sp: Spec, action: string, n: Node, at: seq<nat>, i: nat, g: Guard) {
    Lists(sp, action, n, at, g) && |at| < |g.path| && g.path[|at|] < i
  }

  lemma BranchGuards(sp: Spec, n: Node, action: string, at: seq<nat>)
    requires n.Op? && n.op.IfThenElse? && |n.args| == 3
    ensures forall g :: Lists(sp, action, n, at, g) <==>
      Lists(sp, action, n.args[1], at + [1], g) || Lists(sp, action, n.args[2], at + [2], g)
  {
    GuardStep(sp, n, action, at, 1);
    GuardStep(sp, n, action, at, 2);
    forall g | Lists(sp, action, n, at, g)
      ensures ListsAt(sp, action, n, at, 1, g) || ListsAt(sp, action, n, at, 2, g)
    {
      assert g.path[|at|..][0] == g.path[|at|];
    }
  }

  lemma JunctionReads(sp: Spec, n: Node)
    requires n.Op? && (n.op.And? || n.op.Or?)
    ensures forall open ::
      Walk(sp, open, n) == if n.op.And? then WalkAnd(sp, open, n.args) else WalkOr(sp, open, n.args)
    ensures forall open :: Follows(sp, open, n) == AllFollows(sp, open, n.args)
  {
  }

  lemma NoOperands(sp: Spec)
    ensures forall open :: WalkAnd(sp, open, []) == WalkOr(sp, open, []) == Some({}) && AllFollows(sp, open, []) == {}
  {
  }

  /** Reading one more operand of a junction. */
  lemma OneMoreOperand(sp: Spec, open: set<string>, args: seq<Node>, i: nat)
    requires i < |args|
    ensures OneMore(sp, open, args, i)
  {
    var some := args[..i + 1];
    assert |some| == i + 1 && some[..i] == args[..i] && some[i] == args[i];
  }

  /** What one more operand adds to the reading of the first `i`. */
  ghost predicate OneMore(sp: Spec, open: set<string>, args: seq<Node>, i: nat)
    requires i < |args|
  {
    var action, more := Level(sp, args[i]) >= 2, Walk(sp, open, args[i]);
    var some := args[..i + 1];
    && AllFollows(sp, open, some) == AllFollows(sp, open, args[..i])
         + (if action then Follows(sp, open, args[i]) else {})
    && WalkOr(sp, open, some) == (if action then Join(WalkOr(sp, open, args[..i]), more) else None)
    && WalkAnd(sp, open, some) ==
         var given := WalkAnd(sp, open, args[..i]);
         if !action then given
         else if given.Some? && more.Some? && given.value !! more.value then Some(given.value + more.value) else None
  }

  lemma BelowOneMore(sp: Spec, action: string, n: Node, at: seq<nat>, i: nat)
    ensures forall g :: ListsBelow(sp, action, n, at, i + 1, g) <==>
      ListsBelow(sp, action, n, at, i, g) || ListsAt(sp, action, n, at, i, g)
  {
  }

  lemma BelowEnds(sp: Spec, action: string, n: Node, at: seq<nat>)
    requires n.Op? && (n.op.And? || n.op.Or?)
    ensures forall g :: !ListsBelow(sp, action, n, at, 0, g)
    ensures forall g :: ListsBelow(sp, action, n, at, |n.args|, g) <==> Lists(sp, action, n, at, g)
  {
    forall g | Lists(sp, action, n, at, g) ensures ListsBelow(sp, action, n, at, |n.args|, g) {
      assert g.path[|at|..][0] == g.path[|at|];
    }
  }

  /** The guards under one operand are the guards of the whole whose path goes that way. */
  lemma GuardStep(sp: Spec, n: Node, action: string, at: seq<nat>, i: nat)
    requires match n
      case LetIn(_) => i == 0
      case Exists(_, _, _) => i == 0
      case Op(op, args) => ((op.And? || op.Or?) && i < |args|) || (op.IfThenElse? && |args| == 3 && 1 <= i < 3)
      case _ => false
    ensures var kid := if n.Op? then n.args[i] else n.body;
      forall g :: ListsAt(sp, action, n, at, i, g) <==>
        if n.Op? && n.op.And? && Level(sp, kid) < 2 then ListsConditions(action, kid, at + [i], g)
        else Lists(sp, action, kid, at + [i], g)
  {
    forall g: Guard | at + [i] <= g.path
      ensures at <= g.path && |at| < |g.path| && g.path[|at|] == i && g.path[|at|..][1..] == g.path[|at + [i]|..]
    {
    }
    forall g: Guard | at <= g.path && |at| < |g.path| && g.path[|at|] == i ensures at + [i] <= g.path {
      assert g.path[..|at| + 1] == at + [i];
    }
  }

  /** Once the reading of a prefix of the operands has failed, the whole fails. */
  lemma {:induction false} PrefixStops(sp: Spec, open: set<string>, args: seq<Node>, i: nat)
    requires i <= |args|
    ensures WalkAnd(sp, open, args[..i]).None? ==> WalkAnd(sp, open, args).None?
    ensures WalkOr(sp, open, args[..i]).None? ==> WalkOr(sp, open, args).None?
    decreases args
  {
    if i < |args| {
      PrefixStops(sp, open, args[..|args| - 1], i);
      assert args[..|args| - 1][..i] == args[..i];
    } else {
      assert args[..i] == args;
    }
  }

  lemma ConditionStep(n: Node, action: string, at: seq<nat>, i: nat, g: Guard)
    requires n.Op? && n.op.And? && i < |n.args|
    ensures ListsConditions(action, n.args[i], at + [i], g) <==>
            (ListsConditions(action, n, at, g) && |g.path| > |at| && g.path[|at|] == i)
  {
    if at + [i] <= g.path {
      assert g.path[|at|..][1..] == g.path[|at + [i]|..];
    }
    if at <= g.path && |g.path| > |at| && g.path[|at|] == i {
      assert g.path[..|at| + 1] == at + [i];
    }
  }
}
