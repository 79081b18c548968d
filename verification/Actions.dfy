/**
 * The action language the guard reader works on: nodes as the TLA+ front end
 * hands them over, their levels, and what they mean over a pair of states.
 *
 * A definition is evaluated with a set of `open` names, those not being
 * evaluated already. A call to a name that is not open has no value of its own
 * and reads as FALSE, so every function here is total; the walk refuses such
 * calls.
 */
module Actions {
  datatype Value =
    | Bool(b: bool)
    | Num(n: int)
    | Text(s: string)
    | SetOf(elems: set<Value>)
    | SeqOf(items: seq<Value>)

  const TRUE: Value := Bool(true)

  /** A state gives each variable a value; an environment does so for parameters or bound names. */
  type State = map<string, Value>
  type Env = map<string, Value>

  /** What is applied in an operator application that is no call of this module's definitions. */
  datatype Operator = And | Or | IfThenElse | Equals | ElementOf | TupleOf | Builtin(name: string)

  datatype Node =
    | Lit(v: Value)
    | Param(name: string)                                   // a definition's parameter
    | Bound(name: string)                                   // a quantifier's name
    | Var(x: string)
    | Prime(x: string)                                      // x' of a variable x
    | Op(op: Operator, args: seq<Node>)
    | Enabled(action: Node)
    | Call(def: string, args: seq<Node>)                    // a definition of this module
    | LetIn(body: Node)
    | Exists(name: string, domain: Node, body: Node)
    | Unchanged(e: Node)

  /** A definition with the level the front end records on it; a fact is a named theorem or assumption. */
  datatype Def = Def(level: nat, params: seq<string>, body: Node, fact: bool)

  /** A formula `init /\ [][next]_vars`, its definitions, and the state constraint of a configuration. */
  datatype Spec = Spec(
    formula: string,
    defs: map<string, Def>,
    builtin: (string, seq<Value>) -> Value,
    init: Node,
    next: Node,
    constraint: Node)

  function Lookup(m: map<string, Value>, x: string): Value {
    if x in m then m[x] else Bool(false)
  }

  function Elements(v: Value): set<Value> {
    if v.SetOf? then v.elems else {}
  }

  function Bind(p: Env, params: seq<string>, vals: seq<Value>): Env
    decreases params
  {
    if params == [] || vals == [] then p else Bind(p[params[0] := vals[0]], params[1..], vals[1..])
  }

  /** Whether a call names a definition with as many parameters as it gives. */
  predicate Resolves(sp: Spec, d: string, args: seq<Node>) {
    d in sp.defs && |sp.defs[d].params| == |args|
  }

  /** What a node is evaluated in: parameters, bound names, the state and the next state. */
  datatype Ctx = Ctx(p: Env, q: Env, s: State, t: State)

  function Apply(sp: Spec, op: Operator, vals: seq<Value>): Value {
    match op
    case And => Bool(forall i :: 0 <= i < |vals| ==> vals[i] == TRUE)
    case Or => Bool(exists i :: 0 <= i < |vals| && vals[i] == TRUE)
    case IfThenElse => if |vals| != 3 then Bool(false) else if vals[0] == TRUE then vals[1] else vals[2]
    case Equals => Bool(|vals| == 2 && vals[0] == vals[1])
    case ElementOf => Bool(|vals| == 2 && vals[0] in Elements(vals[1]))
    case TupleOf => SeqOf(vals)
    case Builtin(name) => sp.builtin(name, vals)
  }

  ghost function Eval(sp: Spec, open: set<string>, n: Node, c: Ctx): Value
    decreases open, n, 1
  {
    match n
    case Lit(v) => v
    case Param(x) => Lookup(c.p, x)
    case Bound(x) => Lookup(c.q, x)
    case Var(x) => Lookup(c.s, x)
    case Prime(x) => Lookup(c.t, x)
    case Op(op, args) => Apply(sp, op, EvalAll(sp, open, args, c))
    case Enabled(a) => Bool(exists u: State :: u.Keys == c.s.Keys && Eval(sp, open, a, c.(t := u)) == TRUE)
    case Call(d, args) =>
      if d in open && Resolves(sp, d, args) then
        Eval(sp, open - {d}, sp.defs[d].body, c.(p := Bind(c.p, sp.defs[d].params, EvalAll(sp, open, args, c))))
      else Bool(false)
    case LetIn(b) => Eval(sp, open, b, c)
    case Exists(x, dom, b) =>
      Bool(exists v :: v in Elements(Eval(sp, open, dom, c)) && Eval(sp, open, b, c.(q := c.q[x := v])) == TRUE)
    case Unchanged(e) => Bool(Eval(sp, open, e, c.(s := c.t)) == Eval(sp, open, e, c))
  }

  ghost function EvalAll(sp: Spec, open: set<string>, ns: seq<Node>, c: Ctx): (vals: seq<Value>)
    ensures |vals| == |ns|
    ensures forall i :: 0 <= i < |ns| ==> vals[i] == Eval(sp, open, ns[i], c)
    decreases open, ns, 0
  {
    if ns == [] then [] else [Eval(sp, open, ns[0], c)] + EvalAll(sp, open, ns[1..], c)
  }

  /** A junction or an IF by the values of its operands. */
  lemma OpMeans(sp: Spec, open: set<string>, op: Operator, args: seq<Node>, c: Ctx)
    ensures op.Or? ==>
      (Eval(sp, open, Op(op, args), c) == TRUE <==> exists i :: 0 <= i < |args| && Eval(sp, open, args[i], c) == TRUE)
    ensures op.And? ==>
      (Eval(sp, open, Op(op, args), c) == TRUE <==> forall i :: 0 <= i < |args| ==> Eval(sp, open, args[i], c) == TRUE)
    ensures op.IfThenElse? && |args| == 3 ==>
      Eval(sp, open, Op(op, args), c) ==
        Eval(sp, open, if Eval(sp, open, args[0], c) == TRUE then args[1] else args[2], c)
  {
    var vals := EvalAll(sp, open, args, c);
    assert Eval(sp, open, Op(op, args), c) == Apply(sp, op, vals);
    if op.Or? && Apply(sp, op, vals) == TRUE {
      var i :| 0 <= i < |vals| && vals[i] == TRUE;
      assert Eval(sp, open, args[i], c) == TRUE;
    }
    forall i | 0 <= i < |args|
      ensures vals[i] == Eval(sp, open, args[i], c) && (op.Or? && vals[i] == TRUE ==> Apply(sp, op, vals) == TRUE)
    {
    }
    assert op.And? ==> (Apply(sp, op, vals) == TRUE <==> forall i :: 0 <= i < |vals| ==> vals[i] == TRUE);
  }

  // --- levels: 0 reads no state, 1 reads the state, 2 reads the next state

  function Max(a: nat, b: nat): nat { if a < b then b else a }

  function Level(sp: Spec, n: Node): nat
    decreases n, 1
  {
    match n
    case Var(_) => 1
    case Prime(_) => 2
    case Op(_, args) => MaxLevel(sp, args)
    case Enabled(_) => 1
    case Call(d, args) => Max(MaxLevel(sp, args), if d in sp.defs then sp.defs[d].level else 0)
    case LetIn(b) => Level(sp, b)
    case Exists(_, dom, b) => Max(Level(sp, dom), Level(sp, b))
    case Unchanged(_) => 2
    case _ => 0
  }

  function MaxLevel(sp: Spec, ns: seq<Node>): (l: nat)
    ensures forall i :: 0 <= i < |ns| ==> Level(sp, ns[i]) <= l
    decreases ns, 0
  {
    if ns == [] then 0 else Max(Level(sp, ns[0]), MaxLevel(sp, ns[1..]))
  }

  /** No recorded level is below that of the body. */
  ghost predicate WellLevelled(sp: Spec) {
    forall d :: d in sp.defs ==> Level(sp, sp.defs[d].body) <= sp.defs[d].level
  }

  /** The definition parameters an expression depends on, through every definition it names; no fact has any. */
  function ParamsUnder(sp: Spec, open: set<string>, n: Node): set<string>
    decreases open, n, 1
  {
    match n
    case Param(x) => {x}
    case Op(_, args) => AllParamsUnder(sp, open, args)
    case Enabled(a) => ParamsUnder(sp, open, a)
    case Call(d, args) =>
      AllParamsUnder(sp, open, args) +
      (if d in open && Resolves(sp, d, args)
       then ParamsUnder(sp, open - {d}, sp.defs[d].body) - (set x | x in sp.defs[d].params) else {})
    case LetIn(b) => ParamsUnder(sp, open, b)
    case Exists(_, dom, b) => ParamsUnder(sp, open, dom) + ParamsUnder(sp, open, b)
    case Unchanged(e) => ParamsUnder(sp, open, e)
    case _ => {}
  }

  function AllParamsUnder(sp: Spec, open: set<string>, ns: seq<Node>): (r: set<string>)
    ensures forall i :: 0 <= i < |ns| ==> ParamsUnder(sp, open, ns[i]) <= r
    decreases open, ns, 0
  {
    if ns == [] then {} else ParamsUnder(sp, open, ns[0]) + AllParamsUnder(sp, open, ns[1..])
  }

  /** Every definition an expression names, directly or through another. */
  function Mentions(sp: Spec, open: set<string>, n: Node): set<string>
    decreases open, n, 1
  {
    match n
    case Op(_, args) => AllMentions(sp, open, args)
    case Enabled(a) => Mentions(sp, open, a)
    case Call(d, args) =>
      {d} + AllMentions(sp, open, args) +
      (if d in open && Resolves(sp, d, args) then Mentions(sp, open - {d}, sp.defs[d].body) else {})
    case LetIn(b) => Mentions(sp, open, b)
    case Exists(_, dom, b) => Mentions(sp, open, dom) + Mentions(sp, open, b)
    case Unchanged(e) => Mentions(sp, open, e)
    case _ => {}
  }

  function AllMentions(sp: Spec, open: set<string>, ns: seq<Node>): (r: set<string>)
    ensures forall i :: 0 <= i < |ns| ==> Mentions(sp, open, ns[i]) <= r
    decreases open, ns, 0
  {
    if ns == [] then {} else Mentions(sp, open, ns[0]) + AllMentions(sp, open, ns[1..])
  }

  // --- what an expression's value depends on

  lemma BindAgrees(p1: Env, p2: Env, params: seq<string>, vals: seq<Value>, used: set<string>)
    requires |params| == |vals|
    requires forall x :: x in used && x !in params ==> Lookup(p1, x) == Lookup(p2, x)
    ensures forall x :: x in used ==> Lookup(Bind(p1, params, vals), x) == Lookup(Bind(p2, params, vals), x)
    decreases params
  {
    if params != [] {
      BindAgrees(p1[params[0] := vals[0]], p2[params[0] := vals[0]], params[1..], vals[1..], used);
    }
  }

  /** Whether two contexts differ only in what the node does not read. */
  ghost predicate SameReads(sp: Spec, open: set<string>, n: Node, c: Ctx, d: Ctx) {
    && c.q == d.q
    && (Level(sp, n) < 2 || c.t == d.t)
    && (Level(sp, n) < 1 || c.s == d.s)
    && (forall x :: x in ParamsUnder(sp, open, n) ==> Lookup(c.p, x) == Lookup(d.p, x))
  }

  /** A node's value is decided by what its level and its parameters say it reads. */
  lemma {:induction false} ReadsDecide(sp: Spec, open: set<string>, n: Node, c: Ctx, d: Ctx)
    requires WellLevelled(sp) && SameReads(sp, open, n, c, d)
    ensures Eval(sp, open, n, c) == Eval(sp, open, n, d)
    decreases open, n, 1
  {
    hide Apply;
    hide Bind;
    match n
    case Op(_, args) => AllReadsDecide(sp, open, args, c, d);
    case Enabled(a) =>
      forall u: State ensures Eval(sp, open, a, c.(t := u)) == Eval(sp, open, a, d.(t := u)) {
        ReadsDecide(sp, open, a, c.(t := u), d.(t := u));
      }
    case Call(f, args) => CallReadsDecide(sp, open, f, args, c, d);
    case LetIn(b) => ReadsDecide(sp, open, b, c, d);
    case Exists(x, dom, b) =>
      ReadsDecide(sp, open, dom, c, d);
      forall v | v in Elements(Eval(sp, open, dom, c))
        ensures Eval(sp, open, b, c.(q := c.q[x := v])) == Eval(sp, open, b, d.(q := d.q[x := v]))
      {
        ReadsDecide(sp, open, b, c.(q := c.q[x := v]), d.(q := d.q[x := v]));
      }
    case Unchanged(e) =>
      ReadsDecide(sp, open, e, c.(s := c.t), d.(s := d.t));
      ReadsDecide(sp, open, e, c, d);
    case _ =>
  }

  lemma {:induction false} CallReadsDecide(sp: Spec, open: set<string>, f: string, args: seq<Node>, c: Ctx, d: Ctx)
    requires WellLevelled(sp) && SameReads(sp, open, Call(f, args), c, d)
    ensures Eval(sp, open, Call(f, args), c) == Eval(sp, open, Call(f, args), d)
    decreases open, args, 1
  {
    hide Bind;
    AllReadsDecide(sp, open, args, c, d);
    if f in open && Resolves(sp, f, args) {
      var vals, def := EvalAll(sp, open, args, c), sp.defs[f];
      BindAgrees(c.p, d.p, def.params, vals, ParamsUnder(sp, open - {f}, def.body));
      ReadsDecide(sp, open - {f}, def.body, c.(p := Bind(c.p, def.params, vals)), d.(p := Bind(d.p, def.params, vals)));
    }
  }

  lemma {:induction false} AllReadsDecide(sp: Spec, open: set<string>, ns: seq<Node>, c: Ctx, d: Ctx)
    requires WellLevelled(sp) && forall i :: 0 <= i < |ns| ==> SameReads(sp, open, ns[i], c, d)
    ensures EvalAll(sp, open, ns, c) == EvalAll(sp, open, ns, d)
    decreases open, ns, 0
  {
    forall i | 0 <= i < |ns| { ReadsDecide(sp, open, ns[i], c, d); }
  }
}
