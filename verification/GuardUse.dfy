/**
 * The search of proofs/check_mutants.py for an action that is used other than
 * as a step, and what its finding nothing means for the guard sweep.
 */
module GuardUse {
  import opened Common
  import opened Actions
  import opened GuardReader
  import opened GuardSweep

  /** A reference to a definition or a fact, and whether it is one of the calls the walk follows. */
  datatype Use = Use(def: string, followed: bool)

  /** Every reference under a node; `walked` says whether the walk visits the node itself. */
  function Uses(sp: Spec, n: Node, walked: bool): set<Use>
    decreases n, 1
  {
    match n
    case Op(op, args) => UsesOf(sp, op, args, 0, walked)
    case Enabled(a) => Uses(sp, a, false)
    case Call(d, args) => {Use(d, walked)} + UsesOf(sp, TupleOf, args, 0, false)
    case LetIn(b) => Uses(sp, b, walked)
    case Exists(_, dom, b) => Uses(sp, dom, false) + Uses(sp, b, walked)
    case Unchanged(e) => Uses(sp, e, false)
    case _ => {}
  }

  /** The walk visits the actions of a conjunction, the disjuncts, and the branches of an IF. */
  predicate Visits(sp: Spec, op: Operator, arg: Node, i: nat) {
    (op.And? && Level(sp, arg) >= 2) || op.Or? || (op.IfThenElse? && i > 0)
  }

  /** The references under operands, the first of which is number `i`. */
  function UsesOf(sp: Spec, op: Operator, args: seq<Node>, i: nat, walked: bool): (r: set<Use>)
    ensures forall k :: 0 <= k < |args| ==> Uses(sp, args[k], walked && Visits(sp, op, args[k], i + k)) <= r
    decreases args, 0
  {
    if args == [] then {} else
    var rest := UsesOf(sp, op, args[1..], i + 1, walked);
    Uses(sp, args[0], walked && Visits(sp, op, args[0], i)) + rest
  }

  /** The references in the formula: its initial condition, which the walk does not visit, and its relation. */
  function FormulaUses(sp: Spec): set<Use> {
    Uses(sp, sp.init, false) + Uses(sp, sp.next, true)
  }

  function BodyUses(sp: Spec, d: string, actions: set<string>): set<Use>
    requires d in sp.defs
  {
    Uses(sp, sp.defs[d].body, d in actions)
  }

  predicate AllFollowed(uses: set<Use>, actions: set<string>) {
    forall u :: u in uses && u.def in actions ==> u.followed
  }

  ghost predicate Names(sp: Spec, uses: set<Use>, seen: set<string>) {
    forall u :: u in uses && u.def in sp.defs ==> u.def in seen
  }

  /** A set of definitions that holds whatever the formula or one of its own names. */
  ghost predicate ClosedSet(sp: Spec, actions: set<string>, seen: set<string>) {
    && seen <= sp.defs.Keys && Names(sp, FormulaUses(sp), seen)
    && forall d :: d in seen ==> Names(sp, BodyUses(sp, d, actions), seen)
  }

  ghost predicate CleanSet(sp: Spec, actions: set<string>, seen: set<string>) {
    && AllFollowed(FormulaUses(sp), actions)
    && forall d :: d in seen && d in sp.defs ==> AllFollowed(BodyUses(sp, d, actions), actions)
  }

  /** Everything the specification comes to is used properly. */
  ghost predicate UsedAsSteps(sp: Spec, actions: set<string>) {
    exists seen :: ClosedSet(sp, actions, seen) && CleanSet(sp, actions, seen)
  }

  function Found(uses: set<Use>): set<string> { set u | u in uses :: u.def }

  function Misused(uses: set<Use>, actions: set<string>): set<string> {
    set u | u in uses && u.def in actions && !u.followed :: u.def
  }

  lemma NoneMisused(uses: set<Use>, actions: set<string>)
    ensures Misused(uses, actions) == {} <==> AllFollowed(uses, actions)
  {
    if AllFollowed(uses, actions) {
      assert forall u :: u in uses && u.def in actions ==> u.followed;
    } else {
      var u :| u in uses && u.def in actions && !u.followed;
      assert u.def in Misused(uses, actions);
    }
  }

  /** `used_otherwise`: from body to body, each once; it finds nothing exactly if everything is used as steps. */
  method UsedOtherwise(sp: Spec, actions: set<string>) returns (r: Option<string>)
    ensures r.None? <==> UsedAsSteps(sp, actions)
    ensures r.Some? ==> r.value in actions
  {
    hide Uses, UsesOf;
    var misused := Misused(FormulaUses(sp), actions);
    NoneMisused(FormulaUses(sp), actions);
    if misused != {} {
      var d :| d in misused;
      return Some(d);
    }
    var seen := Found(FormulaUses(sp)) * sp.defs.Keys;
    var bodies := seen;
    while bodies != {}
      invariant bodies <= seen <= sp.defs.Keys
      invariant AllFollowed(FormulaUses(sp), actions) && Names(sp, FormulaUses(sp), seen)
      invariant forall d :: d in seen - bodies ==>
        AllFollowed(BodyUses(sp, d, actions), actions) && Names(sp, BodyUses(sp, d, actions), seen)
      invariant forall all :: ClosedSet(sp, actions, all) ==> seen <= all
      decreases sp.defs.Keys - seen, bodies
    {
      var body :| body in bodies;
      var uses := BodyUses(sp, body, actions);
      misused := Misused(uses, actions);
      NoneMisused(uses, actions);
      if misused != {} {
        var d :| d in misused;
        return Some(d);
      }
      var more := Found(uses) * sp.defs.Keys - seen;
      forall all | ClosedSet(sp, actions, all) ensures seen + more <= all { assert Names(sp, uses, all); }
      ghost var was := bodies;
      bodies := bodies - {body} + more;
      if more == {} { assert bodies < was; }
      seen := seen + more;
    }
    assert ClosedSet(sp, actions, seen) && CleanSet(sp, actions, seen);
    r := None;
  }

  // --- what the sweep may conclude

  /** An expression the walk does not visit, with all it names clean: it comes to no action. */
  lemma {:induction false} CleanIsFree(sp: Spec, actions: set<string>, seen: set<string>, open: set<string>, n: Node)
    requires ClosedSet(sp, actions, seen) && CleanSet(sp, actions, seen)
    requires Names(sp, Uses(sp, n, false), seen) && AllFollowed(Uses(sp, n, false), actions)
    requires open <= sp.defs.Keys && actions <= sp.defs.Keys
    ensures Free(sp, open, n, actions)
    decreases open, n, 1
  {
    match n
    case Op(op, args) => CleanAreFree(sp, actions, seen, open, op, args, 0);
    case Enabled(a) => CleanIsFree(sp, actions, seen, open, a);
    case Call(d, args) =>
      CleanAreFree(sp, actions, seen, open, TupleOf, args, 0);
      assert Use(d, false) in Uses(sp, n, false);
      if d in open && Resolves(sp, d, args) { CleanIsFree(sp, actions, seen, open - {d}, sp.defs[d].body); }
    case LetIn(b) => CleanIsFree(sp, actions, seen, open, b);
    case Exists(_, dom, b) =>
      CleanIsFree(sp, actions, seen, open, dom);
      CleanIsFree(sp, actions, seen, open, b);
    case Unchanged(e) => CleanIsFree(sp, actions, seen, open, e);
    case _ =>
  }

  lemma {:induction false} CleanAreFree(sp: Spec, actions: set<string>, seen: set<string>, open: set<string>,
      op: Operator, args: seq<Node>, i: nat)
    requires ClosedSet(sp, actions, seen) && CleanSet(sp, actions, seen)
    requires Names(sp, UsesOf(sp, op, args, i, false), seen) && AllFollowed(UsesOf(sp, op, args, i, false), actions)
    requires open <= sp.defs.Keys && actions <= sp.defs.Keys
    ensures AllMentions(sp, open, args) !! actions
    decreases open, args, 0
  {
    if args != [] {
      CleanIsFree(sp, actions, seen, open, args[0]);
      CleanAreFree(sp, actions, seen, open, op, args[1..], i + 1);
    }
  }

  /** A node the walk visits, with all it names clean, uses every action as a step. */
  lemma {:induction false} CleanIsSteps(sp: Spec, actions: set<string>, seen: set<string>, open: set<string>, n: Node)
    requires ClosedSet(sp, actions, seen) && CleanSet(sp, actions, seen)
    requires Names(sp, Uses(sp, n, true), seen) && AllFollowed(Uses(sp, n, true), actions)
    requires Walk(sp, open, n).Some? && Follows(sp, open, n) <= actions
    requires open <= sp.defs.Keys && actions <= sp.defs.Keys
    ensures StepsOnly(sp, open, n, actions)
    decreases open, n
  {
    match n
    case LetIn(b) => CleanIsSteps(sp, actions, seen, open, b);
    case Exists(_, dom, b) =>
      CleanIsFree(sp, actions, seen, open, dom);
      CleanIsSteps(sp, actions, seen, open, b);
    case Call(d, args) =>
      forall i | 0 <= i < |args|
        ensures Free(sp, open, args[i], actions)
      {
        OperandFree(sp, actions, seen, open, TupleOf, args, i, false);
      }
      assert Use(d, true) in Uses(sp, n, true);
      CleanIsSteps(sp, actions, seen, open - {d}, sp.defs[d].body);
    case Op(op, args) =>
      forall i | 0 <= i < |args|
        ensures !Visits(sp, op, args[i], i) ==> Free(sp, open, args[i], actions)
        ensures Visits(sp, op, args[i], i) ==> StepsOnly(sp, open, args[i], actions)
      {
        if Visits(sp, op, args[i], i) {
          assert Uses(sp, args[i], true) <= Uses(sp, n, true);
          if op.And? { AndOperand(sp, open, args, i, |args|); }
          if op.Or? { OrOperand(sp, open, args, i); }
          CleanIsSteps(sp, actions, seen, open, args[i]);
        } else {
          OperandFree(sp, actions, seen, open, op, args, i, true);
        }
      }
    case Unchanged(e) => CleanIsFree(sp, actions, seen, open, e);
    case _ =>
  }

  lemma OperandFree(sp: Spec, actions: set<string>, seen: set<string>, open: set<string>, op: Operator, args: seq<Node>,
      i: nat, walked: bool)
    requires ClosedSet(sp, actions, seen) && CleanSet(sp, actions, seen) && i < |args|
    requires Names(sp, UsesOf(sp, op, args, 0, walked), seen) && AllFollowed(UsesOf(sp, op, args, 0, walked), actions)
    requires open <= sp.defs.Keys && actions <= sp.defs.Keys && !(walked && Visits(sp, op, args[i], i))
    ensures Free(sp, open, args[i], actions)
  {
    assert Uses(sp, args[i], false) <= UsesOf(sp, op, args, 0, walked);
    CleanIsFree(sp, actions, seen, open, args[i]);
  }

  /**
   * Where the walk accepts the relation and the search finds nothing, every
   * action is used only as a step: what the sweep's argument rests on, but for
   * the constraint of a configuration, which the search does not read.
   */
  lemma SearchAdmits(sp: Spec)
    requires Walk(sp, sp.defs.Keys, sp.next).Some? && UsedAsSteps(sp, Followed(sp))
    ensures StepsOnly(sp, sp.defs.Keys, sp.next, Followed(sp)) && Free(sp, sp.defs.Keys, sp.init, Followed(sp))
    ensures sp.formula !in sp.defs && Free(sp, sp.defs.Keys, sp.constraint, Followed(sp)) ==> Sweepable(sp)
  {
    var actions := Followed(sp);
    OpenMore(sp, sp.defs.Keys, sp.defs.Keys, sp.next);
    var seen :| ClosedSet(sp, actions, seen) && CleanSet(sp, actions, seen);
    CleanIsSteps(sp, actions, seen, sp.defs.Keys, sp.next);
    CleanIsFree(sp, actions, seen, sp.defs.Keys, sp.init);
  }

  // --- the converse: the search refuses nothing the sweep may accept

  /** Every call under a node names a definition and hands it as many arguments as it takes. */
  predicate CallsResolve(sp: Spec, n: Node)
    decreases n
  {
    match n
    case Op(_, args) => forall i :: 0 <= i < |args| ==> CallsResolve(sp, args[i])
    case Enabled(a) => CallsResolve(sp, a)
    case Call(d, args) => Resolves(sp, d, args) && forall i :: 0 <= i < |args| ==> CallsResolve(sp, args[i])
    case LetIn(b) => CallsResolve(sp, b)
    case Exists(_, dom, b) => CallsResolve(sp, dom) && CallsResolve(sp, b)
    case Unchanged(e) => CallsResolve(sp, e)
    case _ => true
  }

  /** What the front end has checked of a specification before the search reads it. */
  predicate Resolved(sp: Spec) {
    && CallsResolve(sp, sp.init) && CallsResolve(sp, sp.next)
    && forall d :: d in sp.defs ==> CallsResolve(sp, sp.defs[d].body)
  }

  ghost predicate Within(uses: set<Use>, names: set<string>) { forall u :: u in uses ==> u.def in names }

  lemma {:induction false} UsesAreMentioned(sp: Spec, open: set<string>, n: Node, walked: bool)
    ensures Within(Uses(sp, n, walked), Mentions(sp, open, n))
    decreases n, 1
  {
    match n
    case Op(op, args) => OperandsAreMentioned(sp, open, op, args, 0, walked);
    case Enabled(a) => UsesAreMentioned(sp, open, a, false);
    case Call(d, args) => OperandsAreMentioned(sp, open, TupleOf, args, 0, false);
    case LetIn(b) => UsesAreMentioned(sp, open, b, walked);
    case Exists(_, dom, b) =>
      UsesAreMentioned(sp, open, dom, false);
      UsesAreMentioned(sp, open, b, walked);
    case Unchanged(e) => UsesAreMentioned(sp, open, e, false);
    case _ =>
  }

  lemma {:induction false} OperandsAreMentioned(sp: Spec, open: set<string>, op: Operator, args: seq<Node>, i: nat,
      walked: bool)
    ensures Within(UsesOf(sp, op, args, i, walked), AllMentions(sp, open, args))
    decreases args, 0
  {
    if args != [] {
      UsesAreMentioned(sp, open, args[0], walked && Visits(sp, op, args[0], i));
      OperandsAreMentioned(sp, open, op, args[1..], i + 1, walked);
    }
  }

  /** What the body of an open definition names is mentioned wherever the definition is. */
  lemma {:induction false} MentionedOnward(sp: Spec, open: set<string>, n: Node, d: string, walked: bool)
    requires Resolved(sp) && CallsResolve(sp, n)
    requires d in sp.defs && d in open && d in Mentions(sp, open, n)
    ensures Within(Uses(sp, sp.defs[d].body, walked), Mentions(sp, open, n))
    decreases open, n, 1
  {
    match n
    case Op(_, args) => AllMentionedOnward(sp, open, args, d, walked);
    case Enabled(a) => MentionedOnward(sp, open, a, d, walked);
    case Call(f, args) =>
      if d in AllMentions(sp, open, args) {
        AllMentionedOnward(sp, open, args, d, walked);
      } else if d == f {
        UsesAreMentioned(sp, open - {f}, sp.defs[f].body, walked);
      } else {
        MentionedOnward(sp, open - {f}, sp.defs[f].body, d, walked);
      }
    case LetIn(b) => MentionedOnward(sp, open, b, d, walked);
    case Exists(_, dom, b) =>
      if d in Mentions(sp, open, dom) { MentionedOnward(sp, open, dom, d, walked); }
      else { MentionedOnward(sp, open, b, d, walked); }
    case Unchanged(e) => MentionedOnward(sp, open, e, d, walked);
    case _ =>
  }

  lemma {:induction false} AllMentionedOnward(sp: Spec, open: set<string>, ns: seq<Node>, d: string, walked: bool)
    requires Resolved(sp) && forall i :: 0 <= i < |ns| ==> CallsResolve(sp, ns[i])
    requires d in sp.defs && d in open && d in AllMentions(sp, open, ns)
    ensures Within(Uses(sp, sp.defs[d].body, walked), AllMentions(sp, open, ns))
    decreases open, ns, 0
  {
    if d in Mentions(sp, open, ns[0]) { MentionedOnward(sp, open, ns[0], d, walked); }
    else { AllMentionedOnward(sp, open, ns[1..], d, walked); }
  }

  /** The bodies of the open definitions among some names follow every action they name. */
  ghost predicate CleanBodies(sp: Spec, actions: set<string>, open: set<string>, names: set<string>) {
    forall d :: d in names && d in open && d in sp.defs ==> AllFollowed(BodyUses(sp, d, actions), actions)
  }

  /** Where only actions are being read, what comes to no action is clean throughout. */
  lemma FreeIsClean(sp: Spec, actions: set<string>, open: set<string>, n: Node, walked: bool)
    requires Resolved(sp) && CallsResolve(sp, n) && Free(sp, open, n, actions)
    ensures AllFollowed(Uses(sp, n, walked), actions)
    ensures CleanBodies(sp, actions, open, Mentions(sp, open, n))
  {
    UsesAreMentioned(sp, open, n, walked);
    forall d | d in Mentions(sp, open, n) && d in open && d in sp.defs
      ensures AllFollowed(BodyUses(sp, d, actions), actions)
    {
      MentionedOnward(sp, open, n, d, d in actions);
    }
  }

  /** An accepted node that uses every action as a step has only clean references, and clean bodies under it. */
  lemma {:induction false} StepsAreClean(sp: Spec, actions: set<string>, open: set<string>, n: Node)
    requires Resolved(sp) && CallsResolve(sp, n)
    requires Walk(sp, open, n).Some? && Follows(sp, open, n) <= actions
    requires StepsOnly(sp, open, n, actions)
    ensures AllFollowed(Uses(sp, n, true), actions)
    ensures CleanBodies(sp, actions, open, Mentions(sp, open, n))
    decreases open, n, 1
  {
    match n
    case LetIn(b) => StepsAreClean(sp, actions, open, b);
    case Exists(_, dom, b) =>
      FreeIsClean(sp, actions, open, dom, false);
      StepsAreClean(sp, actions, open, b);
    case Call(d, args) =>
      OperandsAreClean(sp, actions, open, TupleOf, args, 0, false);
      StepsAreClean(sp, actions, open - {d}, sp.defs[d].body);
    case Op(op, args) =>
      forall i | 0 <= i < |args|
        ensures Visits(sp, op, args[i], i) ==>
          && Walk(sp, open, args[i]).Some? && Follows(sp, open, args[i]) <= actions
          && StepsOnly(sp, open, args[i], actions)
        ensures !Visits(sp, op, args[i], i) ==> Free(sp, open, args[i], actions)
      {
        if op.And? && Level(sp, args[i]) >= 2 { AndOperand(sp, open, args, i, |args|); }
        if op.Or? { OrOperand(sp, open, args, i); }
      }
      OperandsAreClean(sp, actions, open, op, args, 0, true);
    case Unchanged(e) => FreeIsClean(sp, actions, open, e, false);
    case _ =>
  }

  lemma {:induction false} OperandsAreClean(sp: Spec, actions: set<string>, open: set<string>, op: Operator,
      args: seq<Node>, i: nat, walked: bool)
    requires Resolved(sp) && forall k :: 0 <= k < |args| ==> CallsResolve(sp, args[k])
    requires forall k :: 0 <= k < |args| ==>
      if walked && Visits(sp, op, args[k], i + k)
      then Walk(sp, open, args[k]).Some? && Follows(sp, open, args[k]) <= actions
        && StepsOnly(sp, open, args[k], actions)
      else Free(sp, open, args[k], actions)
    ensures AllFollowed(UsesOf(sp, op, args, i, walked), actions)
    ensures CleanBodies(sp, actions, open, AllMentions(sp, open, args))
    decreases open, args, 0
  {
    if args != [] {
      if walked && Visits(sp, op, args[0], i) { StepsAreClean(sp, actions, open, args[0]); }
      else { FreeIsClean(sp, actions, open, args[0], false); }
      OperandsAreClean(sp, actions, open, op, args[1..], i + 1, walked);
    }
  }

  /**
   * Where every call resolves, as the front end ensures, the search finds
   * nothing exactly when every action is used only as a step. So it never
   * refuses a specification the sweep may accept.
   */
  lemma SearchIsExact(sp: Spec)
    requires Resolved(sp) && Walk(sp, sp.defs.Keys, sp.next).Some?
    ensures UsedAsSteps(sp, Followed(sp)) <==>
      StepsOnly(sp, sp.defs.Keys, sp.next, Followed(sp)) && Free(sp, sp.defs.Keys, sp.init, Followed(sp))
    ensures Sweepable(sp) <==>
      sp.formula !in sp.defs && Free(sp, sp.defs.Keys, sp.constraint, Followed(sp)) && UsedAsSteps(sp, Followed(sp))
  {
    var actions, all := Followed(sp), sp.defs.Keys;
    if UsedAsSteps(sp, actions) {
      SearchAdmits(sp);
    }
    if StepsOnly(sp, all, sp.next, actions) && Free(sp, all, sp.init, actions) {
      var names := Mentions(sp, all, sp.init) + Mentions(sp, all, sp.next);
      var seen := names * all;
      FreeIsClean(sp, actions, all, sp.init, false);
      StepsAreClean(sp, actions, all, sp.next);
      UsesAreMentioned(sp, all, sp.init, false);
      UsesAreMentioned(sp, all, sp.next, true);
      forall d | d in seen ensures Within(BodyUses(sp, d, actions), names) {
        if d in Mentions(sp, all, sp.init) { MentionedOnward(sp, all, sp.init, d, d in actions); }
        else { MentionedOnward(sp, all, sp.next, d, d in actions); }
      }
      assert ClosedSet(sp, actions, seen) && CleanSet(sp, actions, seen);
    }
  }
}
