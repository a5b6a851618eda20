/**
  The exact-mode evaluator (src/core/eval.c): symbolic constant folding
  over the expression tree, symbol and callee chasing with cycle detection,
  arity checks and calls of builtins and user functions.

  A result is a node, an error message, or `NoFuel`: a symbol's definition
  and a user function's body are not structurally smaller than the node
  being evaluated, and `a = a + 1` followed by `a` recurses without end in
  the source, so the evaluator takes a fuel bound that each such step spends.
  Allocation is not modelled, so the "out of memory" and "null arg" paths
  never arise.
 */
module Eval {

  import opened Wrappers
  import opened Num
  import opened Ast
  import opened Env
  import opened Builtins
  import Arena

  /** `eval_result_t`: `ok` with its output node, or an error; `NoFuel` when the bound ran out. */
  datatype Outcome = Done(node: Node) | Failed(err: string) | NoFuel

  /** How many names the `seen` arrays hold. */
  const MAX_CHASE: nat := 64

  // ---------------------------------------------------------------------------
  // Node helpers
  // ---------------------------------------------------------------------------

  /** `is_rat`. */
  predicate IsRat(n: Node) {
    n.RatNode?
  }

  /** `is_zero_rat`: a rational whose numerator is 0 (normalising does not change that). */
  function IsZeroRat(n: Node): (z: bool)
    ensures z <==> n.RatNode? && n.rat.num == 0
  {
    n.RatNode? && RatIsZero(RatNorm(n.rat))
  }

  /** A zero rational over a nonzero denominator has the value 0. */
  lemma IsZeroRatValue(n: Node)
    requires n.RatNode? && n.rat.den != 0
    ensures IsZeroRat(n) <==> Value(n.rat) == 0.0
  {
    var d := n.rat.den as real;
    assert Value(n.rat) * d == n.rat.num as real;
  }

  /** `is_one_rat`: the normalised numerator equals the normalised denominator. */
  function IsOneRat(n: Node): (o: bool)
    ensures o ==> n.RatNode?
  {
    n.RatNode? && RatNorm(n.rat).num == RatNorm(n.rat).den
  }

  /** For a proper fraction that is the value 1; over a zero denominator it holds exactly for 0/0. */
  lemma IsOneRatValue(n: Node)
    requires n.RatNode?
    ensures n.rat.den != 0 ==> (IsOneRat(n) <==> Value(n.rat) == 1.0)
    ensures n.rat.den == 0 ==> (IsOneRat(n) <==> n.rat.num == 0)
  {
    if n.rat.den != 0 {
      RatNormValue(n.rat);
      UnitValue(RatNorm(n.rat));
    }
  }

  /** Over a positive denominator the value is 1 exactly when numerator and denominator agree. */
  lemma UnitValue(r: Rat)
    requires r.den > 0
    ensures r.num == r.den <==> Value(r) == 1.0
  {
    var d := r.den as real;
    assert Value(r) * d == r.num as real;
  }

  /** `mk_neg`: a rational is negated (normalised before and after); anything else is wrapped in a negation. */
  function MkNeg(n: Node): (r: Node)
    ensures n.RatNode? && n.rat.den != 0 ==> r.RatNode? && r.rat.den > 0 && Reduced(r.rat)
    ensures n.RatNode? && n.rat.den == 0 ==> r == RatNode(Rat(-n.rat.num, 0))
    ensures !n.RatNode? ==> r == Neg(n)
  {
    if n.RatNode? then
      var a := RatNorm(n.rat);
      RatNode(RatNorm(Rat(-a.num, a.den)))
    else
      Neg(n)
  }

  /** Negating a proper rational negates its value. */
  lemma MkNegValue(n: Node)
    requires n.RatNode? && n.rat.den != 0
    ensures Value(MkNeg(n).rat) == -Value(n.rat)
  {
    var a := RatNorm(n.rat);
    var b := Rat(-a.num, a.den);
    RatNormValue(n.rat);
    NegatedFraction(a);
    RatNormValue(b);
  }

  /** `mk_rat`: a rational node holding the normalised value. */
  function MkRat(q: Rat): (n: Node)
    ensures n.RatNode? && (q.den > 0 ==> Reduced(n.rat))
    ensures q.den != 0 ==> n.rat.den > 0
  {
    RatNode(RatNorm(q))
  }

  /** `mk_rat` keeps the value of a proper rational. */
  lemma MkRatValue(q: Rat)
    requires q.den != 0
    ensures Value(MkRat(q).rat) == Value(q)
  {
    RatNormValue(q);
  }

  // ---------------------------------------------------------------------------
  // Folding a binary operator over evaluated operands (`eval_binop_impl`)
  // ---------------------------------------------------------------------------

  /** The rewrite rules of `eval_binop_impl`, tried in the source's order, once both operands are evaluated. */
  function FoldBinop(op: BinOp, l: Node, r: Node): Outcome {
    match op
    case Add =>
      if IsZeroRat(l) then Done(r)
      else if IsZeroRat(r) then Done(l)
      else if IsRat(l) && IsRat(r) then Done(MkRat(RatAdd(l.rat, r.rat)))
      else Done(Bin(Add, l, r))
    case Sub =>
      if IsZeroRat(r) then Done(l)
      else if IsRat(l) && IsRat(r) then Done(MkRat(RatSub(l.rat, r.rat)))
      else if IsZeroRat(l) then Done(MkNeg(r))
      else Done(Bin(Sub, l, r))
    case Mul =>
      if IsZeroRat(l) || IsZeroRat(r) then Done(MkRat(RatFromI64(0)))
      else if IsOneRat(l) then Done(r)
      else if IsOneRat(r) then Done(l)
      else if IsRat(l) && IsRat(r) then Done(MkRat(RatMul(l.rat, r.rat)))
      else if !IsRat(l) && IsRat(r) then Done(Bin(Mul, r, l))
      else Done(Bin(Mul, l, r))
    case Div =>
      if IsZeroRat(l) then
        if IsZeroRat(r) then Failed("division by zero") else Done(MkRat(RatFromI64(0)))
      else if IsOneRat(r) then Done(l)
      else if IsRat(l) && IsRat(r) then
        var (q, okd) := RatDiv(l.rat, r.rat);
        if !okd then Failed("division by zero") else Done(MkRat(q))
      else Done(Bin(Div, l, r))
    case Pow =>
      if IsRat(l) && IsRat(r) && RatNorm(r.rat).den == 1 then
        var (pw, okp) := RatPow(l.rat, RatNorm(r.rat).num);
        if !okp then Failed("invalid power") else Done(MkRat(pw))
      else Done(Bin(Pow, l, r))
  }

  // ---------------------------------------------------------------------------
  // Chasing a symbol (`eval_symbol_impl`) and a callee (`resolve_callable_impl`)
  // ---------------------------------------------------------------------------

  /** Where following a symbol's definitions ends. */
  datatype Chased = ChaseError(msg: string) | Free(name: string) | Target(node: Node)

  /**
    The chase loop of `eval_symbol_impl` from `name` with the names already
    visited: a repeated name is a cycle, checked before the 64-name bound;
    an unbound name is an error; a name bound to itself is a free symbol; a
    binding to another symbol is followed; any other binding is the target.
   */
  function Chase(ctx: Ctx, name: string, seen: seq<string>): Chased
    decreases MAX_CHASE - |seen|
  {
    if name in seen then ChaseError("cyclic definition")
    else if |seen| >= MAX_CHASE then ChaseError("definitions too deep")
    else match Lookup(ctx, Some(name))
      case None => ChaseError("undefined variable")
      case Some(b) =>
        if b.Symbol? && b.name == name then Free(name)
        else if b.Symbol? then Chase(ctx, b.name, seen + [name])
        else Target(b)
  }

  /** What resolving a call's name yields. */
  datatype Resolution = ResolveError(msg: string) | Resolved(callable: Callable)

  /**
    `resolve_callable_impl`: the same walk and bounds as `Chase`, but an
    unbound or self-bound name is "undefined function" and a binding that is
    neither a symbol nor a callable is "symbol is not callable".
   */
  function Resolve(ctx: Ctx, name: string, seen: seq<string>): Resolution
    decreases MAX_CHASE - |seen|
  {
    if name in seen then ResolveError("cyclic definition")
    else if |seen| >= MAX_CHASE then ResolveError("definitions too deep")
    else match Lookup(ctx, Some(name))
      case None => ResolveError("undefined function")
      case Some(b) =>
        if b.Symbol? && b.name == name then ResolveError("undefined function")
        else if b.Symbol? then Resolve(ctx, b.name, seen + [name])
        else if b.CallableNode? then Resolved(b.callable)
        else ResolveError("symbol is not callable")
  }

  // ---------------------------------------------------------------------------
  // The evaluator (`eval_impl`, `eval_call_impl`)
  // ---------------------------------------------------------------------------

  /** The overlay a user function's body runs under: its parameters bound to the argument values, then the caller's context. */
  function UserCtx(ctx: Ctx, params: seq<string>, vals: seq<Node>): Ctx {
    OverlayCtx(Some(Overlay(Some(ctx), Bind(params, vals))))
  }

  /** The `names`/`values` arrays of `eval_call_impl`: parameter k paired with argument k. */
  function Bind(params: seq<string>, vals: seq<Node>): (es: seq<Entry>)
    ensures |es| == if |params| < |vals| then |params| else |vals|
    ensures forall k :: 0 <= k < |es| ==> es[k] == Entry(params[k], vals[k])
  {
    if |params| == 0 || |vals| == 0 then []
    else [Entry(params[0], vals[0])] + Bind(params[1..], vals[1..])
  }

  /** `eval_impl`. */
  function Eval(fuel: nat, n: Node, ctx: Ctx): Outcome
    decreases fuel, n, 2
  {
    match n
    case RatNode(q) => Done(MkRat(q))
    case Symbol(s) =>
      (match Chase(ctx, s, [])
       case ChaseError(m) => Failed(m)
       case Free(m) => Done(NodeSymbol(m, -1))
       case Target(b) => if fuel == 0 then NoFuel else Eval(fuel - 1, b, ctx))
    case Neg(x) =>
      var o := Eval(fuel, x, ctx);
      if o.Done? then Done(MkNeg(o.node)) else o
    case Bin(op, a, b) =>
      var left := Eval(fuel, a, ctx);
      if !left.Done? then left
      else
        var right := Eval(fuel, b, ctx);
        if !right.Done? then right
        else FoldBinop(op, left.node, right.node)
    case Call(_, _) => EvalCall(fuel, n, ctx)
    case CallableNode(_) => Done(n)
  }

  /** What evaluating a call's arguments yields: all their values, or the first outcome that is not a value. */
  datatype ArgsOutcome = Values(vals: seq<Node>) | Stopped(outcome: Outcome)

  /**
    The argument loop of `eval_call_impl`: the arguments are evaluated from
    the first on, and the first one that does not evaluate stops the loop
    with its outcome.
   */
  function EvalArgs(fuel: nat, args: seq<Node>, ctx: Ctx, ghost parent: Node): (r: ArgsOutcome)
    requires forall k :: 0 <= k < |args| ==> args[k] < parent
    ensures r.Values? ==> |r.vals| == |args|
    ensures r.Stopped? ==> !r.outcome.Done?
    decreases fuel, parent, 0, |args|
  {
    if |args| == 0 then Values([])
    else
      var front := EvalArgs(fuel, args[..|args| - 1], ctx, parent);
      if front.Stopped? then front
      else
        var last := Eval(fuel, args[|args| - 1], ctx);
        if last.Done? then Values(front.vals + [last.node]) else Stopped(last)
  }

  /** The values are the arguments' values, in order. */
  lemma {:induction false} EvalArgsValues(fuel: nat, args: seq<Node>, ctx: Ctx, parent: Node)
    requires forall k :: 0 <= k < |args| ==> args[k] < parent
    ensures var r := EvalArgs(fuel, args, ctx, parent);
      r.Values? ==> forall k :: 0 <= k < |args| ==> Eval(fuel, args[k], ctx) == Done(r.vals[k])
    decreases |args|
  {
    var r := EvalArgs(fuel, args, ctx, parent);
    if |args| > 0 && r.Values? {
      var front := args[..|args| - 1];
      EvalArgsValues(fuel, front, ctx, parent);
      var f := EvalArgs(fuel, front, ctx, parent);
      assert r == Values(f.vals + [Eval(fuel, args[|args| - 1], ctx).node]);
      forall k | 0 <= k < |args|
        ensures Eval(fuel, args[k], ctx) == Done(r.vals[k])
      {
        if k < |front| {
          assert args[k] == front[k];
        }
      }
    }
  }

  /** A stop is the outcome of some argument after all earlier ones evaluated. */
  lemma {:induction false} EvalArgsStopped(fuel: nat, args: seq<Node>, ctx: Ctx, parent: Node)
    requires forall k :: 0 <= k < |args| ==> args[k] < parent
    ensures var r := EvalArgs(fuel, args, ctx, parent);
      r.Stopped? ==>
        exists k :: 0 <= k < |args| && Eval(fuel, args[k], ctx) == r.outcome
          && forall j :: 0 <= j < k ==> Eval(fuel, args[j], ctx).Done?
    decreases |args|
  {
    var r := EvalArgs(fuel, args, ctx, parent);
    if |args| > 0 && r.Stopped? {
      var front := args[..|args| - 1];
      var f := EvalArgs(fuel, front, ctx, parent);
      assert forall j :: 0 <= j < |front| ==> args[j] == front[j];
      if f.Stopped? {
        EvalArgsStopped(fuel, front, ctx, parent);
        var k :| 0 <= k < |front| && Eval(fuel, front[k], ctx) == f.outcome
          && forall j :: 0 <= j < k ==> Eval(fuel, front[j], ctx).Done?;
        assert Eval(fuel, args[k], ctx) == r.outcome;
      } else {
        EvalArgsValues(fuel, front, ctx, parent);
        assert r == Stopped(Eval(fuel, args[|args| - 1], ctx));
      }
    }
  }

  /**
    `eval_call_impl`: resolve the callee, check the argument count against
    its bounds before evaluating any argument, evaluate the arguments, then
    apply a builtin (its error wins, then a folded node, else the call
    rebuilt over the values) or run a user function's body under an overlay
    binding its parameters.
   */
  function EvalCall(fuel: nat, n: Node, ctx: Ctx): Outcome
    requires n.Call?
    decreases fuel, n, 1
  {
    match Resolve(ctx, n.fname, [])
    case ResolveError(m) => Failed(m)
    case Resolved(c) =>
      var argc := |n.args|;
      if argc < c.minArity || argc > c.maxArity then Failed("wrong arity")
      else
        match EvalArgs(fuel, n.args, ctx, n)
        case Stopped(o) => o
        case Values(vals) => Apply(fuel, n, ctx, c, vals)
  }

  /**
    The end of `eval_call_impl`, once the arguments have values: a builtin's
    error wins, then a folded node, else the call is rebuilt over the values;
    a user function checks its exact arity and runs its body under an overlay
    binding its parameters.
   */
  function Apply(fuel: nat, n: Node, ctx: Ctx, c: Callable, vals: seq<Node>): Outcome
    requires n.Call?
    decreases fuel, n, 0
  {
    match c
    case Builtin(_, _, bf) =>
      (match ApplyBuiltin(bf.impl, vals)
       case FoldError(m) => Failed(m)
       case Folded(x) => Done(x)
       case NotFolded => Done(Call(Arena.StrdupText(n.fname, -1), vals)))
    case User(_, _, uf) =>
      if |n.args| != uf.arity then Failed("wrong arity")
      else if fuel == 0 then NoFuel
      else Eval(fuel - 1, uf.body, UserCtx(ctx, uf.params, vals))
  }

  /** `node_eval_exact`: evaluation against the global table. */
  function NodeEvalExact(fuel: nat, n: Node, env: seq<Entry>): Outcome {
    Eval(fuel, n, EnvCtx(Some(env)))
  }
  // ---------------------------------------------------------------------------
  // Folding: values and rewrite rules
  // ---------------------------------------------------------------------------

  /** The arithmetic operators over the reals; division by zero has no value. */
  function RealOp(op: BinOp, x: real, y: real): Option<real> {
    match op
    case Add => Some(x + y)
    case Sub => Some(x - y)
    case Mul => Some(x * y)
    case Div => if y == 0.0 then None else Some(x / y)
    case Pow => None
  }

  /** The outcome is a rational over a nonzero denominator whose value is v. */
  predicate HasValue(o: Outcome, v: real) {
    o.Done? && o.node.RatNode? && o.node.rat.den != 0 && Value(o.node.rat) == v
  }

  /**
    Folding two proper rationals agrees with arithmetic, whichever identity
    rule fires: the folded node is a rational with the real sum (difference,
    product, quotient), and division by a zero rational is the error
    "division by zero".
   */
  lemma FoldAdd(a: Rat, b: Rat)
    requires a.den != 0 && b.den != 0
    ensures HasValue(FoldBinop(Add, RatNode(a), RatNode(b)), Value(a) + Value(b))
  {
    IsZeroRatValue(RatNode(a));
    IsZeroRatValue(RatNode(b));
    if !IsZeroRat(RatNode(a)) && !IsZeroRat(RatNode(b)) {
      RatAddValue(a, b);
      MkRatValue(RatAdd(a, b));
    }
  }

  /** `FoldAdd` for `-`. */
  lemma FoldSub(a: Rat, b: Rat)
    requires a.den != 0 && b.den != 0
    ensures HasValue(FoldBinop(Sub, RatNode(a), RatNode(b)), Value(a) - Value(b))
  {
    IsZeroRatValue(RatNode(b));
    if !IsZeroRat(RatNode(b)) {
      RatSubValue(a, b);
      MkRatValue(RatSub(a, b));
    }
  }

  /** `FoldAdd` for `*`. */
  lemma FoldMul(a: Rat, b: Rat)
    requires a.den != 0 && b.den != 0
    ensures HasValue(FoldBinop(Mul, RatNode(a), RatNode(b)), Value(a) * Value(b))
  {
    var l, r := RatNode(a), RatNode(b);
    IsZeroRatValue(l);
    IsZeroRatValue(r);
    if IsZeroRat(l) || IsZeroRat(r) {
      MkRatValue(RatFromI64(0));
    } else if IsOneRat(l) {
      IsOneRatValue(l);
    } else if IsOneRat(r) {
      IsOneRatValue(r);
    } else {
      RatMulValue(a, b);
      MkRatValue(RatMul(a, b));
    }
  }

  /** `FoldAdd` for `/`. */
  lemma FoldDiv(a: Rat, b: Rat)
    requires a.den != 0 && b.den != 0
    ensures var o := FoldBinop(Div, RatNode(a), RatNode(b));
      (Value(b) == 0.0 ==> o == Failed("division by zero"))
      && (Value(b) != 0.0 ==> HasValue(o, Value(a) / Value(b)))
  {
    var l, r := RatNode(a), RatNode(b);
    IsZeroRatValue(l);
    IsZeroRatValue(r);
    if IsZeroRat(l) {
      MkRatValue(RatFromI64(0));
    } else if IsOneRat(r) {
      IsOneRatValue(r);
    } else if b.num != 0 {
      RatDivValue(a, b);
      MkRatValue(RatDiv(a, b).0);
    }
  }

  /**
    The power folds only for two rationals whose exponent normalises to an
    integer; it fails with "invalid power" exactly for a base that
    normalises to 0 under a negative exponent; otherwise the power is left
    as an unevaluated node.
   */
  lemma FoldPower(l: Node, r: Node)
    ensures var o := FoldBinop(Pow, l, r);
      var folds := l.RatNode? && r.RatNode? && RatNorm(r.rat).den == 1;
      (!folds ==> o == Done(Bin(Pow, l, r)))
      && (folds ==> (o == Failed("invalid power") <==> RatNorm(l.rat).num == 0 && RatNorm(r.rat).num < 0))
      && (folds && o.Done? ==> o == Done(MkRat(RatPow(l.rat, RatNorm(r.rat).num).0)))
  {
    if l.RatNode? && r.RatNode? && RatNorm(r.rat).den == 1 {
      RatPowFails(l.rat, RatNorm(r.rat).num);
    }
  }

  /**
    The identity rules act on unevaluated operands too: 0 + x and x + 0 give
    x, 0 - x gives the negation of x, a zero factor gives 0 before the unit
    rules are tried, 0 / x gives 0 for any x that is not a zero rational,
    x / 1 gives x, and a symbolic numerator over a zero rational is left
    unevaluated rather than reported.
   */
  lemma FoldIdentities(x: Node, z: Rat, u: Rat)
    requires z.num == 0 && z.den != 0 && u.num == u.den && u.den > 0
    ensures FoldBinop(Add, RatNode(z), x) == Done(x)
    ensures !IsZeroRat(x) ==> FoldBinop(Add, x, RatNode(z)) == Done(x)
    ensures !x.RatNode? ==> FoldBinop(Sub, RatNode(z), x) == Done(Neg(x))
    ensures FoldBinop(Mul, RatNode(z), x) == Done(RatNode(Rat(0, 1)))
    ensures FoldBinop(Mul, x, RatNode(z)) == Done(RatNode(Rat(0, 1)))
    ensures !IsZeroRat(x) ==> FoldBinop(Mul, RatNode(u), x) == Done(x)
    ensures !IsZeroRat(x) ==> FoldBinop(Div, RatNode(z), x) == Done(RatNode(Rat(0, 1)))
    ensures FoldBinop(Div, RatNode(z), RatNode(z)) == Failed("division by zero")
    ensures !IsZeroRat(x) ==> FoldBinop(Div, x, RatNode(u)) == Done(x)
    ensures !x.RatNode? ==> FoldBinop(Div, x, RatNode(z)) == Done(Bin(Div, x, RatNode(z)))
  {
    GcdOneRight(0);
    NormOfReduced(Rat(0, 1));
    UnitValue(u);
    IsOneRatValue(RatNode(u));
  }

  /** A rational factor on the right of a symbolic one is moved to the left, unless it is 0 or 1. */
  lemma FoldMulReorders(x: Node, q: Rat)
    requires !x.RatNode? && q.den != 0 && q.num != 0 && Value(q) != 1.0
    ensures FoldBinop(Mul, x, RatNode(q)) == Done(Bin(Mul, RatNode(q), x))
  {
    IsOneRatValue(RatNode(q));
  }

  // ---------------------------------------------------------------------------
  // Closed arithmetic: the evaluator computes the value
  // ---------------------------------------------------------------------------

  /** An expression built from proper rationals, negation and + - * /. */
  predicate Closed(n: Node) {
    match n
    case RatNode(q) => q.den != 0
    case Neg(x) => Closed(x)
    case Bin(op, a, b) => op != Pow && Closed(a) && Closed(b)
    case _ => false
  }

  /** The real value of a closed expression; None when some division divides by zero. */
  function Meaning(n: Node): Option<real>
    requires Closed(n)
  {
    match n
    case RatNode(q) => Some(Value(q))
    case Neg(x) => (match Meaning(x) case None => None case Some(v) => Some(-v))
    case Bin(op, a, b) =>
      match Meaning(a)
      case None => None
      case Some(x) =>
        match Meaning(b)
        case None => None
        case Some(y) => RealOp(op, x, y)
  }

  /** The outcome matches a meaning: "division by zero" for none, a rational over a positive denominator with the value otherwise. */
  predicate Agrees(o: Outcome, m: Option<real>) {
    match m
    case None => o == Failed("division by zero")
    case Some(v) => HasValue(o, v) && o.node.rat.den > 0
  }

  /**
    On closed expressions the evaluator is sound and complete with respect
    to arithmetic: with any fuel and in any context it yields a rational with
    the expression's value, or "division by zero" exactly when some division
    has a zero divisor.
   */
  lemma {:induction false} EvalClosed(fuel: nat, n: Node, ctx: Ctx)
    requires Closed(n)
    ensures Agrees(Eval(fuel, n, ctx), Meaning(n))
  {
    match n
    case RatNode(q) =>
      MkRatValue(q);
    case Neg(x) =>
      EvalClosed(fuel, x, ctx);
      if Meaning(x).Some? {
        MkNegValue(Eval(fuel, x, ctx).node);
      }
    case Bin(op, a, b) =>
      EvalClosed(fuel, a, ctx);
      EvalClosed(fuel, b, ctx);
      var l, r := Eval(fuel, a, ctx), Eval(fuel, b, ctx);
      if Meaning(a).Some? && Meaning(b).Some? {
        ClosedFold(op, l.node.rat, r.node.rat);
        assert Eval(fuel, n, ctx) == FoldBinop(op, l.node, r.node);
      }
  }

  /** One folding step of a closed expression agrees with the real operator. */
  lemma ClosedFold(op: BinOp, x: Rat, y: Rat)
    requires op != Pow && x.den > 0 && y.den > 0
    ensures Agrees(FoldBinop(op, RatNode(x), RatNode(y)), RealOp(op, Value(x), Value(y)))
  {
    FoldKeepsPositive(op, x, y);
    match op
    case Add => FoldAdd(x, y);
    case Sub => FoldSub(x, y);
    case Mul => FoldMul(x, y);
    case Div => FoldDiv(x, y);
  }

  /** Folding two rationals over positive denominators gives a positive denominator. */
  lemma FoldKeepsPositive(op: BinOp, a: Rat, b: Rat)
    requires op != Pow && a.den > 0 && b.den > 0
    ensures var o := FoldBinop(op, RatNode(a), RatNode(b));
      o.Done? ==> o.node.RatNode? && o.node.rat.den > 0
  {
  }

  // ---------------------------------------------------------------------------
  // Evaluation order
  // ---------------------------------------------------------------------------

  /** The left operand is evaluated first and its failure wins; then the right operand's. */
  lemma OperandOrder(fuel: nat, op: BinOp, a: Node, b: Node, ctx: Ctx)
    ensures !Eval(fuel, a, ctx).Done? ==> Eval(fuel, Bin(op, a, b), ctx) == Eval(fuel, a, ctx)
    ensures Eval(fuel, a, ctx).Done? && !Eval(fuel, b, ctx).Done? ==> Eval(fuel, Bin(op, a, b), ctx) == Eval(fuel, b, ctx)
    ensures Eval(fuel, a, ctx).Done? && Eval(fuel, b, ctx).Done? ==>
      Eval(fuel, Bin(op, a, b), ctx) == FoldBinop(op, Eval(fuel, a, ctx).node, Eval(fuel, b, ctx).node)
  {
  }

  /** A negation folds an evaluated rational and wraps anything else. */
  lemma NegationFolds(fuel: nat, x: Node, ctx: Ctx)
    ensures var o := Eval(fuel, x, ctx);
      (o.Done? && o.node.RatNode? && o.node.rat.den != 0 ==>
        Eval(fuel, Neg(x), ctx).Done? && Eval(fuel, Neg(x), ctx).node.RatNode?
        && Value(Eval(fuel, Neg(x), ctx).node.rat) == -Value(o.node.rat))
      && (o.Done? && !o.node.RatNode? ==> Eval(fuel, Neg(x), ctx) == Done(Neg(o.node)))
      && (!o.Done? ==> Eval(fuel, Neg(x), ctx) == o)
  {
    var o := Eval(fuel, x, ctx);
    if o.Done? && o.node.RatNode? && o.node.rat.den != 0 {
      MkNegValue(o.node);
    }
  }

  // ---------------------------------------------------------------------------
  // Chasing symbols
  // ---------------------------------------------------------------------------

  /** Every name of `ns` but the last is bound to the symbol of the next one. */
  predicate Linked(ctx: Ctx, ns: seq<string>) {
    forall k :: 0 <= k < |ns| - 1 ==> Lookup(ctx, Some(ns[k])) == Some(Symbol(ns[k + 1]))
  }

  /** No name occurs twice. */
  predicate Distinct(ns: seq<string>) {
    forall i, j :: 0 <= i < j < |ns| ==> ns[i] != ns[j]
  }

  /**
    A chain of distinct, not yet visited names, each bound to the next, is
    followed to its last name, which is reached with the rest of the chain
    added to the visited names, as long as the 64 slots suffice.
   */
  lemma {:induction false} FollowChain(ctx: Ctx, ns: seq<string>, seen: seq<string>)
    requires |ns| >= 1 && Linked(ctx, ns) && Distinct(ns)
    requires forall k :: 0 <= k < |ns| ==> ns[k] !in seen
    requires |seen| + |ns| - 1 <= MAX_CHASE
    ensures Chase(ctx, ns[0], seen) == Chase(ctx, ns[|ns| - 1], seen + ns[..|ns| - 1])
    ensures Resolve(ctx, ns[0], seen) == Resolve(ctx, ns[|ns| - 1], seen + ns[..|ns| - 1])
    decreases |ns|
  {
    if |ns| > 1 {
      var rest := ns[1..];
      var seen' := seen + [ns[0]];
      assert Lookup(ctx, Some(ns[0])) == Some(Symbol(ns[1]));
      assert ns[0] != ns[1];
      assert Linked(ctx, rest) by {
        forall k | 0 <= k < |rest| - 1
          ensures Lookup(ctx, Some(rest[k])) == Some(Symbol(rest[k + 1]))
        {
          assert rest[k] == ns[k + 1] && rest[k + 1] == ns[k + 2];
        }
      }
      forall k | 0 <= k < |rest|
        ensures rest[k] !in seen'
      {
        assert rest[k] == ns[k + 1];
      }
      assert Chase(ctx, ns[0], seen) == Chase(ctx, ns[1], seen');
      assert Resolve(ctx, ns[0], seen) == Resolve(ctx, ns[1], seen');
      FollowChain(ctx, rest, seen');
      assert rest[0] == ns[1] && rest[|rest| - 1] == ns[|ns| - 1];
      assert seen' + rest[..|rest| - 1] == seen + ns[..|ns| - 1];
    } else {
      assert seen + ns[..0] == seen;
    }
  }

  /**
    A chain of 65 distinct names, each bound to the next, is "definitions
    too deep", whatever the last name is bound to; with 64 names the last
    one's binding is reached.
   */
  lemma ChainDepth(fuel: nat, ctx: Ctx, ns: seq<string>)
    requires Linked(ctx, ns) && Distinct(ns)
    ensures |ns| == MAX_CHASE + 1 ==> Eval(fuel, Symbol(ns[0]), ctx) == Failed("definitions too deep")
    ensures |ns| == MAX_CHASE + 1 ==> Resolve(ctx, ns[0], []) == ResolveError("definitions too deep")
    ensures |ns| == MAX_CHASE && Lookup(ctx, Some(ns[MAX_CHASE - 1])) == Some(RatNode(Rat(1, 1))) ==>
      Chase(ctx, ns[0], []) == Target(RatNode(Rat(1, 1)))
  {
    if |ns| == MAX_CHASE + 1 || |ns| == MAX_CHASE {
      FollowChain(ctx, ns, []);
      var last := ns[|ns| - 1];
      var pre := ns[..|ns| - 1];
      assert last !in pre by {
        forall k | 0 <= k < |pre|
          ensures pre[k] != last
        {
          assert pre[k] == ns[k];
        }
      }
    }
  }

  /** A name bound to itself evaluates to its own symbol; two names bound to each other are a cycle. */
  lemma FreeAndCyclic(fuel: nat, ctx: Ctx, x: string, y: string)
    ensures Lookup(ctx, Some(x)) == Some(Symbol(x)) ==> Eval(fuel, Symbol(x), ctx) == Done(Symbol(x))
    ensures x != y && Lookup(ctx, Some(x)) == Some(Symbol(y)) && Lookup(ctx, Some(y)) == Some(Symbol(x)) ==>
      Eval(fuel, Symbol(x), ctx) == Failed("cyclic definition")
    ensures Lookup(ctx, Some(x)).None? ==> Eval(fuel, Symbol(x), ctx) == Failed("undefined variable")
  {
    assert x[..|x|] == x;
    if x != y && Lookup(ctx, Some(x)) == Some(Symbol(y)) && Lookup(ctx, Some(y)) == Some(Symbol(x)) {
      assert Chase(ctx, x, []) == Chase(ctx, y, [x]);
      assert Chase(ctx, y, [x]) == Chase(ctx, x, [x, y]);
    }
  }

  /**
    Where a chase ends: a free symbol is bound to itself, a target is a
    non-symbol node the context binds to some name, and an error is one of
    the three messages of `eval_symbol_impl`.
   */
  lemma {:induction false} ChaseSound(ctx: Ctx, name: string, seen: seq<string>)
    ensures var c := Chase(ctx, name, seen);
      (c.Free? ==> Lookup(ctx, Some(c.name)) == Some(Symbol(c.name)))
      && (c.Target? ==> !c.node.Symbol? && exists m :: Lookup(ctx, Some(m)) == Some(c.node))
      && (c.ChaseError? ==> c.msg in ["cyclic definition", "definitions too deep", "undefined variable"])
    decreases MAX_CHASE - |seen|
  {
    if name !in seen && |seen| < MAX_CHASE {
      var b := Lookup(ctx, Some(name));
      if b.Some? && b.value.Symbol? && b.value.name != name {
        ChaseSound(ctx, b.value.name, seen + [name]);
      }
    }
  }

  /**
    Where resolving a callee ends: a callable the context binds to some
    name, or one of the four messages of `resolve_callable_impl`.
   */
  lemma {:induction false} ResolveSound(ctx: Ctx, name: string, seen: seq<string>)
    ensures var r := Resolve(ctx, name, seen);
      (r.Resolved? ==> exists m :: Lookup(ctx, Some(m)) == Some(CallableNode(r.callable)))
      && (r.ResolveError? ==> r.msg in ["cyclic definition", "definitions too deep", "undefined function", "symbol is not callable"])
    decreases MAX_CHASE - |seen|
  {
    if name !in seen && |seen| < MAX_CHASE {
      var b := Lookup(ctx, Some(name));
      if b.Some? && b.value.Symbol? && b.value.name != name {
        ResolveSound(ctx, b.value.name, seen + [name]);
      }
    }
  }

  // ---------------------------------------------------------------------------
  // Calls
  // ---------------------------------------------------------------------------

  /** The argument count is checked against the callee's bounds before any argument is evaluated. */
  lemma ArityBeforeArguments(fuel: nat, ctx: Ctx, name: string, args: seq<Node>)
    ensures var r := Resolve(ctx, name, []);
      r.Resolved? && (|args| < r.callable.minArity || |args| > r.callable.maxArity) ==>
        Eval(fuel, Call(name, args), ctx) == Failed("wrong arity")
    ensures Resolve(ctx, name, []).ResolveError? ==>
      Eval(fuel, Call(name, args), ctx) == Failed(Resolve(ctx, name, []).msg)
  {
  }

  /**
    Inside a user function's body each parameter finds its argument (the
    first parameter of that name wins), and every other name is looked up
    in the caller's context.
   */
  lemma {:induction false} ParametersBound(ctx: Ctx, params: seq<string>, vals: seq<Node>, k: nat, other: string)
    requires |params| == |vals| && k < |params| && Distinct(params)
    requires forall j :: 0 <= j < |params| ==> params[j] != other
    ensures Lookup(UserCtx(ctx, params, vals), Some(params[k])) == Some(vals[k])
    ensures Lookup(UserCtx(ctx, params, vals), Some(other)) == Lookup(ctx, Some(other))
  {
    var es := Bind(params, vals);
    assert IndexOf(es, params[k]) == k by {
      assert es[k].name == params[k];
      assert forall j :: 0 <= j < k ==> es[j].name != params[k];
    }
    assert forall j :: 0 <= j < |es| ==> es[j].name != other;
  }

  /**
    `abs` bound to the core's builtin folds a rational argument to its
    absolute value, and rejects any other number of arguments.
   */
  lemma AbsCall(fuel: nat, ctx: Ctx, x: Node, args: seq<Node>)
    requires Resolve(ctx, "abs", []) == Resolved(Builtin(1, 1, CORE_FN_ABS))
    ensures var o := Eval(fuel, x, ctx);
      o.Done? && o.node.RatNode? && o.node.rat.den > 0 ==>
        var r := Eval(fuel, Call("abs", [x]), ctx);
        r.Done? && r.node.RatNode? && r.node.rat.num >= 0 && r.node.rat.den > 0
        && Value(r.node.rat) == (if Value(o.node.rat) < 0.0 then -Value(o.node.rat) else Value(o.node.rat))
    ensures |args| != 1 ==> Eval(fuel, Call("abs", args), ctx) == Failed("wrong arity")
  {
    var o := Eval(fuel, x, ctx);
    var n := Call("abs", [x]);
    if o.Done? && o.node.RatNode? && o.node.rat.den > 0 {
      assert n.args[..0] == [];
      assert EvalArgs(fuel, n.args, ctx, n) == Values([o.node]);
      assert Eval(fuel, n, ctx) == Apply(fuel, n, ctx, Builtin(1, 1, CORE_FN_ABS), [o.node]);
      AbsFoldMeaning(o.node);
    }
  }

  // ---------------------------------------------------------------------------
  // Fuel
  // ---------------------------------------------------------------------------

  /** Fuel only bounds the evaluation: an outcome reached with some fuel is the outcome with more. */
  lemma {:induction false} EvalFuel(fuel: nat, n: Node, ctx: Ctx)
    ensures Eval(fuel, n, ctx) != NoFuel ==> Eval(fuel + 1, n, ctx) == Eval(fuel, n, ctx)
    decreases fuel, n, 2
  {
    match n
    case RatNode(_) =>
    case Symbol(s) =>
      var c := Chase(ctx, s, []);
      if c.Target? && fuel > 0 {
        EvalFuel(fuel - 1, c.node, ctx);
      }
    case Neg(x) =>
      EvalFuel(fuel, x, ctx);
    case Bin(op, a, b) =>
      EvalFuel(fuel, a, ctx);
      EvalFuel(fuel, b, ctx);
    case Call(_, _) =>
      EvalCallFuel(fuel, n, ctx);
    case CallableNode(_) =>
  }

  /** `EvalFuel` for a call. */
  lemma {:induction false} EvalCallFuel(fuel: nat, n: Node, ctx: Ctx)
    requires n.Call?
    ensures EvalCall(fuel, n, ctx) != NoFuel ==> EvalCall(fuel + 1, n, ctx) == EvalCall(fuel, n, ctx)
    decreases fuel, n, 1
  {
    var r := Resolve(ctx, n.fname, []);
    if r.Resolved? && r.callable.minArity <= |n.args| <= r.callable.maxArity {
      EvalArgsFuel(fuel, n.args, ctx, n);
      var a := EvalArgs(fuel, n.args, ctx, n);
      if a.Values? {
        ApplyFuel(fuel, n, ctx, r.callable, a.vals);
      }
    }
  }

  /** `EvalFuel` for the end of a call. */
  lemma {:induction false} ApplyFuel(fuel: nat, n: Node, ctx: Ctx, c: Callable, vals: seq<Node>)
    requires n.Call?
    ensures Apply(fuel, n, ctx, c, vals) != NoFuel ==> Apply(fuel + 1, n, ctx, c, vals) == Apply(fuel, n, ctx, c, vals)
    decreases fuel, n, 0
  {
    if c.User? && fuel > 0 {
      EvalFuel(fuel - 1, c.user.body, UserCtx(ctx, c.user.params, vals));
    }
  }

  /** `EvalFuel` for an argument list. */
  lemma {:induction false} EvalArgsFuel(fuel: nat, args: seq<Node>, ctx: Ctx, parent: Node)
    requires forall k :: 0 <= k < |args| ==> args[k] < parent
    ensures EvalArgs(fuel, args, ctx, parent) != Stopped(NoFuel) ==>
      EvalArgs(fuel + 1, args, ctx, parent) == EvalArgs(fuel, args, ctx, parent)
    decreases fuel, parent, 0, |args|
  {
    if |args| > 0 {
      EvalArgsFuel(fuel, args[..|args| - 1], ctx, parent);
      EvalFuel(fuel, args[|args| - 1], ctx);
    }
  }

  // ---------------------------------------------------------------------------
  // The loops of the source, proved against the functions above
  // ---------------------------------------------------------------------------

  /**
    `eval_symbol_impl`'s loop: the visited names in a 64-slot array, a
    linear scan of it for the current name, then one lookup per step.
   */
  method ChaseSymbol(ctx: Ctx, name: string) returns (c: Chased)
    ensures c == Chase(ctx, name, [])
  {
    var seen := new string[MAX_CHASE](_ => "");
    var sp := 0;
    var cur := name;
    assert seen[..sp] == [];
    while true
      invariant 0 <= sp <= MAX_CHASE
      invariant Chase(ctx, cur, seen[..sp]) == Chase(ctx, name, [])
      decreases MAX_CHASE - sp
    {
      var i := 0;
      while i < sp
        invariant 0 <= i <= sp
        invariant forall j :: 0 <= j < i ==> seen[j] != cur
      {
        if seen[i] == cur {
          assert seen[..sp][i] == cur;
          return ChaseError("cyclic definition");
        }
        i := i + 1;
      }
      assert cur !in seen[..sp];
      if sp >= MAX_CHASE {
        return ChaseError("definitions too deep");
      }
      ghost var before := seen[..sp];
      seen[sp] := cur;
      sp := sp + 1;
      assert seen[..sp] == before + [cur];
      var b := Lookup(ctx, Some(cur));
      if b.None? {
        return ChaseError("undefined variable");
      }
      if b.value.Symbol? && b.value.name == cur {
        return Free(cur);
      }
      if !b.value.Symbol? {
        return Target(b.value);
      }
      cur := b.value.name;
    }
  }

  /** `resolve_callable_impl`'s loop, with the same array and scan as `ChaseSymbol`. */
  method ResolveCallable(ctx: Ctx, name: string) returns (r: Resolution)
    ensures r == Resolve(ctx, name, [])
  {
    var seen := new string[MAX_CHASE](_ => "");
    var sp := 0;
    var cur := name;
    assert seen[..sp] == [];
    while true
      invariant 0 <= sp <= MAX_CHASE
      invariant Resolve(ctx, cur, seen[..sp]) == Resolve(ctx, name, [])
      decreases MAX_CHASE - sp
    {
      var i := 0;
      while i < sp
        invariant 0 <= i <= sp
        invariant forall j :: 0 <= j < i ==> seen[j] != cur
      {
        if seen[i] == cur {
          assert seen[..sp][i] == cur;
          return ResolveError("cyclic definition");
        }
        i := i + 1;
      }
      assert cur !in seen[..sp];
      if sp >= MAX_CHASE {
        return ResolveError("definitions too deep");
      }
      ghost var before := seen[..sp];
      seen[sp] := cur;
      sp := sp + 1;
      assert seen[..sp] == before + [cur];
      var b := Lookup(ctx, Some(cur));
      if b.None? {
        return ResolveError("undefined function");
      }
      if b.value.Symbol? && b.value.name == cur {
        return ResolveError("undefined function");
      }
      if b.value.Symbol? {
        cur := b.value.name;
      } else if b.value.CallableNode? {
        return Resolved(b.value.callable);
      } else {
        return ResolveError("symbol is not callable");
      }
    }
  }

  /** The argument loop of `eval_call_impl`, filling an array of `argc` values. */
  method EvalArguments(fuel: nat, n: Node, ctx: Ctx) returns (r: ArgsOutcome)
    requires n.Call?
    ensures r == EvalArgs(fuel, n.args, ctx, n)
  {
    var argc := |n.args|;
    var vals := new Node[argc];
    var i := 0;
    assert n.args[..0] == [];
    while i < argc
      invariant 0 <= i <= argc
      invariant EvalArgs(fuel, n.args[..i], ctx, n) == Values(vals[..i])
    {
      var ei := Eval(fuel, n.args[i], ctx);
      ArgsPrefixStep(fuel, n.args, ctx, n, i);
      if !ei.Done? {
        StoppedPrefix(fuel, n.args, ctx, n, i + 1);
        return Stopped(ei);
      }
      vals[i] := ei.node;
      assert vals[..i + 1] == vals[..i] + [ei.node];
      i := i + 1;
    }
    assert n.args[..argc] == n.args;
    assert vals[..] == vals[..argc];
    r := Values(vals[..]);
  }

  /** One more argument: the prefix's outcome, extended by the next argument's. */
  lemma ArgsPrefixStep(fuel: nat, args: seq<Node>, ctx: Ctx, parent: Node, i: nat)
    requires forall k :: 0 <= k < |args| ==> args[k] < parent
    requires i < |args|
    ensures var front := EvalArgs(fuel, args[..i], ctx, parent);
      var e := Eval(fuel, args[i], ctx);
      EvalArgs(fuel, args[..i + 1], ctx, parent) ==
        if front.Stopped? then front else if e.Done? then Values(front.vals + [e.node]) else Stopped(e)
  {
    assert args[..i + 1][..i] == args[..i];
  }

  /** Once a prefix of the arguments stops, the whole list stops with the same outcome. */
  lemma {:induction false} StoppedPrefix(fuel: nat, args: seq<Node>, ctx: Ctx, parent: Node, i: nat)
    requires forall k :: 0 <= k < |args| ==> args[k] < parent
    requires i <= |args| && EvalArgs(fuel, args[..i], ctx, parent).Stopped?
    ensures EvalArgs(fuel, args, ctx, parent) == EvalArgs(fuel, args[..i], ctx, parent)
    decreases |args|
  {
    if i < |args| {
      var front := args[..|args| - 1];
      assert front[..i] == args[..i];
      StoppedPrefix(fuel, front, ctx, parent, i);
    } else {
      assert args[..i] == args;
    }
  }

  /** The `names`/`values` loop of `eval_call_impl`. */
  method BindLocals(params: seq<string>, vals: seq<Node>) returns (es: seq<Entry>)
    ensures es == Bind(params, vals)
  {
    var n := if |params| < |vals| then |params| else |vals|;
    es := [];
    var i := 0;
    while i < n
      invariant 0 <= i <= n
      invariant |es| == i && forall k :: 0 <= k < i ==> es[k] == Entry(params[k], vals[k])
    {
      es := es + [Entry(params[i], vals[i])];
      i := i + 1;
    }
  }
}
