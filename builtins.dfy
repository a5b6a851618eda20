/**
  The `abs` builtin (src/core/builtins.c, and the static copy in
  src/core/core.c that the core actually registers) and the arity check.

  A builtin callback yields a folded node, "not folded" (a null result with
  no error), or an error message. Allocation failures inside the callbacks
  are not modelled.
 */
module Builtins {

  import opened Num
  import opened Ast

  /** What a builtin's `eval_exact` callback reports. */
  datatype Folding = Folded(node: Node) | NotFolded | FoldError(msg: string)

  /** `check_arity`: false when the bounds are inverted, else whether got lies within them. */
  function CheckArity(min: int, max: int, got: int): (ok: bool)
    ensures min > max ==> !ok
    ensures min <= max ==> (ok <==> min <= got <= max)
  {
    if min > max then false else min <= got && max >= got
  }

  /**
    The absolute value of a rational, normalised first. A negative
    denominator is only moved to the numerator by the normalisation, so the
    result is in lowest terms only for a positive denominator.
   */
  function AbsRat(r: Rat): (a: Rat)
    ensures r.den != 0 ==> a.den > 0 && a.num >= 0
    ensures r.den > 0 ==> Reduced(a)
    ensures r.den == 0 ==> a.den == 0
  {
    var n := RatNorm(r);
    if n.num < 0 then Rat(-n.num, n.den) else n
  }

  /** The value of `AbsRat` is the absolute value. */
  lemma AbsRatValue(r: Rat)
    requires r.den != 0
    ensures Value(AbsRat(r)) == if Value(r) < 0.0 then -Value(r) else Value(r)
  {
    RatNormValue(r);
    NegatedFraction(RatNorm(r));
  }

  /** Negating the numerator of a fraction over a positive denominator negates its value, keeps it in lowest terms, and its value is negative exactly when the numerator is. */
  lemma NegatedFraction(n: Rat)
    ensures n.den > 0 ==> (Value(n) < 0.0 <==> n.num < 0)
    ensures n.den > 0 ==> Value(Rat(-n.num, n.den)) == -Value(n)
    ensures Reduced(n) ==> Reduced(Rat(-n.num, n.den))
  {
    assert Abs(-n.num) == Abs(n.num);
    if n.den > 0 {
      var d := n.den as real;
      assert Value(n) * d == n.num as real;
    }
  }

  /**
    The case analysis both `abs` callbacks share: a rational, or the
    negation of one, folds to its absolute value; the negation of anything
    else becomes the call `abs(inner)`; any other node is not folded.
   */
  function AbsFold(x: Node): Folding
  {
    match x
    case RatNode(r) => Folded(RatNode(AbsRat(r)))
    case Neg(inner) =>
      if inner.RatNode? then Folded(RatNode(AbsRat(inner.rat)))
      else Folded(Call("abs", [inner]))
    case _ => NotFolded
  }

  /**
    What `abs` folds to: the absolute value, normalised, for a rational or a
    negated rational; a one-argument call `abs(y)` for the negation of
    anything else; nothing for every other node.
   */
  lemma AbsFoldMeaning(x: Node)
    ensures var r := if x.Neg? then x.arg else x;
      r.RatNode? && r.rat.den > 0 ==>
        (AbsFold(x).Folded? && AbsFold(x).node.RatNode?
         && Reduced(AbsFold(x).node.rat) && AbsFold(x).node.rat.num >= 0
         && Value(AbsFold(x).node.rat) == (if Value(r.rat) < 0.0 then -Value(r.rat) else Value(r.rat)))
    ensures x.Neg? && !x.arg.RatNode? ==> AbsFold(x) == Folded(Call("abs", [x.arg]))
    ensures !x.RatNode? && !x.Neg? ==> AbsFold(x) == NotFolded
    ensures x.RatNode? ==> AbsFold(Neg(x)) == AbsFold(x)
  {
    var r := if x.Neg? then x.arg else x;
    if r.RatNode? && r.rat.den > 0 {
      AbsRatValue(r.rat);
      var a := AbsRat(r.rat);
      assert AbsFold(x) == Folded(RatNode(a));
    }
  }

  /**
    `fn_abs_cb` of src/core/builtins.c: the arity check's verdict is
    discarded and the first argument is read whatever the count.
   */
  function LibAbsCb(args: seq<Node>): (f: Folding)
    requires |args| >= 1
    ensures f == AbsFold(args[0])
    ensures !f.FoldError?
  {
    AbsFold(args[0])
  }

  /** The static `fn_abs_cb` of src/core/core.c: exactly one argument, or the error "abs takes 1 argument". */
  function CoreAbsCb(args: seq<Node>): (f: Folding)
    ensures |args| != 1 <==> f == FoldError("abs takes 1 argument")
    ensures |args| == 1 ==> f == AbsFold(args[0])
  {
    if |args| != 1 then FoldError("abs takes 1 argument")
    else AbsFold(args[0])
  }

  /** `FN_ABS` of src/core/builtins.c. */
  const LIB_FN_ABS: BuiltinFn := BuiltinFn("abs", 1, 1, LibAbs)

  /** `FN_ABS` of src/core/core.c, the one `core_init` binds. */
  const CORE_FN_ABS: BuiltinFn := BuiltinFn("abs", 1, 1, CoreAbs)

  /**
    Calling a builtin's callback. The library callback on an empty argument
    array reads past it, which has no defined outcome. The model gives that
    case the error "abs takes 1 argument.", a message of its own: the source
    has no such text.
   */
  function ApplyBuiltin(impl: AbsImpl, args: seq<Node>): (f: Folding)
    ensures impl == CoreAbs ==> f == CoreAbsCb(args)
    ensures impl == LibAbs && |args| >= 1 ==> f == LibAbsCb(args)
  {
    match impl
    case CoreAbs => CoreAbsCb(args)
    case LibAbs => if |args| >= 1 then LibAbsCb(args) else FoldError("abs takes 1 argument.")
  }
}
