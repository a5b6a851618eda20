/**
  The expression tree (inc/core/node.h, src/core/node.c).

  The tagged union becomes a datatype, so a node carries its kind's payload
  and nothing else. `node_rat`, `node_unary` (always used with NEG),
  `node_bin` and `node_call` are the datatype's constructors. A C string is
  modelled by its characters before the terminator, and a call's `argc` is
  the length of its argument sequence. Floating-point nodes (NODE_REAL) are
  not part of this model.
 */
module Ast {

  import opened Num
  import Arena

  datatype BinOp = Add | Sub | Mul | Div | Pow

  /** The two `abs` callbacks: the one in src/core/core.c and the one in src/core/builtins.c. */
  datatype AbsImpl = CoreAbs | LibAbs

  /** `builtin_fn_t`; its callback is one of the two `abs` implementations. */
  datatype BuiltinFn = BuiltinFn(name: string, minArity: int, maxArity: int, impl: AbsImpl)

  datatype Node =
    | RatNode(rat: Rat)
    | Symbol(name: string)
    | Neg(arg: Node)
    | Bin(op: BinOp, left: Node, right: Node)
    | Call(fname: string, args: seq<Node>)
    | CallableNode(callable: Callable)

  /** `user_fn_t`. */
  datatype UserFn = UserFn(params: seq<string>, arity: int, body: Node)

  /** `callable_t`: its kind tag is the constructor. */
  datatype Callable =
    | Builtin(minArity: int, maxArity: int, builtin: BuiltinFn)
    | User(minArity: int, maxArity: int, user: UserFn)

  /** `node_symbol(a, s, len)`: the symbol spelled by all of s when len < 0, else by its first len characters. */
  function NodeSymbol(s: string, len: int): (n: Node)
    ensures n.Symbol?
    ensures len < 0 || len > |s| ==> n.name == s
    ensures 0 <= len <= |s| ==> n.name == s[..len]
  {
    var l := if len < 0 then |s| else len;
    Symbol(Arena.StrdupText(s, l))
  }

  /** `node_callable_builtin`: a builtin callable whose arity bounds are the builtin's own. */
  function NodeCallableBuiltin(fn: BuiltinFn): (n: Node)
    ensures n.CallableNode? && n.callable.Builtin? && n.callable.builtin == fn
    ensures n.callable.minArity == fn.minArity && n.callable.maxArity == fn.maxArity
  {
    CallableNode(Builtin(fn.minArity, fn.maxArity, fn))
  }

  /** `node_callable_user`: a user callable accepting exactly `arity` arguments. */
  function NodeCallableUser(uf: UserFn): (n: Node)
    ensures n.CallableNode? && n.callable.User? && n.callable.user == uf
    ensures n.callable.minArity == uf.arity && n.callable.maxArity == uf.arity
  {
    CallableNode(User(uf.arity, uf.arity, uf))
  }

  /**
    `node_deep_copy`: fresh nodes for the whole tree, symbol texts and call
    names duplicated, a callable shared. As a value the copy is the
    original: kinds, rationals, texts, argument counts and order all agree.
   */
  function DeepCopy(n: Node): (r: Node)
    ensures r == n
    decreases n, 1
  {
    match n
    case Symbol(s) => assert s[..|s|] == s; Symbol(Arena.StrdupText(s, -1))
    case Neg(a) => Neg(DeepCopy(a))
    case Bin(op, a, b) => Bin(op, DeepCopy(a), DeepCopy(b))
    case Call(name, args) => assert name[..|name|] == name; Call(Arena.StrdupText(name, -1), DeepCopyArgs(args, n))
    case _ => n
  }

  /** The argument loop of `node_deep_copy`: each argument copied, in order. */
  function DeepCopyArgs(args: seq<Node>, ghost parent: Node): (r: seq<Node>)
    requires forall k :: 0 <= k < |args| ==> args[k] < parent
    ensures r == args
    decreases parent, 0, |args|
  {
    if |args| == 0 then []
    else DeepCopyArgs(args[..|args| - 1], parent) + [DeepCopy(args[|args| - 1])]
  }
}
