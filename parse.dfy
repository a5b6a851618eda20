/**
  The Pratt parser (src/core/parse.c).

  The grammar is given twice: as functions over the token sequence the
  lexer hands out for a line (`Lex.Tokens`), with positions instead of a
  moving lexer, and as the `Parser` class whose methods take tokens from a
  `Lex.Lexer` and are proved to compute those functions. Allocation in the
  parse arena is assumed to succeed.
 */
module Parse {

  import opened Wrappers
  import opened Num
  import opened Lex
  import opened Ast
  import Arena

  /** What a parsing function yields: a value and the position after it, or the message it left in `p->err`. */
  datatype Parsed<T> = Success(value: T, pos: nat) | Failure(msg: string)

  /** The token at position i; past the end, Eof. */
  function TokAt(ts: seq<Token>, i: nat): Token {
    if i < |ts| then ts[i] else MakeTok(Eof, 0, 0)
  }

  /** The text `arena_strdup(t.beg, t.len)` copies for an identifier token of input s. */
  function TokText(s: string, t: Token): string {
    if 0 <= t.beg <= |s| then Arena.StrdupText(s[t.beg..], t.len) else ""
  }

  /** `lbp`: the left binding power of a token. */
  function Lbp(k: TokKind): int {
    match k
    case Plus => 10
    case Minus => 10
    case Star => 20
    case Slash => 20
    case Caret => 30
    case _ => 0
  }

  /** The tree operator `led` builds for an infix token, if any. */
  function InfixOp(k: TokKind): Option<BinOp> {
    match k
    case Plus => Some(Add)
    case Minus => Some(Sub)
    case Star => Some(Mul)
    case Slash => Some(Div)
    case Caret => Some(Pow)
    case _ => None
  }

  /** Exactly the tokens with a positive binding power are infix operators. */
  lemma InfixTokens(k: TokKind)
    ensures Lbp(k) > 0 <==> InfixOp(k).Some?
    ensures Lbp(k) == 10 <==> k == Plus || k == Minus
    ensures Lbp(k) == 20 <==> k == Star || k == Slash
    ensures Lbp(k) == 30 <==> k == Caret
    ensures Lbp(k) == 0 <==> InfixOp(k).None?
  {
  }

  // ---------------------------------------------------------------------------
  // The grammar as functions of the token sequence
  // ---------------------------------------------------------------------------

  /**
    `nud`: take a token; a number is the rational n/1, an identifier is a
    call when `(` follows and a symbol otherwise, `-` negates an operand
    parsed at 25, `(` parses a full expression and needs `)`.
   */
  function NudSpec(s: string, ts: seq<Token>, pos: nat): (r: Parsed<Node>)
    requires pos <= |ts|
    ensures r.Success? ==> pos < r.pos <= |ts|
    decreases |ts| - pos, 1
  {
    var t := TokAt(ts, pos);
    if t.kind == Number then Success(RatNode(RatFromI64(t.i64)), pos + 1)
    else if t.kind == Ident then
      if TokAt(ts, pos + 1).kind == LParen then
        match ArgListSpec(s, ts, pos + 2)
        case Failure(m) => Failure(m)
        case Success(args, p) => Success(Call(TokText(s, t), args), p)
      else Success(Symbol(TokText(s, t)), pos + 1)
    else if t.kind == Minus then
      match ExprSpec(s, ts, pos + 1, 25)
      case Failure(m) => Failure(m)
      case Success(x, p) => Success(Neg(x), p)
    else if t.kind == LParen then
      match ExprSpec(s, ts, pos + 1, 0)
      case Failure(m) => Failure(m)
      case Success(x, p) => if TokAt(ts, p).kind == RParen then Success(x, p + 1) else Failure("expected ')'")
    else Failure("unexpected token")
  }

  /** The binding power `led` parses a right operand at: one less for `^`, which makes it right associative. */
  function RightBp(k: TokKind): int {
    if k == Caret then Lbp(k) - 1 else Lbp(k)
  }

  /** `led`: the right operand of `op`, parsed at its right binding power, combined with the left one. */
  function LedSpec(s: string, ts: seq<Token>, left: Node, op: Token, pos: nat): (r: Parsed<Node>)
    requires pos <= |ts|
    ensures r.Success? ==> pos < r.pos <= |ts|
    decreases |ts| - pos, 3
  {
    match InfixOp(op.kind)
    case None => Failure("invalid operator")
    case Some(o) =>
      match ExprSpec(s, ts, pos, RightBp(op.kind))
      case Failure(m) => Failure(m)
      case Success(right, p) => Success(Bin(o, left, right), p)
  }

  /** `expr`: a primary, then infix operators for as long as they bind more tightly than minbp. */
  function ExprSpec(s: string, ts: seq<Token>, pos: nat, minbp: int): (r: Parsed<Node>)
    requires pos <= |ts| && minbp >= 0
    ensures r.Success? ==> pos < r.pos <= |ts|
    decreases |ts| - pos, 2
  {
    match NudSpec(s, ts, pos)
    case Failure(m) => Failure(m)
    case Success(left, p) => ExprLoopSpec(s, ts, left, p, minbp)
  }

  /** The `for (;;)` loop of `expr` with the tree built so far. */
  function ExprLoopSpec(s: string, ts: seq<Token>, left: Node, pos: nat, minbp: int): (r: Parsed<Node>)
    requires pos <= |ts| && minbp >= 0
    ensures r.Success? ==> pos <= r.pos <= |ts|
    decreases |ts| - pos, 0
  {
    var t := TokAt(ts, pos);
    if Lbp(t.kind) <= minbp then Success(left, pos)
    else
      match LedSpec(s, ts, left, t, pos + 1)
      case Failure(m) => Failure(m)
      case Success(l, p) => ExprLoopSpec(s, ts, l, p, minbp)
  }

  /** `parse_arg_list`, after the `(`: `)` at once, or expressions separated by `,` and closed by `)`. */
  function ArgListSpec(s: string, ts: seq<Token>, pos: nat): (r: Parsed<seq<Node>>)
    requires pos <= |ts|
    ensures r.Success? ==> pos < r.pos <= |ts|
    decreases |ts| - pos, 5
  {
    if TokAt(ts, pos).kind == RParen then Success([], pos + 1)
    else ArgsLoopSpec(s, ts, pos, [])
  }

  /** The loop of `parse_arg_list` with the arguments parsed so far. */
  function ArgsLoopSpec(s: string, ts: seq<Token>, pos: nat, acc: seq<Node>): (r: Parsed<seq<Node>>)
    requires pos <= |ts|
    ensures r.Success? ==> pos < r.pos <= |ts|
    decreases |ts| - pos, 4
  {
    match ArgItem(s, ts, pos)
    case Failure(m) => Failure(m)
    case Success((e, more), p) => if more then ArgsLoopSpec(s, ts, p, acc + [e]) else Success(acc + [e], p)
  }

  /**
    One round of the loop of `parse_arg_list`: an expression and the token
    after it, `,` (more to come) or `)` (the last argument).
   */
  function ArgItem(s: string, ts: seq<Token>, pos: nat): (r: Parsed<(Node, bool)>)
    requires pos <= |ts|
    ensures r.Success? ==> pos < r.pos <= |ts|
    decreases |ts| - pos, 3
  {
    match ExprSpec(s, ts, pos, 0)
    case Failure(m) => Failure(m)
    case Success(e, p) => Separated(ts, p, e)
  }

  /** A list item x ends at p: `,` means more items follow, `)` closes the list, anything else is an error. */
  function Separated<T>(ts: seq<Token>, p: nat, x: T): (r: Parsed<(T, bool)>)
    requires p <= |ts|
    ensures r.Success? ==> r.pos == p + 1 <= |ts| && r.value.0 == x
  {
    if TokAt(ts, p).kind == Comma then Success((x, true), p + 1)
    else if TokAt(ts, p).kind == RParen then Success((x, false), p + 1)
    else Failure("expected ',' or ')'")
  }

  /** `parse_param_list`, after the `(`: `)` at once, or identifiers separated by `,` and closed by `)`. */
  function ParamListSpec(s: string, ts: seq<Token>, pos: nat): (r: Parsed<seq<string>>)
    requires pos <= |ts|
    ensures r.Success? ==> pos < r.pos <= |ts|
  {
    if TokAt(ts, pos).kind == RParen then Success([], pos + 1)
    else ParamsLoopSpec(s, ts, pos, [])
  }

  /** The loop of `parse_param_list` with the names read so far. */
  function ParamsLoopSpec(s: string, ts: seq<Token>, pos: nat, acc: seq<string>): (r: Parsed<seq<string>>)
    requires pos <= |ts|
    ensures r.Success? ==> pos < r.pos <= |ts|
    decreases |ts| - pos
  {
    match ParamItem(s, ts, pos)
    case Failure(m) => Failure(m)
    case Success((x, more), p) => if more then ParamsLoopSpec(s, ts, p, acc + [x]) else Success(acc + [x], p)
  }

  /** One round of the loop of `parse_param_list`: an identifier and the token after it. */
  function ParamItem(s: string, ts: seq<Token>, pos: nat): (r: Parsed<(string, bool)>)
    requires pos <= |ts|
    ensures r.Success? ==> pos < r.pos <= |ts|
  {
    var t := TokAt(ts, pos);
    if t.kind != Ident then Failure("expected parameter name")
    else Separated(ts, pos + 1, TokText(s, t))
  }

  /** `looks_like_funcdef`: IDENT `(` [IDENT {`,` IDENT}] `)` `=` at the start of the tokens. */
  function LooksLikeFuncdefSpec(ts: seq<Token>): bool {
    TokAt(ts, 0).kind == Ident && TokAt(ts, 1).kind == LParen
    && if TokAt(ts, 2).kind == RParen then TokAt(ts, 3).kind == Equals else FuncdefParams(ts, 2)
  }

  /** The loop of `looks_like_funcdef` over the parameter names. */
  function FuncdefParams(ts: seq<Token>, pos: nat): bool
    decreases |ts| - pos
  {
    if TokAt(ts, pos).kind != Ident then false
    else if TokAt(ts, pos + 1).kind == Comma then FuncdefParams(ts, pos + 2)
    else TokAt(ts, pos + 1).kind == RParen && TokAt(ts, pos + 2).kind == Equals
  }

  /**
    `stmt_t`. `NoStmt` is the zeroed statement (null name and expression);
    its `err` is what `*err` was set to, None where `parse_stmnt` leaves it
    unset.
   */
  datatype Stmt =
    | ExprStmt(expr: Node)
    | AssignStmt(name: string, expr: Node)
    | FuncDefStmt(name: string, params: seq<string>, body: Node)
    | NoStmt(err: Option<string>)

  /** The expression path of `parse_stmnt`: a full expression that must end the line. */
  function ExprStatement(s: string, ts: seq<Token>): Stmt {
    match ExprSpec(s, ts, 0, 0)
    case Failure(m) => NoStmt(Some(m))
    case Success(e, q) => if TokAt(ts, q).kind != Eof then NoStmt(None) else ExprStmt(e)
  }

  /** The assignment path of `parse_stmnt`, after IDENT `=`: a full expression that must end the line. */
  function AssignStatement(s: string, ts: seq<Token>): Stmt
    requires TokAt(ts, 1).kind == Equals
  {
    match ExprSpec(s, ts, 2, 0)
    case Failure(m) => NoStmt(Some(m))
    case Success(rhs, q) => if TokAt(ts, q).kind != Eof then NoStmt(None) else AssignStmt(TokText(s, TokAt(ts, 0)), rhs)
  }

  /**
    The definition path of `parse_stmnt`, after IDENT `(`: the parameters,
    `=` and a body that must end the line; without the `=` the line is
    parsed again as an expression.
   */
  function FuncdefStatement(s: string, ts: seq<Token>): Stmt
    requires TokAt(ts, 1).kind == LParen
  {
    match ParamListSpec(s, ts, 2)
    case Failure(m) => NoStmt(Some(m))
    case Success(ps, p) =>
      if TokAt(ts, p).kind != Equals then ExprStatement(s, ts)
      else
        match ExprSpec(s, ts, p + 1, 0)
        case Failure(m) => NoStmt(Some(m))
        case Success(body, q) => if TokAt(ts, q).kind != Eof then NoStmt(None) else FuncDefStmt(TokText(s, TokAt(ts, 0)), ps, body)
  }

  /**
    `parse_stmnt`: a function definition when `looks_like_funcdef` agrees, an
    assignment for IDENT `=`, and otherwise the line is lexed again from the
    start and parsed as an expression.
   */
  function ParseStmtSpec(s: string): Stmt {
    var ts := Tokens(s);
    if TokAt(ts, 0).kind == Ident && TokAt(ts, 1).kind == LParen && LooksLikeFuncdefSpec(ts) then FuncdefStatement(s, ts)
    else if TokAt(ts, 0).kind == Ident && TokAt(ts, 1).kind == Equals then AssignStatement(s, ts)
    else ExprStatement(s, ts)
  }

  // ---------------------------------------------------------------------------
  // Properties of the grammar
  // ---------------------------------------------------------------------------

  /** An expression loop that succeeds stops at a token that does not bind more tightly than minbp. */
  lemma {:induction false} ExprLoopStops(s: string, ts: seq<Token>, left: Node, pos: nat, minbp: int)
    requires pos <= |ts| && minbp >= 0
    ensures var r := ExprLoopSpec(s, ts, left, pos, minbp);
      r.Success? ==> Lbp(TokAt(ts, r.pos).kind) <= minbp
    decreases |ts| - pos
  {
    var t := TokAt(ts, pos);
    if Lbp(t.kind) > minbp {
      var l := LedSpec(s, ts, left, t, pos + 1);
      if l.Success? {
        ExprLoopStops(s, ts, l.value, l.pos, minbp);
      }
    }
  }

  /**
    `expr` is greedy: a successful parse at minbp consumes at least one
    token and stops only at a token that does not bind more tightly than
    minbp; a full expression (minbp 0) stops at a token that is not an
    infix operator.
   */
  lemma ExprStops(s: string, ts: seq<Token>, pos: nat, minbp: int)
    requires pos <= |ts| && minbp >= 0
    ensures var r := ExprSpec(s, ts, pos, minbp);
      r.Success? ==> pos < r.pos && Lbp(TokAt(ts, r.pos).kind) <= minbp
    ensures var r := ExprSpec(s, ts, pos, minbp);
      r.Success? && minbp == 0 ==> InfixOp(TokAt(ts, r.pos).kind).None?
  {
    var n := NudSpec(s, ts, pos);
    if n.Success? {
      ExprLoopStops(s, ts, n.value, n.pos, minbp);
      var r := ExprSpec(s, ts, pos, minbp);
      if r.Success? {
        InfixTokens(TokAt(ts, r.pos).kind);
      }
    }
  }

  /** A number token at k. */
  predicate NumAt(ts: seq<Token>, k: nat) {
    k < |ts| && ts[k].kind == Number
  }

  /** The tree `nud` builds for the number token at k. */
  function Lit(ts: seq<Token>, k: nat): Node
    requires k < |ts|
  {
    RatNode(RatFromI64(ts[k].i64))
  }

  /** A number followed by a token that does not bind more tightly than minbp is a whole operand. */
  lemma NumberOperand(s: string, ts: seq<Token>, k: nat, minbp: int)
    requires NumAt(ts, k) && minbp >= 0 && Lbp(TokAt(ts, k + 1).kind) <= minbp
    ensures ExprSpec(s, ts, k, minbp) == Success(Lit(ts, k), k + 1)
  {
    assert NudSpec(s, ts, k) == Success(Lit(ts, k), k + 1);
  }

  /** The infix operator at k, if the token there is one. */
  function OpAt(ts: seq<Token>, k: nat): BinOp
    requires k < |ts| && Lbp(ts[k].kind) > 0
  {
    InfixTokens(ts[k].kind);
    InfixOp(ts[k].kind).value
  }

  /**
    Precedence and associativity: in `a op1 b op2 c` over numbers, `op2`
    takes `b` exactly when it binds more tightly than the right binding
    power of `op1`; otherwise `a op1 b` is grouped first.
   */
  lemma Grouping(s: string, ts: seq<Token>, pos: nat, minbp: int)
    requires NumAt(ts, pos) && NumAt(ts, pos + 2) && NumAt(ts, pos + 4) && minbp >= 0
    requires Lbp(ts[pos + 1].kind) > minbp && Lbp(ts[pos + 3].kind) > minbp
    requires Lbp(TokAt(ts, pos + 5).kind) <= minbp
    ensures var a, b, c := Lit(ts, pos), Lit(ts, pos + 2), Lit(ts, pos + 4);
      var o1, o2 := OpAt(ts, pos + 1), OpAt(ts, pos + 3);
      ExprSpec(s, ts, pos, minbp) ==
        if Lbp(ts[pos + 3].kind) > RightBp(ts[pos + 1].kind) then Success(Bin(o1, a, Bin(o2, b, c)), pos + 5)
        else Success(Bin(o2, Bin(o1, a, b), c), pos + 5)
  {
    var a, b, c := Lit(ts, pos), Lit(ts, pos + 2), Lit(ts, pos + 4);
    var t1, t3 := ts[pos + 1], ts[pos + 3];
    var o1, o2 := OpAt(ts, pos + 1), OpAt(ts, pos + 3);
    var rb1, rb2 := RightBp(t1.kind), RightBp(t3.kind);
    InfixTokens(t1.kind);
    InfixTokens(t3.kind);
    assert NudSpec(s, ts, pos) == Success(a, pos + 1);
    assert NudSpec(s, ts, pos + 2) == Success(b, pos + 3);
    NumberOperand(s, ts, pos + 4, rb2);
    var bc := Bin(o2, b, c);
    if Lbp(t3.kind) > rb1 {
      assert LedSpec(s, ts, b, t3, pos + 4) == Success(bc, pos + 5);
      assert ExprLoopSpec(s, ts, bc, pos + 5, rb1) == Success(bc, pos + 5);
      assert ExprLoopSpec(s, ts, b, pos + 3, rb1) == Success(bc, pos + 5);
      assert LedSpec(s, ts, a, t1, pos + 2) == Success(Bin(o1, a, bc), pos + 5);
      assert ExprLoopSpec(s, ts, Bin(o1, a, bc), pos + 5, minbp) == Success(Bin(o1, a, bc), pos + 5);
    } else {
      var ab := Bin(o1, a, b);
      assert ExprLoopSpec(s, ts, b, pos + 3, rb1) == Success(b, pos + 3);
      assert LedSpec(s, ts, a, t1, pos + 2) == Success(ab, pos + 3);
      assert LedSpec(s, ts, ab, t3, pos + 4) == Success(Bin(o2, ab, c), pos + 5);
      assert ExprLoopSpec(s, ts, Bin(o2, ab, c), pos + 5, minbp) == Success(Bin(o2, ab, c), pos + 5);
      assert ExprLoopSpec(s, ts, ab, pos + 3, minbp) == Success(Bin(o2, ab, c), pos + 5);
    }
  }

  /**
    What the rule means for the five operators: `+ -` and `* /` group to
    the left among themselves, `^` groups to the right, and a tighter
    operator on either side takes the middle operand.
   */
  lemma OperatorTable(s: string, ts: seq<Token>, pos: nat)
    requires NumAt(ts, pos) && NumAt(ts, pos + 2) && NumAt(ts, pos + 4)
    requires Lbp(ts[pos + 1].kind) > 0 && Lbp(ts[pos + 3].kind) > 0 && Lbp(TokAt(ts, pos + 5).kind) == 0
    ensures var a, b, c := Lit(ts, pos), Lit(ts, pos + 2), Lit(ts, pos + 4);
      var k1, k2 := ts[pos + 1].kind, ts[pos + 3].kind;
      var o1, o2 := OpAt(ts, pos + 1), OpAt(ts, pos + 3);
      var r := ExprSpec(s, ts, pos, 0);
      && r.Success? && r.pos == pos + 5
      && (Lbp(k1) == Lbp(k2) && k1 != Caret ==> r.value == Bin(o2, Bin(o1, a, b), c))
      && (k1 == Caret && k2 == Caret ==> r.value == Bin(Pow, a, Bin(Pow, b, c)))
      && (Lbp(k1) < Lbp(k2) ==> r.value == Bin(o1, a, Bin(o2, b, c)))
      && (Lbp(k1) > Lbp(k2) ==> r.value == Bin(o2, Bin(o1, a, b), c))
  {
    InfixTokens(ts[pos + 1].kind);
    InfixTokens(ts[pos + 3].kind);
    Grouping(s, ts, pos, 0);
  }

  /**
    Unary minus parses its operand at 25: it takes a power with it, but
    `* / + -` apply to the negated number.
   */
  lemma NegationScope(s: string, ts: seq<Token>, pos: nat, minbp: int)
    requires pos + 1 < |ts| && ts[pos].kind == Minus && NumAt(ts, pos + 1) && NumAt(ts, pos + 3) && minbp >= 0
    requires Lbp(ts[pos + 2].kind) > minbp && Lbp(TokAt(ts, pos + 4).kind) <= minbp
    ensures var a, b, o := Lit(ts, pos + 1), Lit(ts, pos + 3), OpAt(ts, pos + 2);
      ExprSpec(s, ts, pos, minbp) ==
        if ts[pos + 2].kind == Caret then Success(Neg(Bin(Pow, a, b)), pos + 4)
        else Success(Bin(o, Neg(a), b), pos + 4)
  {
    var a, b, o := Lit(ts, pos + 1), Lit(ts, pos + 3), OpAt(ts, pos + 2);
    var t := ts[pos + 2];
    InfixTokens(t.kind);
    assert NudSpec(s, ts, pos + 1) == Success(a, pos + 2);
    NumberOperand(s, ts, pos + 3, RightBp(t.kind));
    if t.kind == Caret {
      assert LedSpec(s, ts, a, t, pos + 3) == Success(Bin(Pow, a, b), pos + 4);
      assert ExprLoopSpec(s, ts, Bin(Pow, a, b), pos + 4, 25) == Success(Bin(Pow, a, b), pos + 4);
      assert ExprLoopSpec(s, ts, a, pos + 2, 25) == Success(Bin(Pow, a, b), pos + 4);
      assert NudSpec(s, ts, pos) == Success(Neg(Bin(Pow, a, b)), pos + 4);
      assert ExprLoopSpec(s, ts, Neg(Bin(Pow, a, b)), pos + 4, minbp) == Success(Neg(Bin(Pow, a, b)), pos + 4);
    } else {
      assert ExprLoopSpec(s, ts, a, pos + 2, 25) == Success(a, pos + 2);
      assert NudSpec(s, ts, pos) == Success(Neg(a), pos + 2);
      assert LedSpec(s, ts, Neg(a), t, pos + 3) == Success(Bin(o, Neg(a), b), pos + 4);
      assert ExprLoopSpec(s, ts, Bin(o, Neg(a), b), pos + 4, minbp) == Success(Bin(o, Neg(a), b), pos + 4);
    }
  }

  /** The argument loop keeps the arguments already parsed, in order, in front of the ones it adds. */
  lemma {:induction false} ArgsInOrder(s: string, ts: seq<Token>, pos: nat, acc: seq<Node>)
    requires pos <= |ts|
    ensures var r, r0 := ArgsLoopSpec(s, ts, pos, acc), ArgsLoopSpec(s, ts, pos, []);
      (r0.Failure? ==> r == r0) && (r0.Success? ==> r == Success(acc + r0.value, r0.pos) && |r0.value| > 0)
    decreases |ts| - pos
  {
    var it := ArgItem(s, ts, pos);
    if it.Success? && it.value.1 {
      var e, p := it.value.0, it.pos;
      ArgsInOrder(s, ts, p, acc + [e]);
      ArgsInOrder(s, ts, p, [e]);
      assert [] + [e] == [e];
      assert ArgsLoopSpec(s, ts, pos, acc) == ArgsLoopSpec(s, ts, p, acc + [e]);
      assert ArgsLoopSpec(s, ts, pos, []) == ArgsLoopSpec(s, ts, p, [e]);
      var rest := ArgsLoopSpec(s, ts, p, []);
      if rest.Success? {
        assert acc + [e] + rest.value == acc + ([e] + rest.value);
      }
    } else if it.Success? {
      assert [] + [it.value.0] == [it.value.0];
    }
  }


  /** The parameter loop keeps the names already read, in order, in front of the ones it adds. */
  lemma {:induction false} ParamsInOrder(s: string, ts: seq<Token>, pos: nat, acc: seq<string>)
    requires pos <= |ts|
    ensures var r, r0 := ParamsLoopSpec(s, ts, pos, acc), ParamsLoopSpec(s, ts, pos, []);
      (r0.Failure? ==> r == r0) && (r0.Success? ==> r == Success(acc + r0.value, r0.pos) && |r0.value| > 0)
    decreases |ts| - pos
  {
    var it := ParamItem(s, ts, pos);
    if it.Success? && it.value.1 {
      var x, p := it.value.0, it.pos;
      ParamsInOrder(s, ts, p, acc + [x]);
      ParamsInOrder(s, ts, p, [x]);
      assert [] + [x] == [x];
      assert ParamsLoopSpec(s, ts, pos, acc) == ParamsLoopSpec(s, ts, p, acc + [x]);
      assert ParamsLoopSpec(s, ts, pos, []) == ParamsLoopSpec(s, ts, p, [x]);
      var rest := ParamsLoopSpec(s, ts, p, []);
      if rest.Success? {
        assert acc + [x] + rest.value == acc + ([x] + rest.value);
      }
    } else if it.Success? {
      assert [] + [it.value.0] == [it.value.0];
    }
  }


  /** A successful argument or parameter list ends with the `)` it took. */
  lemma ListsEndAtParen(s: string, ts: seq<Token>, pos: nat)
    requires pos <= |ts|
    ensures var r := ArgListSpec(s, ts, pos); r.Success? ==> TokAt(ts, r.pos - 1).kind == RParen
    ensures var r := ParamListSpec(s, ts, pos); r.Success? ==> TokAt(ts, r.pos - 1).kind == RParen
  {
    if TokAt(ts, pos).kind != RParen {
      ArgsEndAtParen(s, ts, pos, []);
      ParamsEndAtParen(s, ts, pos, []);
    }
  }

  lemma {:induction false} ArgsEndAtParen(s: string, ts: seq<Token>, pos: nat, acc: seq<Node>)
    requires pos <= |ts|
    ensures var r := ArgsLoopSpec(s, ts, pos, acc); r.Success? ==> TokAt(ts, r.pos - 1).kind == RParen
    decreases |ts| - pos
  {
    var it := ArgItem(s, ts, pos);
    if it.Success? && it.value.1 {
      ArgsEndAtParen(s, ts, it.pos, acc + [it.value.0]);
    }
  }

  lemma {:induction false} ParamsEndAtParen(s: string, ts: seq<Token>, pos: nat, acc: seq<string>)
    requires pos <= |ts|
    ensures var r := ParamsLoopSpec(s, ts, pos, acc); r.Success? ==> TokAt(ts, r.pos - 1).kind == RParen
    decreases |ts| - pos
  {
    var it := ParamItem(s, ts, pos);
    if it.Success? && it.value.1 {
      ParamsEndAtParen(s, ts, it.pos, acc + [it.value.0]);
    }
  }

  /** The look-ahead loop over parameter names accepts exactly what the parameter loop parses, when `=` follows. */
  lemma {:induction false} FuncdefParamsMeaning(s: string, ts: seq<Token>, pos: nat, acc: seq<string>)
    requires pos <= |ts|
    ensures var r := ParamsLoopSpec(s, ts, pos, acc);
      FuncdefParams(ts, pos) <==> r.Success? && TokAt(ts, r.pos).kind == Equals
    decreases |ts| - pos
  {
    var it := ParamItem(s, ts, pos);
    if it.Success? && it.value.1 {
      FuncdefParamsMeaning(s, ts, it.pos, acc + [it.value.0]);
    }
  }

  /**
    `looks_like_funcdef` holds exactly when the line is IDENT `(` followed by
    a parameter list that parses and then `=`: the look-ahead never disagrees
    with the parameter parser.
   */
  lemma LooksLikeFuncdefMeaning(s: string, ts: seq<Token>)
    ensures LooksLikeFuncdefSpec(ts) <==>
      TokAt(ts, 0).kind == Ident && TokAt(ts, 1).kind == LParen
      && ParamListSpec(s, ts, 2).Success? && TokAt(ts, ParamListSpec(s, ts, 2).pos).kind == Equals
  {
    if TokAt(ts, 0).kind == Ident && TokAt(ts, 1).kind == LParen && TokAt(ts, 2).kind != RParen {
      FuncdefParamsMeaning(s, ts, 2, []);
    }
  }

  /**
    How `parse_stmnt` classifies a line: a line that looks like a definition
    is a definition or an error, never re-read as an expression; IDENT `=`
    is an assignment or an error; an expression statement is a whole-line
    expression on a line that is neither.
   */
  lemma StatementKinds(s: string)
    ensures var ts, st := Tokens(s), ParseStmtSpec(s);
      LooksLikeFuncdefSpec(ts) ==> st.FuncDefStmt? || st.NoStmt?
    ensures var ts, st := Tokens(s), ParseStmtSpec(s);
      TokAt(ts, 0).kind == Ident && TokAt(ts, 1).kind == Equals ==> st.AssignStmt? || st.NoStmt?
    ensures var ts, st := Tokens(s), ParseStmtSpec(s);
      st.FuncDefStmt? ==>
        LooksLikeFuncdefSpec(ts) && st.name == TokText(s, TokAt(ts, 0))
        && ParamListSpec(s, ts, 2).Success? && st.params == ParamListSpec(s, ts, 2).value
    ensures var ts, st := Tokens(s), ParseStmtSpec(s);
      st.AssignStmt? ==>
        TokAt(ts, 0).kind == Ident && TokAt(ts, 1).kind == Equals && st.name == TokText(s, TokAt(ts, 0))
        && ExprSpec(s, ts, 2, 0).Success? && st.expr == ExprSpec(s, ts, 2, 0).value
        && TokAt(ts, ExprSpec(s, ts, 2, 0).pos).kind == Eof
    ensures var ts, st := Tokens(s), ParseStmtSpec(s);
      st.ExprStmt? ==>
        !LooksLikeFuncdefSpec(ts) && !(TokAt(ts, 0).kind == Ident && TokAt(ts, 1).kind == Equals)
        && ExprSpec(s, ts, 0, 0).Success? && st.expr == ExprSpec(s, ts, 0, 0).value
        && TokAt(ts, ExprSpec(s, ts, 0, 0).pos).kind == Eof
  {
    var ts := Tokens(s);
    LooksLikeFuncdefMeaning(s, ts);
  }

  /**
    Trailing input: a whole-line parse that stops before the end reports
    no message. The token it stopped at is not an infix operator.
   */
  lemma TrailingInput(s: string)
    requires var ts := Tokens(s);
      !LooksLikeFuncdefSpec(ts) && !(TokAt(ts, 0).kind == Ident && TokAt(ts, 1).kind == Equals)
    ensures var ts, st := Tokens(s), ParseStmtSpec(s);
      st == NoStmt(None) <==> ExprSpec(s, ts, 0, 0).Success? && TokAt(ts, ExprSpec(s, ts, 0, 0).pos).kind != Eof
    ensures var ts, st := Tokens(s), ParseStmtSpec(s);
      st == NoStmt(None) ==> InfixOp(TokAt(ts, ExprSpec(s, ts, 0, 0).pos).kind).None?
  {
    ExprStops(s, Tokens(s), 0, 0);
  }

  // ---------------------------------------------------------------------------
  // The parser over a lexer
  // ---------------------------------------------------------------------------

  /** The lexer is about to hand out ts[pos..]. */
  predicate LexAt(lx: Lexer, ts: seq<Token>, pos: nat)
    reads lx
  {
    lx.Valid() && pos < |ts| && Stream(lx.State()) == ts[pos..]
  }

  /** `lex_next` against the token sequence: it hands out ts[pos], and past a token that is not Eof the lexer is at pos + 1. */
  method TakeTok(lx: Lexer, ghost ts: seq<Token>, ghost pos: nat) returns (t: Token)
    requires LexAt(lx, ts, pos)
    modifies lx
    ensures t == ts[pos] && lx.Valid() && lx.s == old(lx.s)
    ensures t.kind != Eof ==> LexAt(lx, ts, pos + 1)
  {
    ghost var st := lx.State();
    t := lx.Next();
    StepGood(st);
    if t.kind != Eof {
      StreamStep(st);
      assert ts[pos..][1..] == ts[pos + 1..];
    }
  }

  /** A copy of the first len cells of a into a fresh array of ncap cells: the list growth of the parser. */
  method Grow<T(0)>(a: array<T>, len: nat, ncap: nat) returns (b: array<T>)
    requires len <= a.Length && len <= ncap
    ensures fresh(b) && b.Length == ncap && b[..len] == a[..len]
  {
    b := new T[ncap];
    for k := 0 to len
      invariant b[..k] == a[..k]
    {
      b[k] := a[k];
    }
  }

  /** The store step of both list loops: grow a full array to twice its size, then write x at len. */
  method Push<T(0)>(a: array<T>, len: nat, x: T) returns (b: array<T>)
    requires len <= a.Length && a.Length > 0
    modifies a
    ensures b == a || fresh(b)
    ensures b.Length == if len == a.Length then 2 * a.Length else a.Length
    ensures b[..len + 1] == old(a[..len]) + [x]
  {
    b := a;
    if len == a.Length {
      b := Grow(a, len, 2 * a.Length);
    }
    b[len] := x;
    assert b[..len + 1] == b[..len] + [x];
  }

  /** `parser_t`: a lexer over the input line and the last error message. */
  class Parser {
    const input: string
    const lx: Lexer
    var err: string

    /** The lexer reads this parser's input and is about to hand out ts[pos..]. */
    predicate At(ts: seq<Token>, pos: nat)
      reads this, lx
    {
      LexAt(lx, ts, pos) && lx.s == input
    }

    /** How a parsing method's result and state agree with the function giving the grammar. */
    predicate Reports<T(==)>(ts: seq<Token>, res: Parsed<T>, r: Option<T>)
      reads this, lx
    {
      match res
      case Success(v, p) => r == Some(v) && At(ts, p)
      case Failure(m) => r.None? && err == m && lx.Valid() && lx.s == input
    }

    /** A parser at the start of a line with no message (`parser_t p = {0}` and `lex_init`). */
    constructor (line: string)
      ensures input == line && err == "" && fresh(lx) && At(Tokens(line), 0)
    {
      input := line;
      lx := new Lexer(line);
      err := "";
      new;
      LexRealShape(line, 0);
      assert Tokens(line)[0..] == Tokens(line);
    }

    /** `parser_set_errormsg`. */
    method SetError(msg: string)
      modifies this
      ensures err == msg
    {
      err := msg;
    }

    /** `tok_expect`: take a token of kind k, or leave msg and take nothing. */
    method Expect(ghost ts: seq<Token>, ghost pos: nat, k: TokKind, msg: string) returns (ok: bool)
      requires At(ts, pos) && k != Eof
      modifies this, lx
      ensures ok <==> ts[pos].kind == k
      ensures ok ==> At(ts, pos + 1)
      ensures !ok ==> err == msg && At(ts, pos)
    {
      if lx.Peek().kind == k {
        var _ := TakeTok(lx, ts, pos);
        return true;
      }
      SetError(msg);
      return false;
    }

    /** `nud`. */
    method Nud(ghost ts: seq<Token>, ghost pos: nat) returns (r: Option<Node>)
      requires At(ts, pos)
      modifies this, lx
      ensures Reports(ts, NudSpec(input, ts, pos), r)
      decreases |ts| - pos, 1
    {
      var t := TakeTok(lx, ts, pos);
      if t.kind == Number {
        return Some(RatNode(RatFromI64(t.i64)));
      }
      if t.kind == Ident {
        r := Name(ts, pos, t);
        return;
      }
      if t.kind == Minus {
        var x := Expr(ts, pos + 1, 25);
        if x.None? {
          return None;
        }
        return Some(Neg(x.value));
      }
      if t.kind == LParen {
        r := Group(ts, pos);
        return;
      }
      SetError("unexpected token");
      return None;
    }

    /** The identifier case of `nud`, once the identifier is taken: a call when `(` follows, else a symbol. */
    method Name(ghost ts: seq<Token>, ghost pos: nat, t: Token) returns (r: Option<Node>)
      requires At(ts, pos + 1) && t == ts[pos] && t.kind == Ident
      modifies this, lx
      ensures Reports(ts, NudSpec(input, ts, pos), r)
      decreases |ts| - pos, 0
    {
      var name := TokText(input, t);
      if lx.Peek().kind == LParen {
        var _ := TakeTok(lx, ts, pos + 1);
        var args := ArgList(ts, pos + 2);
        if args.None? {
          return None;
        }
        return Some(Call(name, args.value));
      }
      return Some(Symbol(name));
    }

    /** The `(` case of `nud`, once the `(` is taken: an expression and the closing `)`. */
    method Group(ghost ts: seq<Token>, ghost pos: nat) returns (r: Option<Node>)
      requires At(ts, pos + 1) && ts[pos].kind == LParen
      modifies this, lx
      ensures Reports(ts, NudSpec(input, ts, pos), r)
      decreases |ts| - pos, 0
    {
      var x := Expr(ts, pos + 1, 0);
      if x.None? {
        return None;
      }
      var ok := Expect(ts, ExprSpec(input, ts, pos + 1, 0).pos, RParen, "expected ')'");
      if !ok {
        return None;
      }
      return x;
    }

    /** `led`: the operator token was taken; parse its right operand. */
    method Led(ghost ts: seq<Token>, left: Node, op: Token, ghost pos: nat) returns (r: Option<Node>)
      requires At(ts, pos)
      modifies this, lx
      ensures Reports(ts, LedSpec(input, ts, left, op, pos), r)
      decreases |ts| - pos, 3
    {
      var bp := Lbp(op.kind);
      var o := InfixOp(op.kind);
      if o.None? {
        SetError("invalid operator");
        return None;
      }
      var right := Expr(ts, pos, if op.kind == Caret then bp - 1 else bp);
      if right.None? {
        return None;
      }
      return Some(Bin(o.value, left, right.value));
    }

    /** `expr`: a primary, then the operator loop. */
    method Expr(ghost ts: seq<Token>, ghost pos: nat, minbp: int) returns (r: Option<Node>)
      requires At(ts, pos) && minbp >= 0
      modifies this, lx
      ensures Reports(ts, ExprSpec(input, ts, pos, minbp), r)
      decreases |ts| - pos, 2
    {
      var first := Nud(ts, pos);
      if first.None? {
        return None;
      }
      var left := first.value;
      ghost var p := NudSpec(input, ts, pos).pos;
      while true
        invariant pos < p && At(ts, p)
        invariant ExprLoopSpec(input, ts, left, p, minbp) == ExprSpec(input, ts, pos, minbp)
        decreases |ts| - p
      {
        if Lbp(lx.Peek().kind) <= minbp {
          return Some(left);
        }
        ghost var res := LedSpec(input, ts, left, ts[p], p + 1);
        var next := Infix(ts, left, p);
        if next.None? {
          return None;
        }
        left, p := next.value, res.pos;
      }
    }

    /** One round of the loop of `expr`: take the operator and call `led`. */
    method Infix(ghost ts: seq<Token>, left: Node, ghost pos: nat) returns (r: Option<Node>)
      requires At(ts, pos) && Lbp(ts[pos].kind) > 0
      modifies this, lx
      ensures Reports(ts, LedSpec(input, ts, left, ts[pos], pos + 1), r)
      decreases |ts| - pos, 0
    {
      var op := TakeTok(lx, ts, pos);
      r := Led(ts, left, op, pos + 1);
    }

    /** `parse_arg_list`, after the `(`: the arguments collected in a growing array (4 cells, doubled when full). */
    method ArgList(ghost ts: seq<Token>, ghost pos: nat) returns (r: Option<seq<Node>>)
      requires At(ts, pos)
      modifies this, lx
      ensures Reports(ts, ArgListSpec(input, ts, pos), r)
      decreases |ts| - pos, 5
    {
      var len := 0;
      var tmp := new Node[4];
      if lx.Peek().kind == RParen {
        var _ := TakeTok(lx, ts, pos);
        return Some([]);
      }
      ghost var p := pos;
      ghost var acc: seq<Node> := [];
      ghost var goal := ArgListSpec(input, ts, pos);
      while true
        invariant pos <= p && At(ts, p)
        invariant fresh(tmp) && 4 <= tmp.Length && len <= tmp.Length && tmp[..len] == acc
        invariant ArgsLoopSpec(input, ts, p, acc) == goal
        decreases |ts| - p
      {
        ghost var item := ArgItem(input, ts, p);
        var more;
        tmp, more := Argument(ts, p, tmp, len);
        if more.None? {
          return None;
        }
        len := len + 1;
        acc := acc + [item.value.0];
        if !more.value {
          return Some(tmp[..len]);
        }
        p := item.pos;
      }
    }

    /** One round of the loop of `parse_arg_list`: parse an expression, store it at len, and take the separator. */
    method Argument(ghost ts: seq<Token>, ghost pos: nat, a: array<Node>, len: nat) returns (b: array<Node>, more: Option<bool>)
      requires At(ts, pos) && 4 <= a.Length && len <= a.Length
      modifies this, lx, a
      ensures var item := ArgItem(input, ts, pos);
        item.Failure? ==> more.None? && err == item.msg && lx.Valid() && lx.s == input
      ensures var item := ArgItem(input, ts, pos);
        item.Success? ==>
          more == Some(item.value.1) && At(ts, item.pos)
          && (b == a || fresh(b)) && 4 <= b.Length && len < b.Length && b[..len + 1] == old(a[..len]) + [item.value.0]
      decreases |ts| - pos, 3
    {
      ghost var before := a[..len];
      var e := Expr(ts, pos, 0);
      if e.None? {
        return a, None;
      }
      assert a[..len] == before;
      b := Push(a, len, e.value);
      more := Separator(ts, ExprSpec(input, ts, pos, 0).pos);
    }

    /** The separator after a list item: `,` (Some(true)) or `)` (Some(false)) is taken, anything else is an error. */
    method Separator(ghost ts: seq<Token>, ghost pos: nat) returns (more: Option<bool>)
      requires At(ts, pos)
      modifies this, lx
      ensures ts[pos].kind == Comma ==> more == Some(true) && At(ts, pos + 1)
      ensures ts[pos].kind == RParen ==> more == Some(false) && At(ts, pos + 1)
      ensures ts[pos].kind != Comma && ts[pos].kind != RParen ==>
        more.None? && err == "expected ',' or ')'" && At(ts, pos)
    {
      if lx.Peek().kind == Comma {
        var _ := TakeTok(lx, ts, pos);
        return Some(true);
      }
      if lx.Peek().kind == RParen {
        var _ := TakeTok(lx, ts, pos);
        return Some(false);
      }
      SetError("expected ',' or ')'");
      return None;
    }

    /** `parse_param_list`, after the `(`: the parameter names collected in a growing array. */
    method ParamList(ghost ts: seq<Token>, ghost pos: nat) returns (r: Option<seq<string>>)
      requires At(ts, pos)
      modifies this, lx
      ensures Reports(ts, ParamListSpec(input, ts, pos), r)
    {
      var len := 0;
      var tmp := new string[4];
      if lx.Peek().kind == RParen {
        var _ := TakeTok(lx, ts, pos);
        return Some([]);
      }
      ghost var p := pos;
      ghost var acc: seq<string> := [];
      ghost var goal := ParamListSpec(input, ts, pos);
      while true
        invariant pos <= p && At(ts, p)
        invariant fresh(tmp) && 4 <= tmp.Length && len <= tmp.Length && tmp[..len] == acc
        invariant ParamsLoopSpec(input, ts, p, acc) == goal
        decreases |ts| - p
      {
        ghost var item := ParamItem(input, ts, p);
        var more;
        tmp, more := Parameter(ts, p, tmp, len);
        if more.None? {
          return None;
        }
        len := len + 1;
        acc := acc + [item.value.0];
        if !more.value {
          return Some(tmp[..len]);
        }
        p := item.pos;
      }
    }

    /** One round of the loop of `parse_param_list`: take an identifier, store its name at len, and take the separator. */
    method Parameter(ghost ts: seq<Token>, ghost pos: nat, a: array<string>, len: nat) returns (b: array<string>, more: Option<bool>)
      requires At(ts, pos) && 4 <= a.Length && len <= a.Length
      modifies this, lx, a
      ensures var item := ParamItem(input, ts, pos);
        item.Failure? ==> more.None? && err == item.msg && lx.Valid() && lx.s == input
      ensures var item := ParamItem(input, ts, pos);
        item.Success? ==>
          more == Some(item.value.1) && At(ts, item.pos)
          && (b == a || fresh(b)) && 4 <= b.Length && len < b.Length && b[..len + 1] == old(a[..len]) + [item.value.0]
    {
      var t := lx.Peek();
      if t.kind != Ident {
        SetError("expected parameter name");
        return a, None;
      }
      ghost var before := a[..len];
      var _ := TakeTok(lx, ts, pos);
      assert a[..len] == before;
      b := Push(a, len, TokText(input, t));
      more := Separator(ts, pos + 1);
    }
  }

  /** `looks_like_funcdef`: a scan of the line with a lexer of its own. */
  method LooksLikeFuncdef(line: string) returns (b: bool)
    ensures b == LooksLikeFuncdefSpec(Tokens(line))
  {
    ghost var ts := Tokens(line);
    var lx := new Lexer(line);
    LexRealShape(line, 0);
    assert ts[0..] == ts;
    if lx.Peek().kind != Ident {
      return false;
    }
    var _ := TakeTok(lx, ts, 0);
    if lx.Peek().kind != LParen {
      return false;
    }
    var _ := TakeTok(lx, ts, 1);
    if lx.Peek().kind == RParen {
      var _ := TakeTok(lx, ts, 2);
      return lx.Peek().kind == Equals;
    }
    b := FuncdefParamsScan(lx, ts, 2);
  }

  /** The parameter-name loop of `looks_like_funcdef`, from an identifier expected at pos. */
  method FuncdefParamsScan(lx: Lexer, ghost ts: seq<Token>, ghost pos: nat) returns (b: bool)
    requires LexAt(lx, ts, pos)
    modifies lx
    ensures b == FuncdefParams(ts, pos)
  {
    ghost var p := pos;
    while true
      invariant LexAt(lx, ts, p)
      invariant FuncdefParams(ts, p) == FuncdefParams(ts, pos)
      decreases |ts| - p
    {
      if lx.Peek().kind != Ident {
        return false;
      }
      var _ := TakeTok(lx, ts, p);
      if lx.Peek().kind == Comma {
        var _ := TakeTok(lx, ts, p + 1);
        p := p + 2;
        continue;
      }
      if lx.Peek().kind == RParen {
        var _ := TakeTok(lx, ts, p + 1);
        return lx.Peek().kind == Equals;
      }
      return false;
    }
  }

  /**
    `parse_stmnt`. The statement it returns, with `*err` folded in: a
    failed parse gives `NoStmt` with the parser's message, and trailing
    input gives `NoStmt(None)`, since that path sets the parser's message
    but not `*err`.
   */
  method ParseStatement(line: string) returns (st: Stmt)
    ensures st == ParseStmtSpec(line)
  {
    ghost var ts := Tokens(line);
    var p := new Parser(line);
    if p.lx.Peek().kind == Ident {
      var ident := TakeTok(p.lx, ts, 0);
      var looks := false;
      if p.lx.Peek().kind == LParen {
        looks := LooksLikeFuncdef(line);
      }
      if looks {
        st := Funcdef(p, ts, ident);
        return;
      }
      if p.lx.Peek().kind == Equals {
        st := Assignment(p, ts, ident);
        return;
      }
      p.lx.Reset(line);
      assert ts[0..] == ts;
    }
    st := ExpressionStatement(p, ts);
  }

  /** The definition path of `parse_stmnt`, once the name is taken and `(` is next. */
  method Funcdef(p: Parser, ghost ts: seq<Token>, ident: Token) returns (st: Stmt)
    requires p.At(ts, 1) && ts == Tokens(p.input) && ident == ts[0] && ident.kind == Ident && ts[1].kind == LParen
    modifies p, p.lx
    ensures st == FuncdefStatement(p.input, ts)
  {
    var _ := TakeTok(p.lx, ts, 1);
    var params := p.ParamList(ts, 2);
    if params.None? {
      return NoStmt(Some(p.err));
    }
    ghost var q := ParamListSpec(p.input, ts, 2).pos;
    if p.lx.Peek().kind != Equals {
      p.lx.Reset(p.input);
      assert ts[0..] == ts;
      st := ExpressionStatement(p, ts);
      return;
    }
    var _ := TakeTok(p.lx, ts, q);
    var body := p.Expr(ts, q + 1, 0);
    if body.None? {
      return NoStmt(Some(p.err));
    }
    if p.lx.Peek().kind != Eof {
      p.SetError("unexpected trailing input.");
      return NoStmt(None);
    }
    return FuncDefStmt(TokText(p.input, ident), params.value, body.value);
  }

  /** The assignment path of `parse_stmnt`, once the name is taken and `=` is next. */
  method Assignment(p: Parser, ghost ts: seq<Token>, ident: Token) returns (st: Stmt)
    requires p.At(ts, 1) && ident == ts[0] && ident.kind == Ident && ts[1].kind == Equals
    modifies p, p.lx
    ensures st == AssignStatement(p.input, ts)
  {
    var _ := TakeTok(p.lx, ts, 1);
    var rhs := p.Expr(ts, 2, 0);
    if rhs.None? {
      return NoStmt(Some(p.err));
    }
    if p.lx.Peek().kind != Eof {
      p.SetError("unexpected trailing input");
      return NoStmt(None);
    }
    return AssignStmt(TokText(p.input, ident), rhs.value);
  }

  /** The expression path of `parse_stmnt`, from the start of the line. */
  method ExpressionStatement(p: Parser, ghost ts: seq<Token>) returns (st: Stmt)
    requires p.At(ts, 0)
    modifies p, p.lx
    ensures st == ExprStatement(p.input, ts)
  {
    var r := p.Expr(ts, 0, 0);
    if r.None? {
      return NoStmt(Some(p.err));
    }
    if p.lx.Peek().kind != Eof {
      p.SetError("unexpected token");
      return NoStmt(None);
    }
    return ExprStmt(r.value);
  }
}
