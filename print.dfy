/**
  The printer (src/core/print.c): a bounded string builder over a
  caller-supplied character buffer, and `node_print`, which appends an
  expression to it with the parentheses the precedence table calls for.

  The builder keeps at most cap-1 characters and a terminating NUL after
  them; every append that does not fit is cut short without a word. The
  text a node prints as is given by `Render`, and `NodePrint` appends that
  text, truncated the way the builder truncates.
 */
module Print {

  import opened Num
  import opened Ast
  import Lex
  import Parse

  /** The first k characters of x, or all of x when it is shorter. */
  function Trunc(x: string, k: nat): (r: string)
    ensures |r| <= k
  {
    if |x| <= k then x else x[..k]
  }

  /** Truncating in two steps is truncating once: what the builder keeps of a sequence of appends. */
  lemma TruncAppend(x: string, y: string, k: nat)
    ensures Trunc(Trunc(x, k) + y, k) == Trunc(x + y, k)
  {
    if |x| > k {
      assert (x + y)[..k] == x[..k];
      assert (x[..k] + y)[..k] == x[..k];
    } else {
      assert Trunc(x, k) == x;
    }
  }

  /** Regrouping a concatenation of three strings. */
  lemma Assoc(x: string, y: string, z: string)
    ensures x + y + z == x + (y + z)
  {
  }

  /**
    `sb_t`: the buffer, its capacity, and the length of the text held;
    `text` names the characters before the NUL.
   */
  class StringBuilder {
    const buf: array<char>
    const cap: int
    var len: int
    ghost var text: string

    /** The most characters the builder holds: one slot stays for the NUL. */
    function Limit(): nat
      reads this
    {
      if cap > 0 then cap - 1 else 0
    }

    ghost predicate Valid()
      reads this, buf
    {
      && cap <= buf.Length
      && 0 <= len <= Limit()
      && |text| == len
      && buf[..len] == text
      && (cap > 0 ==> buf[len] == '\0')
    }

    /** `sb_init`: empty, and the buffer made an empty string when there is room for one. */
    constructor (b: array<char>, capacity: int)
      requires capacity <= b.Length
      modifies b
      ensures buf == b && cap == capacity && Valid()
      ensures text == []
    {
      buf, cap, len, text := b, capacity, 0, [];
      new;
      if capacity > 0 {
        b[0] := '\0';
      }
    }

    /** `sb_puts`: s appended, cut to what still fits; the NUL follows the text. */
    method Puts(s: string)
      requires Valid()
      modifies this, buf
      ensures Valid()
      ensures text == Trunc(old(text) + s, Limit())
    {
      var n := |s|;
      if len + n >= cap {
        n := cap - 1 - len;
      }
      if n <= 0 {
        assert text + s == text || |text| == Limit();
        return;
      }
      var i := 0;
      while i < n
        invariant 0 <= i <= n
        invariant buf[..len] == text
        invariant buf[len..len + i] == s[..i]
        modifies buf
      {
        buf[len + i] := s[i];
        i := i + 1;
        assert buf[..len] == text;
      }
      assert buf[..len + n] == text + s[..n];
      assert (text + s)[..len + n] == text + s[..n];
      len := len + n;
      text := text + s[..n];
      buf[len] := '\0';
    }

    /** `sb_putc`: c appended when there is room for it and the NUL, else nothing changes. */
    method Putc(c: char)
      requires Valid()
      modifies this, buf
      ensures Valid()
      ensures text == Trunc(old(text) + [c], Limit())
      ensures old(len) + 1 >= cap ==> len == old(len) && buf[..] == old(buf[..])
    {
      if len + 1 >= cap {
        return;
      }
      buf[len] := c;
      len := len + 1;
      text := text + [c];
      buf[len] := '\0';
    }
  }

  // ---------------------------------------------------------------------------
  // What a node prints as
  // ---------------------------------------------------------------------------

  /** `prec`: the precedence a node prints at. */
  function Prec(n: Node): int {
    match n
    case Bin(op, _, _) =>
      (match op
       case Add => 10
       case Sub => 10
       case Mul => 20
       case Div => 20
       case Pow => 30)
    case Neg(_) => 25
    case _ => 100
  }

  /** The infix text `node_print` puts between two operands. */
  function OpText(op: BinOp): string {
    match op
    case Add => " + "
    case Sub => " - "
    case Mul => " * "
    case Div => " / "
    case Pow => "^"
  }

  /** The precedence the right operand of op prints at: one more than op's, and one less for `^`. */
  function RightPrec(op: BinOp): int {
    if op == Pow then 29 else Prec(Bin(op, Symbol(""), Symbol(""))) + 1
  }

  /**
    The text `node_print` appends for n under a parent of precedence
    parentPrec, with no truncation by the builder: parentheses exactly when
    n's own precedence is below the parent's, the operands at the
    precedences `node_print` passes down, a rational through a 128-byte
    `rat_to_str`, and a call as its name and its arguments at precedence 0
    between ", " separators.
   */
  function Render(n: Node, parentPrec: int): string
    decreases n, 2
  {
    if Prec(n) < parentPrec then "(" + RenderBody(n) + ")" else RenderBody(n)
  }

  /** The text inside the parentheses. */
  function RenderBody(n: Node): string
    decreases n, 1
  {
    match n
    case RatNode(r) => Trunc(RatToStr(r), 127)
    case Symbol(s) => s
    case Neg(a) => "-" + Render(a, 25)
    case Bin(op, a, b) => Render(a, Prec(n)) + OpText(op) + Render(b, RightPrec(op))
    case Call(name, args) => name + "(" + RenderArgs(args, n) + ")"
    case CallableNode(c) => if c.Builtin? then c.builtin.name + "()" else "()"
  }

  /** The arguments of a call, each at precedence 0, separated by ", ". */
  function RenderArgs(args: seq<Node>, ghost parent: Node): string
    requires forall k :: 0 <= k < |args| ==> args[k] < parent
    decreases parent, 0, |args|
  {
    if |args| == 0 then ""
    else
      RenderArgs(args[..|args| - 1], parent) + (if |args| > 1 then ", " else "")
      + Render(args[|args| - 1], 0)
  }

  // ---------------------------------------------------------------------------
  // Properties of the rendering
  // ---------------------------------------------------------------------------

  /**
    The printer's precedences are the parser's binding powers: an
    operator's node prints at the left binding power of its token, its right
    operand one above the parser's right binding power (at it for `^`), and
    a negation at the level `nud` parses a negated operand at.
   */
  lemma PrecMirrorsLbp(k: Lex.TokKind, x: Node, y: Node)
    requires Parse.InfixOp(k).Some?
    ensures var o := Parse.InfixOp(k).value;
      && Prec(Bin(o, x, y)) == Parse.Lbp(k)
      && RightPrec(o) == if o == Pow then Parse.RightBp(k) else Parse.RightBp(k) + 1
    ensures Prec(Neg(x)) == 25
  {
  }

  /**
    Printing undoes parsing on `a op1 b op2 c` over numbers: whichever way
    the parser grouped the operands, the tree prints back as the three
    numbers and the two operators in order, without parentheses.
   */
  lemma PrintsParsedGrouping(s: string, ts: seq<Lex.Token>)
    requires Parse.NumAt(ts, 0) && Parse.NumAt(ts, 2) && Parse.NumAt(ts, 4)
    requires Parse.Lbp(ts[1].kind) > 0 && Parse.Lbp(ts[3].kind) > 0
    requires Parse.Lbp(Parse.TokAt(ts, 5).kind) == 0
    ensures var r := Parse.ExprSpec(s, ts, 0, 0);
      r.Success? &&
      Render(r.value, 0) ==
        RenderBody(Parse.Lit(ts, 0)) + OpText(Parse.OpAt(ts, 1)) + RenderBody(Parse.Lit(ts, 2))
        + OpText(Parse.OpAt(ts, 3)) + RenderBody(Parse.Lit(ts, 4))
  {
    Parse.Grouping(s, ts, 0, 0);
    Parse.InfixTokens(ts[1].kind);
    Parse.InfixTokens(ts[3].kind);
    var a, b, c := Parse.Lit(ts, 0), Parse.Lit(ts, 2), Parse.Lit(ts, 4);
    var o1, o2 := Parse.OpAt(ts, 1), Parse.OpAt(ts, 3);
    if Parse.Lbp(ts[3].kind) > Parse.RightBp(ts[1].kind) {
      RightGroupPrints(o1, o2, a, b, c);
    } else {
      LeftGroupPrints(o1, o2, a, b, c);
    }
  }

  /** `a o1 (b o2 c)` over atoms prints bare when o2's node does not print below o1's right operand level. */
  lemma RightGroupPrints(o1: BinOp, o2: BinOp, a: Node, b: Node, c: Node)
    requires Prec(a) == 100 && Prec(b) == 100 && Prec(c) == 100
    requires Prec(Bin(o2, b, c)) >= RightPrec(o1)
    ensures Render(Bin(o1, a, Bin(o2, b, c)), 0) ==
      RenderBody(a) + OpText(o1) + RenderBody(b) + OpText(o2) + RenderBody(c)
  {
    var ta, tb, tc, t1, t2 := RenderBody(a), RenderBody(b), RenderBody(c), OpText(o1), OpText(o2);
    assert Render(a, Prec(Bin(o1, a, a))) == ta && Render(b, Prec(Bin(o2, b, c))) == tb;
    assert Render(c, RightPrec(o2)) == tc;
    assert Render(Bin(o2, b, c), RightPrec(o1)) == tb + t2 + tc;
    assert RenderBody(Bin(o1, a, Bin(o2, b, c))) == ta + t1 + (tb + t2 + tc);
    assert Render(Bin(o1, a, Bin(o2, b, c)), 0) == ta + t1 + (tb + t2 + tc);
    Assoc(ta + t1, tb, t2);
    Assoc(ta + t1, tb + t2, tc);
  }

  /** `(a o1 b) o2 c` over atoms prints bare when o1's node does not print below o2's. */
  lemma LeftGroupPrints(o1: BinOp, o2: BinOp, a: Node, b: Node, c: Node)
    requires Prec(a) == 100 && Prec(b) == 100 && Prec(c) == 100
    requires Prec(Bin(o1, a, b)) >= Prec(Bin(o2, a, b))
    ensures Render(Bin(o2, Bin(o1, a, b), c), 0) ==
      RenderBody(a) + OpText(o1) + RenderBody(b) + OpText(o2) + RenderBody(c)
  {
    var ta, tb, tc, t1, t2 := RenderBody(a), RenderBody(b), RenderBody(c), OpText(o1), OpText(o2);
    assert Render(a, Prec(Bin(o1, a, a))) == ta && Render(b, RightPrec(o1)) == tb;
    assert Render(c, RightPrec(o2)) == tc;
    assert Render(Bin(o1, a, b), Prec(Bin(o2, Bin(o1, a, b), c))) == ta + t1 + tb;
    assert RenderBody(Bin(o2, Bin(o1, a, b), c)) == ta + t1 + tb + t2 + tc;
  }

  /** Only ever one of these five values. */
  lemma PrecValues(n: Node)
    ensures Prec(n) in {10, 20, 25, 30, 100}
  {
  }

  /**
    Left-nested powers print without parentheses: `(a^b)^c` and `a^(b^c)`
    are different trees with the same text, so the printed form of the
    first does not read back as it.
   */
  lemma PowerNestingLost(a: Node, b: Node, c: Node, parentPrec: int)
    ensures Bin(Pow, Bin(Pow, a, b), c) != Bin(Pow, a, Bin(Pow, b, c))
    ensures Render(Bin(Pow, Bin(Pow, a, b), c), parentPrec) == Render(Bin(Pow, a, Bin(Pow, b, c)), parentPrec)
  {
    PrecValues(b);
    var x, tb, tc := Render(a, 30) + "^", Render(b, 30), Render(c, 29);
    assert Render(b, 29) == tb;
    assert RenderBody(Bin(Pow, a, b)) == x + tb;
    assert Render(Bin(Pow, a, b), 30) == x + tb;
    assert RenderBody(Bin(Pow, Bin(Pow, a, b), c)) == x + tb + "^" + tc;
    assert RenderBody(Bin(Pow, b, c)) == tb + "^" + tc;
    assert Render(Bin(Pow, b, c), 29) == tb + "^" + tc;
    assert RenderBody(Bin(Pow, a, Bin(Pow, b, c))) == x + (tb + "^" + tc);
    Assoc(x, tb, "^");
    Assoc(x, tb + "^", tc);
  }

  /**
    `-` and `/` keep their grouping: a right operand of the same
    precedence is parenthesised, a left one is not.
   */
  lemma SameLevelRightOperand(o1: BinOp, o2: BinOp, a: Node, b: Node, c: Node)
    requires o1 != Pow && o2 != Pow && Prec(Bin(o1, a, a)) == Prec(Bin(o2, a, a))
    ensures var p := Prec(Bin(o1, a, a));
      Render(Bin(o1, a, Bin(o2, b, c)), 0) ==
        Render(a, p) + OpText(o1) + ("(" + (Render(b, p) + OpText(o2) + Render(c, p + 1)) + ")")
    ensures var p := Prec(Bin(o1, a, a));
      Render(Bin(o2, Bin(o1, a, b), c), 0) ==
        Render(a, p) + OpText(o1) + Render(b, p + 1) + OpText(o2) + Render(c, p + 1)
  {
    var p := Prec(Bin(o1, a, a));
    var right, left := Bin(o2, b, c), Bin(o1, a, b);
    assert Prec(right) == p && Prec(left) == p && RightPrec(o1) == p + 1 && RightPrec(o2) == p + 1;
    assert RenderBody(right) == Render(b, p) + OpText(o2) + Render(c, p + 1);
    assert Render(right, p + 1) == "(" + RenderBody(right) + ")";
    assert RenderBody(Bin(o1, a, right)) == Render(a, p) + OpText(o1) + Render(right, p + 1);
    assert Render(Bin(o1, a, right), 0) == RenderBody(Bin(o1, a, right));
    assert RenderBody(left) == Render(a, p) + OpText(o1) + Render(b, p + 1);
    assert Render(left, p) == RenderBody(left);
    assert RenderBody(Bin(o2, left, c)) == Render(left, p) + OpText(o2) + Render(c, p + 1);
    assert Render(Bin(o2, left, c), 0) == RenderBody(Bin(o2, left, c));
  }

  /**
    `node_print`: appends n, rendered under parentPrec, to the builder,
    truncated to what the builder holds.
   */
  method NodePrint(sb: StringBuilder, n: Node, parentPrec: int)
    requires sb.Valid()
    modifies sb, sb.buf
    ensures sb.Valid()
    ensures sb.text == Trunc(old(sb.text) + Render(n, parentPrec), sb.Limit())
    decreases n, 3
  {
    ghost var start, k := sb.text, sb.Limit();
    var p := Prec(n);
    var needParen := p < parentPrec;
    if needParen {
      sb.Putc('(');
    }
    PrintBody(sb, n, p);
    ghost var body := RenderBody(n);
    if needParen {
      TruncAppend(start + "(", body, k);
      sb.Putc(')');
      TruncAppend(start + "(" + body, ")", k);
      Assoc(start, "(", body);
      Assoc(start, "(" + body, ")");
    }
  }

  /** The switch of `node_print`, between the parentheses. */
  method PrintBody(sb: StringBuilder, n: Node, p: int)
    requires sb.Valid() && p == Prec(n)
    modifies sb, sb.buf
    ensures sb.Valid()
    ensures sb.text == Trunc(old(sb.text) + RenderBody(n), sb.Limit())
    decreases n, 2
  {
    match n
    case RatNode(r) =>
      var tmp := Trunc(RatToStr(r), 127);
      sb.Puts(tmp);
    case Symbol(s) =>
      sb.Puts(s);
    case Neg(a) =>
      PrintNeg(sb, a, n);
    case Bin(op, a, b) =>
      PrintBin(sb, op, a, b, n);
    case Call(name, args) =>
      PrintCall(sb, name, args, n);
    case CallableNode(c) =>
      ghost var start := sb.text;
      if c.Builtin? {
        sb.Puts(c.builtin.name);
      } else {
        assert start + "" == start;
      }
      ghost var mid := if c.Builtin? then c.builtin.name else "";
      sb.Puts("()");
      TruncAppend(start + mid, "()", sb.Limit());
      Assoc(start, mid, "()");
  }

  /** A negation: `-`, then the operand at the precedence of NEG. */
  method PrintNeg(sb: StringBuilder, a: Node, ghost n: Node)
    requires sb.Valid() && n == Neg(a)
    modifies sb, sb.buf
    ensures sb.Valid()
    ensures sb.text == Trunc(old(sb.text) + RenderBody(n), sb.Limit())
    decreases n, 0
  {
    ghost var start := sb.text;
    sb.Putc('-');
    NodePrint(sb, a, Prec(Neg(a)));
    TruncAppend(start + "-", Render(a, 25), sb.Limit());
    Assoc(start, "-", Render(a, 25));
  }

  /** A binary node: the left operand at p, the operator, the right operand at `RightPrec`. */
  method PrintBin(sb: StringBuilder, op: BinOp, a: Node, b: Node, ghost n: Node)
    requires sb.Valid() && n == Bin(op, a, b)
    modifies sb, sb.buf
    ensures sb.Valid()
    ensures sb.text == Trunc(old(sb.text) + RenderBody(n), sb.Limit())
    decreases n, 0
  {
    ghost var start, k := sb.text, sb.Limit();
    var p := Prec(Bin(op, a, b));
    NodePrint(sb, a, p);
    ghost var ra, o := Render(a, p), OpText(op);
    sb.Puts(OpText(op));
    TruncAppend(start + ra, o, k);
    var q := if op == Pow then p - 1 else p + 1;
    assert q == RightPrec(op);
    NodePrint(sb, b, q);
    ghost var rb := Render(b, q);
    TruncAppend(start + ra + o, rb, k);
    Assoc(start, ra, o);
    Assoc(start, ra + o, rb);
  }

  /** A call: its name, `(`, each argument at precedence 0 after a ", " from the second on, `)`. */
  method PrintCall(sb: StringBuilder, name: string, args: seq<Node>, ghost n: Node)
    requires sb.Valid() && n == Call(name, args)
    modifies sb, sb.buf
    ensures sb.Valid()
    ensures sb.text == Trunc(old(sb.text) + RenderBody(n), sb.Limit())
    decreases n, 1
  {
    ghost var start, k := sb.text, sb.Limit();
    sb.Puts(name);
    sb.Putc('(');
    TruncAppend(start + name, "(", k);
    ghost var head := start + name + "(";
    assert args[..0] == [];
    assert head + RenderArgs(args[..0], n) == head;
    for i := 0 to |args|
      invariant sb.Valid() && sb.Limit() == k
      invariant sb.text == Trunc(head + RenderArgs(args[..i], n), k)
    {
      PrintArg(sb, args, i, n, head);
    }
    assert args[..|args|] == args;
    ghost var all := RenderArgs(args, n);
    sb.Putc(')');
    TruncAppend(head + all, ")", k);
    Assoc(start, name, "(");
    Assoc(start, name + "(", all);
    Assoc(start, name + "(" + all, ")");
  }

  /** One round of the argument loop: the separator from the second argument on, then the argument at precedence 0. */
  method PrintArg(sb: StringBuilder, args: seq<Node>, i: nat, ghost n: Node, ghost head: string)
    requires sb.Valid() && i < |args| && n.Call? && n.args == args
    requires sb.text == Trunc(head + RenderArgs(args[..i], n), sb.Limit())
    modifies sb, sb.buf
    ensures sb.Valid()
    ensures sb.text == Trunc(head + RenderArgs(args[..i + 1], n), sb.Limit())
    decreases n, 0
  {
    ghost var k := sb.Limit();
    ghost var done := RenderArgs(args[..i], n);
    ghost var sep := if i > 0 then ", " else "";
    if i > 0 {
      sb.Puts(", ");
      TruncAppend(head + done, ", ", k);
    } else {
      assert head + done + sep == head + done;
    }
    NodePrint(sb, args[i], 0);
    ghost var r := Render(args[i], 0);
    TruncAppend(head + done + sep, r, k);
    assert args[..i + 1][..i] == args[..i];
    assert RenderArgs(args[..i + 1], n) == done + sep + r;
    Assoc(head, done, sep);
    Assoc(head, done + sep, r);
  }

  /**
    A printed natural number reads back through the lexer: `lex_real` on the
    digits `%lld` writes takes them all as one NUM token holding the number.
   */
  lemma PrintedNaturalLexes(n: nat)
    ensures var s := NatToStr(n);
      var (t, i') := Lex.LexRealSpec(s, 0);
      t.kind == Lex.Number && t.beg == 0 && i' == |s| && t.i64 == n
  {
    var s := NatToStr(n);
    NatToStrDigits(n);
    NatToStrValue(n);
    assert Lex.SkipSpace(s, 0) == 0;
    Lex.DigitEndBounds(s, 0);
    var e := Lex.DigitEnd(s, 0);
    assert s[0..e] == s;
  }
}
