/**
  The core (src/core/core.c, inc/core/core.h): the global table of
  bindings, the evaluation mode, and `core_eval`, which turns one input
  line into a result: a parse error, a stored assignment or function
  definition, or an evaluated and printed expression.

  The table is the `Env` class; `core_init` fills it with `pi`, `e` and
  `abs`. The copies `core_eval` makes into the global store are values
  equal to their originals (`Ast.DeepCopy`), so the store's memory is not
  modelled. The approximate evaluator is not part of this model: its
  outcome on the line's expression is a parameter of `EvalLine`.
 */
module Core {

  import opened Wrappers
  import opened Ast
  import opened Env
  import opened Eval
  import opened Builtins
  import Arena
  import Parse
  import Print

  /** `core_kind_t`; CORE_PLOT and CORE_TABLE are never produced by `core_eval`. */
  datatype CoreKind = Evaluation | Assignment | CoreError

  /** `eval_mode_t`. */
  datatype EvalMode = Exact | Approx

  /** `core_result_t`: the text is what lies before the NUL in its 128 bytes. */
  datatype CoreResult = CoreResult(ok: bool, text: string, kind: CoreKind)

  /** The size of `core_result_t.text`. */
  const TEXT_CAP: int := 128

  /** The bindings `core_init` makes: `pi` and `e` as symbols of their own name, `abs` as the builtin. */
  function InitialBindings(): seq<Entry> {
    [Entry("pi", NodeSymbol("pi", -1)), Entry("e", NodeSymbol("e", -1)), Entry("abs", NodeCallableBuiltin(CORE_FN_ABS))]
  }

  /** What `node_print` leaves in a builder over the 128-byte result text. */
  function Printed(n: Node): (t: string)
    ensures |t| < TEXT_CAP
  {
    Print.Trunc(Print.Render(n, 0), TEXT_CAP - 1)
  }

  /** The user callable `store_copy_userfunc` builds: the parameters and the body, with arity the parameter count. */
  function UserCallable(params: seq<string>, body: Node): Node {
    NodeCallableUser(UserFn(params, |params|, body))
  }

  /**
    `core_eval` as a function of the line, the table, the mode, the
    `print_ast` flag, the evaluation fuel and the approximate evaluator's
    outcome: the result (None when the fuel runs out) and the new table.
    A parse failure carries the parser's message and changes nothing; an
    assignment or a definition is stored and evaluates nothing; an
    expression is evaluated in the current mode and printed, or its error
    becomes the text. With `print_ast` set an expression is printed
    unevaluated.
   */
  function CoreEvalSpec(line: string, env: seq<Entry>, mode: EvalMode, printAst: bool, fuel: nat, approx: Outcome)
    : (Option<CoreResult>, seq<Entry>)
  {
    match Parse.ParseStmtSpec(line)
    case NoStmt(err) => (Some(CoreResult(false, if err.Some? then err.value else "", Evaluation)), env)
    case AssignStmt(name, e) =>
      (Some(CoreResult(true, if printAst then Printed(e) else "", Assignment)), Upsert(env, name, DeepCopy(e)))
    case FuncDefStmt(name, params, body) =>
      (Some(CoreResult(true, if printAst then Printed(body) else "", Assignment)),
       Upsert(env, name, UserCallable(params, DeepCopy(body))))
    case ExprStmt(e) =>
      if printAst then (Some(CoreResult(true, Printed(e), Evaluation)), env)
      else
        match if mode == Approx then approx else NodeEvalExact(fuel, e, env)
        case NoFuel => (None, env)
        case Failed(m) => (Some(CoreResult(false, Print.Trunc(m, TEXT_CAP - 1), CoreError)), env)
        case Done(v) => (Some(CoreResult(true, Printed(v), Evaluation)), env)
  }

  /** The state of src/core/core.c: the global table, the mode and the `print_ast` flag. */
  class Core {
    const env: Env
    var mode: EvalMode
    var printAst: bool

    predicate Valid()
      reads this, env, env.entries
    {
      env.Valid()
    }

    /** The static initialisers and `core_init`: exact mode, no AST printing, the three initial bindings. */
    constructor ()
      ensures Valid() && fresh(env) && fresh(env.entries)
      ensures env.Contents() == InitialBindings()
      ensures mode == Exact && !printAst
    {
      var t := new Env();
      env := t;
      mode := Exact;
      printAst := false;
      new;
      var pi := NodeSymbol("pi", -1);
      var e := NodeSymbol("e", -1);
      var _ := t.Set("pi", pi, true, true);
      var _ := t.Set("e", e, true, true);
      var abs := NodeCallableBuiltin(CORE_FN_ABS);
      var _ := t.Set("abs", abs, true, true);
    }

    /** `core_set_eval_mode`. */
    method SetEvalMode(m: EvalMode)
      modifies this
      ensures mode == m && printAst == old(printAst)
    {
      mode := m;
    }

    /** `core_get_eval_mode`. */
    method GetEvalMode() returns (m: EvalMode)
      ensures m == mode
    {
      m := mode;
    }

    /**
      `store_copy_userfunc`: the parameters copied one by one, the body
      deep-copied, the callable built and bound to the name.
     */
    method StoreCopyUserFunc(name: string, params: seq<string>, arity: nat, body: Node) returns (c: Node)
      requires Valid() && arity == |params|
      modifies env, env.entries
      ensures Valid() && (env.entries == old(env.entries) || fresh(env.entries))
      ensures c == UserCallable(params, body)
      ensures env.Contents() == Upsert(old(env.Contents()), name, c)
    {
      var copied: seq<string> := [];
      for i := 0 to arity
        invariant copied == params[..i]
      {
        assert params[i][..|params[i]|] == params[i];
        copied := copied + [Arena.StrdupText(params[i], -1)];
        assert params[..i + 1] == params[..i] + [params[i]];
      }
      assert params[..arity] == params;
      var b := DeepCopy(body);
      c := NodeCallableUser(UserFn(copied, arity, b));
      var _ := env.Set(name, c, true, true);
    }

    /** `core_eval`: parse the line, then store, print or evaluate as `CoreEvalSpec` says. */
    method EvalLine(line: string, fuel: nat, approx: Outcome) returns (r: Option<CoreResult>)
      requires Valid()
      modifies env, env.entries
      ensures Valid()
      ensures (r, env.Contents()) == CoreEvalSpec(line, old(env.Contents()), mode, printAst, fuel, approx)
    {
      var st := Parse.ParseStatement(line);
      match st
      case NoStmt(err) =>
        return Some(CoreResult(false, if err.Some? then err.value else "", Evaluation));
      case AssignStmt(name, e) =>
        var _ := env.Set(name, DeepCopy(e), true, true);
        var text := "";
        if printAst {
          text := PrintText(e);
        }
        return Some(CoreResult(true, text, Assignment));
      case FuncDefStmt(name, params, body) =>
        var _ := StoreCopyUserFunc(name, params, |params|, body);
        var text := "";
        if printAst {
          text := PrintText(body);
        }
        return Some(CoreResult(true, text, Assignment));
      case ExprStmt(e) =>
        if printAst {
          var text := PrintText(e);
          return Some(CoreResult(true, text, Evaluation));
        }
        var res := if mode == Approx then approx else NodeEvalExact(fuel, e, env.Contents());
        match res
        case NoFuel =>
          return None;
        case Failed(m) =>
          return Some(CoreResult(false, Print.Trunc(m, TEXT_CAP - 1), CoreError));
        case Done(v) =>
          var text := PrintText(v);
          return Some(CoreResult(true, text, Evaluation));
    }
  }

  /** `sb_init` over a fresh 128-byte text and `node_print` at precedence 0. */
  method PrintText(n: Node) returns (t: string)
    ensures t == Printed(n)
  {
    var buf := new char[TEXT_CAP];
    var sb := new Print.StringBuilder(buf, TEXT_CAP);
    Print.NodePrint(sb, n, 0);
    assert [] + Print.Render(n, 0) == Print.Render(n, 0);
    t := buf[..sb.len];
  }

  // ---------------------------------------------------------------------------
  // Properties of core_eval
  // ---------------------------------------------------------------------------

  /** `core_init` binds exactly `pi`, `e` and `abs`, once each; `abs` accepts one argument. */
  lemma InitialBindingsMeaning(name: string)
    ensures UniqueNames(InitialBindings())
    ensures Find(InitialBindings(), "pi") == Some(Symbol("pi"))
    ensures Find(InitialBindings(), "e") == Some(Symbol("e"))
    ensures var f := Find(InitialBindings(), "abs");
      f.Some? && f.value.CallableNode? && f.value.callable.Builtin?
      && f.value.callable.minArity == 1 && f.value.callable.maxArity == 1
      && f.value.callable.builtin.name == "abs" && f.value.callable.builtin.impl == CoreAbs
    ensures name != "pi" && name != "e" && name != "abs" ==> Find(InitialBindings(), name).None?
  {
    var es := InitialBindings();
    assert es[0].name == "pi" && es[1].name == "e" && es[2].name == "abs";
    assert IndexOf(es, "pi") == 0;
    assert IndexOf(es, "e") == 1;
    assert IndexOf(es, "abs") == 2;
  }

  /** A line that does not parse fails with the parser's message and leaves the table as it was. */
  lemma ParseFailureChangesNothing(line: string, env: seq<Entry>, mode: EvalMode, printAst: bool, fuel: nat, approx: Outcome)
    requires Parse.ParseStmtSpec(line).NoStmt?
    ensures var (r, env') := CoreEvalSpec(line, env, mode, printAst, fuel, approx);
      env' == env && r.Some? && !r.value.ok
      && (Parse.ParseStmtSpec(line).err.Some? ==> r.value.text == Parse.ParseStmtSpec(line).err.value)
  {
  }

  /**
    An assignment stores its right-hand side unevaluated under its name:
    afterwards the name finds that expression, every other name finds what
    it found before, and the result is the same whatever the mode, the fuel
    or the approximate evaluator.
   */
  lemma AssignmentStores(line: string, env: seq<Entry>, mode: EvalMode, printAst: bool, fuel: nat, approx: Outcome,
                         mode': EvalMode, fuel': nat, approx': Outcome, other: string)
    requires UniqueNames(env) && Parse.ParseStmtSpec(line).AssignStmt?
    ensures var st := Parse.ParseStmtSpec(line);
      var (r, env') := CoreEvalSpec(line, env, mode, printAst, fuel, approx);
      && r == Some(CoreResult(true, if printAst then Printed(st.expr) else "", Assignment))
      && UniqueNames(env') && Find(env', st.name) == Some(st.expr)
      && (other != st.name ==> Find(env', other) == Find(env, other))
      && CoreEvalSpec(line, env, mode', printAst, fuel', approx') == (r, env')
  {
    var st := Parse.ParseStmtSpec(line);
    UpsertThenFind(env, st.name, st.expr);
    if other != st.name {
      UpsertOthers(env, st.name, st.expr, other);
    }
  }

  /**
    A definition binds its name to a user callable with the parsed
    parameters, their count as arity, and the parsed body; nothing is
    evaluated.
   */
  lemma DefinitionStores(line: string, env: seq<Entry>, mode: EvalMode, printAst: bool, fuel: nat, approx: Outcome, other: string)
    requires UniqueNames(env) && Parse.ParseStmtSpec(line).FuncDefStmt?
    ensures var st := Parse.ParseStmtSpec(line);
      var (r, env') := CoreEvalSpec(line, env, mode, printAst, fuel, approx);
      && r.Some? && r.value.ok && r.value.kind == Assignment
      && UniqueNames(env')
      && Find(env', st.name) == Some(CallableNode(User(|st.params|, |st.params|, UserFn(st.params, |st.params|, st.body))))
      && (other != st.name ==> Find(env', other) == Find(env, other))
  {
    var st := Parse.ParseStmtSpec(line);
    var c := UserCallable(st.params, st.body);
    UpsertThenFind(env, st.name, c);
    if other != st.name {
      UpsertOthers(env, st.name, c, other);
    }
  }

  /**
    An expression leaves the table as it was. In exact mode a value is
    reported as its printed text, an evaluation error as an error result
    carrying the message; with `print_ast` set nothing is evaluated.
   */
  lemma ExpressionReports(line: string, env: seq<Entry>, printAst: bool, fuel: nat, approx: Outcome)
    requires Parse.ParseStmtSpec(line).ExprStmt?
    ensures var e := Parse.ParseStmtSpec(line).expr;
      var (r, env') := CoreEvalSpec(line, env, Exact, printAst, fuel, approx);
      && env' == env
      && (printAst ==> r == Some(CoreResult(true, Printed(e), Evaluation)))
      && (!printAst && NodeEvalExact(fuel, e, env).Done? ==>
            r == Some(CoreResult(true, Printed(NodeEvalExact(fuel, e, env).node), Evaluation)))
      && (!printAst && NodeEvalExact(fuel, e, env).Failed? ==>
            r.Some? && !r.value.ok && r.value.kind == CoreError
            && r.value.text == Print.Trunc(NodeEvalExact(fuel, e, env).err, TEXT_CAP - 1))
  {
  }

  /** Of two assignments to one name, the second decides what the name finds. */
  lemma LastWriteWins(l1: string, l2: string, env: seq<Entry>, mode: EvalMode, printAst: bool, fuel: nat, approx: Outcome)
    requires UniqueNames(env)
    requires Parse.ParseStmtSpec(l1).AssignStmt? && Parse.ParseStmtSpec(l2).AssignStmt?
    requires Parse.ParseStmtSpec(l1).name == Parse.ParseStmtSpec(l2).name
    ensures var env1 := CoreEvalSpec(l1, env, mode, printAst, fuel, approx).1;
      var env2 := CoreEvalSpec(l2, env1, mode, printAst, fuel, approx).1;
      Find(env2, Parse.ParseStmtSpec(l2).name) == Some(Parse.ParseStmtSpec(l2).expr)
      && |env2| == |env1|
  {
    var s1, s2 := Parse.ParseStmtSpec(l1), Parse.ParseStmtSpec(l2);
    UpsertThenFind(env, s1.name, s1.expr);
    var env1 := Upsert(env, s1.name, s1.expr);
    UpsertThenFind(env1, s2.name, s2.expr);
  }
}
