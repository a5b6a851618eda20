# ikcas core in Dafny

This project models the computer-algebra core of ikcas, a terminal calculator. It also proves properties of that model. A line typed by the user goes through these steps:

- The lexer turns the line into tokens, inserting an implicit `*` where two primaries meet.
- A Pratt parser classifies the line as an expression, an assignment `x = e` or a function definition `f(x, y) = e`.
- The core either stores the statement in a global table, or evaluates the expression.
- Evaluation is exact: it folds constants over rational numbers, applies algebraic identities, follows symbol definitions, and calls `abs` and user functions.
- The printer renders the result as text with the parentheses the precedences require.

Around this sit three support pieces:

- a bump allocator (the arena);
- the `:command` registry with its argument tokenizer;
- the integer Bresenham line rasteriser of the plot view.

There is one Dafny module per source file.

| module | source | form |
|---|---|---|
| `Wrappers` | (none) | `Option`, `Result` |
| `Num` | src/core/num.c | rationals as pairs of unbounded integers. Fraction arithmetic is pure functions. `i64_gcd` and `rat_pow_i64` are methods with loops, proved against functions, and the value of every operation is proved as a lemma over the reals. |
| `Lex` | src/core/lex.c | the `Lexer` class, whose `LexReal` and `Next` are proved equal to the step functions `LexRealSpec` and `StepSpec`. `Stream` is the token sequence handed to the parser. |
| `Ast` | src/core/node.c, inc/core/node.h | the node tagged union as a datatype. `node_rat`, `node_unary`, `node_bin` and `node_call` are its constructors `RatNode`, `Neg`, `Bin` and `Call`. |
| `Env` | src/core/env.c | the `Env` class, an insertion-ordered table over an array with upsert, and lookup contexts (a table, or a parameter overlay over a base context). |
| `Builtins` | src/core/builtins.c, src/core/core.c:26-72 | the `abs` callbacks and `check_arity` |
| `Eval` | src/core/eval.c (exact mode) | the evaluator as recursive functions with fuel, the symbol and callee chase loops as methods, and the rewrite rules as `FoldBinop` |
| `Parse` | src/core/parse.c | the grammar as functions over the token sequence, and the `Parser` class whose recursive methods drive a `Lexer` and are proved to agree with those functions |
| `Print` | src/core/print.c | the `StringBuilder` class over a `char` array, and `NodePrint`, proved against the rendering function `Render` |
| `Core` | src/core/core.c | the `Core` class (global table, mode, `print_ast`), and `EvalLine` proved against `CoreEvalSpec` |
| `Arena` | src/memory/arena.c | the `Arena` class over a list of (used, cap) blocks, and the 64-bit size rounding on `bv64` |
| `Cmd` | src/core/cmd.c | the `Registry` class over an array, and the tokenizer and `cmd_try_exec` as methods proved against functions |
| `Plot` | src/ui/plot.c | `PutPx` and `DrawLine` on a byte `array`, proved against `Draw` over `Trace`, the sequence of points the loop visits |

Where the code and its documentation disagree, the model follows the code:

- `rat_norm` only negates a negative denominator and does not reduce the fraction.
- The arena's rounding mask is `-7`, not `~7`.
- Left-nested powers print without parentheses.
- `0/x` folds to 0 for a symbolic `x`.
- `x/0` with a symbolic `x` stays an unevaluated quotient.
- Trailing input after a complete statement leaves the parser's message unset, which `core_eval` then reads; the model gives the result text "" with `ok = false`.

Interfaces to parts that are not modelled are parameters:

- whether a `malloc`, `realloc` or key duplication succeeds;
- the approximate evaluator's outcome;
- whether a UI is present;
- the evaluation fuel.

## Model

| member | source | states |
|---|---|---|
| Num.Abs | src/core/num.c:9-11 | the result is x or -x and is never negative |
| Num.TruncDiv | src/core/num.c:34-35 | C's `/` by a positive divisor truncates toward zero: Euclidean division for x >= 0, the negated quotient of the magnitude for x < 0 |
| Num.GcdDivides | src/core/num.c:13-19 | Euclid's gcd is 0 exactly when both inputs are 0, and otherwise divides both |
| Num.GcdGreatest | src/core/num.c:13-19 | every common divisor divides the gcd |
| Num.I64Gcd | src/core/num.c:13-19 | the remainder loop on the absolute values returns Euclid's gcd of them |
| Num.I64GcdIsGcd | src/core/num.c:13-19 | the result is the greatest common divisor of a and b: 0 only for 0 and 0, a common divisor, and a multiple of every other common divisor |
| Num.RatFromI64 | src/core/num.c:21-23 | n/1 is in lowest terms and has value n |
| Num.RatIsZero | src/core/num.c:25-27 | for a nonzero denominator, true exactly when the value is 0 |
| Num.RatNorm | src/core/num.c:29-36 | a zero denominator is returned unchanged; a zero numerator gives exactly 0/1; a positive denominator gives a reduced fraction; a negative one only flips both signs |
| Num.RatNormValue | src/core/num.c:29-36 | normalising keeps the value |
| Num.NormTwiceIsReduced | src/core/num.c:32 | a second `rat_norm` reaches lowest terms for every nonzero denominator, with the same value |
| Num.NormOfReduced | src/core/num.c:29-36 | a fraction in lowest terms is a fixed point of `rat_norm` |
| Num.NormNegativeDenominator | src/core/num.c:32 | 2/-4 normalises to -2/4, which is not in lowest terms |
| Num.RatAdd | src/core/num.c:38-43 | the sum of proper fractions has a positive denominator, and is in lowest terms when both inputs have positive denominators |
| Num.RatAddValue | src/core/num.c:38-43 | the value of the sum is the sum of the values |
| Num.RatSub | src/core/num.c:45-48 | as `RatAdd`, for the difference |
| Num.RatSubValue | src/core/num.c:45-48 | the value of the difference is the difference of the values |
| Num.RatMul | src/core/num.c:50-55 | the product of nonzero numbers is nonzero; positive denominators give a reduced product |
| Num.RatMulValue | src/core/num.c:50-55 | the value of the product is the product of the values |
| Num.RatDiv | src/core/num.c:57-64 | fails, returning 0/1, exactly when the divisor's numerator is 0; otherwise the denominator is positive |
| Num.RatDivValue | src/core/num.c:57-64 | a successful quotient's value is the quotient of the values |
| Num.RatPowFails | src/core/num.c:66-71 | a power fails exactly for a base normalising to 0 under a negative exponent, and then yields 0/1 |
| Num.RatPowI64 | src/core/num.c:66-91 | e = 0 gives 1 even for a zero base; failure exactly for a zero base and e < 0; for e > 0 the reduced a^e; for e < 0 the reduced 1/a^-e |
| Num.RatPow | src/core/num.c:66-91 | the exact power of the normalised base with its success flag; no contract of its own: `RatPowFails`, `PositivePower` and `NegativePower` state its failures and values, and `RatPowI64` is the loop proved equal to it |
| Num.PositivePower | src/core/num.c:73-83 | square-and-multiply on the normalised base yields a^e in lowest terms |
| Num.NegativePower | src/core/num.c:73-90 | square-and-multiply on -e and then `rat_div(1, r)` yields the reduced inverse of a^-e |
| Num.SquareAndMultiply | src/core/num.c:76-82 | the loop's result is the base raised to p, nonzero for a nonzero base, reduced for a positive denominator |
| Num.SquareAndMultiplyStep | src/core/num.c:79-81 | one iteration keeps res * base^p equal to the target while halving p |
| Num.PowLoopNonzero | src/core/num.c:76-82 | square-and-multiply from nonzero rationals stays nonzero |
| Num.Invert | src/core/num.c:84-88 | the final division succeeds and gives the reduced inverse power |
| Num.InvertPower | src/core/num.c:84-88 | the inverse of a nonzero reduced power is reduced, and its value times a^p is 1 |
| Num.InverseOfReduced | src/core/num.c:86 | `rat_div(1, r)` of a nonzero reduced r is reduced |
| Num.NatToStrDigits | src/core/num.c:95-96 | `%lld` of a magnitude is a non-empty string of decimal digits |
| Num.RatToStrHasSlash | src/core/num.c:93-97 | the rendering contains `/` exactly when the normalised denominator is not 1 |
| Num.RatToStr | src/core/num.c:93-97 | the text of the normalised rational: the numerator, then `/` and the denominator unless it is 1; it has no contract of its own, and `RatToStrReadsBack` is its round trip |
| Num.NatToStrValue | src/core/num.c:95-96 | the lexer's decimal reading of the digits `%lld` writes for n is n |
| Num.IntToStrReadsBack | src/core/num.c:95-96 | `%lld` text of any integer, minus sign included, reads back as that integer and holds no `/` |
| Num.RatToStrReadsBack | src/core/num.c:93-97 | reading the rendering back (the integer before the first `/` over the one after it, or over 1) gives exactly the normalised rational |
| Num.RatToStrValue | src/core/num.c:93-97 | for a nonzero denominator the text read back has the rational's value |
| Lex.MakeTok | src/core/lex.c:13-17 | the token has the given kind, start and length, and a zero value |
| Lex.SkipSpaceBounds | src/core/lex.c:21 | whitespace skipping stops at the first non-space character or at the end |
| Lex.DigitEndBounds | src/core/lex.c:29-42 | a digit run ends at the first non-digit |
| Lex.IdentEndBounds | src/core/lex.c:44-48 | an identifier run ends at the first character outside `[A-Za-z0-9_]` |
| Lex.LexRealShape | src/core/lex.c:19-63 | a token lies after skipped whitespace and within the input; a token that is not EOF consumes input; no progress means a zero-length EOF |
| Lex.NumberToken | src/core/lex.c:29-42 | a digit run is one NUM token covering every digit of the maximal run, holding its decimal value |
| Lex.IdentToken | src/core/lex.c:10-11 | an identifier is the maximal run matching `[A-Za-z_][A-Za-z0-9_]*` |
| Lex.PunctToken | src/core/lex.c:50-62 | any other character is consumed; each of `+-*/^()=,` gives its own one-character token and anything else a zero-length EOF |
| Lex.EofRepeats | src/core/lex.c:23-24 | at the end the lexer yields a zero-length EOF without advancing, so the next call yields it again |
| Lex.DecimalValueOfDigits | src/core/lex.c:33-34 | the digits are read most significant first: "42" is 42 and "007" is 7 |
| Lex.InitState | src/core/lex.c:73-79 | nothing is queued, the previous real token is an empty EOF, and the first real token has been read |
| Lex.Lexer.constructor | src/core/lex.c:73-79 | a new lexer is in the `lex_init` state of its input |
| Lex.Lexer.Reset | src/core/lex.c:73-79 | re-initialising yields the `lex_init` state of the new input |
| Lex.Lexer.LexReal | src/core/lex.c:19-63 | the scanning loops return the token of `LexRealSpec` and move only the read position |
| Lex.Lexer.Peek | src/core/lex.c:81-84 | reads the state without changing it: the queued token if there is one, else the current one |
| Lex.Lexer.Next | src/core/lex.c:86-104 | the token returned and the new state are one step of `StepSpec` |
| Lex.NextReturnsPeek | src/core/lex.c:81-92 | `lex_next` returns exactly what `lex_peek` shows |
| Lex.QueuedStarDoesNotAdvance | src/core/lex.c:87-90 | a queued `*` is handed out without reading input or changing the current token |
| Lex.ImplicitMultiplication | src/core/lex.c:92-102 | after NUM/IDENT/RPAREN followed by NUM/IDENT/LPAREN a zero-length `*` at the end of the first token is queued, except for IDENT before LPAREN, and only then |
| Lex.StepBudget | src/core/lex.c:86-104 | every step past a token that is not EOF brings the end of the token stream closer |
| Lex.StepGood | src/core/lex.c:86-104 | the read position stays within the input, and a queued token is always a zero-length `*` |
| Lex.StreamEndsAtEof | src/core/lex.c:86-104 | the token stream ends with its first EOF |
| Lex.StreamStep | src/core/lex.c:86-104 | taking a token that is not EOF leaves the rest of the stream |
| Lex.StreamIsRealTokensWithStars | src/core/lex.c:86-104 | removing the injected `*` tokens from what `lex_next` hands out leaves exactly the real tokens |
| Lex.TokensAreRealTokensWithStars | src/core/lex.c:73-104 | the same, for the whole line from `lex_init` on |
| Ast.NodeSymbol | src/core/node.c:27-34 | a symbol spelled by all of s when len < 0 (or len exceeds its length), else by its first len characters |
| Ast.NodeCallableBuiltin | src/core/node.c:60-75 | a builtin callable for the given function, with the function's own arity bounds |
| Ast.NodeCallableUser | src/core/node.c:77-92 | a user callable for the given function, accepting exactly its arity |
| Ast.DeepCopy | src/core/node.c:94-131 | the copy equals the original in every kind, value, name, argument count and argument order |
| Ast.DeepCopyArgs | src/core/node.c:121-123 | the argument loop copies every argument in order |
| Env.IndexOf | src/core/env.c:54-59 | the index of the first entry with the name, or -1 exactly when no entry has it |
| Env.Find | src/core/env.c:43-51 | nothing exactly when no entry has the name; otherwise the value of an entry with it |
| Env.Upsert | src/core/env.c:53-72 | an existing name keeps its index and length and gets the new value, with every other entry unchanged; a new name is appended at the end |
| Env.UpsertThenFind | src/core/env.c:53-72 | names stay unique, and right after setting a name the table finds the new value |
| Env.UpsertOthers | src/core/env.c:53-72 | setting one name changes what no other name finds |
| Env.GrownCap | src/core/env.c:61-66 | the capacity grows strictly and stays in the series 0, 16, 32, 64, ... |
| Env.Env.constructor | src/core/env.c:22-26 | a new table is empty with no capacity |
| Env.Env.Get | src/core/env.c:43-51 | the scan returns the value of the first entry with the name, or nothing; the table is not changed |
| Env.Env.Grow | src/core/env.c:61-66 | the reallocated array has the new capacity and the same entries |
| Env.Env.Set | src/core/env.c:53-72 | on success the entries become `Upsert` of the old ones, len <= cap, and the capacity follows 0, 16, doubling; a failed allocation or key copy changes nothing |
| Env.Env.Append | src/core/env.c:61-71 | a new name is appended at index len after growing a full table |
| Env.Lookup | src/core/env.c:11-20 | a null name finds nothing in any context |
| Env.LookupEnv | src/core/env.c:11-15 | nothing for a null table or a null name, else the table's first match |
| Env.OverlayGet | src/core/env.c:74-84 | the locals are searched first and the first match wins; otherwise the base context is asked, or nothing without one |
| Env.OverlayScan | src/core/env.c:74-84 | the scan over the locals and then the base gives the result of `OverlayGet` |
| Builtins.CheckArity | src/core/builtins.c:16-31 | false for inverted bounds, else true exactly when min <= got <= max |
| Builtins.AbsRat | src/core/builtins.c:41-46 | the normalised absolute value has a non-negative numerator and a positive denominator, reduced for a positive input denominator |
| Builtins.AbsRatValue | src/core/builtins.c:41-46 | its value is the absolute value |
| Builtins.NegatedFraction | src/core/builtins.c:48-56 | negating the numerator over a positive denominator negates the value and keeps lowest terms |
| Builtins.AbsFoldMeaning | src/core/builtins.c:41-70 | a rational or negated rational folds to its reduced absolute value; a negated non-number becomes `abs(inner)` with one argument; any other node is not folded and no error is set |
| Builtins.LibAbsCb | src/core/builtins.c:34-71 | the arity check's verdict is ignored and the first argument is folded, never with an error |
| Builtins.CoreAbsCb | src/core/core.c:26-66 | a count other than 1 is the error "abs takes 1 argument"; otherwise the same folding |
| Builtins.ApplyBuiltin | src/core/core.c:67-72 | calling a builtin runs its own callback |
| Eval.IsZeroRat | src/core/eval.c:37-39 | true exactly for a rational node with numerator 0 |
| Eval.IsZeroRatValue | src/core/eval.c:37-39 | for a proper rational, true exactly when the value is 0 |
| Eval.IsOneRat | src/core/eval.c:41-43 | only rational nodes qualify |
| Eval.IsOneRatValue | src/core/eval.c:41-43 | for a proper rational, true exactly when the value is 1; over a zero denominator, exactly for 0/0 |
| Eval.MkNeg | src/core/eval.c:46-53 | a proper rational is negated into lowest terms; anything else is wrapped in a negation |
| Eval.MkNegValue | src/core/eval.c:46-53 | the negated rational has the negated value |
| Eval.MkRat | src/core/eval.c:44 | a rational node holding the normalised value |
| Eval.MkRatValue | src/core/eval.c:44 | it keeps the value of a proper rational |
| Eval.Bind | src/core/eval.c:198-212 | parameter k is paired with argument k |
| Eval.EvalArgs | src/core/eval.c:170-177 | all arguments evaluated gives one value per argument; a stop carries a failure |
| Eval.EvalArgsValues | src/core/eval.c:170-177 | the values are the arguments' values, in order |
| Eval.EvalArgsStopped | src/core/eval.c:170-177 | a stop is the failure of the first failing argument, after all earlier ones evaluated |
| Eval.FoldAdd | src/core/eval.c:278-285 | adding two proper rationals gives a rational with the sum of the values, whichever rule fires |
| Eval.FoldSub | src/core/eval.c:286-293 | the same for the difference |
| Eval.FoldMul | src/core/eval.c:294-305 | the same for the product |
| Eval.FoldDiv | src/core/eval.c:306-322 | a zero divisor is "division by zero"; otherwise a rational with the quotient |
| Eval.FoldPower | src/core/eval.c:323-334 | folds only a rational raised to a rational with normalised denominator 1: "invalid power" exactly for a zero base and negative exponent, else `rat_pow_i64`'s result; otherwise an unevaluated power |
| Eval.FoldIdentities | src/core/eval.c:278-322 | 0+x=x, x+0=x, 0-x=-x, 0*x=x*0=0 checked before 1*x=x, 0/x=0 (symbols too), 0/0 is an error, x/1=x, and a symbol over 0 stays a quotient |
| Eval.FoldBinop | src/core/eval.c:264-338 | the rewrite rules of `eval_binop_impl` in the source's order; no contract of its own: `FoldAdd` to `FoldPower`, `FoldIdentities` and `FoldMulReorders` state what each operator yields |
| Eval.FoldMulReorders | src/core/eval.c:302-303 | a rational factor on the right of a symbolic one moves to the left |
| Eval.EvalClosed | src/core/eval.c:83-114 | on expressions over proper rationals with `- + - * /`, evaluation gives a rational with the arithmetic value, or "division by zero" exactly when some divisor is 0 |
| Eval.ClosedFold | src/core/eval.c:277-322 | one folding step of two rationals agrees with the real operator |
| Eval.OperandOrder | src/core/eval.c:267-272 | the left operand is evaluated first and its failure wins, then the right operand's; otherwise the rewrite rules apply to the two values |
| Eval.NegationFolds | src/core/eval.c:95-100 | negation of an evaluated rational folds to its negated value, negation of anything else builds a NEG node, and a failure passes through |
| Eval.FollowChain | src/core/eval.c:116-149 | a chain of distinct names bound one to the next is followed to its end, within the 64 slots |
| Eval.ChainDepth | src/core/eval.c:132-133 | 65 chained distinct names are "definitions too deep" for evaluation and resolution; 64 still resolve |
| Eval.FreeAndCyclic | src/core/eval.c:128-143 | a name bound to itself is a free symbol, two names bound to each other are "cyclic definition", and an unbound name is "undefined variable" |
| Eval.ChaseSound | src/core/eval.c:116-149 | a chase ends in a self-bound name, in a non-symbol bound to some name, or in one of the three errors |
| Eval.Chase | src/core/eval.c:116-149 | the symbol chase as a function of the names visited; no contract of its own: `FollowChain`, `ChainDepth`, `FreeAndCyclic` and `ChaseSound` state where it ends, and `ChaseSymbol` is the loop proved equal to it |
| Eval.ResolveSound | src/core/eval.c:226-262 | resolution ends in a callable bound to some name, or in one of four errors, including "undefined function" and "symbol is not callable" |
| Eval.Resolve | src/core/eval.c:226-262 | the callee resolution as a function of the names visited; no contract of its own: `ResolveSound` states its outcomes, and `ResolveCallable` is the loop proved equal to it |
| Eval.EvalCall | src/core/eval.c:150-224 | resolve, check the count against the callee's bounds, evaluate the arguments, then `Apply`; no contract of its own: `ArityBeforeArguments`, `EvalArgsStopped` and `AbsCall` state its order and results |
| Eval.Apply | src/core/eval.c:178-223 | a builtin's error, fold or rebuilt call, or a user body under its parameters' overlay; no contract of its own: `ParametersBound` and `AbsCall` state its results |
| Eval.ArityBeforeArguments | src/core/eval.c:151-164 | a resolution error, or an argument count outside [min, max], is returned before any argument is evaluated |
| Eval.ParametersBound | src/core/eval.c:198-220 | the body's overlay finds argument k under parameter k and defers every other name to the caller |
| Eval.AbsCall | src/core/eval.c:179-196 | `abs` of an argument evaluating to a rational is its absolute value; other counts are "wrong arity" |
| Eval.EvalFuel | src/core/eval.c:83-114 | the fuel only bounds the evaluation: an outcome reached with some fuel is unchanged with more |
| Eval.ChaseSymbol | src/core/eval.c:116-149 | the loop over the seen array returns the chase of the name |
| Eval.ResolveCallable | src/core/eval.c:226-262 | the loop returns the resolution of the name |
| Eval.EvalArguments | src/core/eval.c:170-177 | the argument loop returns the outcome of `EvalArgs` |
| Eval.BindLocals | src/core/eval.c:198-212 | the names/values loop builds the overlay's entries |
| Parse.InfixTokens | src/core/parse.c:24-37 | `+ -` bind at 10, `* /` at 20 and `^` at 30; exactly these tokens are infix operators and all others bind at 0 |
| Parse.ExprLoopStops | src/core/parse.c:116-130 | the operator loop stops only at a token binding no tighter than minbp |
| Parse.ExprStops | src/core/parse.c:116-130 | an expression consumes input and stops at a token binding no tighter than minbp; at level 0 that token is not an operator |
| Parse.NumberOperand | src/core/parse.c:44-46 | a number followed by a token binding no tighter than the level is a whole operand n/1 |
| Parse.Grouping | src/core/parse.c:81-130 | `a o1 b o2 c` groups to the right exactly when o2 binds tighter than o1's right binding power |
| Parse.OperatorTable | src/core/parse.c:84-110 | `+ - * /` are left associative, `^` is right associative, and a tighter operator groups first |
| Parse.NegationScope | src/core/parse.c:65-69 | unary minus takes its operand at 25: -a^b is -(a^b), while -a*b is (-a)*b |
| Parse.ArgsInOrder | src/core/parse.c:149-174 | the argument loop keeps the arguments already parsed, in order, in front of the new ones |
| Parse.ParamsInOrder | src/core/parse.c:209-234 | the same for parameter names |
| Parse.ListsEndAtParen | src/core/parse.c:132-238 | a successful argument or parameter list ends with the `)` it took |
| Parse.FuncdefParamsMeaning | src/core/parse.c:240-270 | the look-ahead over names accepts exactly what the parameter loop parses when `=` follows |
| Parse.LooksLikeFuncdefMeaning | src/core/parse.c:240-270 | a definition is seen exactly for IDENT `(` followed by a parameter list that parses and is followed by `=` |
| Parse.StatementKinds | src/core/parse.c:272-362 | a definition only after the look-ahead confirms it, an assignment only for IDENT `=`, else an expression; each kind carries its name, parameters and expression, and must end the line |
| Parse.TrailingInput | src/core/parse.c:346-361 | an expression followed by more input gives a statement with no name, no expression and no message, and the leftover token is not an operator |
| Parse.TakeTok | src/core/parse.c:12 | taking a token hands out the next token of the stream and advances past it |
| Parse.Grow | src/core/parse.c:149-161 | growing the list copies every earlier entry into the larger array |
| Parse.Push | src/core/parse.c:149-163 | storing an item doubles a full array and appends the item after the earlier entries |
| Parse.Parser.constructor | src/core/parse.c:273-275 | a parser starts at the first token of its line with no message |
| Parse.Parser.SetError | src/core/parse.c:13 | the message is recorded |
| Parse.Parser.Expect | src/core/parse.c:18-22 | the expected kind is taken, or the message is set and nothing is taken |
| Parse.Parser.Nud | src/core/parse.c:41-79 | the primary parsed and the input consumed are those of `NudSpec`, or its message |
| Parse.Parser.Name | src/core/parse.c:48-63 | an identifier becomes a call when `(` follows, else a symbol |
| Parse.Parser.Group | src/core/parse.c:71-76 | a parenthesised expression and its closing `)` |
| Parse.Parser.Led | src/core/parse.c:81-114 | the right operand is parsed at the operator's right binding power, as `LedSpec` says |
| Parse.Parser.Expr | src/core/parse.c:116-130 | the expression loop agrees with `ExprSpec` |
| Parse.Parser.Infix | src/core/parse.c:121-127 | one round of the loop takes the operator and calls `led` |
| Parse.Parser.ArgList | src/core/parse.c:132-179 | the growing-array argument loop agrees with `ArgListSpec` |
| Parse.Parser.Argument | src/core/parse.c:149-174 | one item is parsed, stored after the earlier ones, and its separator taken |
| Parse.Parser.Separator | src/core/parse.c:165-174 | `,` continues, `)` ends, and anything else is the error "expected ',' or ')'" with nothing taken |
| Parse.Parser.ParamList | src/core/parse.c:181-238 | the parameter loop agrees with `ParamListSpec` |
| Parse.Parser.Parameter | src/core/parse.c:196-234 | one identifier is stored after the earlier names and its separator taken |
| Parse.LooksLikeFuncdef | src/core/parse.c:240-270 | the scan with its own lexer decides `LooksLikeFuncdefSpec` |
| Parse.FuncdefParamsScan | src/core/parse.c:253-266 | the name loop of the scan decides `FuncdefParams` |
| Parse.ParseStatement | src/core/parse.c:272-362 | the statement is the one the grammar gives for the line |
| Parse.Funcdef | src/core/parse.c:285-317 | the definition path, with parameter list, `=`, body and end-of-line check |
| Parse.Assignment | src/core/parse.c:318-339 | the assignment path, with its expression and end-of-line check |
| Parse.ExpressionStatement | src/core/parse.c:346-361 | the expression path, with its end-of-line check |
| Print.Trunc | src/core/print.c:16-23 | what a bounded buffer keeps is never longer than its limit |
| Print.TruncAppend | src/core/print.c:16-29 | truncating after each append equals truncating the whole text once |
| Print.StringBuilder.constructor | src/core/print.c:9-14 | a builder starts empty, with a NUL in the buffer when there is room |
| Print.StringBuilder.Puts | src/core/print.c:16-23 | the text becomes the old text plus s, cut to cap-1 characters, and stays NUL-terminated |
| Print.StringBuilder.Putc | src/core/print.c:25-29 | c is appended when len+1 < cap; otherwise the buffer is left unchanged |
| Print.PrecMirrorsLbp | src/core/print.c:31-45 | an operator's node prints at its token's left binding power, its right operand one above the parser's right binding power (at it for `^`), and a negation at 25 |
| Print.PrintsParsedGrouping | src/core/print.c:56-124 | any parsed `a o1 b o2 c` over numbers prints without parentheses |
| Print.RightGroupPrints | src/core/print.c:79-103 | `a o1 (b o2 c)` prints bare when o2's node is not below o1's right-operand level |
| Print.LeftGroupPrints | src/core/print.c:79-103 | `(a o1 b) o2 c` prints bare when o1's node is not below o2's |
| Print.PowerNestingLost | src/core/print.c:99-103 | `(a^b)^c` and `a^(b^c)` are different trees that print the same text |
| Print.SameLevelRightOperand | src/core/print.c:79-98 | for operators of one level, `a-(b-c)` gets parentheses and `(a-b)-c` does not |
| Print.NodePrint | src/core/print.c:56-124 | the builder's text becomes the old text plus the rendering, parenthesised exactly when the node's precedence is below the parent's, truncated to the buffer |
| Print.Render | src/core/print.c:56-62 | a node's text, in parentheses exactly when its precedence is below the parent's; no contract of its own: `PrintsParsedGrouping`, `RightGroupPrints`, `LeftGroupPrints`, `SameLevelRightOperand` and `PowerNestingLost` state what it yields, and `NodePrint` is the method proved equal to it |
| Print.RenderBody | src/core/print.c:64-121 | the text inside the parentheses for each node kind; no contract of its own: `PrintBody` is the method proved equal to it |
| Print.PrintedNaturalLexes | src/core/print.c:65-68 | a printed natural number lexes back as one NUM token covering the whole text and holding that number |
| Print.PrintBody | src/core/print.c:61-122 | the switch appends the rendering of the node's body |
| Print.PrintNeg | src/core/print.c:75-78 | `-` then the operand at 25 |
| Print.PrintBin | src/core/print.c:79-103 | the left operand at p, the operator, the right operand at p+1 (p-1 for `^`) |
| Print.PrintCall | src/core/print.c:104-112 | the name, `(`, the arguments at precedence 0 separated by ", ", `)` |
| Print.PrintArg | src/core/print.c:106-110 | one round of the argument loop appends the separator and the next argument |
| Core.Printed | src/core/core.c:188-207 | the printed result fits the 128-byte text with its NUL |
| Core.Core.constructor | src/core/core.c:74-85 | the table holds exactly `pi`, `e` and `abs`; the mode is exact |
| Core.Core.SetEvalMode | src/core/core.c:214-216 | the mode becomes the one given, and nothing else changes |
| Core.Core.GetEvalMode | src/core/core.c:218-220 | returns the last mode set |
| Core.Core.StoreCopyUserFunc | src/core/core.c:132-155 | the user callable with the copied parameters, arity and body is upserted under the name |
| Core.Core.EvalLine | src/core/core.c:157-212 | the result and the new table are those of `CoreEvalSpec` |
| Core.CoreEvalSpec | src/core/core.c:157-212 | the result and new table of one `core_eval`; no contract of its own: `ParseFailureChangesNothing`, `AssignmentStores`, `DefinitionStores`, `ExpressionReports` and `LastWriteWins` state its effect, and `Core.Core.EvalLine` is the method proved equal to it |
| Core.PrintText | src/core/core.c:188-192 | printing into a fresh 128-byte builder gives `Printed` |
| Core.InitialBindingsMeaning | src/core/core.c:74-85 | `pi` and `e` are symbols of their own name, `abs` is the builtin with arity 1..1, and no other name is bound |
| Core.ParseFailureChangesNothing | src/core/core.c:164-171 | a line that does not parse fails with the parser's message and leaves the table unchanged |
| Core.AssignmentStores | src/core/core.c:173-178 | an assignment stores the unevaluated right-hand side under the name, changes no other name, and does not depend on the mode or the evaluator |
| Core.DefinitionStores | src/core/core.c:179-184 | a definition stores a user callable with the parameters, their count and the body |
| Core.ExpressionReports | src/core/core.c:188-209 | an expression leaves the table alone; success gives its printed value, failure the error text with ok=false and kind error |
| Core.LastWriteWins | src/core/core.c:173-178 | after two assignments to one name, the second value is found, and the table keeps its size |
| Arena.RoundSizeBounds | src/memory/arena.c:36 | without wrap-around the reserved size is strictly above the request and at most 7 above it |
| Arena.RoundSize | src/memory/arena.c:36 | `(size + 7) & -7` on 64 bits; no contract of its own: `RoundSizeBounds`, `RoundSizeNotAligned` and `RoundSizeWraps` state what it yields |
| Arena.RoundSizeNotAligned | src/memory/arena.c:36 | the `-7` mask gives 8 for 1 and 9 for 8, which is not a multiple of 8 |
| Arena.RoundSizeWraps | src/memory/arena.c:36 | near 2^64 the addition wraps and the reserved size falls to 0 |
| Arena.AllocShape | src/memory/arena.c:38-53 | a new head block of max(size, 4096) when there is no room, pushed in front of the kept blocks; the region starts at the head's old `used`; used <= cap is kept; a failed `malloc` changes nothing |
| Arena.AllocSpec | src/memory/arena.c:38-53 | the region and block list of one `arena_alloc` after rounding; no contract of its own: `AllocShape` and `SuccessiveAllocationsDisjoint` state its effect, and `Arena.Arena.Reserve` is the method proved equal to it |
| Arena.SuccessiveAllocationsDisjoint | src/memory/arena.c:51-53 | two allocations in one block do not overlap |
| Arena.StrdupLength | src/memory/arena.c:12-14 | all of s when n < 0 or n > strlen(s), otherwise n characters |
| Arena.StrdupText | src/memory/arena.c:12-19 | the copy is that prefix of s |
| Arena.Arena.constructor | src/memory/arena.c:21-23 | a new arena has no blocks |
| Arena.Arena.Alloc | src/memory/arena.c:35-54 | the size is rounded, then blocks and region are those of `AllocSpec` |
| Arena.Arena.Reserve | src/memory/arena.c:38-53 | the block list update and region of `AllocSpec` |
| Arena.Arena.Strdup | src/memory/arena.c:12-19 | the text copied is `StrdupText`, in a region of the copied length plus one, rounded |
| Arena.Arena.Destroy | src/memory/arena.c:25-33 | every block is freed from the head on, and none remain |
| Cmd.CText | src/core/cmd.c:94-98 | a C string's text is the prefix before its first NUL |
| Cmd.IndexFrom | src/core/cmd.c:52-57 | the first definition with the name, or -1 exactly when none has it |
| Cmd.RegisterShape | src/core/cmd.c:59-74 | registration either changes nothing and returns false, or appends one definition at index len that lookups then find; names stay unique; with a NULL help it still appends but returns false |
| Cmd.RegisterSpec | src/core/cmd.c:59-74 | the result and new definitions of `cmd_register`; no contract of its own: `RegisterShape` and `RegisterDuplicate` state its effect, and `Cmd.Registry.Register` is the method proved equal to it |
| Cmd.RegisterDuplicate | src/core/cmd.c:62 | an already registered name is refused and nothing changes |
| Cmd.DoubleUntil | src/core/cmd.c:45 | doubling reaches need without going past twice need |
| Cmd.GrowTo | src/core/cmd.c:42-50 | the new capacity exceeds the old one and reaches need, starting at 16 and then doubling |
| Cmd.Registry.constructor | src/core/cmd.c:26-30 | a new registry has no definitions and no capacity |
| Cmd.Registry.EnsureCap | src/core/cmd.c:42-50 | success without change when need fits; otherwise growth to `GrowTo`, or failure with nothing changed when `realloc` fails |
| Cmd.Registry.NewCap | src/core/cmd.c:44-46 | the doubling loop reaches `GrowTo` |
| Cmd.Registry.FindIdx | src/core/cmd.c:52-57 | the index of the definition with the name, or -1 exactly when there is none |
| Cmd.Registry.Find | src/core/cmd.c:76-79 | the registered definition with the name, or nothing exactly when there is none |
| Cmd.Registry.Register | src/core/cmd.c:59-74 | the result and the new definitions are those of `RegisterSpec` |
| Cmd.Register | src/core/cmd.c:60 | a NULL registry is refused |
| Cmd.Count | src/core/cmd.c:81-83 | the number of definitions, 0 for NULL |
| Cmd.At | src/core/cmd.c:85-88 | the i-th definition, or nothing exactly outside [0, len) or for NULL |
| Cmd.Copied | src/core/cmd.c:95-98 | at most tmp_len-1 characters of the text are copied, all of it when it fits |
| Cmd.ArgsFromShape | src/core/cmd.c:103-118 | at most the room left, each argument a quoted run without `"` or a word without whitespace |
| Cmd.TokenizeBounds | src/core/cmd.c:94-120 | at most max_argv arguments, each shorter than tmp_len |
| Cmd.QuotedArg | src/core/cmd.c:108-114 | a `"` starts an argument without the quotes, running to the next `"` or to the end if unterminated |
| Cmd.WordArg | src/core/cmd.c:115-117 | any other character starts a non-empty word running to the next whitespace |
| Cmd.Tokenize | src/core/cmd.c:94-120 | the copy and the loop give `TokenizeSpec` |
| Cmd.CollectArgs | src/core/cmd.c:103-118 | the loop collects `ArgsFrom`, left to right |
| Cmd.SkipSpaces | src/core/cmd.c:104 | whitespace skipping stops at `SkipWs` |
| Cmd.TakeArg | src/core/cmd.c:106-117 | one argument and the position after its terminator |
| Cmd.NextArg | src/core/cmd.c:108-117 | one argument from a non-space position ends strictly after it, within the text; `QuotedArg` and `WordArg` state its text |
| Cmd.QuoteEnd | src/core/cmd.c:111 | the scan stops at a `"` at or after its start, or at the end |
| Cmd.QuotedHasNoQuote | src/core/cmd.c:111 | no `"` lies before where `QuoteEnd` stops, so it stops at the first one |
| Cmd.WordEnd | src/core/cmd.c:116 | the scan stops at a whitespace at or after its start, or at the end |
| Cmd.WordHasNoSpace | src/core/cmd.c:116 | no whitespace lies before where `WordEnd` stops, so it stops at the first one |
| Cmd.ArgsStep | src/core/cmd.c:103-118 | one round of the loop takes one argument and continues after it |
| Cmd.TryExecOutcome | src/core/cmd.c:122-138 | not a command exactly without a UI, for NULL or empty input, or without a leading `:`; a command runs a registered definition named by the first of at most 10 arguments |
| Cmd.TryExecSpec | src/core/cmd.c:122-147 | what `cmd_try_exec` does with a line; no contract of its own: `TryExecOutcome`, `BareColonConsumed` and `UnknownCommandConsumed` state its outcomes, and `Cmd.TryExec` is the method proved equal to it |
| Cmd.BareColonConsumed | src/core/cmd.c:128 | a bare `:`, with or without trailing whitespace, is consumed |
| Cmd.UnknownCommandConsumed | src/core/cmd.c:137-138 | a first word naming no command is consumed |
| Cmd.TryExec | src/core/cmd.c:122-139 | which definition would run with which arguments, as `TryExecSpec` says; NULL registry is not a command |
| Plot.SetPixel | src/ui/plot.c:9-15 | the four channels at the offset hold the colour and every other byte is unchanged |
| Plot.PutPx | src/ui/plot.c:9-15 | writes r, g, b, a at bytes (y*w+x)*4 .. +3; the caller keeps them in range |
| Plot.PixelInBuffer | src/ui/plot.c:27-30 | a pixel inside a W x H image lies inside a buffer the image fits in |
| Plot.StepInRange | src/ui/plot.c:32-34 | before the end, at least one step happens and neither steps past x1 or y1 |
| Plot.ErrClosed | src/ui/plot.c:24-34 | after i x-steps and j y-steps, err is dx*(1+j) - abs(dy)*(1+i) |
| Plot.Advance | src/ui/plot.c:32-34 | a round moves by one in x, in y, or both, and progresses |
| Plot.TraceFrom | src/ui/plot.c:26-35 | the points visited from a state end at (x1, y1) |
| Plot.Trace | src/ui/plot.c:26-35 | the walk starts at (x0, y0), ends at (x1, y1), and has at most dx+abs(dy)+1 points |
| Plot.TraceSteps | src/ui/plot.c:32-34 | consecutive visited points are 8-neighbours in the line's direction |
| Plot.AtEnd | src/ui/plot.c:31 | the stop test holds exactly when all steps are taken |
| Plot.AdvanceState | src/ui/plot.c:32-34 | the loop body moves the variables to the next state of the walk |
| Plot.DrawStep | src/ui/plot.c:26-35 | one round visits the current point, then continues from the next state or stops at the end |
| Plot.DrawFrame | src/ui/plot.c:27-30 | bytes of no visited inside pixel keep their value |
| Plot.DrawPaints | src/ui/plot.c:27-30 | every visited inside pixel ends with the line's colour |
| Plot.PaintKept | src/ui/plot.c:27-30 | a pixel already holding the colour keeps it |
| Plot.Round | src/ui/plot.c:32-34 | both tests use e2 taken before either update |
| Plot.PutPxInside | src/ui/plot.c:27-30 | the pixel is written only when 0 <= x < W and 0 <= y < H |
| Plot.DrawLine | src/ui/plot.c:17-36 | the buffer becomes the old one with every inside point of the walk painted, in order |
| Plot.Draw | src/ui/plot.c:26-35 | the buffer after visiting each point in order keeps its length; `DrawFrame`, `DrawPaints` and `PaintKept` state which bytes it changes and to what |

## Left out

- I/O and the terminal front end: src/ui/ui.c, src/main.c and notcurses are not part of this model. The `:help`, `:mode`, `:precision` and `:undef` handlers are not modelled.
- Approximate mode: `node_eval_approx`, `approx_impl`, `mk_real_bin`, the constant table, `NODE_REAL` and `%.17g` printing are floating point. `Core.Core.EvalLine` takes the approximate outcome as a parameter.
- `plot_demo` (src/ui/plot.c:38-98) is floating-point drawing through notcurses.
- 64-bit wrap-around: integers are unbounded. The truncation of the 128-bit cross products to int64 in num.c, the overflow of a long digit run in lex.c, and the int overflow of `(y*w+x)*4` and `abs` in plot.c are not modelled. The arena's 64-bit rounding is modelled exactly on `bv64`.
- Memory: addresses, `malloc`, `free` and object lifetime are not modelled. Nodes are values, and an arena block is its (used, cap) pair without contents. Allocation success is a parameter in exactly four places: the growth of the environment's array and the copy of its key (`Env.Env.Set`, `Env.Env.Append`), the arena's block `malloc` (`Arena.Arena.Alloc`, `Arena.Arena.Strdup`) and the registry's `realloc` (`Cmd.Registry.EnsureCap`). Every other allocation is taken to succeed, and its failure path is not modelled:
  - parse.c: the "Out of memory error" / "out of memory" / "Out of memory" messages of `nud`, the argument and parameter lists and `parse_stmnt` (src/core/parse.c:49-52, 134-137, 151-154, 183-186, 203-214, 310-313, 334-337); the arena pushes of `Parse.Push` always succeed.
  - eval.c: "out of memory" for the argument array, the builtin's name copy and the overlay arrays, and "null arg" for a null argument value (src/core/eval.c:166-168, 174-176, 192-194, 203-206).
  - core.c: the null results of `store_copy_userfunc` and `store_copy_node_rec` (src/core/core.c:133-152), which `Core.Core.StoreCopyUserFunc` and `Core.Core.EvalLine` ignore by storing with both allocation flags true.
  - core.c: the "out of memory" of the builtin `abs` callback when it cannot allocate the argument array of the kept call (src/core/core.c:56-59).
  - node.c: a node constructor returning null.
- `store_copy_node_rec` and `node_deep_copy` are `Ast.DeepCopy`, a copy equal to its original. The sharing of the callable pointer, and the null children left by failed allocations, are not visible in a value model.
- `env_free`, `core_shutdown` and `cmd_registry_destroy` only free memory.
- `env_overlay_get_const` (src/core/env.c:86-93) forwards to `env_overlay_get` with the same result, so `Env.OverlayGet` covers it.
- `env_remove`, the four-argument `env_set`, `core_get_precision` and `core_get_g_env` are declared in headers but have no body here. The entry layout follows env.c, not the `is_constant` field of env.h.
- Builtins.LibAbsCb: requires at least one argument; with none the source reads past the array, which has no defined outcome.
- The text `check_arity` writes into `*err` with `sprintf` is not modelled, only the false it returns; the library `abs` ignores it anyway.
- Printing a user callable reads the wrong union member; `Print.Render` prints it as `()`.
- Eval.EvalFuel: evaluation carries a fuel bound that the source does not have. `a = a + 1` followed by `a` recurses without end in the source and runs out of fuel here.
- Core.Core.EvalLine: on trailing input the source copies the message through a pointer the parser never set; the model returns an empty text with ok=false. On every other parse error `parse_stmnt` hands back `p.err`, the message array of its own local parser (src/core/parse.c:290, 298, 322, 348; inc/core/parse.h:16-21), and `core_eval` copies from it after that frame has ended (src/core/core.c:164-167). The source therefore reads the message through a dangling pointer; the model returns the parser's message, the evidently intended text, which the code does not guarantee.
- Arena.Arena.Strdup: when `malloc` fails it returns nothing, whereas the source would then write through a null pointer.
- Cmd.Registry.Register: copying the name or help text with `dupstr` is taken to succeed; a failed copy of the name would leave an entry without a name.
- The handler call `def->fn(&ctx)` in `cmd_try_exec` is opaque. `Cmd.TryExec` returns the definition and arguments it would run, and `Cmd.Returns` gives the boolean for a handler status.
- `tokenize` calls `isspace` on a plain `char`; the model classifies characters as the C locale does for non-negative values.
- `UNREACHABLE` and `NOT_IMPLEMENTED` exit the process. The cases that reach them are left out of the datatypes.
