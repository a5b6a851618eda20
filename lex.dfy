/**
  The lexer (src/core/lex.c): a lazy tokenizer with one token of look-ahead
  that queues a zero-length `*` between two adjacent primaries.

  The input is a C string: every position at or past the end, and every
  position holding NUL, reads as the terminator. Token positions are
  offsets into the input instead of pointers.
 */
module Lex {

  datatype TokKind = Eof | Number | Ident | Plus | Minus | Star | Slash | Caret | LParen | RParen | Equals | Comma

  /** `tok_t`: kind, span (offset and length) and the decimal value of a number. */
  datatype Token = Token(kind: TokKind, beg: int, len: int, i64: int)

  const NUL: char := '\0'

  /** The character at position i of a C string. */
  function CharAt(s: string, i: int): char {
    if 0 <= i < |s| then s[i] else NUL
  }

  /** `isspace` in the C locale: space, tab, newline, vertical tab, form feed, carriage return. */
  predicate IsSpace(c: char) {
    c == ' ' || 9 <= c as int <= 13
  }

  predicate IsDigit(c: char) {
    '0' <= c <= '9'
  }

  predicate IsAlpha(c: char) {
    'a' <= c <= 'z' || 'A' <= c <= 'Z'
  }

  /** `is_ident0`. */
  predicate IsIdent0(c: char) {
    IsAlpha(c) || c == '_'
  }

  /** `is_ident`. */
  predicate IsIdent(c: char) {
    IsAlpha(c) || IsDigit(c) || c == '_'
  }

  /** `make_tok`: every other field zeroed. */
  function MakeTok(kind: TokKind, beg: int, len: int): (t: Token)
    ensures t.kind == kind && t.beg == beg && t.len == len && t.i64 == 0
  {
    Token(kind, beg, len, 0)
  }

  // ---------------------------------------------------------------------------
  // Scanning one real token
  // ---------------------------------------------------------------------------

  /** The first position at or after i that is not whitespace. */
  function SkipSpace(s: string, i: nat): (j: nat)
    decreases |s| - i
  {
    if CharAt(s, i) != NUL && IsSpace(CharAt(s, i)) then SkipSpace(s, i + 1) else i
  }

  /** The end of the digit run starting at i. */
  function DigitEnd(s: string, i: nat): (j: nat)
    decreases |s| - i
  {
    if IsDigit(CharAt(s, i)) then DigitEnd(s, i + 1) else i
  }

  /** The end of the run of identifier characters starting at i. */
  function IdentEnd(s: string, i: nat): (j: nat)
    decreases |s| - i
  {
    if IsIdent(CharAt(s, i)) then IdentEnd(s, i + 1) else i
  }

  /** The decimal value of a digit string, read most significant digit first (v = v*10 + d). */
  function DecimalValue(ds: string): nat
  {
    if |ds| == 0 then 0
    else
      var d := (ds[|ds| - 1] as int) - ('0' as int);
      DecimalValue(ds[..|ds| - 1]) * 10 + (if 0 <= d then d else 0)
  }

  /** The token kind of a single-character operator; Eof for any other character. */
  function PunctKind(c: char): TokKind {
    match c
    case '+' => Plus
    case '-' => Minus
    case '*' => Star
    case '/' => Slash
    case '^' => Caret
    case '(' => LParen
    case ')' => RParen
    case '=' => Equals
    case ',' => Comma
    case _ => Eof
  }

  /** `lex_real` as a function of the input and the read position: the token and the new position. */
  function LexRealSpec(s: string, i: nat): (Token, nat) {
    var j := SkipSpace(s, i);
    var c := CharAt(s, j);
    if c == NUL then (MakeTok(Eof, j, 0), j)
    else if IsDigit(c) then
      var e := DigitEnd(s, j);
      DigitEndBounds(s, j);
      (Token(Number, j, e - j, DecimalValue(s[j..e])), e)
    else if IsIdent0(c) then
      var e := IdentEnd(s, j + 1);
      (MakeTok(Ident, j, e - j), e)
    else
      var k := PunctKind(c);
      (MakeTok(k, j, if k == Eof then 0 else 1), j + 1)
  }

  lemma {:induction false} SkipSpaceBounds(s: string, i: nat)
    ensures i <= SkipSpace(s, i)
    ensures i <= |s| ==> SkipSpace(s, i) <= |s|
    ensures forall k :: i <= k < SkipSpace(s, i) ==> IsSpace(s[k])
    ensures var j := SkipSpace(s, i); CharAt(s, j) == NUL || !IsSpace(CharAt(s, j))
    decreases |s| - i
  {
    if CharAt(s, i) != NUL && IsSpace(CharAt(s, i)) {
      SkipSpaceBounds(s, i + 1);
    }
  }

  lemma {:induction false} DigitEndBounds(s: string, i: nat)
    ensures i <= DigitEnd(s, i)
    ensures i <= |s| ==> DigitEnd(s, i) <= |s|
    ensures forall k :: i <= k < DigitEnd(s, i) ==> k < |s| && IsDigit(s[k])
    ensures !IsDigit(CharAt(s, DigitEnd(s, i)))
    decreases |s| - i
  {
    if IsDigit(CharAt(s, i)) {
      DigitEndBounds(s, i + 1);
    }
  }

  lemma {:induction false} IdentEndBounds(s: string, i: nat)
    ensures i <= IdentEnd(s, i)
    ensures i <= |s| ==> IdentEnd(s, i) <= |s|
    ensures forall k :: i <= k < IdentEnd(s, i) ==> k < |s| && IsIdent(s[k])
    ensures !IsIdent(CharAt(s, IdentEnd(s, i)))
    decreases |s| - i
  {
    if IsIdent(CharAt(s, i)) {
      IdentEndBounds(s, i + 1);
    }
  }

  /**
    What one call of `lex_real` produces: whitespace is skipped, the span lies
    in the input and ends at the new position, the position only moves
    forward, and only the terminator gives a token that does not advance.
   */
  lemma LexRealShape(s: string, i: nat)
    requires i <= |s|
    ensures var (t, i') := LexRealSpec(s, i);
      i <= t.beg && t.len >= 0 && t.beg + t.len <= i' <= |s|
      && (forall k :: i <= k < t.beg ==> IsSpace(s[k]))
      && (i' == i ==> t.kind == Eof && t.len == 0)
      && (t.kind != Eof ==> i' > i && t.len > 0)
  {
    SkipSpaceBounds(s, i);
    var j := SkipSpace(s, i);
    var c := CharAt(s, j);
    if c != NUL && IsDigit(c) {
      DigitEndBounds(s, j);
    } else if c != NUL && IsIdent0(c) {
      IdentEndBounds(s, j + 1);
    }
  }

  /** A digit run is one NUM token holding its decimal value, and the run is maximal. */
  lemma NumberToken(s: string, i: nat)
    requires i <= |s|
    requires IsDigit(CharAt(s, SkipSpace(s, i)))
    ensures var (t, i') := LexRealSpec(s, i);
      t.kind == Number && t.len > 0 && t.beg + t.len == i' <= |s|
      && (forall k :: t.beg <= k < i' ==> IsDigit(s[k]))
      && !IsDigit(CharAt(s, i'))
      && t.i64 == DecimalValue(s[t.beg..i'])
  {
    SkipSpaceBounds(s, i);
    DigitEndBounds(s, SkipSpace(s, i));
  }

  /** An identifier is the maximal run of [A-Za-z_][A-Za-z0-9_]*. */
  lemma IdentToken(s: string, i: nat)
    requires i <= |s|
    requires IsIdent0(CharAt(s, SkipSpace(s, i)))
    ensures var (t, i') := LexRealSpec(s, i);
      t.kind == Ident && t.len > 0 && t.beg + t.len == i' <= |s|
      && IsIdent0(s[t.beg])
      && (forall k :: t.beg <= k < i' ==> IsIdent(s[k]))
      && !IsIdent(CharAt(s, i'))
  {
    SkipSpaceBounds(s, i);
    IdentEndBounds(s, SkipSpace(s, i) + 1);
  }

  /** Any other character is consumed; an operator character gives its own one-character token, anything else Eof. */
  lemma PunctToken(s: string, i: nat)
    requires i <= |s|
    requires var c := CharAt(s, SkipSpace(s, i)); c != NUL && !IsDigit(c) && !IsIdent0(c)
    ensures var (t, i') := LexRealSpec(s, i);
      var c := CharAt(s, SkipSpace(s, i));
      i' == t.beg + 1 && t.kind == PunctKind(c) && (t.len == if t.kind == Eof then 0 else 1)
      && (t.kind == Eof <==> !(c in "+-*/^()=,"))
  {
  }

  /** At the end of the input the lexer yields a zero-length Eof and stays where it is, so it yields the same Eof again. */
  lemma EofRepeats(s: string, i: nat)
    requires CharAt(s, SkipSpace(s, i)) == NUL
    ensures var (t, i') := LexRealSpec(s, i);
      t.kind == Eof && t.len == 0 && i' == SkipSpace(s, i) && LexRealSpec(s, i') == (t, i')
  {
    var j := SkipSpace(s, i);
    assert SkipSpace(s, j) == j;
  }

  /** The value of a digit run is the digits read as a decimal. */
  lemma DecimalValueOfDigits()
    ensures DecimalValue("0") == 0 && DecimalValue("42") == 42 && DecimalValue("007") == 7
  {
    assert "42"[..1] == "4";
    assert "007"[..2] == "00" && "00"[..1] == "0";
  }

  // ---------------------------------------------------------------------------
  // Lexer state and the look-ahead step
  // ---------------------------------------------------------------------------

  /** The fields of `lex_t`, as a value. */
  datatype LexState = LexState(s: string, i: nat, cur: Token, hasInjected: bool, injected: Token, prevReal: Token)

  /** `is_primary_end`. */
  predicate IsPrimaryEnd(k: TokKind) {
    k == Number || k == Ident || k == RParen
  }

  /** `is_primary_start`. */
  predicate IsPrimaryStart(k: TokKind) {
    k == Number || k == Ident || k == LParen
  }

  /** The state `lex_init` leaves: first real token read, nothing queued. */
  function InitState(s: string): (st: LexState)
    ensures st.s == s && !st.hasInjected && st.prevReal == MakeTok(Eof, 0, 0)
    ensures (st.cur, st.i) == LexRealSpec(s, 0)
  {
    var (t, i) := LexRealSpec(s, 0);
    LexState(s, i, t, false, MakeTok(Eof, 0, 0), MakeTok(Eof, 0, 0))
  }

  /** `lex_peek`: the queued token if there is one, else the current real token. */
  function PeekSpec(st: LexState): Token {
    if st.hasInjected then st.injected else st.cur
  }

  /** Whether the step from real token t to the next real token c queues an implicit `*`. */
  predicate InjectsStar(t: Token, c: Token) {
    IsPrimaryEnd(t.kind) && IsPrimaryStart(c.kind) && !(t.kind == Ident && c.kind == LParen)
  }

  /** `lex_next` as a function: the token returned and the new state. */
  function StepSpec(st: LexState): (Token, LexState) {
    if st.hasInjected then (st.injected, st.(hasInjected := false))
    else
      var t := st.cur;
      var (c, i') := LexRealSpec(st.s, st.i);
      var st' := st.(prevReal := t, cur := c, i := i');
      if InjectsStar(t, c) then (t, st'.(hasInjected := true, injected := MakeTok(Star, t.beg + t.len, 0)))
      else (t, st')
  }

  /** `lex_next` returns exactly what `lex_peek` shows. */
  lemma NextReturnsPeek(st: LexState)
    ensures StepSpec(st).0 == PeekSpec(st)
  {
  }

  /** A queued `*` is handed out without reading the input: only the queue flag changes. */
  lemma QueuedStarDoesNotAdvance(st: LexState)
    requires st.hasInjected
    ensures var (t, st') := StepSpec(st);
      t == st.injected && st'.i == st.i && st'.cur == st.cur && !st'.hasInjected
  {
  }

  /**
    Taking a real token reads the next one, and a zero-length `*` right after
    the taken token is queued exactly when a primary ends and another starts,
    except for an identifier followed by `(`.
   */
  lemma ImplicitMultiplication(st: LexState)
    requires !st.hasInjected
    ensures var (t, st') := StepSpec(st);
      var (c, i') := LexRealSpec(st.s, st.i);
      t == st.cur && st'.cur == c && st'.i == i' && st'.prevReal == t
      && (st'.hasInjected <==>
          (t.kind == Number || t.kind == Ident || t.kind == RParen)
          && (c.kind == Number || c.kind == Ident || c.kind == LParen)
          && !(t.kind == Ident && c.kind == LParen))
      && (st'.hasInjected ==> st'.injected == Token(Star, t.beg + t.len, 0, 0))
  {
  }

  // ---------------------------------------------------------------------------
  // Token streams
  // ---------------------------------------------------------------------------

  /** A state the lexer can be in: the read position lies within the input, and a queued token is a zero-length `*`. */
  predicate Good(st: LexState) {
    st.i <= |st.s| && (st.hasInjected ==> st.injected.kind == Star && st.injected.len == 0)
  }

  /** A bound on the tokens left: three per unread character, plus one for a pending real token and one for a queued one. */
  function Budget(st: LexState): nat
    requires Good(st)
  {
    3 * (|st.s| - st.i) + (if st.cur.kind != Eof then 1 else 0) + (if st.hasInjected then 1 else 0)
  }

  /** Stepping a good state past a token that is not Eof keeps it good and uses up budget. */
  lemma StepBudget(st: LexState)
    requires Good(st) && PeekSpec(st).kind != Eof
    ensures Good(StepSpec(st).1) && Budget(StepSpec(st).1) < Budget(st)
  {
    if !st.hasInjected {
      LexRealShape(st.s, st.i);
    }
  }

  /** Every step keeps a good state good, including a step past Eof. */
  lemma StepGood(st: LexState)
    requires Good(st)
    ensures Good(StepSpec(st).1) && StepSpec(st).1.s == st.s
  {
    if !st.hasInjected {
      LexRealShape(st.s, st.i);
    }
  }

  /** The tokens `lex_next` hands out from st up to and including the first Eof. */
  function Stream(st: LexState): (ts: seq<Token>)
    requires Good(st)
    ensures |ts| > 0 && ts[0] == PeekSpec(st)
    decreases Budget(st), 1
  {
    var t := PeekSpec(st);
    if t.kind == Eof then [t] else [t] + StreamAfter(st)
  }

  /** The stream after the first token, which is not Eof. */
  function StreamAfter(st: LexState): seq<Token>
    requires Good(st) && PeekSpec(st).kind != Eof
    decreases Budget(st), 0
  {
    StepBudget(st);
    Stream(StepSpec(st).1)
  }

  /** A stream ends with its first Eof: every earlier token is something else. */
  lemma {:induction false} StreamEndsAtEof(st: LexState)
    requires Good(st)
    ensures var ts := Stream(st); ts[|ts| - 1].kind == Eof
    ensures var ts := Stream(st); forall k :: 0 <= k < |ts| - 1 ==> ts[k].kind != Eof
    decreases Budget(st)
  {
    if PeekSpec(st).kind != Eof {
      StepBudget(st);
      StreamEndsAtEof(StepSpec(st).1);
    }
  }

  /** The token sequence the parser reads for one input line. */
  function Tokens(s: string): seq<Token>
  {
    LexRealShape(s, 0);
    Stream(InitState(s))
  }

  /** Taking a token that is not Eof leaves the rest of the stream. */
  lemma StreamStep(st: LexState)
    requires Good(st) && PeekSpec(st).kind != Eof
    ensures Good(StepSpec(st).1)
    ensures Stream(StepSpec(st).1) == Stream(st)[1..]
  {
    StepBudget(st);
  }

  /** The real tokens from the current token t (which ends before position i) up to and including the first Eof. */
  function RealStream(s: string, i: nat, t: Token): (ts: seq<Token>)
    requires i <= |s|
    decreases |s| - i, if t.kind == Eof then 0 else 1
  {
    if t.kind == Eof then [t]
    else
      var (c, i') := LexRealSpec(s, i);
      LexRealShape(s, i);
      [t] + RealStream(s, i', c)
  }

  /** The zero-length `*` tokens that only the look-ahead queue produces. */
  predicate IsInjectedStar(t: Token) {
    t.kind == Star && t.len == 0
  }

  function RemoveInjected(ts: seq<Token>): (r: seq<Token>)
    ensures forall k :: 0 <= k < |r| ==> !IsInjectedStar(r[k])
  {
    if |ts| == 0 then []
    else if IsInjectedStar(ts[0]) then RemoveInjected(ts[1..])
    else [ts[0]] + RemoveInjected(ts[1..])
  }

  /** No real token is a zero-length `*`. */
  lemma {:induction false} RealStreamHasNoInjected(s: string, i: nat, t: Token)
    requires i <= |s| && !IsInjectedStar(t)
    ensures RemoveInjected(RealStream(s, i, t)) == RealStream(s, i, t)
    decreases |s| - i, if t.kind == Eof then 0 else 1
  {
    if t.kind != Eof {
      var (c, i') := LexRealSpec(s, i);
      LexRealShape(s, i);
      RealStreamHasNoInjected(s, i', c);
      var rs := RealStream(s, i, t);
      assert rs == [t] + RealStream(s, i', c);
      assert rs[1..] == RealStream(s, i', c);
    }
  }

  lemma RemoveInjectedCons(t: Token, rest: seq<Token>)
    ensures RemoveInjected([t] + rest)
      == if IsInjectedStar(t) then RemoveInjected(rest) else [t] + RemoveInjected(rest)
  {
    assert ([t] + rest)[1..] == rest;
  }

  /** Stepping a good state: its stream is the token handed out followed by the stream of the new state. */
  lemma StreamCons(st: LexState)
    requires Good(st) && PeekSpec(st).kind != Eof
    ensures Good(StepSpec(st).1)
    ensures Stream(st) == [PeekSpec(st)] + Stream(StepSpec(st).1)
  {
    StepBudget(st);
  }

  /** Stepping past a real token that is not Eof: the new state holds the next real token, which is not a zero-length `*`. */
  lemma RealStep(st: LexState)
    requires Good(st) && !st.hasInjected && st.cur.kind != Eof
    ensures var st' := StepSpec(st).1;
      (st'.cur, st'.i) == LexRealSpec(st.s, st.i) && st'.s == st.s && !IsInjectedStar(st'.cur)
      && st'.i <= |st.s| && RealStream(st.s, st.i, st.cur) == [st.cur] + RealStream(st'.s, st'.i, st'.cur)
  {
    LexRealShape(st.s, st.i);
  }

  /** Removing the queued `*` tokens from what `lex_next` hands out leaves exactly the real tokens. */
  lemma {:induction false} StreamIsRealTokensWithStars(st: LexState)
    requires Good(st) && !IsInjectedStar(st.cur)
    ensures RemoveInjected(Stream(st)) == RealStream(st.s, st.i, st.cur)
    decreases Budget(st)
  {
    var t := PeekSpec(st);
    if t.kind != Eof {
      StreamCons(st);
      StepBudget(st);
      var st' := StepSpec(st).1;
      RemoveInjectedCons(t, Stream(st'));
      if st.hasInjected {
        assert st'.cur == st.cur && st'.i == st.i && st'.s == st.s;
        StreamIsRealTokensWithStars(st');
      } else {
        RealStep(st);
        StreamIsRealTokensWithStars(st');
      }
    }
  }

  /** The parser's token sequence is the real token sequence with the implicit `*` tokens added. */
  lemma TokensAreRealTokensWithStars(s: string)
    ensures LexRealSpec(s, 0).1 <= |s|
    ensures RemoveInjected(Tokens(s)) == RealStream(s, LexRealSpec(s, 0).1, LexRealSpec(s, 0).0)
  {
    LexRealShape(s, 0);
    StreamIsRealTokensWithStars(InitState(s));
  }

  // ---------------------------------------------------------------------------
  // The lexer object
  // ---------------------------------------------------------------------------

  /** `lex_t` with `lex_init`, `lex_peek` and `lex_next`. */
  class Lexer {
    var s: string
    var i: nat
    var cur: Token
    var hasInjected: bool
    var injected: Token
    var prevReal: Token

    function State(): LexState
      reads this
    {
      LexState(s, i, cur, hasInjected, injected, prevReal)
    }

    predicate Valid()
      reads this
    {
      Good(State())
    }

    /** A lexer positioned at the start of input. */
    constructor (input: string)
      ensures State() == InitState(input) && Valid()
    {
      s, i := input, 0;
      cur, injected, prevReal := MakeTok(Eof, 0, 0), MakeTok(Eof, 0, 0), MakeTok(Eof, 0, 0);
      hasInjected := false;
      new;
      Reset(input);
    }

    /** `lex_init` on an existing lexer: clear everything and read the first real token. */
    method Reset(input: string)
      modifies this
      ensures State() == InitState(input) && Valid()
    {
      s := input;
      i := 0;
      hasInjected := false;
      injected := MakeTok(Eof, 0, 0);
      prevReal := MakeTok(Eof, 0, 0);
      cur := LexReal();
      LexRealShape(input, 0);
    }

    /** `lex_real`: skip whitespace, then scan one number, identifier or operator character. */
    method LexReal() returns (t: Token)
      modifies this
      ensures (t, i) == LexRealSpec(old(s), old(i))
      ensures s == old(s) && cur == old(cur) && hasInjected == old(hasInjected)
      ensures injected == old(injected) && prevReal == old(prevReal)
    {
      var j := i;
      while CharAt(s, j) != NUL && IsSpace(CharAt(s, j))
        invariant SkipSpace(s, j) == SkipSpace(s, i)
        decreases |s| - j
      {
        j := j + 1;
      }
      var c := CharAt(s, j);
      if c == NUL {
        i := j;
        return MakeTok(Eof, j, 0);
      }
      var beg := j;
      if IsDigit(c) {
        var v := 0;
        while IsDigit(CharAt(s, j))
          invariant beg <= j <= |s|
          invariant DigitEnd(s, j) == DigitEnd(s, beg)
          invariant v == DecimalValue(s[beg..j])
          decreases |s| - j
        {
          var d := (s[j] as int) - ('0' as int);
          assert s[beg..j + 1][..j - beg] == s[beg..j];
          v := v * 10 + d;
          j := j + 1;
        }
        i := j;
        return Token(Number, beg, j - beg, v);
      }
      if IsIdent0(c) {
        j := j + 1;
        while IsIdent(CharAt(s, j))
          invariant beg < j <= |s|
          invariant IdentEnd(s, j) == IdentEnd(s, beg + 1)
          decreases |s| - j
        {
          j := j + 1;
        }
        i := j;
        return MakeTok(Ident, beg, j - beg);
      }
      i := j + 1;
      var k := PunctKind(c);
      t := MakeTok(k, beg, if k == Eof then 0 else 1);
    }

    /** `lex_peek`: reads the state and changes nothing. */
    function Peek(): (t: Token)
      reads this
      ensures t == PeekSpec(State())
    {
      if hasInjected then injected else cur
    }

    /** `lex_next`. */
    method Next() returns (t: Token)
      requires Valid()
      modifies this
      ensures (t, State()) == StepSpec(old(State()))
    {
      if hasInjected {
        hasInjected := false;
        return injected;
      }
      t := cur;
      prevReal := t;
      cur := LexReal();
      if IsPrimaryEnd(t.kind) && IsPrimaryStart(cur.kind) {
        if !(t.kind == Ident && cur.kind == LParen) {
          hasInjected := true;
          injected := MakeTok(Star, t.beg + t.len, 0);
        }
      }
    }
  }
}
