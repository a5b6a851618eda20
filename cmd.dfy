/**
  The `:command` registry (src/core/cmd.c, inc/core/cmd.h): an array of
  command definitions grown by doubling, looked up by name, and
  `cmd_try_exec`, which splits a `:name args` line into arguments and picks
  the command to run.

  Handlers and their `user` pointers are opaque: a handler is a number, and
  running it is not modelled. `cmd_try_exec` returns which command it would
  run with which arguments; the boolean the source returns is `Returns` of
  that outcome and the handler's status. C strings end at their first NUL.
  Whether `realloc` succeeds is a parameter.
 */
module Cmd {

  import opened Wrappers
  import Lex
  import Env

  /** `cmd_fn_t`: an opaque handler. */
  datatype Handler = Handler(id: nat)

  /** `cmd_def_t`: `help` is None when it is NULL; `user` is the opaque pointer handed to the handler. */
  datatype CmdDef = CmdDef(name: string, help: Option<string>, fn: Handler, user: nat, flags: nat)

  /** The text of a C string: everything before its first NUL. */
  function CText(s: string): (t: string)
    ensures |t| <= |s| && t == s[..|t|]
    ensures Lex.NUL !in t
    ensures |t| < |s| ==> s[|t|] == Lex.NUL
  {
    if |s| == 0 || s[0] == Lex.NUL then "" else [s[0]] + CText(s[1..])
  }

  // ---------------------------------------------------------------------------
  // The registry as a sequence of definitions
  // ---------------------------------------------------------------------------

  /** The index of the first definition at or after i named `name` (what `find_idx` finds from 0), or -1. */
  function IndexFrom(defs: seq<CmdDef>, name: string, i: nat): (k: int)
    requires i <= |defs|
    ensures -1 <= k < |defs|
    ensures k >= 0 ==> i <= k && defs[k].name == name && forall j :: i <= j < k ==> defs[j].name != name
    ensures k < 0 <==> forall j :: i <= j < |defs| ==> defs[j].name != name
    decreases |defs| - i
  {
    if i == |defs| then -1
    else if defs[i].name == name then i
    else IndexFrom(defs, name, i + 1)
  }

  function IndexOf(defs: seq<CmdDef>, name: string): int {
    IndexFrom(defs, name, 0)
  }

  /** No two definitions share a name. */
  predicate UniqueNames(defs: seq<CmdDef>) {
    forall i, j :: 0 <= i < j < |defs| ==> defs[i].name != defs[j].name
  }

  /**
    `cmd_register` on the definitions, given whether there is room for one
    more (`ensure_cap` succeeded): the boolean returned and the new list. A
    missing or empty name, a missing handler, a name already present or a
    failed growth change nothing and return false. Otherwise the definition
    is appended, and the call still returns false when `help` is NULL.
   */
  function RegisterSpec(defs: seq<CmdDef>, name: Option<string>, fn: Option<Handler>, user: nat,
                        help: Option<string>, flags: nat, room: bool): (bool, seq<CmdDef>)
  {
    if name.None? || CText(name.value) == "" || fn.None? then (false, defs)
    else if IndexOf(defs, CText(name.value)) >= 0 then (false, defs)
    else if !room then (false, defs)
    else
      var h := if help.Some? then Some(CText(help.value)) else None;
      (help.Some?, defs + [CmdDef(CText(name.value), h, fn.value, user, flags)])
  }

  /**
    What registration does: it either changes nothing and returns false, or
    appends exactly one definition under the given name at index `|defs|`;
    the names stay unique, and the new definition is what a lookup of that
    name then finds. Returning true means it was appended.
   */
  lemma RegisterShape(defs: seq<CmdDef>, name: Option<string>, fn: Option<Handler>, user: nat,
                      help: Option<string>, flags: nat, room: bool)
    requires UniqueNames(defs)
    ensures var (ok, defs') := RegisterSpec(defs, name, fn, user, help, flags, room);
      UniqueNames(defs')
      && (defs' == defs || (|defs'| == |defs| + 1 && defs'[..|defs|] == defs))
      && (ok ==> |defs'| == |defs| + 1)
      && (|defs'| == |defs| + 1 ==>
            name.Some? && fn.Some? && room && defs'[|defs|].name == CText(name.value)
            && (ok <==> help.Some?)
            && IndexOf(defs', CText(name.value)) == |defs|)
  {
    var (ok, defs') := RegisterSpec(defs, name, fn, user, help, flags, room);
    if |defs'| == |defs| + 1 {
      var n := CText(name.value);
      assert forall j :: 0 <= j < |defs| ==> defs[j].name != n;
      assert forall j :: 0 <= j < |defs| ==> defs'[j] == defs[j];
    }
  }

  /** A name that is already registered is refused and the registry keeps its definitions. */
  lemma RegisterDuplicate(defs: seq<CmdDef>, name: string, fn: Option<Handler>, user: nat,
                          help: Option<string>, flags: nat, room: bool)
    requires exists k :: 0 <= k < |defs| && defs[k].name == CText(name)
    ensures RegisterSpec(defs, Some(name), fn, user, help, flags, room) == (false, defs)
  {
    var k :| 0 <= k < |defs| && defs[k].name == CText(name);
    assert IndexOf(defs, CText(name)) >= 0;
  }

  /** The capacity `ensure_cap` moves to from `start`: doubled until it reaches `need`. */
  function DoubleUntil(start: nat, need: int): (n: nat)
    requires start > 0
    ensures n >= start && n >= need
    ensures start < need ==> n < 2 * need
    ensures Env.CapSeries(start) && start >= 16 ==> Env.CapSeries(n)
    decreases if need > start then need - start else 0
  {
    if start >= need then start
    else
      CapSeriesDoubles(start);
      DoubleUntil(2 * start, need)
  }

  lemma CapSeriesDoubles(c: nat)
    ensures c >= 16 && Env.CapSeries(c) ==> Env.CapSeries(2 * c)
  {
    assert (2 * c) / 2 == c;
  }

  /** The capacity `ensure_cap` asks `realloc` for when `need` exceeds `cap`: 16 from nothing, else doubling. */
  function GrowTo(cap: nat, need: int): (n: nat)
    ensures n >= need && n > cap
    ensures Env.CapSeries(cap) ==> Env.CapSeries(n)
  {
    DoubleUntil(if cap == 0 then 16 else 2 * cap, need)
  }

  // ---------------------------------------------------------------------------
  // The argument tokenizer
  // ---------------------------------------------------------------------------

  /** The first position at or after i that is not whitespace. */
  function SkipWs(t: string, i: nat): (j: nat)
    requires i <= |t|
    ensures i <= j <= |t| && (j < |t| ==> !Lex.IsSpace(t[j]))
    decreases |t| - i
  {
    if i < |t| && Lex.IsSpace(t[i]) then SkipWs(t, i + 1) else i
  }

  /** The end of the word starting at i: the first whitespace at or after i, or the end. */
  function WordEnd(t: string, i: nat): (j: nat)
    requires i <= |t|
    ensures i <= j <= |t| && (j < |t| ==> Lex.IsSpace(t[j]))
    decreases |t| - i
  {
    if i < |t| && !Lex.IsSpace(t[i]) then WordEnd(t, i + 1) else i
  }

  /** The position of the first `"` at or after i, or the end. */
  function QuoteEnd(t: string, i: nat): (j: nat)
    requires i <= |t|
    ensures i <= j <= |t| && (j < |t| ==> t[j] == '"')
    decreases |t| - i
  {
    if i < |t| && t[i] != '"' then QuoteEnd(t, i + 1) else i
  }

  /**
    One argument starting at q, a non-whitespace position: a `"` starts a
    run to the next `"` (or the end) without the quotes, any other character
    a run to the next whitespace. Returns the argument and the position after
    it and its terminator, which is past q.
   */
  function NextArg(t: string, q: nat): (r: (string, nat))
    requires q < |t|
    ensures q < r.1 <= |t|
  {
    var e := if t[q] == '"' then QuoteEnd(t, q + 1) else WordEnd(t, q);
    var n := if e < |t| then e + 1 else e;
    (if t[q] == '"' then t[q + 1..e] else t[q..e], n)
  }

  /** The arguments the `tokenize` loop collects from position p with room for `room` more. */
  function ArgsFrom(t: string, p: nat, room: nat): seq<string>
    requires p <= |t|
    decreases |t| - p
  {
    var q := SkipWs(t, p);
    if q == |t| || room == 0 then []
    else
      var (a, n) := NextArg(t, q);
      [a] + ArgsFrom(t, n, room - 1)
  }

  /** The text `tokenize` copies into `tmp`: at most `tmpLen - 1` characters. */
  function Copied(s: string, tmpLen: int): (t: string)
    requires tmpLen >= 1
    ensures |t| <= tmpLen - 1 && |t| <= |CText(s)| && t == CText(s)[..|t|]
    ensures |CText(s)| < tmpLen ==> t == CText(s)
  {
    var c := CText(s);
    if |c| >= tmpLen then c[..tmpLen - 1] else c
  }

  /** `tokenize(s, argv, max_argv, tmp, tmp_len)`: the arguments, each the text before its NUL in `tmp`. */
  function TokenizeSpec(s: string, maxArgv: int, tmpLen: int): seq<string>
    requires tmpLen >= 1
  {
    ArgsFrom(Copied(s, tmpLen), 0, if maxArgv > 0 then maxArgv else 0)
  }

  lemma {:induction false} WordHasNoSpace(t: string, i: nat)
    requires i <= |t|
    ensures forall k :: i <= k < WordEnd(t, i) ==> !Lex.IsSpace(t[k])
    decreases |t| - i
  {
    if i < |t| && !Lex.IsSpace(t[i]) { WordHasNoSpace(t, i + 1); }
  }

  lemma {:induction false} QuotedHasNoQuote(t: string, i: nat)
    requires i <= |t|
    ensures forall k :: i <= k < QuoteEnd(t, i) ==> t[k] != '"'
    decreases |t| - i
  {
    if i < |t| && t[i] != '"' { QuotedHasNoQuote(t, i + 1); }
  }

  /** An argument is a quoted run (no `"` inside) or a word (no whitespace inside). */
  predicate ArgShape(a: string) {
    (forall k :: 0 <= k < |a| ==> a[k] != '"') || (forall k :: 0 <= k < |a| ==> !Lex.IsSpace(a[k]))
  }

  /** At most `room` arguments come out, each no longer than the text, and each one a quoted run or a word. */
  lemma {:induction false} ArgsFromShape(t: string, p: nat, room: nat)
    requires p <= |t|
    ensures var r := ArgsFrom(t, p, room);
      |r| <= room && forall k :: 0 <= k < |r| ==> |r[k]| <= |t| - p && ArgShape(r[k])
    decreases |t| - p
  {
    var q := SkipWs(t, p);
    if q < |t| && room > 0 {
      var (a, n) := NextArg(t, q);
      ArgsFromShape(t, n, room - 1);
      assert ArgShape(a) by {
        if t[q] == '"' { QuotedHasNoQuote(t, q + 1); } else { WordHasNoSpace(t, q); }
      }
      var r := ArgsFrom(t, n, room - 1);
      assert ArgsFrom(t, p, room) == [a] + r;
    }
  }

  /** The tokenizer's output respects `max_argv` and the `tmp_len - 1` copy limit. */
  lemma TokenizeBounds(s: string, maxArgv: int, tmpLen: int)
    requires tmpLen >= 1
    ensures var r := TokenizeSpec(s, maxArgv, tmpLen);
      |r| <= (if maxArgv > 0 then maxArgv else 0)
      && forall k :: 0 <= k < |r| ==> |r[k]| < tmpLen && ArgShape(r[k])
  {
    ArgsFromShape(Copied(s, tmpLen), 0, if maxArgv > 0 then maxArgv else 0);
  }

  /**
    A `"` starts an argument that holds the text after it up to the next `"`
    (no quote inside); with no closing quote it runs to the end of the text.
   */
  lemma QuotedArg(t: string, q: nat)
    requires q < |t| && t[q] == '"'
    ensures var (a, n) := NextArg(t, q);
      q + 1 + |a| <= |t| && a == t[q + 1..q + 1 + |a|]
      && (forall k :: 0 <= k < |a| ==> a[k] != '"')
      && ((forall k :: q < k < |t| ==> t[k] != '"') ==> a == t[q + 1..] && n == |t|)
      && (n < |t| ==> t[n - 1] == '"' && n == q + 2 + |a|)
  {
    QuotedHasNoQuote(t, q + 1);
    var e := QuoteEnd(t, q + 1);
    if forall k :: q < k < |t| ==> t[k] != '"' {
      assert e == |t|;
    }
  }

  /** Any other first character starts a non-empty argument running to the next whitespace, which is stepped over. */
  lemma WordArg(t: string, q: nat)
    requires q < |t| && t[q] != '"' && !Lex.IsSpace(t[q])
    ensures var (a, n) := NextArg(t, q);
      |a| > 0 && q + |a| <= |t| && a == t[q..q + |a|]
      && (forall k :: 0 <= k < |a| ==> !Lex.IsSpace(a[k]))
      && (n < |t| ==> Lex.IsSpace(t[n - 1]) && n == q + 1 + |a|)
  {
    WordHasNoSpace(t, q);
  }

  // ---------------------------------------------------------------------------
  // cmd_try_exec
  // ---------------------------------------------------------------------------

  const MAX_ARGV: int := 10
  const TMP_LEN: int := 1024

  /** What `cmd_try_exec` does with a line: not a command, consumed without running anything, or run a definition with arguments. */
  datatype Exec = NotCommand | Consumed | Invoke(def: CmdDef, argv: seq<string>)

  /** The boolean `cmd_try_exec` returns, given the status the handler would return. */
  function Returns(e: Exec, handlerOk: bool): bool {
    match e
    case NotCommand => false
    case Consumed => true
    case Invoke(_, _) => handlerOk
  }

  /** `cmd_try_exec` on a registry's definitions, a UI being present, and the line (None for NULL). */
  function TryExecSpec(defs: seq<CmdDef>, hasUi: bool, input: Option<string>): Exec {
    if !hasUi || input.None? then NotCommand
    else
      var line := CText(input.value);
      if line == "" || line[0] != ':' then NotCommand
      else
        var s := line[1..];
        var q := SkipWs(s, 0);
        if q == |s| then Consumed
        else
          var argv := TokenizeSpec(s[q..], MAX_ARGV, TMP_LEN);
          if |argv| == 0 then Consumed
          else
            var k := IndexOf(defs, argv[0]);
            if k < 0 then Consumed else Invoke(defs[k], argv)
  }

  /**
    Only a line starting with `:` is a command. A bare `:` (possibly
    followed by whitespace) and an unknown name are consumed without running
    anything. A command runs the definition registered under the first
    argument's name, with at most `MAX_ARGV` arguments.
   */
  lemma TryExecOutcome(defs: seq<CmdDef>, hasUi: bool, input: Option<string>)
    ensures var e := TryExecSpec(defs, hasUi, input);
      (e.NotCommand? <==> !hasUi || input.None? || CText(input.value) == "" || CText(input.value)[0] != ':')
      && (e.Invoke? ==> e.def in defs && |e.argv| >= 1 && e.def.name == e.argv[0] && |e.argv| <= MAX_ARGV)
  {
    var e := TryExecSpec(defs, hasUi, input);
    if hasUi && input.Some? && CText(input.value) != "" && CText(input.value)[0] == ':' {
      var s := CText(input.value)[1..];
      var q := SkipWs(s, 0);
      if q < |s| {
        TokenizeBounds(s[q..], MAX_ARGV, TMP_LEN);
      }
    }
  }

  /** A bare `:`, with or without trailing whitespace, is consumed. */
  lemma BareColonConsumed(defs: seq<CmdDef>, ws: string)
    requires forall k :: 0 <= k < |ws| ==> Lex.IsSpace(ws[k])
    ensures TryExecSpec(defs, true, Some(":" + ws)) == Consumed
  {
    var line := ":" + ws;
    assert Lex.NUL !in line;
    CTextOfPlain(line);
    SkipWsOfSpace(ws, 0);
  }

  lemma {:induction false} SkipWsOfSpace(t: string, i: nat)
    requires i <= |t| && forall k :: 0 <= k < |t| ==> Lex.IsSpace(t[k])
    ensures SkipWs(t, i) == |t|
    decreases |t| - i
  {
    if i < |t| { SkipWsOfSpace(t, i + 1); }
  }

  /** A line whose first word names no registered command is consumed. */
  lemma UnknownCommandConsumed(defs: seq<CmdDef>, name: string)
    requires forall k :: 0 <= k < |defs| ==> defs[k].name != name
    requires 0 < |name| < TMP_LEN && Lex.NUL !in name
    requires forall k :: 0 <= k < |name| ==> !Lex.IsSpace(name[k]) && name[k] != '"'
    ensures TryExecSpec(defs, true, Some(":" + name)) == Consumed
  {
    var line := ":" + name;
    CTextOfPlain(line);
    var s := line[1..];
    assert s == name;
    assert SkipWs(s, 0) == 0;
    CTextOfPlain(name);
    var t := Copied(s, TMP_LEN);
    assert t == name;
    WordEndOfWord(t, 0);
    assert NextArg(t, 0) == (name, |t|);
    assert ArgsFrom(t, |t|, 9) == [];
    ArgsStep(t, 0, 10);
    assert TokenizeSpec(s, MAX_ARGV, TMP_LEN) == [name];
  }

  lemma {:induction false} WordEndOfWord(t: string, i: nat)
    requires i <= |t| && forall k :: 0 <= k < |t| ==> !Lex.IsSpace(t[k])
    ensures WordEnd(t, i) == |t|
    decreases |t| - i
  {
    if i < |t| { WordEndOfWord(t, i + 1); }
  }

  lemma {:induction false} CTextOfPlain(s: string)
    requires Lex.NUL !in s
    ensures CText(s) == s
  {
    if |s| > 0 { CTextOfPlain(s[1..]); }
  }

  // ---------------------------------------------------------------------------
  // The registry object
  // ---------------------------------------------------------------------------

  /** `cmd_registry_t`: the definitions are `v[..len]`, the capacity is `v.Length`. */
  class Registry {
    var v: array<CmdDef>
    var len: nat

    predicate Valid()
      reads this, v
    {
      len <= v.Length && Env.CapSeries(v.Length) && UniqueNames(v[..len])
    }

    function Contents(): seq<CmdDef>
      reads this, v
      requires len <= v.Length
    {
      v[..len]
    }

    /** `cmd_registry_create`: zeroed, so no definitions and no capacity. */
    constructor ()
      ensures Valid() && Contents() == [] && v.Length == 0 && fresh(v)
    {
      v := new CmdDef[0];
      len := 0;
    }

    /** `ensure_cap`: nothing to do when `need` fits; else grow to `GrowTo(cap, need)`, failing (and changing nothing) when `realloc` fails. */
    method EnsureCap(need: int, reallocOk: bool) returns (ok: bool)
      requires Valid()
      modifies this
      ensures Valid() && len == old(len) && Contents() == old(Contents())
      ensures ok <==> need <= old(v.Length) || reallocOk
      ensures ok ==> need <= v.Length
      ensures v.Length == if need <= old(v.Length) || !reallocOk then old(v.Length) else GrowTo(old(v.Length), need)
      ensures v == old(v) || fresh(v)
    {
      if need <= v.Length {
        return true;
      }
      var ncap := NewCap(v.Length, need);
      if !reallocOk {
        return false;
      }
      var nv := new CmdDef[ncap](_ => CmdDef("", None, Handler(0), 0, 0));
      forall j | 0 <= j < len {
        nv[j] := v[j];
      }
      assert nv[..len] == v[..len];
      v := nv;
      ok := true;
    }

    /** The capacity loop of `ensure_cap`: start from 16, or twice the old capacity, and double until `need` fits. */
    static method NewCap(cap: nat, need: int) returns (ncap: nat)
      requires need > cap
      ensures ncap == GrowTo(cap, need)
    {
      ncap := if cap > 0 then cap * 2 else 16;
      while ncap < need
        invariant ncap > 0 && DoubleUntil(ncap, need) == GrowTo(cap, need)
        decreases need - ncap
      {
        ncap := ncap * 2;
      }
    }

    /** `find_idx`: the index of the definition named `name`, or -1. */
    method FindIdx(name: string) returns (k: int)
      requires Valid()
      ensures k == IndexOf(Contents(), name)
      ensures k >= 0 ==> Contents()[k].name == name
      ensures k < 0 <==> forall j :: 0 <= j < len ==> v[j].name != name
    {
      var i := 0;
      while i < len
        invariant 0 <= i <= len
        invariant IndexFrom(Contents(), name, i) == IndexOf(Contents(), name)
      {
        if v[i].name == name {
          return i;
        }
        i := i + 1;
      }
      return -1;
    }

    /** `cmd_find`: the definition named `name`, or None. */
    method Find(name: string) returns (d: Option<CmdDef>)
      requires Valid()
      ensures d.None? <==> forall j :: 0 <= j < len ==> v[j].name != name
      ensures d.Some? ==> d.value in Contents() && d.value.name == name
    {
      var k := FindIdx(name);
      d := if k >= 0 then Some(v[k]) else None;
    }

    /**
      `cmd_register` on a registry: reject a bad name or handler, then a
      duplicate, then grow; the definition is appended even when `help` is
      NULL, but then the result is false.
     */
    method Register(name: Option<string>, fn: Option<Handler>, user: nat, help: Option<string>, flags: nat,
                    reallocOk: bool) returns (ok: bool)
      requires Valid()
      modifies this, v
      ensures Valid() && (v == old(v) || fresh(v))
      ensures (ok, Contents()) == RegisterSpec(old(Contents()), name, fn, user, help, flags, old(len) + 1 <= old(v.Length) || reallocOk)
    {
      ghost var room := len + 1 <= v.Length || reallocOk;
      if name.None? || CText(name.value) == "" || fn.None? {
        return false;
      }
      var n := CText(name.value);
      var k := FindIdx(n);
      if k >= 0 {
        return false;
      }
      var grown := EnsureCap(len + 1, reallocOk);
      if !grown {
        return false;
      }
      ghost var before := Contents();
      var h := if help.Some? then Some(CText(help.value)) else None;
      v[len] := CmdDef(n, h, fn.value, user, flags);
      len := len + 1;
      assert Contents() == before + [CmdDef(n, h, fn.value, user, flags)];
      RegisterShape(old(Contents()), name, fn, user, help, flags, room);
      ok := help.Some?;
    }
  }

  /** `cmd_register` with the registry pointer: a NULL registry is refused. */
  method Register(r: Registry?, name: Option<string>, fn: Option<Handler>, user: nat, help: Option<string>, flags: nat,
                  reallocOk: bool) returns (ok: bool)
    requires r != null ==> r.Valid()
    modifies if r == null then {} else {r, r.v}
    ensures r == null ==> !ok
    ensures r != null ==> (r.Valid()
      && (ok, r.Contents()) == RegisterSpec(old(r.Contents()), name, fn, user, help, flags, old(r.len) + 1 <= old(r.v.Length) || reallocOk))
  {
    if r == null {
      return false;
    }
    ok := r.Register(name, fn, user, help, flags, reallocOk);
  }

  /** `cmd_count`: 0 for a NULL registry. */
  method Count(r: Registry?) returns (n: nat)
    ensures n == if r == null then 0 else r.len
  {
    n := if r == null then 0 else r.len;
  }

  /** `cmd_at`: the i-th definition, or None for a NULL registry or an index outside [0, len). */
  method At(r: Registry?, i: int) returns (d: Option<CmdDef>)
    requires r != null ==> r.Valid()
    ensures d.Some? <==> r != null && 0 <= i < r.len
    ensures d.Some? ==> d.value == r.Contents()[i]
  {
    if r == null || i < 0 || i >= r.len {
      return None;
    }
    d := Some(r.v[i]);
  }

  /** `tokenize`: copy at most `tmp_len - 1` characters, then collect arguments left to right. */
  method Tokenize(s: string, maxArgv: int, tmpLen: int) returns (argv: seq<string>)
    requires tmpLen >= 1
    ensures argv == TokenizeSpec(s, maxArgv, tmpLen)
  {
    var t := Copied(s, tmpLen);
    argv := CollectArgs(t, if maxArgv > 0 then maxArgv else 0);
  }

  /** The `tokenize` loop over the copied text: at most `room` arguments, left to right. */
  method CollectArgs(t: string, room: nat) returns (argv: seq<string>)
    ensures argv == ArgsFrom(t, 0, room)
  {
    argv := [];
    var p := 0;
    while p < |t|
      invariant 0 <= p <= |t| && |argv| <= room
      invariant ArgsFrom(t, 0, room) == argv + ArgsFrom(t, p, room - |argv|)
      decreases |t| - p
    {
      var q := SkipSpaces(t, p);
      if q == |t| || |argv| >= room {
        ArgsDone(t, p, room - |argv|);
        return;
      }
      var a, n := TakeArg(t, q);
      ArgsAppend(t, p, room - |argv|, argv);
      argv := argv + [a];
      p := n;
    }
  }

  /** `while (*p && isspace(*p)) p++`. */
  method SkipSpaces(t: string, p0: nat) returns (p: nat)
    requires p0 <= |t|
    ensures p == SkipWs(t, p0)
  {
    p := p0;
    while p < |t| && Lex.IsSpace(t[p])
      invariant p0 <= p <= |t| && SkipWs(t, p) == SkipWs(t, p0)
    {
      p := p + 1;
    }
  }

  /** The body of the `tokenize` loop after the whitespace: scan one quoted run or word, and step over its terminator. */
  method TakeArg(t: string, b: nat) returns (a: string, p: nat)
    requires b < |t|
    ensures (a, p) == NextArg(t, b)
  {
    p := b;
    if t[p] == '"' {
      p := p + 1;
      while p < |t| && t[p] != '"'
        invariant b + 1 <= p <= |t| && QuoteEnd(t, p) == QuoteEnd(t, b + 1)
      {
        p := p + 1;
      }
      a := t[b + 1..p];
    } else {
      while p < |t| && !Lex.IsSpace(t[p])
        invariant b <= p <= |t| && WordEnd(t, p) == WordEnd(t, b)
      {
        p := p + 1;
      }
      a := t[b..p];
    }
    if p < |t| {
      p := p + 1;
    }
  }

  /** The loop ends when only whitespace is left or there is no room. */
  lemma ArgsDone(t: string, p: nat, room: nat)
    requires p <= |t| && (SkipWs(t, p) == |t| || room == 0)
    ensures ArgsFrom(t, p, room) == []
  {
  }

  /** `ArgsStep` behind the arguments already collected. */
  lemma ArgsAppend(t: string, p: nat, room: nat, argv: seq<string>)
    requires p <= |t| && SkipWs(t, p) < |t| && room > 0
    ensures var (a, n) := NextArg(t, SkipWs(t, p));
      argv + ArgsFrom(t, p, room) == (argv + [a]) + ArgsFrom(t, n, room - 1)
  {
    var (a, n) := NextArg(t, SkipWs(t, p));
    var rest := ArgsFrom(t, n, room - 1);
    ArgsStep(t, p, room);
    assert argv + ([a] + rest) == (argv + [a]) + rest;
  }

  /** One round of the `tokenize` loop: skip whitespace, take one argument, continue after it. */
  lemma ArgsStep(t: string, p: nat, room: nat)
    requires p <= |t| && SkipWs(t, p) < |t| && room > 0
    ensures ArgsFrom(t, p, room) == [NextArg(t, SkipWs(t, p)).0] + ArgsFrom(t, NextArg(t, SkipWs(t, p)).1, room - 1)
  {
  }

  /**
    `cmd_try_exec` without the handler call: which definition it would run
    with which arguments. A NULL registry is not a command.
   */
  method TryExec(r: Registry?, hasUi: bool, input: Option<string>) returns (e: Exec)
    requires r != null ==> r.Valid()
    ensures e == if r == null then NotCommand else TryExecSpec(r.Contents(), hasUi, input)
  {
    if r == null || !hasUi || input.None? {
      return NotCommand;
    }
    var line := CText(input.value);
    if line == "" || line[0] != ':' {
      return NotCommand;
    }
    var s := line[1..];
    var q := 0;
    while q < |s| && Lex.IsSpace(s[q])
      invariant 0 <= q <= |s| && SkipWs(s, q) == SkipWs(s, 0)
    {
      q := q + 1;
    }
    if q == |s| {
      return Consumed;
    }
    var argv := Tokenize(s[q..], MAX_ARGV, TMP_LEN);
    if |argv| <= 0 {
      return Consumed;
    }
    var k := r.FindIdx(argv[0]);
    if k < 0 {
      return Consumed;
    }
    e := Invoke(r.v[k], argv);
  }
}
