/**
  The environment (src/core/env.c): an insertion-ordered table of
  name/value entries updated in place, and the parameter overlay a user
  function's body is evaluated under.

  `lookup_fn_t` callbacks are a closed datatype of contexts: a global table
  or an overlay. Whether `realloc` and the key duplication succeed are
  parameters of `Set`.
 */
module Env {

  import opened Wrappers
  import opened Ast
  import Num

  /** `env_entry_t`. */
  datatype Entry = Entry(name: string, value: Node)

  /** The index of the first entry named `name`, or -1. */
  function IndexOf(es: seq<Entry>, name: string): (k: int)
    ensures -1 <= k < |es|
    ensures k >= 0 ==> es[k].name == name && forall j :: 0 <= j < k ==> es[j].name != name
    ensures k < 0 <==> forall j :: 0 <= j < |es| ==> es[j].name != name
  {
    if |es| == 0 then -1
    else if es[|es| - 1].name == name && IndexOf(es[..|es| - 1], name) < 0 then |es| - 1
    else IndexOf(es[..|es| - 1], name)
  }

  /** The value of the first entry named `name`: what a linear scan finds. */
  function Find(es: seq<Entry>, name: string): (r: Option<Node>)
    ensures r.None? <==> forall j :: 0 <= j < |es| ==> es[j].name != name
    ensures r.Some? ==> exists k :: 0 <= k < |es| && es[k] == Entry(name, r.value)
  {
    var k := IndexOf(es, name);
    if k < 0 then None else Some(es[k].value)
  }

  /** No two entries share a name. */
  predicate UniqueNames(es: seq<Entry>) {
    forall i, j :: 0 <= i < j < |es| ==> es[i].name != es[j].name
  }

  /** `env_set` on the entry sequence: replace the value of an existing name in place, else append. */
  function Upsert(es: seq<Entry>, name: string, v: Node): (r: seq<Entry>)
    ensures IndexOf(es, name) >= 0 ==> |r| == |es| && r[IndexOf(es, name)] == Entry(name, v)
    ensures IndexOf(es, name) >= 0 ==> forall j :: 0 <= j < |es| && j != IndexOf(es, name) ==> r[j] == es[j]
    ensures IndexOf(es, name) < 0 ==> r == es + [Entry(name, v)]
  {
    var k := IndexOf(es, name);
    if k >= 0 then es[k := Entry(es[k].name, v)] else es + [Entry(name, v)]
  }

  /** Names stay unique, and right after setting a name the table finds the new value there. */
  lemma UpsertThenFind(es: seq<Entry>, name: string, v: Node)
    requires UniqueNames(es)
    ensures UniqueNames(Upsert(es, name, v))
    ensures Find(Upsert(es, name, v), name) == Some(v)
  {
    var r := Upsert(es, name, v);
    var k := IndexOf(es, name);
    if k >= 0 {
      assert IndexOf(r, name) == k by {
        assert forall j :: 0 <= j < k ==> r[j].name != name;
      }
    } else {
      assert IndexOf(r, name) == |es| by {
        assert forall j :: 0 <= j < |es| ==> r[j].name != name;
      }
    }
  }

  /** Setting one name leaves what every other name finds unchanged. */
  lemma UpsertOthers(es: seq<Entry>, name: string, v: Node, other: string)
    requires other != name
    ensures Find(Upsert(es, name, v), other) == Find(es, other)
  {
    var r := Upsert(es, name, v);
    var k := IndexOf(es, other);
    if k >= 0 {
      assert forall j :: 0 <= j <= k ==> r[j].name == es[j].name;
      assert IndexOf(r, other) == k;
    } else {
      assert forall j :: 0 <= j < |r| ==> r[j].name != other;
    }
  }

  /** The capacities the table goes through: 0, then 16, then doubling. */
  predicate CapSeries(c: nat)
    decreases c
  {
    c == 0 || c == 16 || (c > 16 && c % 2 == 0 && CapSeries(c / 2))
  }

  /** The capacity after a growth step from c. */
  function GrownCap(c: nat): (n: nat)
    ensures CapSeries(c) ==> CapSeries(n)
    ensures n > c
  {
    if c == 0 then 16 else c * 2
  }

  /** `env_t`. */
  class Env {
    var entries: array<Entry>
    var len: nat

    predicate Valid()
      reads this, entries
    {
      len <= entries.Length && CapSeries(entries.Length) && UniqueNames(entries[..len])
    }

    function Contents(): seq<Entry>
      reads this, entries
      requires len <= entries.Length
    {
      entries[..len]
    }

    /** `env_init`: no entries and no capacity. */
    constructor ()
      ensures Valid() && len == 0 && entries.Length == 0 && Contents() == [] && fresh(entries)
    {
      entries := new Entry[0];
      len := 0;
    }

    /** `env_get`: scan from the front and return the value of the first entry with that name. */
    method Get(name: string) returns (r: Option<Node>)
      requires Valid()
      ensures r == Find(Contents(), name)
    {
      var i := 0;
      while i < len
        invariant 0 <= i <= len
        invariant forall j :: 0 <= j < i ==> entries[j].name != name
      {
        if entries[i].name == name {
          assert IndexOf(Contents(), name) == i;
          return Some(entries[i].value);
        }
        i := i + 1;
      }
      return None;
    }

    /** The `realloc` step of `env_set`: a larger array holding the same entries. */
    method Grow(ncap: nat)
      requires Valid() && ncap >= entries.Length && CapSeries(ncap)
      modifies this
      ensures Valid() && entries.Length == ncap && fresh(entries)
      ensures len == old(len) && Contents() == old(Contents())
    {
      var nv := new Entry[ncap](_ => Entry("", RatNode(Num.Rat(0, 1))));
      forall j | 0 <= j < len {
        nv[j] := entries[j];
      }
      assert nv[..len] == entries[..len];
      entries := nv;
    }

    /**
      `env_set(name, value)`: an existing name gets its value replaced in
      place; a new name is appended after growing the array when it is full
      (capacity 16 first, then doubling). A failed `realloc` changes nothing;
      a failed key copy comes after the growth, so it keeps the larger
      capacity but appends nothing.
     */
    method Set(name: string, value: Node, reallocOk: bool, dupOk: bool) returns (ok: bool)
      requires Valid()
      modifies this, entries
      ensures Valid() && (entries == old(entries) || fresh(entries))
      ensures ok ==> Contents() == Upsert(old(Contents()), name, value)
      ensures !ok ==> Contents() == old(Contents())
      ensures ok <==> IndexOf(old(Contents()), name) >= 0 || ((old(len) < old(entries.Length) || reallocOk) && dupOk)
      ensures entries.Length ==
        if IndexOf(old(Contents()), name) < 0 && old(len) == old(entries.Length) && reallocOk
        then GrownCap(old(entries.Length)) else old(entries.Length)
    {
      var i := 0;
      while i < len
        invariant 0 <= i <= len
        invariant forall j :: 0 <= j < i ==> entries[j].name != name
      {
        if entries[i].name == name {
          assert IndexOf(Contents(), name) == i;
          entries[i] := Entry(entries[i].name, value);
          UpsertThenFind(old(Contents()), name, value);
          return true;
        }
        i := i + 1;
      }
      assert IndexOf(Contents(), name) < 0;
      ok := Append(name, value, reallocOk, dupOk);
    }

    /** The second half of `env_set`, for a name not in the table: grow if full, copy the key, append. */
    method Append(name: string, value: Node, reallocOk: bool, dupOk: bool) returns (ok: bool)
      requires Valid() && IndexOf(Contents(), name) < 0
      modifies this, entries
      ensures Valid() && (entries == old(entries) || fresh(entries))
      ensures ok ==> Contents() == old(Contents()) + [Entry(name, value)]
      ensures !ok ==> Contents() == old(Contents())
      ensures ok <==> (old(len) < old(entries.Length) || reallocOk) && dupOk
      ensures entries.Length ==
        if old(len) == old(entries.Length) && reallocOk then GrownCap(old(entries.Length)) else old(entries.Length)
    {
      if entries.Length == len {
        var ncap := GrownCap(entries.Length);
        if !reallocOk {
          return false;
        }
        Grow(ncap);
      }
      if !dupOk {
        return false;
      }
      ghost var before := Contents();
      entries[len] := Entry(name, value);
      len := len + 1;
      assert Contents() == before + [Entry(name, value)];
      UpsertThenFind(before, name, value);
      ok := true;
    }
  }

  // ---------------------------------------------------------------------------
  // Lookup contexts
  // ---------------------------------------------------------------------------

  /**
    `env_overlay_t`: local name/value pairs, searched first, then the base
    context. `base` is None when `base_lookup` is null.
   */
  datatype Overlay = Overlay(base: Option<Ctx>, locals: seq<Entry>)

  /** A `(lookup_fn_t, ctx)` pair: `lookup_env` over a table or `lookup_overlay` over an overlay; None is a null ctx. */
  datatype Ctx =
    | EnvCtx(env: Option<seq<Entry>>)
    | OverlayCtx(overlay: Option<Overlay>)

  /** Calling a context's lookup function; None for the name is a null name. */
  function Lookup(ctx: Ctx, name: Option<string>): (r: Option<Node>)
    ensures name.None? ==> r.None?
    decreases ctx, 1
  {
    match ctx
    case EnvCtx(env) => LookupEnv(env, name)
    case OverlayCtx(o) => OverlayGet(o, name)
  }

  /** `lookup_env`: nothing for a null table or a null name, else the table's first match. */
  function LookupEnv(env: Option<seq<Entry>>, name: Option<string>): (r: Option<Node>)
    ensures env.None? || name.None? ==> r.None?
    ensures env.Some? && name.Some? ==> r == Find(env.value, name.value)
  {
    if env.None? || name.None? then None else Find(env.value, name.value)
  }

  /**
    `env_overlay_get` (and `lookup_overlay`): the first local with that name
    wins; otherwise the base context answers, and without one the name is
    unbound.
   */
  function OverlayGet(o: Option<Overlay>, name: Option<string>): (r: Option<Node>)
    ensures o.None? || name.None? ==> r.None?
    ensures o.Some? && name.Some? && Find(o.value.locals, name.value).Some? ==>
      r == Find(o.value.locals, name.value)
    ensures o.Some? && name.Some? && Find(o.value.locals, name.value).None? ==>
      r == if o.value.base.None? then None else Lookup(o.value.base.value, name)
    decreases o, 0
  {
    if o.None? || name.None? then None
    else
      var local := Find(o.value.locals, name.value);
      if local.Some? then local
      else if o.value.base.None? then None
      else Lookup(o.value.base.value, name)
  }

  /** The scan `env_overlay_get` performs: locals in order, then the base lookup. */
  method OverlayScan(o: Option<Overlay>, name: Option<string>) returns (r: Option<Node>)
    ensures r == OverlayGet(o, name)
  {
    if o.None? || name.None? {
      return None;
    }
    var locals := o.value.locals;
    var i := 0;
    while i < |locals|
      invariant 0 <= i <= |locals|
      invariant forall j :: 0 <= j < i ==> locals[j].name != name.value
    {
      if locals[i].name == name.value {
        assert IndexOf(locals, name.value) == i;
        return Some(locals[i].value);
      }
      i := i + 1;
    }
    if o.value.base.None? {
      return None;
    }
    r := Lookup(o.value.base.value, name);
  }
}
