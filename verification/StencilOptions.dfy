/** `stencil.options` and the template cache of stencil.js: an options object is merged
    with `stencil.defaults` in place, every falsy field taking the default; the cache maps
    template ids to their compiled code and is consulted before anything is fetched. */
module StencilOptions {
  import opened Values
  import Stencil

  /** `stencil.defaults`. */
  const Defaults: map<string, Value> := map[
    "id" := Null, "start" := Str("<?"), "stop" := Str("?>"), "echo" := Str("-"),
    "safe" := Str("="), "nest" := Str("#"), "async" := Str("!"),
    "sync_include" := Bool(false), "parse" := Null]

  /** `o[k]`: `undefined` for a missing field. */
  function Get(o: map<string, Value>, k: string): Value
  {
    if k in o then o[k] else Undefined
  }

  /** The object once the fields in `done` have been merged: each of them is
      `o[k] || defs[k]`, every other field is as it was. */
  function MergedOn(o: map<string, Value>, defs: map<string, Value>, done: set<string>): (r: map<string, Value>)
    requires done <= defs.Keys
    ensures r.Keys == o.Keys + done
  {
    map k | k in o.Keys + done :: if k in done then Or(Get(o, k), defs[k]) else o[k]
  }

  /** The object after the whole merge. */
  function Merged(o: map<string, Value>, defs: map<string, Value>): map<string, Value>
  {
    MergedOn(o, defs, defs.Keys)
  }

  /** What the merge does to each field: a truthy field of `o` is kept, a missing or
      falsy one takes the default, and a field without a default is left alone. */
  lemma MergedField(o: map<string, Value>, defs: map<string, Value>, k: string)
    ensures k in defs && Truthy(Get(o, k)) ==> k in Merged(o, defs) && Merged(o, defs)[k] == o[k]
    ensures k in defs && !Truthy(Get(o, k)) ==> k in Merged(o, defs) && Merged(o, defs)[k] == defs[k]
    ensures k !in defs ==> Get(Merged(o, defs), k) == Get(o, k)
  {
  }

  /** Every field with a truthy default is truthy after the merge. */
  lemma MergedTruthy(o: map<string, Value>, defs: map<string, Value>, k: string)
    requires k in defs && Truthy(defs[k])
    ensures Truthy(Get(Merged(o, defs), k))
  {
    MergedField(o, defs, k);
  }

  /** Merging a second time changes nothing. */
  lemma MergeIdempotent(o: map<string, Value>, defs: map<string, Value>)
    ensures Merged(Merged(o, defs), defs) == Merged(o, defs)
  {
    var m := Merged(o, defs);
    forall k | k in m.Keys + defs.Keys
      ensures Merged(m, defs)[k] == m[k]
    {
      MergedField(o, defs, k);
      MergedField(m, defs, k);
    }
  }

  /** An options object, whose fields `stencil.options` overwrites in place. */
  class Options {
    var fields: map<string, Value>

    constructor (fields0: map<string, Value>)
      ensures fields == fields0
    {
      fields := fields0;
    }

    /** The `for (opt in defs)` loop: every field with a default becomes
        `o[opt] || defs[opt]`. */
    method MergeDefaults(defs: map<string, Value>)
      modifies this
      ensures fields == Merged(old(fields), defs)
    {
      ghost var o := fields;
      var todo := defs.Keys;
      while todo != {}
        invariant todo <= defs.Keys
        invariant fields == MergedOn(o, defs, defs.Keys - todo)
        decreases todo
      {
        var opt :| opt in todo;
        MergeStep(o, defs, defs.Keys - todo, opt);
        fields := fields[opt := Or(Get(fields, opt), defs[opt])];
        todo := todo - {opt};
        assert defs.Keys - todo == (defs.Keys - (todo + {opt})) + {opt};
      }
      assert defs.Keys - todo == defs.Keys;
    }
  }

  /** Merging one more field. */
  lemma MergeStep(o: map<string, Value>, defs: map<string, Value>, done: set<string>, k: string)
    requires done <= defs.Keys && k in defs && k !in done
    ensures var m := MergedOn(o, defs, done);
      m[k := Or(Get(m, k), defs[k])] == MergedOn(o, defs, done + {k})
  {
    var m := MergedOn(o, defs, done);
    assert Get(m, k) == Get(o, k);
  }

  /** What `stencil.options` is given: a template id, an options object, or nothing
      (a falsy value). */
  datatype OptionsArg = IdArg(id: string) | ObjectArg(obj: Options) | NoArg

  /** `stencil.options(o)`: a string becomes `{ id: o }`, a falsy value `{}`, and the
      defaults are merged into the object, which is returned. */
  method MergeOptions(arg: OptionsArg) returns (o: Options)
    modifies if arg.ObjectArg? then {arg.obj} else {}
    ensures arg.IdArg? ==> fresh(o) && o.fields == Merged(map["id" := Str(arg.id)], Defaults)
    ensures arg.NoArg? ==> fresh(o) && o.fields == Merged(map[], Defaults)
    ensures arg.ObjectArg? ==> o == arg.obj && o.fields == Merged(old(arg.obj.fields), Defaults)
  {
    match arg {
      case IdArg(id) =>
        o := new Options(map["id" := Str(id)]);
      case NoArg =>
        o := new Options(map[]);
      case ObjectArg(obj) =>
        o := obj;
    }
    o.MergeDefaults(Defaults);
  }

  /** The tags a compilation reads from merged options, when all six are strings. */
  function TagsOf(o: map<string, Value>): Option<Stencil.Tags>
  {
    var start, stop := Get(o, "start"), Get(o, "stop");
    var echo, safe, nest, async := Get(o, "echo"), Get(o, "safe"), Get(o, "nest"), Get(o, "async");
    if start.Str? && stop.Str? && echo.Str? && safe.Str? && nest.Str? && async.Str? then
      Some(Stencil.Tags(start.s, stop.s, echo.s, safe.s, nest.s, async.s))
    else None
  }

  /** A tag option given as a string, or not given (falsy). */
  predicate TagOption(o: map<string, Value>, k: string)
  {
    Get(o, k).Str? || !Truthy(Get(o, k))
  }

  /** After the merge the tags are strings and the start and stop tags are not empty,
      which is what the compiler's loop needs to make progress. */
  lemma MergedTags(o: map<string, Value>)
    requires TagOption(o, "start") && TagOption(o, "stop") && TagOption(o, "echo")
    requires TagOption(o, "safe") && TagOption(o, "nest") && TagOption(o, "async")
    ensures var t := TagsOf(Merged(o, Defaults));
      t.Some? && |t.value.start| > 0 && |t.value.stop| > 0
  {
    MergedField(o, Defaults, "start");
    MergedField(o, Defaults, "stop");
    MergedField(o, Defaults, "echo");
    MergedField(o, Defaults, "safe");
    MergedField(o, Defaults, "nest");
    MergedField(o, Defaults, "async");
  }

  /** The id `stencil` looks a template up by: the argument itself when it is a string,
      otherwise its `id` field (`o && o.id`). */
  function IdOf(arg: OptionsArg): Value
    reads if arg.ObjectArg? then {arg.obj} else {}
  {
    match arg
    case IdArg(id) => Str(id)
    case ObjectArg(obj) => Get(obj.fields, "id")
    case NoArg => Undefined
  }

  /** `id && stencil.cache[id]`: a truthy string id with a cached entry. */
  function Lookup(entries: map<string, string>, id: Value): (r: Option<string>)
    ensures r.Some? <==> Truthy(id) && id.Str? && id.s in entries
    ensures r.Some? ==> r.value == entries[id.s]
  {
    if id.Str? && id.s != [] && id.s in entries then Some(entries[id.s]) else None
  }

  /** A compiled template stored under a non-empty id is found under it, and storing
      it changes no other lookup. */
  lemma LookupAfterStore(entries: map<string, string>, id: string, fn: string, other: Value)
    requires id != []
    ensures Lookup(entries[id := fn], Str(id)) == Some(fn)
    ensures other != Str(id) ==> Lookup(entries[id := fn], other) == Lookup(entries, other)
  {
  }

  /** `stencil.cache`: compiled templates by id. The cached value is modelled by the
      generated program text it was built from. */
  class Cache {
    var entries: map<string, string>

    constructor ()
      ensures entries == map[]
    {
      entries := map[];
    }

    /** The cache hit that short-circuits `stencil(o, ...)`. */
    function Hit(arg: OptionsArg): Option<string>
      reads this, if arg.ObjectArg? then {arg.obj} else {}
    {
      Lookup(entries, IdOf(arg))
    }

    /** `stencil.cache[id] = fn` */
    method Store(id: string, fn: string)
      modifies this
      ensures entries == old(entries)[id := fn]
    {
      entries := entries[id := fn];
    }
  }
}
