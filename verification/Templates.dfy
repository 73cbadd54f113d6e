/** src/Template.js: the object-based compiler. A `Template` keeps its input text, its
    tags and one handler list per event; `compile` turns the input into the body of a
    function of `data`, whose code calls `this.echo`, `this.include` and `this.bind` and
    fires the `complete` event at the end. The suffixes are `=` (echo), `!=` (nest) and
    `!` (async); the stop tag is searched only after the suffix. */
module Templates {
  import opened Values
  import opened JsString
  import opened Scanner
  import opened Generator
  import LiteralEscape

  // The code fragments the compiler glues together.
  const MT: string := ""
  const NL: string := "\n"
  const ECHO_START: string := "this.echo("
  const ECHO_DONE: string := ");"
  const STAT_START: string := "this.echo('"
  const STAT_DONE: string := "');"
  /** src/Template.js:24: a backslash followed by a raw line break. */
  const NEWLINE_ESCAPED: string := LiteralEscape.ContinuationEscape
  const ASYNC_START: string := "Function.prototype.call.call("
  const ASYNC_CONT: string := ",this.bind(function(data){"
  const ASYNC_DONE: string := "},this,data))"
  const NEST_START: string := "this.include(("
  const NEST_CONT: string := "),data,this.bind(function(data){"
  const CALL_DONE: string := "this.dispatchEvent('complete')"

  // The events a template has handler lists for.
  const COMPILED: string := "compiled"
  const COMPLETE: string := "complete"
  const EXEC: string := "exec"
  const ERROR: string := "error"
  const Events: set<string> := {COMPILED, COMPLETE, EXEC, ERROR}

  /** The tag settings `compile` reads. */
  datatype Tags = Tags(start: string, stop: string, send: string, nest: string, async: string)

  /** The suffixes in the order the compiler tests them. */
  function Rules(t: Tags): seq<Rule>
  {
    [Rule(Echo, t.send, |t.send|), Rule(Nest, t.nest, |t.nest|), Rule(Async, t.async, |t.async|)]
  }

  /** The stop tag is searched from the beginning of the body, after the suffix. */
  function DialectOf(t: Tags): Dialect
  {
    Dialect(t.start, t.stop, Rules(t), false)
  }

  /** There is no safe echo and nothing around the program. */
  const TemplateSyntax: Syntax := Syntax(MT, STAT_START, STAT_DONE,
    LiteralEscape.AsWritten(NEWLINE_ESCAPED), MT, MT, ECHO_START, ECHO_DONE,
    NEST_START, NEST_CONT, ASYNC_START, ASYNC_CONT, NL, CALL_DONE, ASYNC_DONE, MT)

  /** A directive's kind is decided by the first suffix, in the order echo, nest, async,
      that follows the start tag; its body begins after that suffix. */
  lemma Classify(src: string, t: Tags, s: nat)
    ensures KindAt(src, s, Rules(t)) ==
      if Suffixed(src, s, t.send) then Echo
      else if Suffixed(src, s, t.nest) then Nest
      else if Suffixed(src, s, t.async) then Async
      else Code
    ensures BodyStart(src, s, Rules(t)) ==
      if Suffixed(src, s, t.send) then s + |t.send|
      else if Suffixed(src, s, t.nest) then s + |t.nest|
      else if Suffixed(src, s, t.async) then s + |t.async|
      else s
  {
    assert Rules(t)[1..][1..][1..] == [];
    assert Match(src, s, Rules(t)[1..][1..]) == if Suffixed(src, s, t.async) then 0 else 1;
    assert Match(src, s, Rules(t)[1..]) == if Suffixed(src, s, t.nest) then 0 else 1 + Match(src, s, Rules(t)[1..][1..]);
  }

  /** With the default suffixes, a directive opened by `!=` is a nest, never an async
      block, although its first character is the async suffix. */
  lemma BangEqualsIsNest(src: string, s: nat)
    requires s + 2 <= |src| && src[s] == '!' && src[s + 1] == '='
    ensures KindAt(src, s, Rules(Tags("<?", "?>", "=", "!=", "!"))) == Nest
  {
    var t := Tags("<?", "?>", "=", "!=", "!");
    Classify(src, t, s);
    assert SubstrLen(src, s, 1) == [src[s]];
    assert SubstrLen(src, s, 2) == [src[s], src[s + 1]];
  }

  /** Any non-empty start and stop tags form a regular dialect, so the segmentation
      lemmas about regular dialects apply to every template: each suffix is skipped by
      its own length, and the stop tag is searched only after the suffix. */
  lemma TagsRegular(t: Tags)
    requires |t.start| > 0 && |t.stop| > 0
    ensures Regular(DialectOf(t))
  {
  }

  /** A template `a`, line break, `b` is one literal run, which the compiler prints
      with a backslash before the raw line break: a line continuation, so the generated
      string reads back without the line break (`LiteralEscape.ContinuationDropsBreak`).
      The intended escaping prints the line break as `\n`. */
  lemma LineBreakCompiled(t: Tags)
    requires t.start == "<?" && |t.stop| > 0
    ensures Scan(['a', LF, 'b'], DialectOf(t), 0) == [Literal(['a', LF, 'b'])]
    ensures Chunks([Literal(['a', LF, 'b'])], TemplateSyntax) ==
      STAT_START + ['a', LiteralEscape.BS, LF, 'b'] + STAT_DONE
    ensures Chunks([Literal(['a', LF, 'b'])], Intended(TemplateSyntax)) ==
      STAT_START + ['a', LiteralEscape.BS, 'n', 'b'] + STAT_DONE
  {
    var src := ['a', LF, 'b'];
    var d := DialectOf(t);
    assert !MatchesAt(src, "<?", 2) && !MatchesAt(src, "<?", 1) && !MatchesAt(src, "<?", 0);
    assert IndexOf(src, "<?", 0) == -1;
    assert NextStart(src, d, 0) < 0;
    assert LeadFrom(src, d, 0) == [Literal(src)];
    ScanTail(src, d, 0);
    LiteralEscape.ContinuationDropsBreak();
    assert LiteralEscape.QuotesAsWritten(['b']) == ['b'];
    assert LiteralEscape.QuotesAsWritten([LF, 'b']) == [LF, 'b'];
    assert LiteralEscape.QuotesAsWritten(src) == src;
    assert LiteralEscape.Newlines(['b'], NEWLINE_ESCAPED) == ['b'];
    assert LiteralEscape.Newlines([LF, 'b'], NEWLINE_ESCAPED) == [LiteralEscape.BS, LF, 'b'];
    assert LiteralEscape.EscapeAsWritten(src, NEWLINE_ESCAPED) == ['a', LiteralEscape.BS, LF, 'b'];
    assert Chunk(Literal(src), TemplateSyntax) == STAT_START + ['a', LiteralEscape.BS, LF, 'b'] + STAT_DONE;
    ChunksOne(Literal(src), TemplateSyntax);
    assert LiteralEscape.Quotes(['b']) == ['b'];
    assert LiteralEscape.Quotes([LF, 'b']) == [LF, 'b'];
    assert LiteralEscape.Quotes(src) == src;
    assert LiteralEscape.Newlines(['b'], LiteralEscape.NewlineEscape) == ['b'];
    assert LiteralEscape.Newlines([LF, 'b'], LiteralEscape.NewlineEscape) == [LiteralEscape.BS, 'n', 'b'];
    assert LiteralEscape.Escape(src) == ['a', LiteralEscape.BS, 'n', 'b'];
    ChunksOne(Literal(src), Intended(TemplateSyntax));
  }

  /** The static chunk of one pass of the loop from `i0`. */
  method LiteralRound(src: string, t: Tags, i0: nat, fn0: string) returns (i: int, fn: string)
    requires |t.start| > 0 && |t.stop| > 0 && i0 <= |src|
    ensures i == NextStart(src, DialectOf(t), i0)
    ensures fn == fn0 + Chunks(LeadFrom(src, DialectOf(t), i0), TemplateSyntax)
  {
    fn := fn0;
    var s := i0;
    i := IndexOf(src, t.start, i0);
    LeadChunk(src, s, i, TemplateSyntax);
    if s != i {
      fn := fn + (STAT_START + LiteralEscape.EscapeAsWritten(UpTo(src, s, i), NEWLINE_ESCAPED) + STAT_DONE);
    }
  }

  /** The suffix tests of the directive chunk whose suffix position is `s`: each branch
      skips its suffix, then searches the stop tag, then wraps the body. Returns the
      stop tag's position, -1 for none. */
  method WrapDirective(src: string, t: Tags, s: nat, fn0: string, n0: nat)
    returns (i: int, fn: string, n: nat)
    requires |t.stop| > 0
    ensures var b := BodyStart(src, s, Rules(t));
      var k := KindAt(src, s, Rules(t));
      i == IndexOf(src, t.stop, b) &&
      fn == fn0 + Wrap(k, UpTo(src, b, i), TemplateSyntax) &&
      n == n0 + (if OpensKind(k) then 1 else 0)
  {
    Classify(src, t, s);
    n := n0;
    var s' := s;
    if Suffixed(src, s, t.send) {
      s' := s + |t.send|;
      i := IndexOf(src, t.stop, s');
      fn := fn0 + (ECHO_START + UpTo(src, s', i) + ECHO_DONE);
      assert KindAt(src, s, Rules(t)) == Echo && BodyStart(src, s, Rules(t)) == s';
    } else if Suffixed(src, s, t.nest) {
      s' := s + |t.nest|;
      i := IndexOf(src, t.stop, s');
      n := n + 1;
      fn := fn0 + (NEST_START + UpTo(src, s', i) + NEST_CONT);
      assert KindAt(src, s, Rules(t)) == Nest && BodyStart(src, s, Rules(t)) == s';
    } else if Suffixed(src, s, t.async) {
      s' := s + |t.async|;
      i := IndexOf(src, t.stop, s');
      n := n + 1;
      fn := fn0 + (ASYNC_START + UpTo(src, s', i) + ASYNC_CONT);
      assert KindAt(src, s, Rules(t)) == Async && BodyStart(src, s, Rules(t)) == s';
    } else {
      i := IndexOf(src, t.stop, s');
      fn := fn0 + (UpTo(src, s', i) + NL);
      assert KindAt(src, s, Rules(t)) == Code && BodyStart(src, s, Rules(t)) == s';
    }
  }

  /** The directive chunk of one pass: the body is wrapped and a line ending right after
      the stop tag is skipped. Returns where scanning resumes, -1 for nowhere. */
  method DirectiveRound(src: string, t: Tags, s: nat, fn0: string, n0: nat)
    returns (i: int, fn: string, n: nat)
    requires |t.start| > 0 && |t.stop| > 0 && s <= |src|
    ensures var c := CutAt(src, DialectOf(t), s);
      i == (if c.Closed? then c.e else -1) &&
      fn == fn0 + Wrap(c.dir.kind, c.dir.body, TemplateSyntax) &&
      n == n0 + (if OpensKind(c.dir.kind) then 1 else 0)
  {
    i, fn, n := WrapDirective(src, t, s, fn0, n0);
    CutParts(src, DialectOf(t), s, i);
    if i >= 0 {
      // a line ending right after the stop tag is swallowed
      i := AfterNewline(src, i + |t.stop|);
    }
  }

  /** One pass of the loop: the generic round over the template dialect and fragments. */
  method CompileRound(src: string, t: Tags, i0: nat, fn0: string, n0: nat)
    returns (i: int, fn: string, n: nat)
    requires |t.start| > 0 && |t.stop| > 0 && i0 <= |src|
    ensures Pass(i, fn, n) == Round(src, DialectOf(t), TemplateSyntax, Pass(i0, fn0, n0))
  {
    n := n0;
    i, fn := LiteralRound(src, t, i0, fn0);
    if i < 0 {
      RoundTail(src, DialectOf(t), TemplateSyntax, Pass(i0, fn0, n0));
      return;
    }
    i := i + |t.start|;
    RoundCut(src, DialectOf(t), TemplateSyntax, Pass(i0, fn0, n0), i);
    i, fn, n := DirectiveRound(src, t, i, fn, n);
  }

  /** The loops of `compile`: the program generated from the input's segmentation. */
  method CompileSource(src: string, t: Tags) returns (fn: string)
    requires |t.start| > 0 && |t.stop| > 0
    ensures fn == Program(Scan(src, DialectOf(t), 0), TemplateSyntax)
  {
    var i: int, n: nat := 0, 0;
    fn := MT;
    OutcomeStart(src, DialectOf(t), TemplateSyntax);
    ghost var out := Program(Scan(src, DialectOf(t), 0), TemplateSyntax);
    while i >= 0
      invariant i <= |src|
      invariant Outcome(src, DialectOf(t), TemplateSyntax, Pass(i, fn, n)) == out
      decreases if i < 0 then 0 else |src| + 1 - i
    {
      i, fn, n := CompileRound(src, t, i, fn, n);
    }
    OutcomeEnd(src, DialectOf(t), TemplateSyntax, Pass(i, fn, n));

    // the completion event, then one closer per continuation
    fn := fn + CALL_DONE;
    ghost var base: string, k: nat := fn, 0;
    ghost var count := n;
    while n > 0
      invariant k + n == count && fn == base + Repeat(ASYNC_DONE, k)
    {
      n := n - 1;
      fn := fn + ASYNC_DONE;
      k := k + 1;
    }
  }

  /** `list` with every occurrence of `h` removed, the others in order. */
  function Without(list: seq<nat>, h: nat): (r: seq<nat>)
    ensures h !in r
    ensures forall x :: x in r <==> x in list && x != h
    ensures |r| <= |list|
  {
    if list == [] then [] else (if list[0] == h then [] else [list[0]]) + Without(list[1..], h)
  }

  /** Removing a handler that is not registered changes nothing. */
  lemma {:induction false} WithoutAbsent(list: seq<nat>, h: nat)
    requires h !in list
    ensures Without(list, h) == list
  {
    if list != [] {
      WithoutAbsent(list[1..], h);
      assert list == [list[0]] + list[1..];
    }
  }

  /** Removal distributes over concatenation. */
  lemma {:induction false} WithoutSplit(a: seq<nat>, b: seq<nat>, h: nat)
    ensures Without(a + b, h) == Without(a, h) + Without(b, h)
  {
    if a != [] {
      assert (a + b)[1..] == a[1..] + b;
      WithoutSplit(a[1..], b, h);
    } else {
      assert a + b == b;
    }
  }

  /** One pass of the backward removal loop as written, at position `i`: when the list
      holds `h` there, `a = a.splice(i, 1)` replaces the list by the array `splice`
      returns, which holds the one element removed. A position past the end of the list
      reads `undefined` and matches nothing. */
  function SpliceStep(a: seq<nat>, i: nat, h: nat): seq<nat>
  {
    if i < |a| && a[i] == h then [a[i]] else a
  }

  /** The passes at positions `i - 1` down to 0. */
  function SpliceLoop(a: seq<nat>, i: nat, h: nat): seq<nat>
    decreases i
  {
    if i == 0 then a else SpliceLoop(SpliceStep(a, i - 1, h), i - 1, h)
  }

  /** What the removal loop as written leaves for the event's list. */
  function AsWrittenRemoval(list: seq<nat>, h: nat): seq<nat>
  {
    SpliceLoop(list, |list|, h)
  }

  /** A list reduced to `[h]` stays `[h]`. */
  lemma {:induction false} SpliceLoopSingle(i: nat, h: nat)
    ensures SpliceLoop([h], i, h) == [h]
  {
    if i > 0 {
      assert SpliceStep([h], i - 1, h) == [h];
      SpliceLoopSingle(i - 1, h);
    }
  }

  /** The passes over the first `i` positions of an untouched list leave `[h]` when one
      of those positions holds `h`, and the list otherwise. */
  lemma {:induction false} SpliceLoopPrefix(list: seq<nat>, i: nat, h: nat)
    requires i <= |list|
    ensures SpliceLoop(list, i, h) == if h in list[..i] then [h] else list
  {
    if i > 0 {
      assert list[..i] == list[..i - 1] + [list[i - 1]];
      if list[i - 1] == h {
        SpliceLoopSingle(i - 1, h);
      } else {
        SpliceLoopPrefix(list, i - 1, h);
      }
    }
  }

  /** As written, removing a registered handler leaves exactly that handler, once,
      whatever else was registered, where the intended removal drops it; the two agree
      exactly when the handler is not registered. */
  lemma AsWrittenRemovalKeeps(list: seq<nat>, h: nat)
    ensures h in list ==> AsWrittenRemoval(list, h) == [h]
    ensures h !in list ==> AsWrittenRemoval(list, h) == list
    ensures AsWrittenRemoval(list, h) == Without(list, h) <==> h !in list
  {
    SpliceLoopPrefix(list, |list|, h);
    assert list[..|list|] == list;
    if h !in list {
      WithoutAbsent(list, h);
    }
  }

  /** The loop of `removeEventListener` as written. */
  method SpliceLoopAsWritten(list: seq<nat>, h: nat) returns (a: seq<nat>)
    ensures a == AsWrittenRemoval(list, h)
  {
    a := list;
    var i := |list|;
    while i > 0
      invariant 0 <= i <= |list|
      invariant SpliceLoop(a, i, h) == AsWrittenRemoval(list, h)
    {
      i := i - 1;
      if i < |a| && a[i] == h {
        a := [a[i]];
      }
    }
  }

  /** As written, removing one of two handlers leaves exactly that handler registered;
      the intended removal leaves the other. */
  lemma RemoveAsWrittenKeepsRemoved()
    ensures AsWrittenRemoval([7, 8], 7) == [7]
    ensures Without([7, 8], 7) == [8]
  {
    AsWrittenRemovalKeeps([7, 8], 7);
    assert [7, 8][1..] == [8];
    assert [8][1..] == [];
  }

  /** A template object. */
  class Template {
    var input: string
    var start: string
    var stop: string
    var send: string
    var nest: string
    var async: string
    /** One handler list per event; handlers are opaque handles. */
    var handlers: map<string, seq<nat>>
    /** The generated program once compiled (`null` before). */
    var compiled: Option<string>
    /** `output`: `null` until the first `exec`. */
    var output: Option<string>
    /** Every handler invocation so far: the event and the handler. */
    var fired: seq<(string, nat)>

    /** Both tags non-empty, and a handler list for each of the four events. */
    ghost predicate Valid()
      reads this
    {
      |start| > 0 && |stop| > 0 && handlers.Keys == Events
    }

    function TagsNow(): Tags
      reads this
    {
      Tags(start, stop, send, nest, async)
    }

    /** The constructor: each setting is taken from `o` when truthy, from the prototype
        otherwise; the handler list of each event holds `o.on<event>` when that is a
        function and is empty otherwise. */
    constructor (o: map<string, Value>)
      requires forall k | k in o && k in {"input", "start", "stop", "send", "nest", "async"} :: o[k].Str? || !Truthy(o[k])
      ensures Valid()
      ensures input == Setting(o, "input", MT) && start == Setting(o, "start", "<?")
      ensures stop == Setting(o, "stop", "?>") && send == Setting(o, "send", "=")
      ensures nest == Setting(o, "nest", "!=") && async == Setting(o, "async", "!")
      ensures handlers == map e | e in Events :: InitialHandlers(o, e)
      ensures compiled == None && output == None && fired == []
    {
      input := Setting(o, "input", MT);
      start := Setting(o, "start", "<?");
      stop := Setting(o, "stop", "?>");
      send := Setting(o, "send", "=");
      nest := Setting(o, "nest", "!=");
      async := Setting(o, "async", "!");
      handlers := map e | e in Events :: InitialHandlers(o, e);
      compiled, output, fired := None, None, [];
    }

    /** `addEventListener(event, fn)`: `false` (undefined) for an unknown event. */
    method AddEventListener(event: string, h: nat) returns (known: bool)
      requires Valid()
      modifies this`handlers
      ensures Valid()
      ensures known <==> event in old(handlers)
      ensures known ==> handlers == old(handlers)[event := old(handlers)[event] + [h]]
      ensures !known ==> handlers == old(handlers)
    {
      if event !in handlers {
        return false;
      }
      handlers := handlers[event := handlers[event] + [h]];
      return true;
    }

    /** `removeEventListener(event, fn)` as written: the backward loop that replaces the
        list by what `splice` returns, so a registered `h` is left as the event's only
        handler (see `AsWrittenRemovalKeeps`). */
    method RemoveEventListener(event: string, h: nat) returns (known: bool)
      requires Valid()
      modifies this`handlers
      ensures Valid()
      ensures known <==> event in old(handlers)
      ensures known ==> handlers == old(handlers)[event := AsWrittenRemoval(old(handlers)[event], h)]
      ensures known && h in old(handlers)[event] ==> handlers[event] == [h]
      ensures known && h !in old(handlers)[event] ==> handlers == old(handlers)
      ensures !known ==> handlers == old(handlers)
    {
      if event !in handlers {
        return false;
      }
      var a := SpliceLoopAsWritten(handlers[event], h);
      AsWrittenRemovalKeeps(handlers[event], h);
      handlers := handlers[event := a];
      return true;
    }

    /** `dispatchEvent(event)`: the handlers registered when dispatch begins are called in
        order; `false` (undefined) for an unknown event. */
    method DispatchEvent(event: string) returns (known: bool)
      modifies this`fired
      ensures known <==> event in handlers
      ensures fired == old(fired) + Calls(event, if known then handlers[event] else [])
    {
      if event !in handlers {
        return false;
      }
      var a := handlers[event];
      var l := |a|;
      var i := 0;
      while i < l
        invariant 0 <= i <= l
        invariant fired == old(fired) + Calls(event, a[..i])
      {
        assert a[..i + 1] == a[..i] + [a[i]];
        CallsAppend(event, a[..i], [a[i]]);
        fired := fired + [(event, a[i])];
        i := i + 1;
      }
      assert a[..l] == a;
      return true;
    }

    /** `compile(use_cached)`: nothing happens when a cached program is asked for and
        there is one; otherwise the input is compiled and `compiled` fires. */
    method Compile(useCached: bool)
      requires Valid()
      modifies this`compiled, this`fired
      ensures Valid()
      ensures useCached && old(compiled).Some? ==> compiled == old(compiled) && fired == old(fired)
      ensures !(useCached && old(compiled).Some?) ==>
        compiled == Some(Program(Scan(input, DialectOf(TagsNow()), 0), TemplateSyntax)) &&
        fired == old(fired) + Calls(COMPILED, handlers[COMPILED])
    {
      if useCached && compiled.Some? {
        return;
      }
      var fn := CompileSource(input, TagsNow());
      compiled := Some(fn);
      var _ := DispatchEvent(COMPILED);
    }

    /** `exec(data)`: compile if needed, reset the output, fire `exec`. Running the
        compiled program is not part of this model. */
    method Exec()
      requires Valid()
      modifies this`compiled, this`fired, this`output
      ensures Valid()
      ensures output == Some(MT)
      ensures old(compiled).Some? ==> compiled == old(compiled) && fired == old(fired) + Calls(EXEC, handlers[EXEC])
      ensures old(compiled).None? ==>
        compiled == Some(Program(Scan(input, DialectOf(TagsNow()), 0), TemplateSyntax)) &&
        fired == old(fired) + Calls(COMPILED, handlers[COMPILED]) + Calls(EXEC, handlers[EXEC])
    {
      Compile(true);
      output := Some(MT);
      var _ := DispatchEvent(EXEC);
    }

    /** `echo(...)`: the joined arguments are appended to `output`, which reads as
        `null` before the first `exec`. */
    method Echo(args: seq<string>)
      modifies this`output
      ensures output == Some(OutputText(old(output)) + Join(args))
    {
      output := Some(OutputText(output) + Join(args));
    }
  }

  /** `o[k] || default` for a string setting. */
  function Setting(o: map<string, Value>, k: string, default: string): (r: string)
    ensures default != [] ==> r != []
    ensures k in o && Truthy(o[k]) && o[k].Str? ==> r == o[k].s
    ensures !(k in o && Truthy(o[k])) ==> r == default
  {
    if k in o && Truthy(o[k]) && o[k].Str? then o[k].s else default
  }

  /** The initial handler list of `event`: `[o.on<event>]` for a function, else empty. */
  function InitialHandlers(o: map<string, Value>, event: string): seq<nat>
  {
    var key := "on" + event;
    if key in o && o[key].Func? then [o[key].id] else []
  }

  /** The invocations of `hs` for `event`, in order. */
  function Calls(event: string, hs: seq<nat>): (r: seq<(string, nat)>)
    ensures |r| == |hs| && forall k :: 0 <= k < |hs| ==> r[k] == (event, hs[k])
  {
    if hs == [] then [] else [(event, hs[0])] + Calls(event, hs[1..])
  }

  lemma {:induction false} CallsAppend(event: string, a: seq<nat>, b: seq<nat>)
    ensures Calls(event, a + b) == Calls(event, a) + Calls(event, b)
  {
    if a != [] {
      assert (a + b)[1..] == a[1..] + b;
      CallsAppend(event, a[1..], b);
    } else {
      assert a + b == b;
    }
  }

  /** `output` as `+=` reads it: `null` becomes the text "null". */
  function OutputText(output: Option<string>): string
  {
    if output.None? then "null" else output.value
  }
}
