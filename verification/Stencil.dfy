/** The `stencil` library: template text is compiled into the body of a JavaScript
    function whose parameters are `print`, `include` and `context`. A directive opens with
    the start tag (default `<?`) and closes with the stop tag (default `?>`); a suffix right
    after the start tag picks its kind: `=` prints the value HTML-escaped, `-` prints it,
    `#` includes another template, `!` starts an asynchronous block, anything else is
    plain code. Nest and async directives open a `function(){` continuation that the end
    of the program closes. */
module Stencil {
  import opened Values
  import opened JsString
  import opened Scanner
  import opened Generator
  import LiteralEscape
  import Html

  // The code fragments the compiler glues together.
  const MT: string := ""
  const NL: string := "\n"
  const ECHO_START: string := "print("
  const ECHO_DONE: string := "\n);"
  const STAT_START: string := "print('"
  const STAT_DONE: string := "');"
  /** stencil.js:23: a line break becomes the two characters `\n`. */
  const NEWLINE_ESCAPED: string := LiteralEscape.NewlineEscape
  const SAFE_START: string := "print.safe("
  const SAFE_DONE: string := "\n);"
  const NEST_START: string := "include("
  const NEST_CONT: string := "\n,function(){"
  const ASYNC_START: string := "(function(next){"
  const ASYNC_CONT: string := "\n})(function(){"
  const ASYNC_DONE: string := "})"
  const CALL_END: string := "print.end()"
  const CONTEXT_START: string := "with(context){"
  const CONTEXT_END: string := "}"

  /** The tag options a compilation reads. */
  datatype Tags = Tags(start: string, stop: string, echo: string, safe: string, nest: string, async: string)

  /** The suffixes in the order the compiler tests them. The safe suffix is tested with
      its own length but skipped with the length of the echo suffix. */
  function Rules(t: Tags): seq<Rule>
  {
    [Rule(Safe, t.safe, |t.echo|), Rule(Echo, t.echo, |t.echo|),
     Rule(Nest, t.nest, |t.nest|), Rule(Async, t.async, |t.async|)]
  }

  /** The stop tag is searched from right after the start tag, before the suffix. */
  function DialectOf(t: Tags): Dialect
  {
    Dialect(t.start, t.stop, Rules(t), true)
  }

  /** Without a parser the program runs inside `with(context){ ... }`; with one, the
      `with` wrapper is not emitted. */
  function SyntaxOf(parse: bool): Syntax
  {
    Syntax(if parse then MT else CONTEXT_START, STAT_START, STAT_DONE,
           LiteralEscape.AsWritten(NEWLINE_ESCAPED), SAFE_START, SAFE_DONE, ECHO_START, ECHO_DONE,
           NEST_START, NEST_CONT, ASYNC_START, ASYNC_CONT,
           NL, CALL_END, ASYNC_DONE, if parse then MT else CONTEXT_END)
  }

  /** The kind picked by the compiler's chain of suffix tests at suffix position `s`:
      safe, echo, nest, async, in that order, else plain code. */
  function SuffixKind(src: string, t: Tags, s: nat): Kind
  {
    if Suffixed(src, s, t.safe) then Safe
    else if Suffixed(src, s, t.echo) then Echo
    else if Suffixed(src, s, t.nest) then Nest
    else if Suffixed(src, s, t.async) then Async
    else Code
  }

  /** Where the chain of suffix tests makes the body begin; the safe suffix is skipped
      with the echo suffix's length. */
  function SuffixEnd(src: string, t: Tags, s: nat): nat
  {
    if Suffixed(src, s, t.safe) then s + |t.echo|
    else if Suffixed(src, s, t.echo) then s + |t.echo|
    else if Suffixed(src, s, t.nest) then s + |t.nest|
    else if Suffixed(src, s, t.async) then s + |t.async|
    else s
  }

  /** The chain of suffix tests classifies as the stencil.js rule list does: a
      directive's kind is the first suffix, in the order safe, echo, nest, async, that
      follows the start tag, and its body begins after that suffix. */
  lemma Classify(src: string, t: Tags, s: nat)
    ensures KindAt(src, s, Rules(t)) == SuffixKind(src, t, s)
    ensures BodyStart(src, s, Rules(t)) == SuffixEnd(src, t, s)
  {
    assert Rules(t)[1..][1..][1..][1..] == [];
    assert Match(src, s, Rules(t)[1..][1..][1..]) == if Suffixed(src, s, t.async) then 0 else 1;
    assert Match(src, s, Rules(t)[1..][1..]) == if Suffixed(src, s, t.nest) then 0 else 1 + Match(src, s, Rules(t)[1..][1..][1..]);
    assert Match(src, s, Rules(t)[1..]) == if Suffixed(src, s, t.echo) then 0 else 1 + Match(src, s, Rules(t)[1..][1..]);
  }

  /** Tags form a regular dialect, so that the segmentation lemmas about regular
      dialects apply to them, exactly when the safe suffix is as long as the echo suffix
      it is skipped with and no suffix holds the stop tag's first character. The default
      tags do. */
  lemma TagsRegular(t: Tags)
    requires |t.start| > 0 && |t.stop| > 0
    ensures Regular(DialectOf(t)) <==>
      |t.safe| == |t.echo| && t.stop[0] !in t.safe && t.stop[0] !in t.echo &&
      t.stop[0] !in t.nest && t.stop[0] !in t.async
    ensures Regular(DialectOf(Tags("<?", "?>", "-", "=", "#", "!")))
  {
    var rs := Rules(t);
    assert rs[0] == Rule(Safe, t.safe, |t.echo|) && rs[1] == Rule(Echo, t.echo, |t.echo|);
    assert rs[2] == Rule(Nest, t.nest, |t.nest|) && rs[3] == Rule(Async, t.async, |t.async|);
  }

  /** A template that is just two quotes is one literal run, whose text the compiler
      prints as `'\'` inside the generated string literal, so that literal ends at the
      text's first quote (`LiteralEscape.QuotePairAsWritten`). The intended escaping
      prints `\'\'`. */
  lemma QuotePairCompiled(t: Tags, parse: bool)
    requires t.start == "<?" && |t.stop| > 0
    ensures Scan("''", DialectOf(t), 0) == [Literal("''")]
    ensures Chunks([Literal("''")], SyntaxOf(parse)) == STAT_START + "'\\'" + STAT_DONE
    ensures Chunks([Literal("''")], Intended(SyntaxOf(parse))) == STAT_START + "\\'\\'" + STAT_DONE
  {
    var d := DialectOf(t);
    assert !MatchesAt("''", "<?", 0);
    assert IndexOf("''", "<?", 0) == -1;
    assert NextStart("''", d, 0) < 0;
    assert LeadFrom("''", d, 0) == [Literal("''")];
    ScanTail("''", d, 0);
    LiteralEscape.QuotePairAsWritten();
    assert LiteralEscape.Quotes("'") == "\\'";
    assert LiteralEscape.Quotes("''") == "\\'\\'";
    assert LiteralEscape.Newlines("'", NEWLINE_ESCAPED) == "'";
    assert LiteralEscape.Newlines("\\'", NEWLINE_ESCAPED) == "\\'";
    assert LiteralEscape.Newlines("'\\'", NEWLINE_ESCAPED) == "'\\'";
    assert LiteralEscape.Newlines("\\'\\'", NEWLINE_ESCAPED) == "\\'\\'";
    assert SyntaxOf(parse).escaping == LiteralEscape.AsWritten(NEWLINE_ESCAPED);
    assert "''" == [LiteralEscape.QUOTE, LiteralEscape.QUOTE];
    assert "'\\'" == [LiteralEscape.QUOTE, LiteralEscape.BS, LiteralEscape.QUOTE];
    assert LiteralEscape.EscapeAsWritten("''", NEWLINE_ESCAPED) == "'\\'";
    assert SyntaxOf(parse).statStart == STAT_START && SyntaxOf(parse).statDone == STAT_DONE;
    assert Chunk(Literal("''"), SyntaxOf(parse)) == STAT_START + "'\\'" + STAT_DONE;
    ChunksOne(Literal("''"), SyntaxOf(parse));
    assert LiteralEscape.Escape("''") == "\\'\\'";
    ChunksOne(Literal("''"), Intended(SyntaxOf(parse)));
  }

  /** The static chunk of one pass of the compiler's loop from `i0`: the literal run up
      to the next start tag (if it is not empty) is printed as an escaped string. The
      start tag's position, -1 for none, is returned. */
  method LiteralRound(src: string, t: Tags, parse: bool, i0: nat, fn0: string) returns (i: int, fn: string)
    requires |t.start| > 0 && |t.stop| > 0 && i0 <= |src|
    ensures i == NextStart(src, DialectOf(t), i0)
    ensures fn == fn0 + Chunks(LeadFrom(src, DialectOf(t), i0), SyntaxOf(parse))
  {
    fn := fn0;
    var s := i0;
    i := IndexOf(src, t.start, i0);
    LeadChunk(src, s, i, SyntaxOf(parse));
    if s != i {
      fn := fn + (STAT_START + LiteralEscape.EscapeAsWritten(UpTo(src, s, i), NEWLINE_ESCAPED) + STAT_DONE);
    }
  }

  /** The suffix tests of the directive chunk, for the directive whose suffix position
      is `s` and whose stop tag is at `i` (-1: none): the first suffix that follows the
      start tag picks how the body is wrapped and whether a continuation opens. */
  method WrapDirective(src: string, t: Tags, parse: bool, s: nat, i: int, fn0: string, n0: nat)
    returns (fn: string, n: nat)
    ensures fn == fn0 + Wrap(SuffixKind(src, t, s), UpTo(src, SuffixEnd(src, t, s), i), SyntaxOf(parse))
    ensures n == n0 + (if OpensKind(SuffixKind(src, t, s)) then 1 else 0)
  {
    n := n0;
    var s' := s;
    if Suffixed(src, s, t.safe) {
      s' := s + |t.echo|;
      fn := fn0 + (SAFE_START + UpTo(src, s', i) + SAFE_DONE);
      assert SuffixKind(src, t, s) == Safe && SuffixEnd(src, t, s) == s';
    } else if Suffixed(src, s, t.echo) {
      s' := s + |t.echo|;
      fn := fn0 + (ECHO_START + UpTo(src, s', i) + ECHO_DONE);
      assert SuffixKind(src, t, s) == Echo && SuffixEnd(src, t, s) == s';
    } else if Suffixed(src, s, t.nest) {
      s' := s + |t.nest|;
      n := n + 1;
      fn := fn0 + (NEST_START + UpTo(src, s', i) + NEST_CONT);
      assert SuffixKind(src, t, s) == Nest && SuffixEnd(src, t, s) == s';
    } else if Suffixed(src, s, t.async) {
      s' := s + |t.async|;
      n := n + 1;
      fn := fn0 + (ASYNC_START + UpTo(src, s', i) + ASYNC_CONT);
      assert SuffixKind(src, t, s) == Async && SuffixEnd(src, t, s) == s';
    } else {
      fn := fn0 + (UpTo(src, s', i) + NL);
      assert SuffixKind(src, t, s) == Code && SuffixEnd(src, t, s) == s';
    }
  }

  /** The directive cut at suffix position `s`, in the terms the compiler's loop uses:
      the stop tag is searched from `s`. */
  lemma CutOf(src: string, t: Tags, s: nat, p: int)
    requires |t.start| > 0 && |t.stop| > 0 && s <= |src| && p == IndexOf(src, t.stop, s)
    ensures var c := CutAt(src, DialectOf(t), s);
      c.dir.kind == SuffixKind(src, t, s) && c.dir.body == UpTo(src, SuffixEnd(src, t, s), p) &&
      (c.Closed? <==> p >= 0) && (p >= 0 ==> c.e == AfterNewline(src, p + |t.stop|))
  {
    var d := DialectOf(t);
    assert d.rules == Rules(t) && d.stop == t.stop && StopFrom(src, d, s) == s;
    CutParts(src, d, s, p);
    assert KindAt(src, s, d.rules) == SuffixKind(src, t, s) && BodyStart(src, s, d.rules) == SuffixEnd(src, t, s) by {
      Classify(src, t, s);
    }
  }

  /** The directive chunk of one pass, for the directive whose suffix position (right
      after the start tag) is `s` and whose stop tag is at `p` (-1: none): the body is
      wrapped, and a line ending right after the stop tag is skipped. The position
      scanning resumes at, -1 when there is no stop tag, is returned. */
  method DirectiveRound(src: string, t: Tags, parse: bool, s: nat, p: int, fn0: string, n0: nat)
    returns (i: int, fn: string, n: nat)
    requires p == -1 || (p >= 0 && p + |t.stop| <= |src|)
    ensures p < 0 ==> i == -1
    ensures p >= 0 ==> i == AfterNewline(src, p + |t.stop|)
    ensures fn == fn0 + Wrap(SuffixKind(src, t, s), UpTo(src, SuffixEnd(src, t, s), p), SyntaxOf(parse))
    ensures n == n0 + (if OpensKind(SuffixKind(src, t, s)) then 1 else 0)
  {
    i := p;
    fn, n := WrapDirective(src, t, parse, s, i, fn0, n0);
    if i >= 0 {
      // a line ending right after the stop tag is swallowed
      i := AfterNewline(src, i + |t.stop|);
    }
  }

  /** One pass of the compiler's scanning loop from `i0`, with the code `fn0` generated
      so far and `n0` continuations open: the generic round over the stencil dialect and
      code fragments. */
  method CompileRound(src: string, t: Tags, parse: bool, i0: nat, fn0: string, n0: nat)
    returns (i: int, fn: string, n: nat)
    requires |t.start| > 0 && |t.stop| > 0 && i0 <= |src|
    ensures Pass(i, fn, n) == Round(src, DialectOf(t), SyntaxOf(parse), Pass(i0, fn0, n0))
  {
    n := n0;
    i, fn := LiteralRound(src, t, parse, i0, fn0);
    if i < 0 {
      RoundTail(src, DialectOf(t), SyntaxOf(parse), Pass(i0, fn0, n0));
      return;
    }
    i := i + |t.start|;
    var s := i;
    i := IndexOf(src, t.stop, s);
    RoundCut(src, DialectOf(t), SyntaxOf(parse), Pass(i0, fn0, n0), s);
    CutOf(src, t, s, i);
    i, fn, n := DirectiveRound(src, t, parse, s, i, fn, n);
  }

  /** The compiled template: the program generated from the template's segmentation. */
  method Compile(src: string, t: Tags, parse: bool) returns (fn: string)
    requires |t.start| > 0 && |t.stop| > 0
    ensures fn == Program(Scan(src, DialectOf(t), 0), SyntaxOf(parse))
  {
    var i: int, n: nat := 0, 0;
    fn := if parse then MT else CONTEXT_START;
    OutcomeStart(src, DialectOf(t), SyntaxOf(parse));
    ghost var out := Program(Scan(src, DialectOf(t), 0), SyntaxOf(parse));
    while i >= 0
      invariant i <= |src|
      invariant Outcome(src, DialectOf(t), SyntaxOf(parse), Pass(i, fn, n)) == out
      decreases if i < 0 then 0 else |src| + 1 - i
    {
      i, fn, n := CompileRound(src, t, parse, i, fn, n);
    }
    OutcomeEnd(src, DialectOf(t), SyntaxOf(parse), Pass(i, fn, n));

    // the completion call, then one closer per continuation
    fn := fn + CALL_END;
    ghost var base: string, k: nat := fn, 0;
    ghost var count := n;
    while n > 0
      invariant k + n == count && fn == base + Repeat(ASYNC_DONE, k)
    {
      n := n - 1;
      fn := fn + ASYNC_DONE;
      k := k + 1;
    }
    if !parse {
      fn := fn + CONTEXT_END;
    }
  }
}
