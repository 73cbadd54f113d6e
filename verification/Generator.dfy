/** The code both compilers generate from a segmentation: one chunk per segment, then
    the completion call, then one closer per nest or async directive. A nest or async
    chunk opens a `function(){` continuation that is closed only at the very end, so it
    holds every chunk generated after it; `Nesting` and `Emit` describe that structure and
    `EmitNesting` shows the flat text is exactly it. */
module Generator {
  import opened JsString
  import opened Scanner
  import LiteralEscape

  /** The fixed code fragments a compiler wraps around each kind of segment, the code
      before and after everything, the completion call and the continuation closer, and
      the escaping it applies to literal runs. */
  datatype Syntax = Syntax(
    prefix: string, statStart: string, statDone: string, escaping: LiteralEscape.Escaping,
    safeStart: string, safeDone: string, echoStart: string, echoDone: string,
    nestStart: string, nestCont: string, asyncStart: string, asyncCont: string,
    codeDone: string, finish: string, closer: string, suffix: string)

  /** The kinds of directive that open a continuation. */
  predicate OpensKind(k: Kind)
  {
    k == Nest || k == Async
  }

  /** A directive that opens a continuation. */
  predicate Opens(seg: Segment)
  {
    seg.Directive? && OpensKind(seg.kind)
  }

  /** The code for a directive of kind `k` with body `body`. */
  function Wrap(k: Kind, body: string, syn: Syntax): string
  {
    match k
    case Safe => syn.safeStart + body + syn.safeDone
    case Echo => syn.echoStart + body + syn.echoDone
    case Nest => syn.nestStart + body + syn.nestCont
    case Async => syn.asyncStart + body + syn.asyncCont
    case Code => body + syn.codeDone
  }

  /** The code generated for one segment. A literal run becomes a print of the escaped
      text; a directive's body is wrapped according to its kind. */
  function Chunk(seg: Segment, syn: Syntax): string
  {
    match seg
    case Literal(x) => syn.statStart + LiteralEscape.EscapeBy(syn.escaping, x) + syn.statDone
    case Directive(k, body, _) => Wrap(k, body, syn)
  }

  /** The chunks of a segmentation, in order. */
  function Chunks(segs: seq<Segment>, syn: Syntax): string
  {
    if segs == [] then [] else Chunk(segs[0], syn) + Chunks(segs[1..], syn)
  }

  /** How many continuations a segmentation opens. */
  function Openers(segs: seq<Segment>): nat
  {
    if segs == [] then 0 else (if Opens(segs[0]) then 1 else 0) + Openers(segs[1..])
  }

  /** The whole generated program. */
  function Program(segs: seq<Segment>, syn: Syntax): string
  {
    syn.prefix + Chunks(segs, syn) + syn.finish + Repeat(syn.closer, Openers(segs)) + syn.suffix
  }

  lemma {:induction false} ChunksAppend(a: seq<Segment>, b: seq<Segment>, syn: Syntax)
    ensures Chunks(a + b, syn) == Chunks(a, syn) + Chunks(b, syn)
    decreases |a|
  {
    if a == [] {
      assert a + b == b;
    } else {
      assert (a + b)[1..] == a[1..] + b;
      ChunksAppend(a[1..], b, syn);
    }
  }

  lemma {:induction false} OpenersAppend(a: seq<Segment>, b: seq<Segment>)
    ensures Openers(a + b) == Openers(a) + Openers(b)
    decreases |a|
  {
    if a == [] {
      assert a + b == b;
    } else {
      assert (a + b)[1..] == a[1..] + b;
      OpenersAppend(a[1..], b);
    }
  }

  lemma ChunksOne(seg: Segment, syn: Syntax)
    ensures Chunks([seg], syn) == Chunk(seg, syn)
  {
    assert [seg][1..] == [];
  }

  lemma OpenersOne(seg: Segment)
    ensures Openers([seg]) == if Opens(seg) then 1 else 0
  {
    assert [seg][1..] == [];
  }

  // ---------------------------------------------------------------------------------
  // The continuation structure

  /** What runs from some point of a generated program on: the end (the completion call),
      a chunk followed by the rest, or an opening chunk whose continuation is the rest. */
  datatype Flow = Finish | Then(seg: Segment, next: Flow) | Resume(seg: Segment, cont: Flow)

  /** The continuation structure of a segmentation: every opener takes all that follows
      it as its continuation. */
  function Nesting(segs: seq<Segment>): Flow
  {
    if segs == [] then Finish
    else if Opens(segs[0]) then Resume(segs[0], Nesting(segs[1..]))
    else Then(segs[0], Nesting(segs[1..]))
  }

  /** The code of a flow: a continuation is closed right after its body. */
  function Emit(f: Flow, syn: Syntax): string
  {
    match f
    case Finish => syn.finish
    case Then(seg, next) => Chunk(seg, syn) + Emit(next, syn)
    case Resume(seg, cont) => Chunk(seg, syn) + Emit(cont, syn) + syn.closer
  }

  /** The flow reached after `k` steps, and how many continuations enclose it. */
  function After(f: Flow, k: nat): Flow
  {
    if k == 0 then f
    else match f
      case Finish => Finish
      case Then(_, next) => After(next, k - 1)
      case Resume(_, cont) => After(cont, k - 1)
  }

  function Depth(f: Flow, k: nat): nat
  {
    if k == 0 then 0
    else match f
      case Finish => 0
      case Then(_, next) => Depth(next, k - 1)
      case Resume(_, cont) => 1 + Depth(cont, k - 1)
  }

  /** The flat program text is the nested one: every chunk after an opener sits inside
      that opener's continuation, and the closers at the end close them all. */
  lemma {:induction false} EmitNesting(segs: seq<Segment>, syn: Syntax)
    ensures Emit(Nesting(segs), syn) == Chunks(segs, syn) + syn.finish + Repeat(syn.closer, Openers(segs))
    decreases |segs|
  {
    if segs != [] {
      var rest := segs[1..];
      EmitNesting(rest, syn);
      var c, n := Chunk(segs[0], syn), Openers(rest);
      assert Chunks(segs, syn) == c + Chunks(rest, syn);
      if Opens(segs[0]) {
        assert Emit(Nesting(segs), syn) == c + Emit(Nesting(rest), syn) + syn.closer;
        assert Openers(segs) == n + 1 && Repeat(syn.closer, n + 1) == Repeat(syn.closer, n) + syn.closer;
      } else {
        assert Emit(Nesting(segs), syn) == c + Emit(Nesting(rest), syn);
        assert Openers(segs) == n;
      }
    }
  }

  /** The chunk of segment `k` runs inside exactly as many continuations as there are
      openers before it, and what follows it is the structure of the rest. */
  lemma {:induction false} NestingAt(segs: seq<Segment>, k: nat)
    requires k <= |segs|
    ensures After(Nesting(segs), k) == Nesting(segs[k..])
    ensures Depth(Nesting(segs), k) == Openers(segs[..k])
    decreases k
  {
    if k > 0 {
      NestingAt(segs[1..], k - 1);
      assert segs[1..][k - 1..] == segs[k..];
      assert segs[..k] == [segs[0]] + segs[1..][..k - 1];
      OpenersAppend([segs[0]], segs[1..][..k - 1]);
      OpenersOne(segs[0]);
    }
  }

  /** The whole program, as the nested structure. */
  lemma ProgramNesting(segs: seq<Segment>, syn: Syntax)
    ensures Program(segs, syn) == syn.prefix + Emit(Nesting(segs), syn) + syn.suffix
  {
    EmitNesting(segs, syn);
    RegroupText(syn.prefix, Chunks(segs, syn), syn.finish, Repeat(syn.closer, Openers(segs)), syn.suffix);
  }

  lemma RegroupText(a: string, b: string, c: string, d: string, e: string)
    ensures a + b + c + d + e == a + (b + c + d) + e
  {
  }

  // ---------------------------------------------------------------------------------
  // The program with the intended escaping

  /** The same code fragments, with literal runs escaped as intended. */
  function Intended(syn: Syntax): Syntax
  {
    syn.(escaping := LiteralEscape.Corrected)
  }

  /** A literal run on which an escaping gives what the intended one does: with the
      intended escaping any text, otherwise text without quotes or backslashes, and
      without line breaks unless they are escaped as `\n`. */
  predicate Agrees(e: LiteralEscape.Escaping, x: string)
  {
    e.Corrected? ||
    (LiteralEscape.QUOTE !in x && LiteralEscape.BS !in x &&
     (e.esc == LiteralEscape.NewlineEscape || LF !in x))
  }

  predicate LiteralsAgree(segs: seq<Segment>, e: LiteralEscape.Escaping)
  {
    forall k :: 0 <= k < |segs| && segs[k].Literal? ==> Agrees(e, segs[k].text)
  }

  /** On such literal runs the chunks are those of the intended escaping. */
  lemma {:induction false} ChunksAgree(segs: seq<Segment>, syn: Syntax)
    requires LiteralsAgree(segs, syn.escaping)
    ensures Chunks(segs, syn) == Chunks(segs, Intended(syn))
    decreases |segs|
  {
    if segs != [] {
      assert LiteralsAgree(segs[1..], syn.escaping) by {
        forall k | 0 <= k < |segs[1..]| && segs[1..][k].Literal?
          ensures Agrees(syn.escaping, segs[1..][k].text)
        {
          assert segs[1..][k] == segs[k + 1];
        }
      }
      ChunksAgree(segs[1..], syn);
      if segs[0].Literal? && syn.escaping.AsWritten? {
        assert Agrees(syn.escaping, segs[0].text);
        LiteralEscape.AsWrittenAgrees(segs[0].text, syn.escaping.esc);
      }
    }
  }

  /** A program whose literal runs agree is the intended program. */
  lemma ProgramAgrees(segs: seq<Segment>, syn: Syntax)
    requires LiteralsAgree(segs, syn.escaping)
    ensures Program(segs, syn) == Program(segs, Intended(syn))
  {
    ChunksAgree(segs, syn);
  }

  // ---------------------------------------------------------------------------------
  // One round of a compiler's scanning loop

  /** The code for the literal run before the start tag at `j` (-1: none). */
  lemma LeadChunk(src: string, i: nat, j: int, syn: Syntax)
    requires i <= |src|
    ensures Chunks(LeadAt(src, i, j), syn) ==
      if j == i then [] else syn.statStart + LiteralEscape.EscapeBy(syn.escaping, UpTo(src, i, j)) + syn.statDone
    ensures Openers(LeadAt(src, i, j)) == 0
  {
    if j != i {
      ChunksOne(LeadAt(src, i, j)[0], syn);
    }
  }

  /** When no start tag follows `at`, the literal run completes the segmentation. */
  lemma LastRound(src: string, d: Dialect, syn: Syntax, at: nat, done: seq<Segment>)
    requires ValidDialect(d) && at <= |src| && NextStart(src, d, at) < 0
    requires done + Scan(src, d, at) == Scan(src, d, 0)
    ensures done + LeadFrom(src, d, at) == Scan(src, d, 0)
    ensures Chunks(done + LeadFrom(src, d, at), syn) == Chunks(done, syn) + Chunks(LeadFrom(src, d, at), syn)
    ensures Openers(done + LeadFrom(src, d, at)) == Openers(done)
  {
    ScanTail(src, d, at);
    ChunksAppend(done, LeadFrom(src, d, at), syn);
    OpenersAppend(done, LeadFrom(src, d, at));
    LeadChunk(src, at, NextStart(src, d, at), syn);
  }

  lemma Assoc<T>(a: seq<T>, b: seq<T>, c: seq<T>)
    ensures a + b + c == a + (b + c)
  {
  }

  lemma Regroup<T>(a: seq<T>, b: seq<T>, c: seq<T>, e: seq<T>)
    ensures a + b + c + e == a + (b + (c + e))
  {
  }

  /** One round that reaches a directive: the literal run and the directive are the next
      segments, and scanning goes on where the directive ends (or stops). */
  lemma NextRound(src: string, d: Dialect, at: nat, done: seq<Segment>)
    requires ValidDialect(d) && at <= |src| && NextStart(src, d, at) >= 0
    requires done + Scan(src, d, at) == Scan(src, d, 0)
    ensures CutFrom(src, d, at).Closed? ==>
      done + LeadFrom(src, d, at) + [CutFrom(src, d, at).dir] + Scan(src, d, CutFrom(src, d, at).e) == Scan(src, d, 0)
    ensures CutFrom(src, d, at).Unclosed? ==>
      done + LeadFrom(src, d, at) + [CutFrom(src, d, at).dir] == Scan(src, d, 0)
  {
    if CutFrom(src, d, at).Closed? {
      ScanNext(src, d, at);
      Regroup(done, LeadFrom(src, d, at), [CutFrom(src, d, at).dir], Scan(src, d, CutFrom(src, d, at).e));
    } else {
      ScanOpen(src, d, at);
      Regroup(done, LeadFrom(src, d, at), [CutFrom(src, d, at).dir], []);
    }
  }

  /** The code and the opener count after such a round. */
  lemma NextCode(src: string, d: Dialect, syn: Syntax, at: nat, done: seq<Segment>)
    requires ValidDialect(d) && at <= |src| && NextStart(src, d, at) >= 0
    ensures Chunks(done + LeadFrom(src, d, at) + [CutFrom(src, d, at).dir], syn) ==
      Chunks(done, syn) + Chunks(LeadFrom(src, d, at), syn) + Chunk(CutFrom(src, d, at).dir, syn)
    ensures Openers(done + LeadFrom(src, d, at) + [CutFrom(src, d, at).dir]) ==
      Openers(done) + (if Opens(CutFrom(src, d, at).dir) then 1 else 0)
  {
    LeadChunk(src, at, NextStart(src, d, at), syn);
    ChunksOne(CutFrom(src, d, at).dir, syn);
    OpenersOne(CutFrom(src, d, at).dir);
    ChunksAppend(done, LeadFrom(src, d, at), syn);
    ChunksAppend(done + LeadFrom(src, d, at), [CutFrom(src, d, at).dir], syn);
    OpenersAppend(done, LeadFrom(src, d, at));
    OpenersAppend(done + LeadFrom(src, d, at), [CutFrom(src, d, at).dir]);
  }

  /** The state of a compiler's scanning loop: where scanning resumes (-1: the scan is
      over), the code generated so far and how many continuations are open. */
  datatype Pass = Pass(at: int, code: string, open: nat)

  /** One round of the loop from `p.at`: the code of the literal run before the next
      start tag, then that of the directive it opens; scanning resumes where a closed
      directive ends and stops after an unclosed one or when no start tag is left. */
  function Round(src: string, d: Dialect, syn: Syntax, p: Pass): (q: Pass)
    requires ValidDialect(d) && 0 <= p.at <= |src|
    ensures q.at < 0 || p.at < q.at <= |src|
  {
    var code := p.code + Chunks(LeadFrom(src, d, p.at), syn);
    if NextStart(src, d, p.at) < 0 then Pass(-1, code, p.open)
    else
      var c := CutFrom(src, d, p.at);
      Pass(if c.Closed? then c.e else -1, code + Chunk(c.dir, syn), p.open + (if Opens(c.dir) then 1 else 0))
  }

  /** A round that finds no start tag prints the rest of the text and ends the scan. */
  lemma RoundTail(src: string, d: Dialect, syn: Syntax, p: Pass)
    requires ValidDialect(d) && 0 <= p.at <= |src| && NextStart(src, d, p.at) < 0
    ensures Round(src, d, syn, p) == Pass(-1, p.code + Chunks(LeadFrom(src, d, p.at), syn), p.open)
  {
  }

  /** A round that finds a start tag, with `s` the position right after it. */
  lemma RoundCut(src: string, d: Dialect, syn: Syntax, p: Pass, s: nat)
    requires ValidDialect(d) && 0 <= p.at <= |src| && NextStart(src, d, p.at) >= 0
    requires s == NextStart(src, d, p.at) + |d.start|
    ensures var c := CutAt(src, d, s);
      Round(src, d, syn, p) ==
        Pass(if c.Closed? then c.e else -1,
             p.code + Chunks(LeadFrom(src, d, p.at), syn) + Wrap(c.dir.kind, c.dir.body, syn),
             p.open + (if OpensKind(c.dir.kind) then 1 else 0))
  {
    CutFromAt(src, d, p.at, s);
  }

  /** The program a loop in state `p` ends with: rounds until the scan is over, then
      the completion call and one closer per open continuation. */
  function Outcome(src: string, d: Dialect, syn: Syntax, p: Pass): string
    requires ValidDialect(d) && p.at <= |src|
    decreases if p.at < 0 then 0 else |src| + 1 - p.at
  {
    if p.at < 0 then p.code + syn.finish + Repeat(syn.closer, p.open) + syn.suffix
    else Outcome(src, d, syn, Round(src, d, syn, p))
  }

  /** Running the loop from a state that has generated the code of the segments `done`
      yields the program of the whole segmentation. */
  lemma {:induction false} OutcomeProgram(src: string, d: Dialect, syn: Syntax, at: int, done: seq<Segment>)
    requires ValidDialect(d) && at <= |src|
    requires at >= 0 ==> done + Scan(src, d, at) == Scan(src, d, 0)
    requires at < 0 ==> done == Scan(src, d, 0)
    ensures Outcome(src, d, syn, Pass(at, syn.prefix + Chunks(done, syn), Openers(done))) == Program(Scan(src, d, 0), syn)
    decreases if at < 0 then 0 else |src| + 1 - at
  {
    if at >= 0 {
      var lead := LeadFrom(src, d, at);
      var p := Pass(at, syn.prefix + Chunks(done, syn), Openers(done));
      if NextStart(src, d, at) < 0 {
        LastRound(src, d, syn, at, done);
        Assoc(syn.prefix, Chunks(done, syn), Chunks(lead, syn));
        assert Round(src, d, syn, p) == Pass(-1, syn.prefix + Chunks(done + lead, syn), Openers(done + lead));
        OutcomeProgram(src, d, syn, -1, done + lead);
      } else {
        var c := CutFrom(src, d, at);
        NextRound(src, d, at, done);
        NextCode(src, d, syn, at, done);
        Assoc(syn.prefix, Chunks(done, syn), Chunks(lead, syn));
        Assoc(syn.prefix, Chunks(done, syn) + Chunks(lead, syn), Chunk(c.dir, syn));
        var next := if c.Closed? then c.e else -1;
        assert Round(src, d, syn, p) == Pass(next, syn.prefix + Chunks(done + lead + [c.dir], syn), Openers(done + lead + [c.dir]));
        OutcomeProgram(src, d, syn, next, done + lead + [c.dir]);
      }
    }
  }

  /** Running the loop from the start of the text, with only the prefix generated,
      yields the program of the whole segmentation. */
  lemma OutcomeStart(src: string, d: Dialect, syn: Syntax)
    requires ValidDialect(d)
    ensures Outcome(src, d, syn, Pass(0, syn.prefix, 0)) == Program(Scan(src, d, 0), syn)
  {
    OutcomeProgram(src, d, syn, 0, []);
    assert syn.prefix + Chunks([], syn) == syn.prefix;
  }

  /** The end of the loop: the completion call and the closers finish the program. */
  lemma OutcomeEnd(src: string, d: Dialect, syn: Syntax, p: Pass)
    requires ValidDialect(d) && p.at < 0
    ensures Outcome(src, d, syn, p) == p.code + syn.finish + Repeat(syn.closer, p.open) + syn.suffix
  {
  }

  /** A program is the code of its chunks and the completion call, then the closers. */
  lemma ProgramParts(segs: seq<Segment>, syn: Syntax)
    ensures Program(segs, syn) ==
      (syn.prefix + Chunks(segs, syn) + syn.finish) + Repeat(syn.closer, Openers(segs)) + syn.suffix
  {
  }

  /** Appending `n` closers one at a time. */
  lemma RepeatStep(s: string, k: nat)
    ensures Repeat(s, k) + s == Repeat(s, k + 1)
  {
  }
}
