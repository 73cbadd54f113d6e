/** The segmenter shared by both template compilers (stencil.js `compile` and
    src/Template.js `compile`): it walks the template text with `indexOf`, cutting it into
    literal runs and directives. A directive starts at a start tag, is classified by the
    first suffix rule that matches right after the tag, and ends at the next stop tag
    (or at the end of the text when there is none); one CR and then one LF directly after
    a stop tag are swallowed.

    The two compilers differ only in their suffix rules and in where the stop tag is
    searched from, so both are a `Dialect` of one scanner. */
module Scanner {
  import opened JsString

  datatype Kind = Safe | Echo | Nest | Async | Code

  /** A classified span of template text. A directive keeps its kind, its body (the code
      between the suffix and the stop tag) and `close`, the text consumed after the body:
      the stop tag and any swallowed CR/LF, or nothing when the stop tag is missing. */
  datatype Segment = Literal(text: string) | Directive(kind: Kind, body: string, close: string)

  /** When `tag` follows the start tag, the directive has kind `kind` and its body begins
      `skip` characters after the start tag. */
  datatype Rule = Rule(kind: Kind, tag: string, skip: nat)

  /** Start and stop tags, suffix rules in priority order, and whether the stop tag is
      searched from the end of the start tag (before the suffix is skipped) or from the
      beginning of the body. */
  datatype Dialect = Dialect(start: string, stop: string, rules: seq<Rule>, stopBeforeSuffix: bool)

  /** Both tags non-empty: option merging and the constructor defaults guarantee it, and
      with both empty the scanning loop would never advance. */
  predicate ValidDialect(d: Dialect)
  {
    |d.start| > 0 && |d.stop| > 0
  }

  /** `src.substr(s, tag.length) === tag`, compared character by character (see
      `SuffixedSubstr`). */
  predicate Suffixed(src: string, s: nat, tag: string)
  {
    tag == [] || MatchesAt(src, tag, s)
  }

  /** The character-by-character test is the `substr` comparison. */
  lemma SuffixedSubstr(src: string, s: nat, tag: string)
    ensures Suffixed(src, s, tag) <==> SubstrLen(src, s, |tag|) == tag
  {
    MatchesAtOccurs(src, tag, s);
    if s <= |src| {
      SubstrLenMatches(src, s, tag);
    }
  }

  /** Index of the first rule whose suffix follows position `s`, or `|rules|` for none. */
  function Match(src: string, s: nat, rules: seq<Rule>): (m: nat)
    ensures m <= |rules|
  {
    if rules == [] then 0
    else if Suffixed(src, s, rules[0].tag) then 0
    else 1 + Match(src, s, rules[1..])
  }

  /** The classification is the first rule, in priority order, whose suffix follows `s`;
      plain code when none does. */
  lemma {:induction false} MatchFirst(src: string, s: nat, rules: seq<Rule>)
    ensures var m := Match(src, s, rules);
      (m < |rules| ==> Suffixed(src, s, rules[m].tag)) &&
      (forall j :: 0 <= j < m ==> !Suffixed(src, s, rules[j].tag))
  {
    if rules != [] && !Suffixed(src, s, rules[0].tag) {
      MatchFirst(src, s, rules[1..]);
    }
  }

  /** Kind of the directive whose suffix position is `s`: that of the first matching rule,
      plain code when none matches. */
  function KindAt(src: string, s: nat, rules: seq<Rule>): Kind
  {
    var m := Match(src, s, rules);
    if m < |rules| then rules[m].kind else Code
  }

  /** Where the body begins: after the matched rule's skip, or right at `s`. */
  function BodyStart(src: string, s: nat, rules: seq<Rule>): nat
  {
    var m := Match(src, s, rules);
    if m < |rules| then s + rules[m].skip else s
  }

  /** The forms a swallowed line ending can take after a stop tag. */
  predicate LineEnd(w: string)
  {
    w == [] || w == [CR] || w == [LF] || w == [CR, LF]
  }

  /** Position after skipping one CR and then one LF at `k` (see `AfterNewlineShape`). */
  function AfterNewline(src: string, k: nat): (r: nat)
    requires k <= |src|
    ensures k <= r <= |src|
  {
    var k1 := if CharIs(src, k, CR) then k + 1 else k;
    if CharIs(src, k1, LF) then k1 + 1 else k1
  }

  /** What is skipped is a line ending, and it is the longest one there. */
  lemma AfterNewlineShape(src: string, k: nat)
    requires k <= |src|
    ensures var r := AfterNewline(src, k);
      LineEnd(src[k..r]) &&
      (r == k ==> !CharIs(src, k, CR) && !CharIs(src, k, LF)) &&
      (src[k..r] == [CR] ==> !CharIs(src, r, LF))
  {
  }

  /** Where the stop tag of the directive whose suffix position is `s` is searched from. */
  function StopFrom(src: string, d: Dialect, s: nat): nat
  {
    if d.stopBeforeSuffix then s else BodyStart(src, s, d.rules)
  }

  /** Where the stop tag of the directive whose suffix position is `s` is, -1 for none. */
  function StopAt(src: string, d: Dialect, s: nat): int
    requires ValidDialect(d)
  {
    IndexOf(src, d.stop, StopFrom(src, d, s))
  }

  /** A directive cut from the text: `Unclosed` when no stop tag follows, otherwise
      `Closed` with the stop tag's position `p` and the position `e` scanning resumes at. */
  datatype Cut = Unclosed(dir: Segment) | Closed(dir: Segment, p: nat, e: nat)

  /** The directive whose suffix position (just after the start tag) is `s`. */
  function CutAt(src: string, d: Dialect, s: nat): (c: Cut)
    requires ValidDialect(d) && s <= |src|
    ensures c.dir.Directive? && (c.Closed? ==> s < c.e <= |src|)
  {
    var b := BodyStart(src, s, d.rules);
    var p := StopAt(src, d, s);
    if p < 0 then Unclosed(Directive(KindAt(src, s, d.rules), UpTo(src, b, p), []))
    else
      var e := AfterNewline(src, p + |d.stop|);
      Closed(Directive(KindAt(src, s, d.rules), UpTo(src, b, p), src[p..e]), p, e)
  }

  /** The kind of a cut directive, and what its close consists of. */
  lemma CutShape(src: string, d: Dialect, s: nat)
    requires ValidDialect(d) && s <= |src|
    ensures var c := CutAt(src, d, s);
      c.dir.kind == KindAt(src, s, d.rules) &&
      (c.Unclosed? ==> c.dir.close == []) &&
      (c.Closed? ==> c.p + |d.stop| <= c.e && c.dir.close == src[c.p..c.e] &&
                     c.e == AfterNewline(src, c.p + |d.stop|))
  {
  }

  /** How a compiler's loop computes a directive: its kind, whether the stop tag was
      found, its body and where scanning resumes. */
  lemma CutParts(src: string, d: Dialect, s: nat, p: int)
    requires ValidDialect(d) && s <= |src| && p == StopAt(src, d, s)
    ensures CutAt(src, d, s).dir.kind == KindAt(src, s, d.rules)
    ensures CutAt(src, d, s).dir.body == UpTo(src, BodyStart(src, s, d.rules), p)
    ensures CutAt(src, d, s).Closed? <==> p >= 0
    ensures p >= 0 ==> p + |d.stop| <= |src| && CutAt(src, d, s).e == AfterNewline(src, p + |d.stop|)
  {
  }

  /** The literal run before the start tag found at `j` (-1: none), as at most one segment. */
  function LeadAt(src: string, i: nat, j: int): seq<Segment>
    requires i <= |src|
  {
    if j == i then [] else [Literal(UpTo(src, i, j))]
  }

  /** Where the next start tag at or after `i` is, -1 for none. */
  function NextStart(src: string, d: Dialect, i: nat): int
    requires ValidDialect(d)
  {
    IndexOf(src, d.start, i)
  }

  /** The literal run scanned from `i`. */
  function LeadFrom(src: string, d: Dialect, i: nat): seq<Segment>
    requires ValidDialect(d) && i <= |src|
  {
    LeadAt(src, i, NextStart(src, d, i))
  }

  /** The directive opened by the next start tag after `i`. */
  function CutFrom(src: string, d: Dialect, i: nat): (c: Cut)
    requires ValidDialect(d) && i <= |src| && NextStart(src, d, i) >= 0
    ensures c.dir.Directive? && (c.Closed? ==> i < c.e <= |src|)
  {
    CutAt(src, d, NextStart(src, d, i) + |d.start|)
  }

  /** The directive after `i` is the one cut at the suffix position after its start tag. */
  lemma CutFromAt(src: string, d: Dialect, i: nat, s: nat)
    requires ValidDialect(d) && i <= |src| && NextStart(src, d, i) >= 0
    requires s == NextStart(src, d, i) + |d.start|
    ensures CutFrom(src, d, i) == CutAt(src, d, s)
  {
  }

  /** The segments of `src` from position `i` on: the literal run before the next start
      tag (none when the tag is right at `i`), then the directive that tag opens, and, when
      that directive found its stop tag, the segments from where scanning resumes. */
  function Scan(src: string, d: Dialect, i: nat): seq<Segment>
    requires ValidDialect(d) && i <= |src|
    decreases |src| - i
  {
    if NextStart(src, d, i) < 0 then LeadFrom(src, d, i)
    else
      var c := CutFrom(src, d, i);
      var rest := if c.Unclosed? then [] else Scan(src, d, c.e);
      LeadFrom(src, d, i) + ([c.dir] + rest)
  }

  /** Scanning from the end of the text, as after empty input or a template ending
      right at a stop tag, yields one empty literal run. */
  lemma ScanAtEnd(src: string, d: Dialect)
    requires ValidDialect(d)
    ensures Scan(src, d, |src|) == [Literal([])]
  {
    assert NextStart(src, d, |src|) == -1;
    assert UpTo(src, |src|, -1) == [];
  }

  /** One level of `Scan`, case by case. */
  lemma ScanTail(src: string, d: Dialect, i: nat)
    requires ValidDialect(d) && i <= |src| && NextStart(src, d, i) < 0
    ensures Scan(src, d, i) == LeadFrom(src, d, i)
  {
  }

  lemma ScanOpen(src: string, d: Dialect, i: nat)
    requires ValidDialect(d) && i <= |src| && NextStart(src, d, i) >= 0 && CutFrom(src, d, i).Unclosed?
    ensures Scan(src, d, i) == LeadFrom(src, d, i) + ([CutFrom(src, d, i).dir] + [])
  {
  }

  lemma ScanNext(src: string, d: Dialect, i: nat)
    requires ValidDialect(d) && i <= |src| && NextStart(src, d, i) >= 0 && CutFrom(src, d, i).Closed?
    ensures Scan(src, d, i) == LeadFrom(src, d, i) + ([CutFrom(src, d, i).dir] + Scan(src, d, CutFrom(src, d, i).e))
  {
  }

  // ---------------------------------------------------------------------------------
  // Shape of a segmentation

  /** What follows the swallowed line ending `w` cannot have been swallowed too. */
  predicate Maximal(w: string, next: string)
  {
    (w == [] ==> next == [] || (next[0] != CR && next[0] != LF)) &&
    (w == [CR] ==> next == [] || next[0] != LF)
  }

  /** How two neighbouring segments relate: a literal run is non-empty and followed by a
      directive; a directive followed by anything has found its stop tag, and a literal
      run after it does not begin with a CR or LF that could have been swallowed. */
  predicate Follows(a: Segment, b: Segment, stop: string)
  {
    (a.Literal? ==> a.text != [] && b.Directive?) &&
    (a.Directive? ==> a.close != [] && (b.Literal? ==> |stop| <= |a.close| && Maximal(a.close[|stop|..], b.text)))
  }

  /** Every pair of neighbouring segments is related by `Follows`. */
  predicate Alternates(segs: seq<Segment>, stop: string)
  {
    |segs| < 2 || (Follows(segs[0], segs[1], stop) && Alternates(segs[1..], stop))
  }

  /** The last segment is a literal run (possibly empty) or an unterminated directive. */
  predicate EndsWell(segs: seq<Segment>)
  {
    |segs| > 0 && (segs[|segs| - 1].Literal? || segs[|segs| - 1].close == [])
  }

  /** No literal run contains the start tag. */
  ghost predicate LiteralsFree(segs: seq<Segment>, start: string)
  {
    forall k :: 0 <= k < |segs| && segs[k].Literal? ==> !Contains(segs[k].text, start)
  }

  /** No directive body contains the stop tag. */
  ghost predicate BodiesFree(segs: seq<Segment>, stop: string)
  {
    forall k :: 0 <= k < |segs| && segs[k].Directive? ==> !Contains(segs[k].body, stop)
  }

  /** A directive's closing text is the stop tag followed by a swallowed line ending. */
  predicate ClosedBy(close: string, stop: string)
  {
    |stop| <= |close| && close[..|stop|] == stop && LineEnd(close[|stop|..])
  }

  /** Terminated directives end in the stop tag and a line ending. */
  predicate Closes(segs: seq<Segment>, stop: string)
  {
    forall k :: 0 <= k < |segs| && segs[k].Directive? && segs[k].close != [] ==> ClosedBy(segs[k].close, stop)
  }

  /** Kinds produced by a rule list, besides plain code. */
  function Kinds(rules: seq<Rule>): set<Kind>
  {
    set r | r in rules :: r.kind
  }

  /** Directive kinds are plain code or the kind of one of the rules. */
  predicate KindsFrom(segs: seq<Segment>, rules: seq<Rule>)
  {
    forall k :: 0 <= k < |segs| && segs[k].Directive? ==> segs[k].kind in Kinds(rules) + {Code}
  }

  /** Every property of a segmentation that holds in any dialect. */
  ghost predicate WellFormed(segs: seq<Segment>, d: Dialect)
  {
    Alternates(segs, d.stop) && EndsWell(segs) && LiteralsFree(segs, d.start) && Closes(segs, d.stop) &&
    KindsFrom(segs, d.rules)
  }

  /** The literal run scanned from `i` is the text up to the next start tag (all of the
      rest when there is none), is free of the tag, and is absent when the tag is at `i`. */
  lemma LeadShape(src: string, d: Dialect, i: nat)
    requires ValidDialect(d) && i <= |src|
    ensures NextStart(src, d, i) < 0 ==>
      LeadFrom(src, d, i) == [Literal(src[i..])] && !Contains(src[i..], d.start)
    ensures NextStart(src, d, i) >= 0 ==>
      (NextStart(src, d, i) == i && LeadFrom(src, d, i) == []) ||
      (i < NextStart(src, d, i) && LeadFrom(src, d, i) == [Literal(src[i..NextStart(src, d, i)])] &&
       !Contains(src[i..NextStart(src, d, i)], d.start))
  {
    var j := IndexOf(src, d.start, i);
    IndexOfFirst(src, d.start, i);
    if j < 0 {
      SliceAvoids(src, d.start, i, |src|);
      assert src[i..|src|] == src[i..];
    } else {
      SliceAvoids(src, d.start, i, j);
    }
  }

  /** A directive's kind is plain code or the kind of one of the rules. */
  lemma CutKind(src: string, d: Dialect, s: nat)
    requires ValidDialect(d) && s <= |src|
    ensures CutAt(src, d, s).dir.kind in Kinds(d.rules) + {Code}
  {
    var m := Match(src, s, d.rules);
    CutShape(src, d, s);
    assert m < |d.rules| ==> d.rules[m] in d.rules;
  }

  /** A terminated directive's stop tag is really there. */
  lemma CutStop(src: string, d: Dialect, s: nat)
    requires ValidDialect(d) && s <= |src|
    ensures var c := CutAt(src, d, s);
      c.Closed? ==> c.p + |d.stop| <= |src| && src[c.p..c.p + |d.stop|] == d.stop
  {
    IndexOfFound(src, d.stop, StopFrom(src, d, s));
  }

  /** A terminated directive closes with the stop tag and a maximal swallowed line ending. */
  lemma CutClose(src: string, d: Dialect, s: nat)
    requires ValidDialect(d) && s <= |src|
    ensures var c := CutAt(src, d, s);
      c.Closed? ==> ClosedBy(c.dir.close, d.stop) && Maximal(c.dir.close[|d.stop|..], src[c.e..])
  {
    var c := CutAt(src, d, s);
    if c.Closed? {
      CutStop(src, d, s);
      CutShape(src, d, s);
      var k := c.p + |d.stop|;
      AfterNewlineShape(src, k);
      assert c.dir.close[..|d.stop|] == src[c.p..k];
      assert c.dir.close[|d.stop|..] == src[k..c.e];
    }
  }

  /** An unterminated directive on its own has the shape. */
  lemma LoneDirective(dir: Segment, d: Dialect)
    requires dir.Directive? && dir.kind in Kinds(d.rules) + {Code} && dir.close == []
    ensures WellFormed([dir] + [], d)
  {
    assert [dir] + [] == [dir];
  }

  /** A terminated directive put before the segments that follow it keeps the shape. */
  lemma PrependDirective(dir: Segment, rest: seq<Segment>, d: Dialect)
    requires |d.stop| > 0 && dir.Directive? && dir.kind in Kinds(d.rules) + {Code}
    requires ClosedBy(dir.close, d.stop) && rest != [] && WellFormed(rest, d)
    requires rest[0].Literal? ==> Maximal(dir.close[|d.stop|..], rest[0].text)
    ensures WellFormed([dir] + rest, d)
  {
    var segs := [dir] + rest;
    assert segs[1..] == rest;
    forall k | 0 < k < |segs|
      ensures segs[k] == rest[k - 1]
    {
    }
  }

  /** A non-empty literal run free of the start tag, put before a directive, keeps the shape. */
  lemma PrependLiteral(x: string, segs: seq<Segment>, d: Dialect)
    requires x != [] && !Contains(x, d.start) && WellFormed(segs, d) && segs[0].Directive?
    ensures WellFormed([Literal(x)] + segs, d)
  {
    var all := [Literal(x)] + segs;
    forall k | 0 < k < |all|
      ensures all[k] == segs[k - 1]
    {
    }
  }

  /** The literal run scanned from `i`, put before segments that begin with a directive,
      keeps the shape. */
  lemma PrependLead(src: string, d: Dialect, i: nat, segs: seq<Segment>)
    requires ValidDialect(d) && i <= |src| && NextStart(src, d, i) >= 0
    requires WellFormed(segs, d) && segs[0].Directive?
    ensures WellFormed(LeadFrom(src, d, i) + segs, d)
  {
    LeadShape(src, d, i);
    if LeadFrom(src, d, i) == [] {
      assert LeadFrom(src, d, i) + segs == segs;
    } else {
      PrependLiteral(src[i..NextStart(src, d, i)], segs, d);
    }
  }

  /** The first segment of a scan, when a literal run, is taken from the text at `i`. */
  lemma ScanHead(src: string, d: Dialect, i: nat)
    requires ValidDialect(d) && i <= |src|
    ensures var segs := Scan(src, d, i);
      |segs| > 0 && (segs[0].Literal? ==> i + |segs[0].text| <= |src| && segs[0].text == src[i..i + |segs[0].text|])
  {
    LeadShape(src, d, i);
  }

  /** A line ending that cannot be extended by `src[e..]` cannot be by a run taken from there. */
  lemma MaximalPrefix(w: string, src: string, e: nat, t: string)
    requires e + |t| <= |src| && t == src[e..e + |t|] && Maximal(w, src[e..])
    ensures Maximal(w, t)
  {
    if t != [] {
      assert t[0] == src[e] == src[e..][0];
    }
  }

  /** The directive opened after `i` is plain code or of a rule's kind. */
  lemma FromKind(src: string, d: Dialect, i: nat)
    requires ValidDialect(d) && i <= |src| && NextStart(src, d, i) >= 0
    ensures CutFrom(src, d, i).dir.kind in Kinds(d.rules) + {Code}
  {
    CutKind(src, d, NextStart(src, d, i) + |d.start|);
  }

  /** The directive opened after `i`, when unterminated, closes with nothing. */
  lemma FromOpen(src: string, d: Dialect, i: nat)
    requires ValidDialect(d) && i <= |src| && NextStart(src, d, i) >= 0
    ensures CutFrom(src, d, i).Unclosed? ==> CutFrom(src, d, i).dir.close == []
  {
    CutShape(src, d, NextStart(src, d, i) + |d.start|);
  }

  /** The directive opened after `i`, when terminated, closes properly. */
  lemma FromClose(src: string, d: Dialect, i: nat)
    requires ValidDialect(d) && i <= |src| && NextStart(src, d, i) >= 0
    ensures CutFrom(src, d, i).Closed? ==>
      (ClosedBy(CutFrom(src, d, i).dir.close, d.stop) &&
       Maximal(CutFrom(src, d, i).dir.close[|d.stop|..], src[CutFrom(src, d, i).e..]))
  {
    CutClose(src, d, NextStart(src, d, i) + |d.start|);
  }

  /** The segments scanned after a terminated directive fit after it. */
  lemma AfterClosed(src: string, d: Dialect, i: nat)
    requires ValidDialect(d) && i <= |src| && NextStart(src, d, i) >= 0 && CutFrom(src, d, i).Closed?
    ensures Scan(src, d, CutFrom(src, d, i).e) != []
    ensures Scan(src, d, CutFrom(src, d, i).e)[0].Literal? ==>
      |d.stop| <= |CutFrom(src, d, i).dir.close| &&
      Maximal(CutFrom(src, d, i).dir.close[|d.stop|..], Scan(src, d, CutFrom(src, d, i).e)[0].text)
  {
    FromClose(src, d, i);
    ScanHead(src, d, CutFrom(src, d, i).e);
    if Scan(src, d, CutFrom(src, d, i).e)[0].Literal? {
      MaximalPrefix(CutFrom(src, d, i).dir.close[|d.stop|..], src, CutFrom(src, d, i).e,
                    Scan(src, d, CutFrom(src, d, i).e)[0].text);
    }
  }

  /** Every segmentation the scanner produces has this shape, for any dialect. */
  lemma {:induction false} ScanShape(src: string, d: Dialect, i: nat)
    requires ValidDialect(d) && i <= |src|
    ensures WellFormed(Scan(src, d, i), d)
    decreases |src| - i
  {
    LeadShape(src, d, i);
    if NextStart(src, d, i) < 0 {
      ScanTail(src, d, i);
    } else {
      FromKind(src, d, i);
      if CutFrom(src, d, i).Unclosed? {
        FromOpen(src, d, i);
        ScanOpen(src, d, i);
        LoneDirective(CutFrom(src, d, i).dir, d);
        PrependLead(src, d, i, [CutFrom(src, d, i).dir] + []);
      } else {
        ScanNext(src, d, i);
        ScanShape(src, d, CutFrom(src, d, i).e);
        FromClose(src, d, i);
        AfterClosed(src, d, i);
        PrependDirective(CutFrom(src, d, i).dir, Scan(src, d, CutFrom(src, d, i).e), d);
        PrependLead(src, d, i, [CutFrom(src, d, i).dir] + Scan(src, d, CutFrom(src, d, i).e));
      }
    }
  }

  // ---------------------------------------------------------------------------------
  // Gaplessness

  /** The suffix text of the first rule of kind `k`, none for plain code. */
  function SuffixOf(k: Kind, rules: seq<Rule>): string
  {
    if rules == [] then [] else if rules[0].kind == k then rules[0].tag else SuffixOf(k, rules[1..])
  }

  /** The template text a segment was cut from. */
  function Text(seg: Segment, d: Dialect): string
  {
    match seg
    case Literal(x) => x
    case Directive(k, body, close) => d.start + SuffixOf(k, d.rules) + body + close
  }

  /** The template text a segmentation was cut from. */
  function Source(segs: seq<Segment>, d: Dialect): string
  {
    if segs == [] then [] else Text(segs[0], d) + Source(segs[1..], d)
  }

  /** A lone directive's text, grouped as start tag then the rest. */
  lemma DirectiveSource(dir: Segment, d: Dialect)
    requires dir.Directive?
    ensures Source([dir], d) == d.start + (SuffixOf(dir.kind, d.rules) + dir.body + dir.close)
  {
    assert [dir][1..] == [];
  }

  /** A dialect in which every suffix is skipped exactly and suffixes have distinct kinds
      other than plain code; when the stop tag is searched from before the suffix, no
      suffix may contain the stop tag's first character either (so a stop tag can never
      begin inside a suffix). The default tags of both compilers are regular. */
  predicate Regular(d: Dialect)
  {
    ValidDialect(d) &&
    (forall j :: 0 <= j < |d.rules| ==>
       d.rules[j].kind != Code && d.rules[j].skip == |d.rules[j].tag| &&
       (d.stopBeforeSuffix ==> d.stop[0] !in d.rules[j].tag)) &&
    (forall j, k :: 0 <= j < k < |d.rules| ==> d.rules[j].kind != d.rules[k].kind)
  }

  lemma {:induction false} SuffixOfMatch(rules: seq<Rule>, m: nat)
    requires m < |rules|
    requires forall j, k :: 0 <= j < k < |rules| ==> rules[j].kind != rules[k].kind
    ensures SuffixOf(rules[m].kind, rules) == rules[m].tag
  {
    if m > 0 {
      SuffixOfMatch(rules[1..], m - 1);
    }
  }

  lemma SuffixOfCode(rules: seq<Rule>)
    requires forall j :: 0 <= j < |rules| ==> rules[j].kind != Code
    ensures SuffixOf(Code, rules) == []
  {
  }

  lemma {:induction false} SourceAppend(a: seq<Segment>, b: seq<Segment>, d: Dialect)
    ensures Source(a + b, d) == Source(a, d) + Source(b, d)
    decreases |a|
  {
    if a == [] {
      assert a + b == b;
    } else {
      assert (a + b)[1..] == a[1..] + b;
      SourceAppend(a[1..], b, d);
    }
  }

  /** In a regular dialect the text skipped after the start tag is the suffix the rule
      names, and, when the stop tag is searched from before the suffix, no stop tag
      begins inside it. */
  lemma SuffixParts(src: string, d: Dialect, s: nat)
    requires Regular(d) && s <= |src|
    ensures var b := BodyStart(src, s, d.rules);
      s <= b <= |src| &&
      src[s..b] == SuffixOf(KindAt(src, s, d.rules), d.rules) &&
      (d.stopBeforeSuffix ==> forall k: nat :: s <= k < b ==> !OccursAt(src, d.stop, k))
  {
    var m := Match(src, s, d.rules);
    var b := BodyStart(src, s, d.rules);
    MatchFirst(src, s, d.rules);
    if m < |d.rules| {
      var tag := d.rules[m].tag;
      MatchesAtOccurs(src, tag, s);
      SuffixOfMatch(d.rules, m);
      assert src[s..b] == tag;
      forall k: nat | d.stopBeforeSuffix && s <= k < b
        ensures !OccursAt(src, d.stop, k)
      {
        assert d.stop[0] !in tag;
        assert src[k] == tag[k - s];
        assert k + |d.stop| <= |src| ==> src[k..k + |d.stop|][0] == src[k];
      }
    } else {
      SuffixOfCode(d.rules);
    }
  }

  /** In a regular dialect a directive's body begins at or before its stop tag, so the
      `substring` ends are never swapped, and the body holds no stop tag. */
  lemma DirectiveParts(src: string, d: Dialect, s: nat)
    requires Regular(d) && s <= |src|
    ensures var b := BodyStart(src, s, d.rules);
      var p := StopAt(src, d, s);
      s <= b <= |src| &&
      src[s..b] == SuffixOf(KindAt(src, s, d.rules), d.rules) &&
      (p >= 0 ==> b <= p) &&
      forall k: nat :: b <= k && (p < 0 || k < p) ==> !OccursAt(src, d.stop, k)
  {
    SuffixParts(src, d, s);
    IndexOfFirst(src, d.stop, StopFrom(src, d, s));
    if StopAt(src, d, s) >= 0 {
      IndexOfFound(src, d.stop, StopFrom(src, d, s));
      assert OccursAt(src, d.stop, StopAt(src, d, s));
    }
  }

  /** In a regular dialect the suffix, body and close of a directive are the text that
      follows its start tag, up to where scanning resumes. */
  lemma CutText(src: string, d: Dialect, s: nat)
    requires Regular(d) && s <= |src|
    ensures var c := CutAt(src, d, s);
      var t := SuffixOf(c.dir.kind, d.rules) + c.dir.body + c.dir.close;
      (c.Unclosed? ==> t == src[s..|src|]) && (c.Closed? ==> t == src[s..c.e])
  {
    DirectiveParts(src, d, s);
    CutShape(src, d, s);
    if StopAt(src, d, s) < 0 {
      assert CutAt(src, d, s).dir.body == src[BodyStart(src, s, d.rules)..|src|];
      SliceSplit(src, s, BodyStart(src, s, d.rules), |src|);
    } else {
      SubstringSlice(src, BodyStart(src, s, d.rules), StopAt(src, d, s));
      SliceSplit(src, s, BodyStart(src, s, d.rules), CutAt(src, d, s).e);
      SliceSplit(src, BodyStart(src, s, d.rules), StopAt(src, d, s), CutAt(src, d, s).e);
    }
  }

  /** A directive whose suffix, body and close are the text after a start tag at `j`
      is, put back together, the text from `j` on. */
  lemma DirectiveAt(src: string, d: Dialect, j: nat, end: nat, dir: Segment)
    requires OccursAt(src, d.start, j) && j + |d.start| <= end <= |src| && dir.Directive?
    requires SuffixOf(dir.kind, d.rules) + dir.body + dir.close == src[j + |d.start|..end]
    ensures Source([dir], d) == src[j..end]
  {
    DirectiveSource(dir, d);
    SliceSplit(src, j, j + |d.start|, end);
    assert src[j..j + |d.start|] == d.start;
  }

  /** Text pieces that follow one another glue into the text from `i` on. */
  lemma GlueSource(src: string, d: Dialect, i: nat, j: nat, end: nat, lit: seq<Segment>, dir: Segment, rest: seq<Segment>)
    requires i <= j <= end <= |src|
    requires Source(lit, d) == src[i..j] && Source([dir], d) == src[j..end] && Source(rest, d) == src[end..]
    ensures Source(lit + ([dir] + rest), d) == src[i..]
  {
    SourceAppend([dir], rest, d);
    SourceAppend(lit, [dir] + rest, d);
    SuffixSplit(src, j, end);
    SuffixSplit(src, i, j);
  }

  /** The literal run, put back together, is the text up to the next start tag. */
  lemma LeadSource(src: string, d: Dialect, i: nat)
    requires ValidDialect(d) && i <= |src|
    ensures NextStart(src, d, i) < 0 ==> Source(LeadFrom(src, d, i), d) == src[i..]
    ensures NextStart(src, d, i) >= 0 ==> Source(LeadFrom(src, d, i), d) == src[i..NextStart(src, d, i)]
  {
    LeadShape(src, d, i);
  }

  /** The directive opened after `i`, put back together, is the text from its start
      tag to where scanning resumes (the end of the text when it is unterminated). */
  lemma CutFromSource(src: string, d: Dialect, i: nat)
    requires Regular(d) && i <= |src| && NextStart(src, d, i) >= 0
    ensures var c := CutFrom(src, d, i);
      Source([c.dir], d) == src[NextStart(src, d, i)..if c.Closed? then c.e else |src|]
  {
    var j := NextStart(src, d, i);
    var s := j + |d.start|;
    var c := CutFrom(src, d, i);
    CutFromAt(src, d, i, s);
    assert OccursAt(src, d.start, j) && s <= |src| by {
      IndexOfFound(src, d.start, i);
    }
    var end := if c.Closed? then c.e else |src|;
    assert SuffixOf(c.dir.kind, d.rules) + c.dir.body + c.dir.close == src[s..end] by {
      CutText(src, d, s);
    }
    DirectiveAt(src, d, j, end, c.dir);
  }

  /** A round that ends in a directive without stop tag: the literal run and that
      directive are the rest of the text. */
  lemma OpenSource(src: string, d: Dialect, i: nat)
    requires Regular(d) && i <= |src| && NextStart(src, d, i) >= 0 && CutFrom(src, d, i).Unclosed?
    ensures Source(Scan(src, d, i), d) == src[i..]
  {
    var j := NextStart(src, d, i);
    var c := CutFrom(src, d, i);
    CutFromSource(src, d, i);
    LeadSource(src, d, i);
    ScanOpen(src, d, i);
    GlueSource(src, d, i, j, |src|, LeadFrom(src, d, i), c.dir, []);
  }

  /** A round that ends in a closed directive: the literal run and the directive glue
      onto the text where scanning resumes. */
  lemma NextSource(src: string, d: Dialect, i: nat)
    requires Regular(d) && i <= |src| && NextStart(src, d, i) >= 0 && CutFrom(src, d, i).Closed?
    requires Source(Scan(src, d, CutFrom(src, d, i).e), d) == src[CutFrom(src, d, i).e..]
    ensures Source(Scan(src, d, i), d) == src[i..]
  {
    var j := NextStart(src, d, i);
    var c := CutFrom(src, d, i);
    CutFromSource(src, d, i);
    LeadSource(src, d, i);
    ScanNext(src, d, i);
    GlueSource(src, d, i, j, c.e, LeadFrom(src, d, i), c.dir, Scan(src, d, c.e));
  }

  /** The segments put back together are exactly the scanned text. */
  lemma {:induction false} ScanGapless(src: string, d: Dialect, i: nat)
    requires Regular(d) && i <= |src|
    ensures Source(Scan(src, d, i), d) == src[i..]
    decreases |src| - i
  {
    if NextStart(src, d, i) < 0 {
      LeadSource(src, d, i);
      ScanTail(src, d, i);
    } else if CutFrom(src, d, i).Unclosed? {
      OpenSource(src, d, i);
    } else {
      ScanGapless(src, d, CutFrom(src, d, i).e);
      NextSource(src, d, i);
    }
  }

  /** In a regular dialect a directive body does not contain the stop tag. */
  lemma CutBody(src: string, d: Dialect, s: nat)
    requires Regular(d) && s <= |src|
    ensures !Contains(CutAt(src, d, s).dir.body, d.stop)
  {
    DirectiveParts(src, d, s);
    if StopAt(src, d, s) < 0 {
      SliceAvoids(src, d.stop, BodyStart(src, s, d.rules), |src|);
      assert src[BodyStart(src, s, d.rules)..|src|] == src[BodyStart(src, s, d.rules)..];
    } else {
      SliceAvoids(src, d.stop, BodyStart(src, s, d.rules), StopAt(src, d, s));
    }
  }

  lemma BodiesFreeAppend(a: seq<Segment>, b: seq<Segment>, stop: string)
    requires BodiesFree(a, stop) && BodiesFree(b, stop)
    ensures BodiesFree(a + b, stop)
  {
    forall k | |a| <= k < |a + b|
      ensures (a + b)[k] == b[k - |a|]
    {
    }
  }

  /** In a regular dialect no directive body contains the stop tag. */
  lemma {:induction false} ScanBodies(src: string, d: Dialect, i: nat)
    requires Regular(d) && i <= |src|
    ensures BodiesFree(Scan(src, d, i), d.stop)
    decreases |src| - i
  {
    LeadShape(src, d, i);
    if NextStart(src, d, i) < 0 {
      ScanTail(src, d, i);
    } else {
      CutBody(src, d, NextStart(src, d, i) + |d.start|);
      if CutFrom(src, d, i).Unclosed? {
        ScanOpen(src, d, i);
        BodiesFreeAppend([CutFrom(src, d, i).dir], [], d.stop);
        BodiesFreeAppend(LeadFrom(src, d, i), [CutFrom(src, d, i).dir] + [], d.stop);
      } else {
        ScanNext(src, d, i);
        ScanBodies(src, d, CutFrom(src, d, i).e);
        BodiesFreeAppend([CutFrom(src, d, i).dir], Scan(src, d, CutFrom(src, d, i).e), d.stop);
        BodiesFreeAppend(LeadFrom(src, d, i), [CutFrom(src, d, i).dir] + Scan(src, d, CutFrom(src, d, i).e), d.stop);
      }
    }
  }
}
