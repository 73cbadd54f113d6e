/** How both compilers turn a literal run of template text into the body of a
    single-quoted JavaScript string literal in the generated code: a quote pass
    (`QUOTE_RE`, stencil.js:22 and src/Template.js:23) followed by a line-break pass
    (`NEWLINE_RE`). `Decode` gives the value JavaScript reads back from such a literal
    body, so that the escaping can be checked against it. */
module LiteralEscape {
  import opened Values
  import opened JsString

  const BS: char := '\\'
  const QUOTE: char := '\''

  /** The quote pass as written, `replace(/([^\\])?'/g, "$1\\'")`. At each position the
      regular expression first tries a non-backslash character followed by a quote, then a
      quote alone; either match is replaced by the captured character (if any), a
      backslash and the quote, and matching resumes after the match. */
  function QuotesAsWritten(s: string): string
    decreases |s|
  {
    if s == [] then []
    else if |s| >= 2 && s[0] != BS && s[1] == QUOTE then [s[0], BS, QUOTE] + QuotesAsWritten(s[2..])
    else if s[0] == QUOTE then [BS, QUOTE] + QuotesAsWritten(s[1..])
    else [s[0]] + QuotesAsWritten(s[1..])
  }

  /** The quote pass as intended: every quote and every backslash of the text gets a
      backslash in front, so that neither can end or alter the generated literal. */
  function Quotes(s: string): string
    decreases |s|
  {
    if s == [] then []
    else if s[0] == BS || s[0] == QUOTE then [BS, s[0]] + Quotes(s[1..])
    else [s[0]] + Quotes(s[1..])
  }

  /** The line-break pass, `replace(/(\r?\n)/g, esc)`: every LF, together with a CR
      directly before it, becomes `esc`; a CR not followed by LF is kept. */
  function Newlines(s: string, esc: string): string
    decreases |s|
  {
    if s == [] then []
    else if |s| >= 2 && s[0] == CR && s[1] == LF then esc + Newlines(s[2..], esc)
    else if s[0] == LF then esc + Newlines(s[1..], esc)
    else [s[0]] + Newlines(s[1..], esc)
  }

  /** stencil.js:23: a line break becomes the two characters `\n`. */
  const NewlineEscape: string := [BS, 'n']

  /** src/Template.js:24: a line break becomes a backslash followed by a raw LF. */
  const ContinuationEscape: string := [BS, LF]

  /** Both passes, with the quote pass as written. */
  function EscapeAsWritten(s: string, esc: string): string
  {
    Newlines(QuotesAsWritten(s), esc)
  }

  /** Both passes as intended, with line breaks escaped as in stencil.js:23. */
  function Escape(s: string): string
  {
    Newlines(Quotes(s), NewlineEscape)
  }

  /** Which escaping a code generator applies to literal runs: one of the sources' as
      written, with its line-break replacement, or the intended one. */
  datatype Escaping = AsWritten(esc: string) | Corrected

  function EscapeBy(e: Escaping, s: string): string
  {
    match e
    case AsWritten(esc) => EscapeAsWritten(s, esc)
    case Corrected => Escape(s)
  }

  function Prepend(c: char, o: Option<string>): Option<string>
  {
    if o.Some? then Some([c] + o.value) else None
  }

  /** The value of a single-quoted JavaScript string literal whose body is `t`, or `None`
      when `t` is not such a body: an unescaped quote ends the literal early, and a raw
      CR or LF is not allowed inside it. A backslash before a line break is a line
      continuation and stands for nothing; `\n`, `\r` and `\t` stand for LF, CR and TAB;
      any other escaped character is read as itself. That is JavaScript's reading of `\\`
      and `\'`, the escapes the intended passes produce, but not of `\b`, `\f`, `\v`, `\0`,
      `\x`, `\u` and the legacy octal escapes `\1` to `\7`; no lemma here reads back
      text holding one of those. */
  function Decode(t: string): Option<string>
    decreases |t|
  {
    if t == [] then Some([])
    else if t[0] == QUOTE || t[0] == CR || t[0] == LF then None
    else if t[0] != BS then Prepend(t[0], Decode(t[1..]))
    else if |t| == 1 then None
    else if t[1] == LF then Decode(t[2..])
    else if t[1] == CR then (if |t| >= 3 && t[2] == LF then Decode(t[3..]) else Decode(t[2..]))
    else if t[1] == 'n' then Prepend(LF, Decode(t[2..]))
    else if t[1] == 'r' then Prepend(CR, Decode(t[2..]))
    else if t[1] == 't' then Prepend('\t', Decode(t[2..]))
    else Prepend(t[1], Decode(t[2..]))
  }

  /** `s` with every CR LF pair read as a single LF. */
  function Unix(s: string): string
    decreases |s|
  {
    if s == [] then []
    else if |s| >= 2 && s[0] == CR && s[1] == LF then [LF] + Unix(s[2..])
    else [s[0]] + Unix(s[1..])
  }

  /** Text in which every CR starts a CR LF pair. */
  predicate Plain(s: string)
    decreases |s|
  {
    s == [] || ((s[0] == CR ==> |s| >= 2 && s[1] == LF) && Plain(s[1..]))
  }

  lemma NewlinesKeep(c: char, r: string, esc: string)
    requires c != CR && c != LF
    ensures Newlines([c] + r, esc) == [c] + Newlines(r, esc)
  {
    assert ([c] + r)[1..] == r;
  }

  lemma DecodeKeep(c: char, t: string)
    requires c != QUOTE && c != CR && c != LF && c != BS
    ensures Decode([c] + t) == Prepend(c, Decode(t))
  {
    assert ([c] + t)[1..] == t;
  }

  lemma DecodeEscaped(c: char, t: string)
    requires c != LF && c != CR && c != 'r' && c != 't'
    ensures Decode([BS, c] + t) == Prepend(if c == 'n' then LF else c, Decode(t))
  {
    assert ([BS, c] + t)[2..] == t;
  }

    /** One step of `Escape` on text that starts with a quote or a backslash. */
  lemma EscapePair(s: string)
    requires s != [] && (s[0] == QUOTE || s[0] == BS)
    ensures Escape(s) == [BS, s[0]] + Escape(s[1..])
  {
    var c := s[0];
    var q := Quotes(s[1..]);
    assert Quotes(s) == [BS] + ([c] + q) by {
      assert Quotes(s) == [BS, c] + q;
    }
    var n := Newlines(q, NewlineEscape);
    NewlinesKeep(c, q, NewlineEscape);
    NewlinesKeep(BS, [c] + q, NewlineEscape);
    assert [BS] + ([c] + n) == [BS, c] + n;
  }

  /** One step of `Escape` on text that starts with a CR LF pair. */
  lemma EscapeCrLf(s: string)
    requires |s| >= 2 && s[0] == CR && s[1] == LF
    ensures Escape(s) == NewlineEscape + Escape(s[2..])
  {
    assert Quotes(s[1..]) == [LF] + Quotes(s[2..]) by { assert s[1..][1..] == s[2..]; }
    assert Quotes(s) == [CR] + Quotes(s[1..]);
    assert Quotes(s) == [CR, LF] + Quotes(s[2..]);
    assert ([CR, LF] + Quotes(s[2..]))[2..] == Quotes(s[2..]);
  }

  /** One step of `Escape` on text that starts with an LF. */
  lemma EscapeLf(s: string)
    requires s != [] && s[0] == LF
    ensures Escape(s) == NewlineEscape + Escape(s[1..])
  {
    assert ([LF] + Quotes(s[1..]))[1..] == Quotes(s[1..]);
  }

  /** One step of `Escape` on text that starts with any other character. */
  lemma EscapeOther(s: string)
    requires s != [] && s[0] != QUOTE && s[0] != BS && s[0] != CR && s[0] != LF
    ensures Escape(s) == [s[0]] + Escape(s[1..])
  {
    NewlinesKeep(s[0], Quotes(s[1..]), NewlineEscape);
  }

  /** For text without lone CRs, the escaped literal reads back as the text, with each
      CR LF pair read as LF. */
  lemma {:induction false} EscapeRoundTrip(s: string)
    requires Plain(s)
    ensures Decode(Escape(s)) == Some(Unix(s))
    decreases |s|
  {
    if s == [] {
    } else if s[0] == QUOTE {
      EscapeRoundTrip(s[1..]);
      EscapePair(s);
      DecodeEscaped(QUOTE, Escape(s[1..]));
    } else if s[0] == BS {
      EscapeRoundTrip(s[1..]);
      EscapePair(s);
      DecodeEscaped(BS, Escape(s[1..]));
    } else if s[0] == CR {
      assert Plain(s[2..]) by { assert s[1..][1..] == s[2..]; }
      EscapeRoundTrip(s[2..]);
      EscapeCrLf(s);
      DecodeEscaped('n', Escape(s[2..]));
    } else if s[0] == LF {
      EscapeRoundTrip(s[1..]);
      EscapeLf(s);
      DecodeEscaped('n', Escape(s[1..]));
    } else {
      EscapeRoundTrip(s[1..]);
      EscapeOther(s);
      DecodeKeep(s[0], Escape(s[1..]));
    }
  }

  /** Literal text in which every backslash starts an escape pair and no quote stands
      outside one. */
  predicate Escaped(r: string)
    decreases |r|
  {
    r == [] ||
    (r[0] == BS && |r| >= 2 && Escaped(r[2..])) ||
    (r[0] != BS && r[0] != QUOTE && Escaped(r[1..]))
  }

  /** The intended quote pass leaves no quote that would end the literal and no
      backslash that would swallow the character after it. */
  lemma {:induction false} QuotesEscapeAll(s: string)
    ensures Escaped(Quotes(s))
    decreases |s|
  {
    if s != [] {
      QuotesEscapeAll(s[1..]);
      var r := Quotes(s);
      if s[0] == BS || s[0] == QUOTE {
        assert r[2..] == Quotes(s[1..]);
      } else {
        assert r[1..] == Quotes(s[1..]);
      }
    }
  }

  /** As written, a backslash of the text is copied as it is: before a quote it escapes
      the quote's own backslash, so `\'` ends the literal, and before `t` it reads back
      as a TAB. */
  lemma BackslashAsWritten()
    ensures Plain([BS, QUOTE])
    ensures EscapeAsWritten([BS, QUOTE], NewlineEscape) == [BS, BS, QUOTE]
    ensures Decode(EscapeAsWritten([BS, QUOTE], NewlineEscape)) == None
    ensures Decode(EscapeAsWritten([BS, 't'], NewlineEscape)) == Some(['\t'])
    ensures Decode(Escape([BS, QUOTE])) == Some([BS, QUOTE])
  {
    assert QuotesAsWritten([QUOTE]) == [BS, QUOTE];
    assert QuotesAsWritten([BS, QUOTE]) == [BS, BS, QUOTE];
    assert Newlines([QUOTE], NewlineEscape) == [QUOTE];
    assert Newlines([BS, QUOTE], NewlineEscape) == [BS, QUOTE];
    assert Newlines([BS, BS, QUOTE], NewlineEscape) == [BS, BS, QUOTE];
    assert Decode([QUOTE]) == None;
    assert Decode([BS, BS, QUOTE]) == Prepend(BS, Decode([QUOTE]));
    assert QuotesAsWritten(['t']) == ['t'];
    assert QuotesAsWritten([BS, 't']) == [BS, 't'];
    assert Newlines(['t'], NewlineEscape) == ['t'];
    assert Newlines([BS, 't'], NewlineEscape) == [BS, 't'];
    assert [BS, 't'][2..] == [];
    assert Decode([BS, 't']) == Prepend('\t', Decode([]));
    assert ['\t'] + [] == ['\t'];
    assert Plain([BS, QUOTE]) by {
      assert [BS, QUOTE][1..] == [QUOTE];
    }
    EscapeRoundTrip([BS, QUOTE]);
    assert Unix([BS, QUOTE]) == [BS, QUOTE] by {
      assert [BS, QUOTE][1..] == [QUOTE];
      assert Unix([QUOTE]) == [QUOTE];
    }
  }

  /** Where the escapings agree: text without quotes or backslashes, and without line
      breaks unless they are escaped as `\n`. */
  lemma {:induction false} AsWrittenAgrees(s: string, esc: string)
    requires QUOTE !in s && BS !in s && (esc == NewlineEscape || LF !in s)
    ensures EscapeAsWritten(s, esc) == Escape(s)
    decreases |s|
  {
    QuotesPlain(s);
    NewlinesSame(s, esc);
  }

  /** Neither quote pass touches text without quotes or backslashes. */
  lemma {:induction false} QuotesPlain(s: string)
    requires QUOTE !in s && BS !in s
    ensures QuotesAsWritten(s) == s && Quotes(s) == s
    decreases |s|
  {
    if s != [] {
      assert s[0] in s;
      assert forall c :: c in s[1..] ==> c in s;
      QuotesPlain(s[1..]);
      if |s| >= 2 {
        assert s[1] in s;
      }
      assert [s[0]] + s[1..] == s;
    }
  }

  /** The line-break replacement only matters where there are line breaks. */
  lemma {:induction false} NewlinesSame(s: string, esc: string)
    requires esc == NewlineEscape || LF !in s
    ensures Newlines(s, esc) == Newlines(s, NewlineEscape)
    decreases |s|
  {
    if s != [] && esc != NewlineEscape {
      assert s[0] in s && s[0] != LF;
      if |s| >= 2 {
        assert s[1] in s && s[1] != LF;
      }
      assert forall c :: c in s[1..] ==> c in s;
      NewlinesSame(s[1..], esc);
    }
  }

  /** As written, two adjacent quotes come out as quote, backslash, quote: the first quote
      stays bare and ends the generated string literal early. */
  lemma QuotePairAsWritten()
    ensures Plain([QUOTE, QUOTE])
    ensures QuotesAsWritten([QUOTE, QUOTE]) == [QUOTE, BS, QUOTE]
    ensures EscapeAsWritten([QUOTE, QUOTE], NewlineEscape) == [QUOTE, BS, QUOTE]
    ensures Decode(EscapeAsWritten([QUOTE, QUOTE], NewlineEscape)) == None
    ensures Decode(Escape([QUOTE, QUOTE])) == Some([QUOTE, QUOTE])
  {
    assert QuotesAsWritten([QUOTE, QUOTE]) == [QUOTE, BS, QUOTE];
    assert Newlines([QUOTE], NewlineEscape) == [QUOTE];
    assert Newlines([BS, QUOTE], NewlineEscape) == [BS, QUOTE];
    assert Newlines([QUOTE, BS, QUOTE], NewlineEscape) == [QUOTE, BS, QUOTE];
    assert Quotes([QUOTE, QUOTE]) == [BS, QUOTE, BS, QUOTE] by {
      assert Quotes([QUOTE]) == [BS, QUOTE];
    }
    EscapeRoundTrip([QUOTE, QUOTE]);
    assert Unix([QUOTE, QUOTE]) == [QUOTE, QUOTE] by {
      assert Unix([QUOTE]) == [QUOTE];
    }
  }

  /** As written in src/Template.js, a line break becomes a line continuation inside the
      generated literal, which reads back as nothing: the break is lost from the output. */
  lemma ContinuationDropsBreak()
    ensures Plain(['a', LF, 'b'])
    ensures Decode(EscapeAsWritten(['a', LF, 'b'], ContinuationEscape)) == Some(['a', 'b'])
    ensures Decode(Escape(['a', LF, 'b'])) == Some(['a', LF, 'b'])
  {
    assert QuotesAsWritten(['b']) == ['b'];
    assert QuotesAsWritten([LF, 'b']) == [LF, 'b'];
    assert QuotesAsWritten(['a', LF, 'b']) == ['a', LF, 'b'];
    assert Newlines(['b'], ContinuationEscape) == ['b'];
    assert Newlines([LF, 'b'], ContinuationEscape) == [BS, LF, 'b'];
    assert Newlines(['a', LF, 'b'], ContinuationEscape) == ['a', BS, LF, 'b'];
    assert Decode(['b']) == Some(['b']);
    assert Decode([BS, LF, 'b']) == Some(['b']);
    assert ['a', BS, LF, 'b'][1..] == [BS, LF, 'b'];
    DecodeKeep('a', [BS, LF, 'b']);
    assert ['a'] + [BS, LF, 'b'] == ['a', BS, LF, 'b'];
    assert ['a'] + ['b'] == ['a', 'b'];
    EscapeRoundTrip(['a', LF, 'b']);
    assert Unix(['a', LF, 'b']) == ['a', LF, 'b'] by {
      assert Unix(['b']) == ['b'];
      assert Unix([LF, 'b']) == [LF, 'b'];
    }
  }

  /** A CR that does not start a CR LF pair is copied raw into the literal, which then
      does not read back at all. */
  lemma LoneCarriageReturn()
    ensures Decode(Escape([CR])) == None
  {
    assert Quotes([CR]) == [CR];
    assert Newlines([CR], NewlineEscape) == [CR];
  }
}
