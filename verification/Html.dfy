/** The HTML escaping of `print.safe` (stencil.js:236-239): five global replacements,
    `&` first, then `"`, `'`, `<` and `>`. */
module Html {

  /** `s.replace(/c/g, rep)`: every occurrence of the character `c` becomes `rep`. */
  function Replace(s: string, c: char, rep: string): string
    decreases |s|
  {
    if s == [] then []
    else (if s[0] == c then rep else [s[0]]) + Replace(s[1..], c, rep)
  }

  /** The five passes, in the source's order. */
  function SafeText(s: string): string
  {
    Replace(Replace(Replace(Replace(Replace(s, '&', "&amp;"), '"', "&quot;"), '\'', "&#39;"), '<', "&lt;"), '>', "&gt;")
  }

  /** The entity each character stands for in escaped text; itself when it needs none. */
  function Entity(c: char): string
  {
    if c == '&' then "&amp;"
    else if c == '"' then "&quot;"
    else if c == '\'' then "&#39;"
    else if c == '<' then "&lt;"
    else if c == '>' then "&gt;"
    else [c]
  }

  /** A one-pass reference: each character replaced by its entity. */
  function EntityMap(s: string): string
    decreases |s|
  {
    if s == [] then [] else Entity(s[0]) + EntityMap(s[1..])
  }

  /** Characters that `print.safe` must not let through. */
  predicate Special(c: char)
  {
    c == '"' || c == '\'' || c == '<' || c == '>'
  }

  /** Decoding of the five entities, the inverse of the escaping. */
  function Unescape(t: string): string
    decreases |t|
  {
    if t == [] then []
    else if |t| >= 5 && t[..5] == "&amp;" then "&" + Unescape(t[5..])
    else if |t| >= 6 && t[..6] == "&quot;" then "\"" + Unescape(t[6..])
    else if |t| >= 5 && t[..5] == "&#39;" then "'" + Unescape(t[5..])
    else if |t| >= 4 && t[..4] == "&lt;" then "<" + Unescape(t[4..])
    else if |t| >= 4 && t[..4] == "&gt;" then ">" + Unescape(t[4..])
    else [t[0]] + Unescape(t[1..])
  }

  lemma {:induction false} ReplaceAppend(a: string, b: string, c: char, rep: string)
    ensures Replace(a + b, c, rep) == Replace(a, c, rep) + Replace(b, c, rep)
    decreases |a|
  {
    if a != [] {
      assert (a + b)[1..] == a[1..] + b;
      ReplaceAppend(a[1..], b, c, rep);
    } else {
      assert a + b == b;
    }
  }

  lemma {:induction false} ReplaceAbsent(s: string, c: char, rep: string)
    requires forall k :: 0 <= k < |s| ==> s[k] != c
    ensures Replace(s, c, rep) == s
    decreases |s|
  {
    if s != [] {
      var t := s[1..];
      assert forall k :: 0 <= k < |t| ==> t[k] != c by {
        forall k | 0 <= k < |t|
          ensures t[k] != c
        {
          assert t[k] == s[k + 1];
        }
      }
      ReplaceAbsent(t, c, rep);
      assert Replace(s, c, rep) == [s[0]] + t by {
        assert s[0] != c;
      }
      assert [s[0]] + t == s;
    }
  }

  lemma SafeAppend(a: string, b: string)
    ensures SafeText(a + b) == SafeText(a) + SafeText(b)
  {
    var a1, b1 := Replace(a, '&', "&amp;"), Replace(b, '&', "&amp;");
    ReplaceAppend(a, b, '&', "&amp;");
    var a2, b2 := Replace(a1, '"', "&quot;"), Replace(b1, '"', "&quot;");
    ReplaceAppend(a1, b1, '"', "&quot;");
    var a3, b3 := Replace(a2, '\'', "&#39;"), Replace(b2, '\'', "&#39;");
    ReplaceAppend(a2, b2, '\'', "&#39;");
    var a4, b4 := Replace(a3, '<', "&lt;"), Replace(b3, '<', "&lt;");
    ReplaceAppend(a3, b3, '<', "&lt;");
    ReplaceAppend(a4, b4, '>', "&gt;");
  }

  lemma ReplaceOne(c: char, x: char, rep: string)
    ensures Replace([c], x, rep) == if c == x then rep else [c]
  {
    assert [c][1..] == [];
  }

  /** A character no earlier pass touches comes through them unchanged. */
  lemma SafePlainOrGt(c: char)
    requires c != '&' && c != '"' && c != '\'' && c != '<'
    ensures SafeText([c]) == Entity(c)
  {
    ReplaceOne(c, '&', "&amp;");
    ReplaceOne(c, '"', "&quot;");
    ReplaceOne(c, '\'', "&#39;");
    ReplaceOne(c, '<', "&lt;");
    ReplaceOne(c, '>', "&gt;");
  }

  /** No entity contains a character a later pass replaces. */
  lemma EntityClean(c: char)
    ensures forall k :: 0 <= k < |Entity(c)| ==> !Special(Entity(c)[k])
  {
  }

  /** Once a pass has produced an entity, no later pass finds anything in it to
      replace. */
  lemma SafeAmp(c: char)
    requires c == '&'
    ensures SafeText([c]) == Entity(c)
  {
    ReplaceOne(c, '&', "&amp;");
    EntityClean(c);
    ReplaceAbsent(Entity(c), '"', "&quot;");
    ReplaceAbsent(Entity(c), '\'', "&#39;");
    ReplaceAbsent(Entity(c), '<', "&lt;");
    ReplaceAbsent(Entity(c), '>', "&gt;");
  }

  lemma SafeQuot(c: char)
    requires c == '"'
    ensures SafeText([c]) == Entity(c)
  {
    ReplaceOne(c, '&', "&amp;");
    ReplaceOne(c, '"', "&quot;");
    EntityClean(c);
    ReplaceAbsent(Entity(c), '\'', "&#39;");
    ReplaceAbsent(Entity(c), '<', "&lt;");
    ReplaceAbsent(Entity(c), '>', "&gt;");
  }

  lemma SafeApos(c: char)
    requires c == '\''
    ensures SafeText([c]) == Entity(c)
  {
    ReplaceOne(c, '&', "&amp;");
    ReplaceOne(c, '"', "&quot;");
    ReplaceOne(c, '\'', "&#39;");
    EntityClean(c);
    ReplaceAbsent(Entity(c), '<', "&lt;");
    ReplaceAbsent(Entity(c), '>', "&gt;");
  }

  lemma SafeLt(c: char)
    requires c == '<'
    ensures SafeText([c]) == Entity(c)
  {
    ReplaceOne(c, '&', "&amp;");
    ReplaceOne(c, '"', "&quot;");
    ReplaceOne(c, '\'', "&#39;");
    ReplaceOne(c, '<', "&lt;");
    EntityClean(c);
    ReplaceAbsent(Entity(c), '>', "&gt;");
  }

  lemma SafeChar(c: char)
    ensures SafeText([c]) == Entity(c)
  {
    if c == '&' {
      SafeAmp(c);
    } else if c == '"' {
      SafeQuot(c);
    } else if c == '\'' {
      SafeApos(c);
    } else if c == '<' {
      SafeLt(c);
    } else {
      SafePlainOrGt(c);
    }
  }

  /** The five passes in this order equal replacing each character by its entity at
      once: no pass rewrites what an earlier pass produced. */
  lemma {:induction false} SafeTextIsEntityMap(s: string)
    ensures SafeText(s) == EntityMap(s)
    decreases |s|
  {
    if s != [] {
      assert s == [s[0]] + s[1..];
      SafeAppend([s[0]], s[1..]);
      SafeChar(s[0]);
      SafeTextIsEntityMap(s[1..]);
    }
  }

  lemma {:induction false} EntityMapClean(s: string)
    ensures forall k :: 0 <= k < |EntityMap(s)| ==> !Special(EntityMap(s)[k])
    decreases |s|
  {
    if s != [] {
      EntityMapClean(s[1..]);
      var e := Entity(s[0]);
      assert forall k :: 0 <= k < |e| ==> !Special(e[k]);
      forall k | 0 <= k < |EntityMap(s)|
        ensures !Special(EntityMap(s)[k])
      {
        if k >= |e| {
          assert EntityMap(s)[k] == EntityMap(s[1..])[k - |e|];
        }
      }
    }
  }

  /** The escaped text contains none of `"`, `'`, `<` and `>`. */
  lemma SafeTextClean(s: string)
    ensures forall k :: 0 <= k < |SafeText(s)| ==> !Special(SafeText(s)[k])
  {
    SafeTextIsEntityMap(s);
    EntityMapClean(s);
  }

  /** Text with none of the five characters is returned unchanged. */
  lemma {:induction false} SafeTextIdentity(s: string)
    requires forall k :: 0 <= k < |s| ==> s[k] != '&' && !Special(s[k])
    ensures SafeText(s) == s
    decreases |s|
  {
    SafeTextIsEntityMap(s);
    EntityMapIdentity(s);
  }

  lemma {:induction false} EntityMapIdentity(s: string)
    requires forall k :: 0 <= k < |s| ==> s[k] != '&' && !Special(s[k])
    ensures EntityMap(s) == s
    decreases |s|
  {
    if s != [] {
      assert s[0] != '&' && !Special(s[0]);
      assert forall k :: 0 <= k < |s[1..]| ==> s[1..][k] == s[k + 1];
      EntityMapIdentity(s[1..]);
    }
  }

  lemma UnescapePlain(c: char, rest: string)
    requires c != '&'
    ensures Unescape([c] + rest) == [c] + Unescape(rest)
  {
    var t := [c] + rest;
    assert t[0] == c && t[1..] == rest;
    assert |t| >= 4 ==> t[..4][0] == c;
    assert |t| >= 5 ==> t[..5][0] == c;
    assert |t| >= 6 ==> t[..6][0] == c;
  }

  lemma UnescapeEntity(c: char, rest: string)
    ensures Unescape(Entity(c) + rest) == [c] + Unescape(rest)
  {
    if c == '&' {
      assert ("&amp;" + rest)[..5] == "&amp;" && ("&amp;" + rest)[5..] == rest;
    } else if c == '"' {
      assert ("&quot;" + rest)[..5] != "&amp;" by { assert ("&quot;" + rest)[1] == 'q'; }
      assert ("&quot;" + rest)[..6] == "&quot;" && ("&quot;" + rest)[6..] == rest;
    } else if c == '\'' {
      assert ("&#39;" + rest)[..5] != "&amp;" by { assert ("&#39;" + rest)[1] == '#'; }
      assert |"&#39;" + rest| >= 6 ==> ("&#39;" + rest)[..6] != "&quot;" by { assert ("&#39;" + rest)[1] == '#'; }
      assert ("&#39;" + rest)[..5] == "&#39;" && ("&#39;" + rest)[5..] == rest;
    } else if c == '<' {
      assert |"&lt;" + rest| >= 5 ==> ("&lt;" + rest)[..5] != "&amp;" by { assert ("&lt;" + rest)[1] == 'l'; }
      assert |"&lt;" + rest| >= 6 ==> ("&lt;" + rest)[..6] != "&quot;" by { assert ("&lt;" + rest)[1] == 'l'; }
      assert |"&lt;" + rest| >= 5 ==> ("&lt;" + rest)[..5] != "&#39;" by { assert ("&lt;" + rest)[1] == 'l'; }
      assert ("&lt;" + rest)[..4] == "&lt;" && ("&lt;" + rest)[4..] == rest;
    } else if c == '>' {
      assert |"&gt;" + rest| >= 5 ==> ("&gt;" + rest)[..5] != "&amp;" by { assert ("&gt;" + rest)[1] == 'g'; }
      assert |"&gt;" + rest| >= 6 ==> ("&gt;" + rest)[..6] != "&quot;" by { assert ("&gt;" + rest)[1] == 'g'; }
      assert |"&gt;" + rest| >= 5 ==> ("&gt;" + rest)[..5] != "&#39;" by { assert ("&gt;" + rest)[1] == 'g'; }
      assert ("&gt;" + rest)[..4] != "&lt;" by { assert ("&gt;" + rest)[1] == 'g'; }
      assert ("&gt;" + rest)[..4] == "&gt;" && ("&gt;" + rest)[4..] == rest;
    } else {
      UnescapePlain(c, rest);
    }
  }

  /** Unescaping the escaped text gives back the original. */
  lemma {:induction false} SafeTextRoundTrip(s: string)
    ensures Unescape(SafeText(s)) == s
    decreases |s|
  {
    SafeTextIsEntityMap(s);
    EntityMapRoundTrip(s);
  }

  lemma {:induction false} EntityMapRoundTrip(s: string)
    ensures Unescape(EntityMap(s)) == s
    decreases |s|
  {
    if s != [] {
      UnescapeEntity(s[0], EntityMap(s[1..]));
      EntityMapRoundTrip(s[1..]);
    }
  }
}
