/** The JavaScript string primitives the template compilers are built from:
    `indexOf`, `substr`, `substring`, `charAt` comparisons and `Array.prototype.join`
    with the empty separator. Positions are `nat`; `indexOf` keeps JavaScript's -1 for
    "not found". */
module JsString {

  const CR: char := '\r'
  const LF: char := '\n'

  /** `pat` occurs in `s` at position `k`. */
  predicate OccursAt(s: string, pat: string, k: nat)
  {
    k + |pat| <= |s| && s[k..k + |pat|] == pat
  }

  /** `pat` occurs somewhere in `s`. */
  ghost predicate Contains(s: string, pat: string)
  {
    exists k: nat :: OccursAt(s, pat, k)
  }

  /** `pat` occurs in `s` at position `k`, compared character by character: the form
      `indexOf` tests each candidate position with. */
  predicate MatchesAt(s: string, pat: string, k: nat)
    decreases |pat|
  {
    if pat == [] then k <= |s| else k < |s| && s[k] == pat[0] && MatchesAt(s, pat[1..], k + 1)
  }

  /** The character-by-character test is the occurrence. */
  lemma {:induction false} MatchesAtOccurs(s: string, pat: string, k: nat)
    ensures MatchesAt(s, pat, k) <==> OccursAt(s, pat, k)
    decreases |pat|
  {
    if pat != [] && k < |s| {
      MatchesAtOccurs(s, pat[1..], k + 1);
      if k + |pat| <= |s| {
        var w := s[k..k + |pat|];
        assert w[0] == s[k] && w[1..] == s[k + 1..k + 1 + |pat[1..]|];
        if w == pat {
          assert s[k] == pat[0] && s[k + 1..k + 1 + |pat[1..]|] == pat[1..];
        }
        if s[k] == pat[0] && s[k + 1..k + 1 + |pat[1..]|] == pat[1..] {
          assert w == [w[0]] + w[1..] && pat == [pat[0]] + pat[1..];
        }
      }
    }
  }

  /** `s.indexOf(pat, from)` for a non-empty `pat`: the first occurrence at or after
      `from`, or -1 when there is none (see `IndexOfFirst`). */
  function IndexOf(s: string, pat: string, from: nat): (r: int)
    requires |pat| > 0
    ensures r == -1 || (from <= r && r + |pat| <= |s|)
    decreases |s| - from
  {
    if from + |pat| > |s| then -1
    else if MatchesAt(s, pat, from) then from
    else IndexOf(s, pat, from + 1)
  }

  /** What `IndexOf` finds is an occurrence. */
  lemma {:induction false} IndexOfFound(s: string, pat: string, from: nat)
    requires |pat| > 0
    ensures var r := IndexOf(s, pat, from);
      r >= 0 ==> s[r..r + |pat|] == pat
    decreases |s| - from
  {
    MatchesAtOccurs(s, pat, from);
    if from + |pat| <= |s| && !MatchesAt(s, pat, from) {
      IndexOfFound(s, pat, from + 1);
    }
  }

  /** `IndexOf` finds an occurrence, and no occurrence lies between `from` and it; -1
      means there is no occurrence at or after `from` at all. */
  lemma {:induction false} IndexOfFirst(s: string, pat: string, from: nat)
    requires |pat| > 0
    ensures var r := IndexOf(s, pat, from);
      forall k: nat :: from <= k && (r < 0 || k < r) ==> !OccursAt(s, pat, k)
    decreases |s| - from
  {
    MatchesAtOccurs(s, pat, from);
    if from + |pat| <= |s| && !MatchesAt(s, pat, from) {
      IndexOfFirst(s, pat, from + 1);
    }
  }

  /** `s.substr(k)` for `k >= 0`: everything from position `k` on. */
  function Substr(s: string, k: nat): string
  {
    if k <= |s| then s[k..] else []
  }

  /** `s.substr(k, n)` for `k, n >= 0`: at most `n` characters from position `k`. */
  function SubstrLen(s: string, k: nat, n: nat): string
  {
    if k >= |s| then [] else if k + n <= |s| then s[k..k + n] else s[k..]
  }

  /** `s.substring(a, b)` for `a, b >= 0`: both ends are clamped to the length and
      swapped when `a > b`. */
  function Substring(s: string, a: nat, b: nat): string
  {
    var lo := if a <= b then a else b;
    var hi := if a <= b then b else a;
    var lo' := if lo <= |s| then lo else |s|;
    var hi' := if hi <= |s| then hi else |s|;
    s[lo'..hi']
  }

  /** `i < 0 ? s.substr(a) : s.substring(a, i)`: the text from `a` up to the position
      `i` an `indexOf` returned, or to the end when it found nothing. */
  function UpTo(s: string, a: nat, i: int): string
  {
    if i < 0 then Substr(s, a) else Substring(s, a, i)
  }

  /** `s.charAt(k) === c`: false past the end, where `charAt` gives the empty string. */
  predicate CharIs(s: string, k: nat, c: char)
  {
    k < |s| && s[k] == c
  }

  /** `Array.prototype.join.call(args, '')`. */
  function Join(args: seq<string>): string
  {
    if args == [] then [] else args[0] + Join(args[1..])
  }

  /** `s` repeated `n` times, each copy appended at the end. */
  function Repeat(s: string, n: nat): string
  {
    if n == 0 then [] else Repeat(s, n - 1) + s
  }

  /** Comparing `s.substr(k, |tag|)` with `tag` is exactly testing for an occurrence. */
  lemma SubstrLenMatches(s: string, k: nat, tag: string)
    requires k <= |s|
    ensures SubstrLen(s, k, |tag|) == tag <==> OccursAt(s, tag, k)
  {
    if k >= |s| {
      assert OccursAt(s, tag, k) ==> tag == [];
    } else if k + |tag| > |s| {
      assert |SubstrLen(s, k, |tag|)| < |tag|;
    }
  }

  /** `substring` with ordered, in-range ends is an ordinary slice. */
  lemma SubstringSlice(s: string, a: nat, b: nat)
    requires a <= b <= |s|
    ensures Substring(s, a, b) == s[a..b]
  {
  }

  /** A slice is the concatenation of its two halves at any cut point. */
  lemma SliceSplit(s: string, a: nat, b: nat, c: nat)
    requires a <= b <= c <= |s|
    ensures s[a..c] == s[a..b] + s[b..c]
  {
  }

  /** A suffix is the concatenation of a slice and the suffix after it. */
  lemma SuffixSplit(s: string, a: nat, b: nat)
    requires a <= b <= |s|
    ensures s[a..] == s[a..b] + s[b..]
  {
  }

  /** Joining distributes over concatenation of the argument lists. */
  lemma {:induction false} JoinAppend(a: seq<string>, b: seq<string>)
    ensures Join(a + b) == Join(a) + Join(b)
    decreases |a|
  {
    if a == [] {
      assert a + b == b;
    } else {
      assert (a + b)[1..] == a[1..] + b;
      JoinAppend(a[1..], b);
    }
  }

  /** A slice of `s` that lies before the first occurrence of `pat` does not contain `pat`. */
  lemma SliceAvoids(s: string, pat: string, from: nat, to: nat)
    requires |pat| > 0 && from <= to <= |s|
    requires forall k: nat :: from <= k < to ==> !OccursAt(s, pat, k)
    ensures !Contains(s[from..to], pat)
  {
    if Contains(s[from..to], pat) {
      var k: nat :| OccursAt(s[from..to], pat, k);
      assert from + k + |pat| <= to;
      assert s[from + k..from + k + |pat|] == pat by {
        forall j | 0 <= j < |pat|
          ensures s[from + k + j] == pat[j]
        {
          assert s[from..to][k..k + |pat|][j] == pat[j];
        }
      }
      assert OccursAt(s, pat, from + k);
    }
  }
}
