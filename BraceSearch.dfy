/**
 * What `re.search` returns for the two patterns the agents use to cut a JSON
 * object out of an LLM reply: the greedy `\{[\s\S]*\}` (planner) and the
 * non-greedy `\{[\s\S]*?\}` (verifier). Both patterns match exactly the
 * strings that start with `{` and end with a later `}`; `re.search` takes the
 * leftmost start at which a match exists, and at that start the greedy star
 * takes the longest match and the lazy one the shortest. Each search is
 * specified by that leftmost-longest or leftmost-shortest property over all
 * brace matches.
 */
module BraceSearch {
  import opened Wrappers

  /** The bounds `[start, end)` of a match, as `m.span()` gives them. */
  datatype Span = Span(start: nat, end: nat)

  /** `s[a..b]` is matched by either pattern. */
  predicate IsBraceMatch(s: string, a: int, b: int) {
    0 <= a && a + 2 <= b <= |s| && s[a] == '{' && s[b - 1] == '}'
  }

  /** Some `{` in `s` comes before some `}`. */
  predicate HasBracePair(s: string) {
    exists i, j | 0 <= i < j < |s| :: s[i] == '{' && s[j] == '}'
  }

  /** The first index at or after `from` holding `c`. */
  function FirstIndexFrom(s: string, c: char, from: nat): (r: Option<nat>)
    requires from <= |s|
    ensures r.Some? ==> from <= r.value < |s| && s[r.value] == c
    ensures r.Some? ==> forall k :: from <= k < r.value ==> s[k] != c
    ensures r.None? ==> forall k :: from <= k < |s| ==> s[k] != c
    decreases |s| - from
  {
    if from == |s| then None
    else if s[from] == c then Some(from)
    else FirstIndexFrom(s, c, from + 1)
  }

  /** The last index of `s` holding `c`. */
  function LastIndex(s: string, c: char): (r: Option<nat>)
    ensures r.Some? ==> r.value < |s| && s[r.value] == c
    ensures r.Some? ==> forall k :: r.value < k < |s| ==> s[k] != c
    ensures r.None? ==> forall k :: 0 <= k < |s| ==> s[k] != c
  {
    if s == [] then None
    else if s[|s| - 1] == c then Some(|s| - 1)
    else LastIndex(s[..|s| - 1], c)
  }

  /** `re.search(r"\{[\s\S]*\}", s)`: from the first `{` to the last `}`. */
  function GreedySearch(s: string): (m: Option<Span>)
    ensures m.Some? <==> HasBracePair(s)
    ensures m.Some? ==> IsBraceMatch(s, m.value.start, m.value.end)
    ensures m.Some? ==> forall a, b :: IsBraceMatch(s, a, b) ==>
              m.value.start <= a && (a == m.value.start ==> b <= m.value.end)
    ensures m.None? ==> forall a, b :: !IsBraceMatch(s, a, b)
  {
    match FirstIndexFrom(s, '{', 0)
    case None => None
    case Some(a) =>
      match LastIndex(s, '}')
      case None => None
      case Some(j) =>
        if a < j then
          Some(Span(a, j + 1))
        else
          None
  }

  /** `re.search(r"\{[\s\S]*?\}", s)`: from the first `{` to the first `}` after it. */
  function LazySearch(s: string): (m: Option<Span>)
    ensures m.Some? <==> HasBracePair(s)
    ensures m.Some? ==> IsBraceMatch(s, m.value.start, m.value.end)
    ensures m.Some? ==> forall a, b :: IsBraceMatch(s, a, b) ==>
              m.value.start <= a && (a == m.value.start ==> m.value.end <= b)
    ensures m.Some? ==> forall k :: m.value.start <= k < m.value.end - 1 ==> s[k] != '}'
    ensures m.None? ==> forall a, b :: !IsBraceMatch(s, a, b)
  {
    match FirstIndexFrom(s, '{', 0)
    case None => None
    case Some(a) =>
      match FirstIndexFrom(s, '}', a + 1)
      case None =>
        None
      case Some(j) => Some(Span(a, j + 1))
  }

  /** `m.group(0)`: the matched text, if any. */
  function MatchText(s: string, m: Option<Span>): (r: Option<string>)
    requires m.Some? ==> m.value.start <= m.value.end <= |s|
  {
    match m
    case None => None
    case Some(sp) => Some(s[sp.start..sp.end])
  }

  /** The text the greedy pattern matches: it starts with `{` and ends with `}`. */
  function GreedyMatch(s: string): (r: Option<string>)
    ensures r.Some? <==> HasBracePair(s)
    ensures r.Some? ==> |r.value| >= 2 && r.value[0] == '{' && r.value[|r.value| - 1] == '}'
    ensures r.Some? ==> GreedySearch(s).Some? && r.value == s[GreedySearch(s).value.start..GreedySearch(s).value.end]
  {
    MatchText(s, GreedySearch(s))
  }

  /** The text the lazy pattern matches: it starts with `{` and its only `}` is its last character. */
  function LazyMatch(s: string): (r: Option<string>)
    ensures r.Some? <==> HasBracePair(s)
    ensures r.Some? ==> |r.value| >= 2 && r.value[0] == '{' && r.value[|r.value| - 1] == '}'
    ensures r.Some? ==> forall k :: 0 <= k < |r.value| - 1 ==> r.value[k] != '}'
    ensures r.Some? ==> LazySearch(s).Some? && r.value == s[LazySearch(s).value.start..LazySearch(s).value.end]
  {
    MatchText(s, LazySearch(s))
  }

  /** The two searches find a match on the same inputs, at the same start, and the lazy one ends no later. */
  lemma LazyWithinGreedy(s: string)
    ensures LazySearch(s).Some? <==> GreedySearch(s).Some?
    ensures LazySearch(s).Some? ==>
              LazySearch(s).value.start == GreedySearch(s).value.start &&
              LazySearch(s).value.end <= GreedySearch(s).value.end
  {
    var l, g := LazySearch(s), GreedySearch(s);
    if l.Some? {
      assert IsBraceMatch(s, l.value.start, l.value.end);
      assert IsBraceMatch(s, g.value.start, g.value.end);
    }
  }

  /**
   * Cutting characters that are not braces off either end of `s` does not
   * change the text the lazy search matches; the verifier relies on this when
   * it searches `content.strip()`.
   */
  lemma LazyMatchIgnoresOuterText(s: string, a: nat, b: nat)
    requires a <= b <= |s|
    requires forall k :: 0 <= k < a ==> s[k] != '{' && s[k] != '}'
    requires forall k :: b <= k < |s| ==> s[k] != '{' && s[k] != '}'
    ensures LazyMatch(s[a..b]) == LazyMatch(s)
  {
    var t := s[a..b];
    var mt, ms := LazySearch(t), LazySearch(s);
    if mt.Some? {
      var x, y := mt.value.start, mt.value.end;
      MatchShifts(s, a, b, x, y);
      var x', y' := ms.value.start, ms.value.end;
      MatchInside(s, a, b, x', y');
      assert x' == x + a && y' == y + a;
      assert t[x..y] == s[x'..y'];
    }
  }

  /** A brace match in the slice `s[a..b]` is one in `s`, moved by `a`. */
  lemma MatchShifts(s: string, a: nat, b: nat, x: int, y: int)
    requires a <= b <= |s| && IsBraceMatch(s[a..b], x, y)
    ensures IsBraceMatch(s, x + a, y + a)
  {
    assert s[x + a] == s[a..b][x] && s[y + a - 1] == s[a..b][y - 1];
  }

  /** With no brace outside `s[a..b]`, every brace match of `s` lies inside it. */
  lemma MatchInside(s: string, a: nat, b: nat, x: int, y: int)
    requires a <= b <= |s| && IsBraceMatch(s, x, y)
    requires forall k :: 0 <= k < a ==> s[k] != '{' && s[k] != '}'
    requires forall k :: b <= k < |s| ==> s[k] != '{' && s[k] != '}'
    ensures a <= x && y <= b && IsBraceMatch(s[a..b], x - a, y - a)
  {
    assert s[x] == '{' && s[y - 1] == '}';
    assert s[a..b][x - a] == s[x] && s[a..b][y - a - 1] == s[y - 1];
  }
}
