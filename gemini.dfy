/**
 * The Gemini vision provider: the JSON-extraction heuristic `_clean_json`
 * applied to the model's reply, and the exception funnel of `analyze`. The SDK
 * call, the image conversion and `json.loads` are parameters.
 */
module GeminiVision {
  import opened Wrappers
  import opened PyText
  import opened JsonValue
  import opened Errors

  // --- the regular expression r"```(?:json)?\s*(\{.*?\})\s*```" under re.DOTALL ---

  const Fence := "```"

  /** A fence starts at `i`. */
  predicate FenceAt(t: string, i: int) {
    0 <= i && i + 3 <= |t| && t[i..i + 3] == Fence
  }

  /** The optional `json` tag starts at `i`. */
  predicate JsonTagAt(t: string, i: int) {
    0 <= i && i + 4 <= |t| && t[i..i + 4] == "json"
  }

  /** "```(?:json)?\s*\{" matches from `p`, with the brace of group 1 at `q`. */
  ghost predicate Opens(t: string, p: nat, q: nat) {
    && FenceAt(t, p)
    && p + 3 <= q < |t|
    && t[q] == '{'
    && (AllSpace(t, p + 3, q) || (JsonTagAt(t, p + 3) && p + 7 <= q && AllSpace(t, p + 7, q)))
  }

  /** "\s*```" matches from `i`. */
  ghost predicate Closes(t: string, i: nat) {
    exists r: nat :: i <= r && FenceAt(t, r) && AllSpace(t, i, r)
  }

  /** The whole pattern matches from `p` with group 1 equal to `t[q..e + 1]`. */
  ghost predicate MatchAt(t: string, p: nat, q: nat, e: nat) {
    Opens(t, p, q) && q < e < |t| && t[e] == '}' && Closes(t, e + 1)
  }

  /** The pattern matches from no position `q`, `e` when it starts at `p`. */
  ghost predicate NoMatchAt(t: string, p: nat) {
    forall q: nat, e: nat :: !MatchAt(t, p, q, e)
  }

  /** The pattern starts at no position in `[lo, hi)`. */
  ghost predicate NoMatchIn(t: string, lo: nat, hi: nat) {
    forall p: nat, q: nat, e: nat :: lo <= p < hi ==> !MatchAt(t, p, q, e)
  }

  /** The pattern starts nowhere in `t`. */
  ghost predicate NoMatch(t: string) {
    forall p: nat, q: nat, e: nat :: !MatchAt(t, p, q, e)
  }

  /** From the start `p`, no `}` before `e` ends a match: what the lazy `.*?` picks. */
  ghost predicate LazyEnd(t: string, p: nat, e: nat) {
    forall q: nat, e': nat :: e' < e ==> !MatchAt(t, p, q, e')
  }

  /**
   * `re.search` reports the match with the leftmost start; from that start the
   * lazy `.*?` stops at the first `}` from which the rest of the pattern matches.
   */
  ghost predicate FirstMatch(t: string, q: nat, e: nat) {
    exists p: nat :: MatchAt(t, p, q, e) && NoMatchIn(t, 0, p) && LazyEnd(t, p, e)
  }

  // --- a search that computes the match ---

  /** Where `\s*` starts after the fence at `p`: after the `json` tag when there is one. */
  function BodyStart(t: string, p: nat): (i: nat)
    requires FenceAt(t, p)
    ensures i <= |t|
  {
    if JsonTagAt(t, p + 3) then p + 7 else p + 3
  }

  /** White space then a fence follow from `i`. */
  predicate CloseFence(t: string, i: nat)
    requires i <= |t|
  {
    FenceAt(t, SkipSpaces(t, i))
  }

  /** A `}` at `e` that white space and a fence follow. */
  predicate BraceCloses(t: string, e: nat)
    requires e < |t|
  {
    t[e] == '}' && CloseFence(t, e + 1)
  }

  /** The first `}` at or after `e0` that a closing fence follows. */
  function FindClose(t: string, e0: nat): (r: Option<nat>)
    requires e0 <= |t|
    ensures r.Some? ==> e0 <= r.value < |t| && BraceCloses(t, r.value)
    ensures forall e :: e0 <= e < |t| && (r.Some? ==> e < r.value) ==> !BraceCloses(t, e)
    decreases |t| - e0
  {
    if e0 == |t| then None
    else if BraceCloses(t, e0) then Some(e0)
    else FindClose(t, e0 + 1)
  }

  /** The group found by the pattern when it starts at the fence `p`. */
  function MatchFrom(t: string, p: nat): (r: Option<(nat, nat)>)
    requires FenceAt(t, p)
    ensures r.Some? ==> p + 3 <= r.value.0 < r.value.1 < |t| && t[r.value.0] == '{' && t[r.value.1] == '}'
  {
    var q := SkipSpaces(t, BodyStart(t, p));
    if q < |t| && t[q] == '{' then
      match FindClose(t, q + 1)
      case Some(e) => Some((q, e))
      case None => None
    else None
  }

  /** The first start at or after `p` from which the pattern matches. */
  function Search(t: string, p: nat): (r: Option<(nat, nat)>)
    requires p <= |t|
    ensures r.Some? ==> r.value.0 < r.value.1 < |t| && t[r.value.0] == '{' && t[r.value.1] == '}'
    decreases |t| - p
  {
    if p == |t| then None
    else if FenceAt(t, p) && MatchFrom(t, p).Some? then MatchFrom(t, p)
    else Search(t, p + 1)
  }

  lemma ClosesIff(t: string, i: nat)
    requires i <= |t|
    ensures Closes(t, i) <==> CloseFence(t, i)
  {
    if Closes(t, i) {
      var r: nat :| i <= r && FenceAt(t, r) && AllSpace(t, i, r);
      assert t[r] == '`';
      SkipSpacesStopsAt(t, i, r);
    }
    if CloseFence(t, i) {
      var r := SkipSpaces(t, i);
      assert i <= r && FenceAt(t, r) && AllSpace(t, i, r);
    }
  }

  /** An opening brace is the first non-space after the optional tag. */
  lemma OpensOnly(t: string, p: nat, q: nat)
    requires FenceAt(t, p) && Opens(t, p, q)
    ensures q == SkipSpaces(t, BodyStart(t, p))
  {
    if JsonTagAt(t, p + 3) {
      assert t[p + 3] == t[p + 3..p + 7][0] == 'j';
      assert !IsSpace(t[p + 3]);
      SkipSpacesStopsAt(t, p + 7, q);
    } else {
      SkipSpacesStopsAt(t, p + 3, q);
    }
  }

  /** The first non-space after the optional tag opens the group when it is a brace. */
  lemma OpensFrom(t: string, p: nat)
    requires FenceAt(t, p)
    requires var q := SkipSpaces(t, BodyStart(t, p)); q < |t| && t[q] == '{'
    ensures Opens(t, p, SkipSpaces(t, BodyStart(t, p)))
  {
    var b := BodyStart(t, p);
    var q := SkipSpaces(t, b);
    assert AllSpace(t, b, q);
  }

  /** The opening brace after a fence is unique: the first non-space after the optional tag. */
  lemma OpensIff(t: string, p: nat, q: nat)
    requires FenceAt(t, p)
    ensures Opens(t, p, q) <==> q == SkipSpaces(t, BodyStart(t, p)) && q < |t| && t[q] == '{'
  {
    if Opens(t, p, q) {
      OpensOnly(t, p, q);
    } else if q == SkipSpaces(t, BodyStart(t, p)) && q < |t| && t[q] == '{' {
      OpensFrom(t, p);
    }
  }

  /** The computed group is the pattern's match from `p`, with the earliest closing brace. */
  lemma MatchFromSpec(t: string, p: nat)
    requires FenceAt(t, p)
    ensures MatchFrom(t, p).Some? ==>
      && MatchAt(t, p, MatchFrom(t, p).value.0, MatchFrom(t, p).value.1)
      && LazyEnd(t, p, MatchFrom(t, p).value.1)
    ensures MatchFrom(t, p).None? ==> NoMatchAt(t, p)
  {
    var q := SkipSpaces(t, BodyStart(t, p));
    OpensIff(t, p, q);
    forall q': nat, e': nat | MatchAt(t, p, q', e')
      ensures q' == q && MatchFrom(t, p).Some? && MatchFrom(t, p).value.1 <= e'
    {
      OpensIff(t, p, q');
      ClosesIff(t, e' + 1);
      assert BraceCloses(t, e');
    }
    if MatchFrom(t, p).Some? {
      ClosesIff(t, MatchFrom(t, p).value.1 + 1);
    }
  }

  /** Without a fence at `p` the pattern cannot start there. */
  lemma NoFenceNoMatch(t: string, p: nat)
    requires !FenceAt(t, p)
    ensures NoMatchAt(t, p)
  {
  }

  lemma NoMatchStep(t: string, p: nat)
    requires NoMatchAt(t, p) && NoMatchIn(t, p + 1, |t|)
    ensures NoMatchIn(t, p, |t|)
  {
  }

  /** When `Search` finds nothing, the pattern starts nowhere at or after `p0`. */
  lemma {:induction false} SearchNone(t: string, p0: nat)
    requires p0 <= |t| && Search(t, p0).None?
    ensures NoMatchIn(t, p0, |t|)
    decreases |t| - p0
  {
    if p0 < |t| {
      SearchNone(t, p0 + 1);
      if FenceAt(t, p0) {
        MatchFromSpec(t, p0);
      } else {
        NoFenceNoMatch(t, p0);
      }
      NoMatchStep(t, p0);
    }
  }

  /** What `Search` finds is the match with the leftmost start at or after `p0`, lazily ended. */
  lemma {:induction false} SearchSome(t: string, p0: nat)
    requires p0 <= |t| && Search(t, p0).Some?
    ensures exists p: nat ::
      && p0 <= p
      && MatchAt(t, p, Search(t, p0).value.0, Search(t, p0).value.1)
      && NoMatchIn(t, p0, p)
      && LazyEnd(t, p, Search(t, p0).value.1)
    decreases |t| - p0
  {
    if FenceAt(t, p0) && MatchFrom(t, p0).Some? {
      MatchFromSpec(t, p0);
      assert NoMatchIn(t, p0, p0);
    } else {
      if FenceAt(t, p0) {
        MatchFromSpec(t, p0);
      }
      SearchSome(t, p0 + 1);
      var p: nat :| && p0 + 1 <= p
        && MatchAt(t, p, Search(t, p0).value.0, Search(t, p0).value.1)
        && NoMatchIn(t, p0 + 1, p)
        && LazyEnd(t, p, Search(t, p0).value.1);
      assert NoMatchIn(t, p0, p);
    }
  }

  /** `Search` from the start finds something exactly when the pattern matches somewhere. */
  lemma SearchFinds(t: string)
    ensures Search(t, 0).None? <==> NoMatch(t)
  {
    if Search(t, 0).Some? {
      SearchSome(t, 0);
    } else {
      SearchNone(t, 0);
      assert NoMatchIn(t, 0, |t|);
    }
  }

  /** The pattern's first match is unique. */
  lemma FirstMatchUnique(t: string, q1: nat, e1: nat, q2: nat, e2: nat)
    requires FirstMatch(t, q1, e1) && FirstMatch(t, q2, e2)
    ensures q1 == q2 && e1 == e2
  {
    var p1: nat :| MatchAt(t, p1, q1, e1) && NoMatchIn(t, 0, p1) && LazyEnd(t, p1, e1);
    var p2: nat :| MatchAt(t, p2, q2, e2) && NoMatchIn(t, 0, p2) && LazyEnd(t, p2, e2);
    assert p1 == p2;
    OpensIff(t, p1, q1);
    OpensIff(t, p1, q2);
  }

  /** A slice of a slice is a slice of the whole. */
  lemma SliceShift(t: string, a: nat, b: nat, i: nat, j: nat)
    requires a <= b <= |t| && i <= j <= b - a
    ensures t[a..b][i..j] == t[a + i..a + j]
  {
    assert forall k :: 0 <= k < j - i ==> t[a..b][i..j][k] == t[a + i..a + j][k];
  }

  /** An opening inside a slice is an opening in the whole text, shifted by the slice's start. */
  lemma OpensShift(t: string, a: nat, b: nat, p: nat, q: nat)
    requires a <= b <= |t| && Opens(t[a..b], p, q)
    ensures Opens(t, p + a, q + a)
  {
    var u := t[a..b];
    SliceShift(t, a, b, p, p + 3);
    if JsonTagAt(u, p + 3) {
      SliceShift(t, a, b, p + 3, p + 7);
    }
    assert forall m :: p + 3 <= m < q ==> u[m] == t[m + a];
    assert t[q + a] == u[q];
  }

  /** A closing inside a slice is a closing in the whole text, shifted by the slice's start. */
  lemma ClosesShift(t: string, a: nat, b: nat, i: nat)
    requires a <= b <= |t| && i <= b - a && Closes(t[a..b], i)
    ensures Closes(t, i + a)
  {
    var u := t[a..b];
    var r: nat :| i <= r && FenceAt(u, r) && AllSpace(u, i, r);
    SliceShift(t, a, b, r, r + 3);
    assert forall m :: i <= m < r ==> u[m] == t[m + a];
    assert FenceAt(t, r + a) && AllSpace(t, i + a, r + a);
  }

  /** A match inside a slice is a match of the whole text, shifted by the slice's start. */
  lemma MatchAtShift(t: string, a: nat, b: nat, p: nat, q: nat, e: nat)
    requires a <= b <= |t| && MatchAt(t[a..b], p, q, e)
    ensures MatchAt(t, p + a, q + a, e + a)
  {
    OpensShift(t, a, b, p, q);
    ClosesShift(t, a, b, e + 1);
    assert t[e + a] == t[a..b][e];
  }

  // --- _clean_json ---

  /** From the first `{` to the last `}` when the first comes before the last; otherwise the text itself. */
  function Fallback(s: string): string {
    var start := Find(s, '{');
    var end := RFind(s, '}');
    if start != -1 && end != -1 && end > start then s[start..end + 1] else s
  }

  /** `_clean_json` after its `strip()`. */
  function CleanStripped(s: string): string {
    match Search(s, 0)
    case Some((q, e)) => s[q..e + 1]
    case None => Fallback(s)
  }

  /** `GeminiVisionProvider._clean_json(text)`. */
  function CleanJson(text: string): string {
    CleanStripped(Strip(text))
  }

  /** The result is always a slice of the stripped text. */
  lemma CleanIsSlice(s: string)
    ensures exists i: nat, j: nat :: i <= j <= |s| && CleanStripped(s) == s[i..j]
  {
    match Search(s, 0)
    case Some((q, e)) =>
      assert CleanStripped(s) == s[q..e + 1];
    case None =>
      var start, end := Find(s, '{'), RFind(s, '}');
      if start != -1 && end != -1 && end > start {
        assert CleanStripped(s) == s[start..end + 1];
      } else {
        assert CleanStripped(s) == s[0..|s|];
      }
  }

  /** What `Search` finds from the start is the pattern's first match. */
  lemma SearchFirst(s: string)
    requires Search(s, 0).Some?
    ensures FirstMatch(s, Search(s, 0).value.0, Search(s, 0).value.1)
  {
    SearchSome(s, 0);
  }

  /** When a fenced block matches, the result is group 1 of the first match: braces at both ends. */
  lemma CleanFenced(s: string)
    requires !NoMatch(s)
    ensures exists q: nat, e: nat :: FirstMatch(s, q, e) && CleanStripped(s) == s[q..e + 1]
    ensures forall q: nat, e: nat :: FirstMatch(s, q, e) ==> CleanStripped(s) == s[q..e + 1]
    ensures |CleanStripped(s)| >= 2 && CleanStripped(s)[0] == '{' && CleanStripped(s)[|CleanStripped(s)| - 1] == '}'
  {
    SearchFinds(s);
    FencedResult(s);
  }

  /** What the computed search yields: group 1 of the pattern's only first match. */
  lemma FencedResult(s: string)
    requires Search(s, 0).Some?
    ensures var q, e := Search(s, 0).value.0, Search(s, 0).value.1;
      && FirstMatch(s, q, e)
      && (forall q': nat, e': nat :: FirstMatch(s, q', e') ==> q' == q && e' == e)
      && CleanStripped(s) == s[q..e + 1]
      && |CleanStripped(s)| >= 2 && CleanStripped(s)[0] == '{' && CleanStripped(s)[|CleanStripped(s)| - 1] == '}'
  {
    var q, e := Search(s, 0).value.0, Search(s, 0).value.1;
    var r := s[q..e + 1];
    assert CleanStripped(s) == r;
    assert r[0] == s[q] && r[|r| - 1] == s[e];
    SearchFirst(s);
    SearchOnlyFirst(s);
  }

  /** Every first match of the pattern is the one `Search` finds. */
  lemma SearchOnlyFirst(s: string)
    requires Search(s, 0).Some?
    ensures forall q: nat, e: nat :: FirstMatch(s, q, e) ==> q == Search(s, 0).value.0 && e == Search(s, 0).value.1
  {
    var q, e := Search(s, 0).value.0, Search(s, 0).value.1;
    SearchFirst(s);
    forall q': nat, e': nat | FirstMatch(s, q', e') ensures q' == q && e' == e {
      FirstMatchUnique(s, q, e, q', e');
    }
  }

  /** Without a fenced block, the result runs from the first `{` to the last `}` when those are in order. */
  lemma CleanUnfenced(s: string)
    requires NoMatch(s)
    ensures var start, end := Find(s, '{'), RFind(s, '}');
      && (start != -1 && end != -1 && end > start ==>
            CleanStripped(s) == s[start..end + 1] && CleanStripped(s)[0] == '{' && CleanStripped(s)[|CleanStripped(s)| - 1] == '}')
      && (!(start != -1 && end != -1 && end > start) ==> CleanStripped(s) == s)
  {
    SearchFinds(s);
    assert CleanStripped(s) == Fallback(s);
    FallbackShape(s);
  }

  /** The fallback slices from the first `{` to the last `}` when those are in order, and keeps the text otherwise. */
  lemma FallbackShape(s: string)
    ensures var start, end := Find(s, '{'), RFind(s, '}');
      && (start != -1 && end != -1 && end > start ==>
            Fallback(s) == s[start..end + 1] && Fallback(s)[0] == '{' && Fallback(s)[|Fallback(s)| - 1] == '}')
      && (!(start != -1 && end != -1 && end > start) ==> Fallback(s) == s)
  {
    var start, end := Find(s, '{'), RFind(s, '}');
    if start != -1 && end != -1 && end > start {
      var r := s[start..end + 1];
      assert Fallback(s) == r;
      assert r[0] == s[start] && r[|r| - 1] == s[end];
    }
  }

  /** A slice that starts with `{` and ends with `}` is unchanged by the fallback. */
  lemma FallbackKeeps(r: string)
    requires |r| >= 2 && r[0] == '{' && r[|r| - 1] == '}'
    ensures Fallback(r) == r
  {
    assert Find(r, '{') == 0;
    assert RFind(r, '}') == |r| - 1;
  }

  /** The group of the first match holds no match of its own: its last `}` ends the match. */
  lemma GroupHasNoMatch(s: string, q: nat, e: nat, r: string)
    requires q < e < |s| && r == s[q..e + 1] && FirstMatch(s, q, e)
    ensures NoMatch(r)
  {
    var p: nat :| MatchAt(s, p, q, e) && NoMatchIn(s, 0, p) && LazyEnd(s, p, e);
    forall e2: nat | q < e2 < e && s[e2] == '}' ensures !Closes(s, e2 + 1) {
      assert !MatchAt(s, p, q, e2);
    }
    forall p': nat, q': nat, e': nat | MatchAt(r, p', q', e') ensures false {
      MatchAtShift(s, q, e + 1, p', q', e');
    }
  }

  /** A slice from `{` to `}` of a text with no match holds no match either. */
  lemma SliceHasNoMatch(s: string, i: nat, j: nat, r: string)
    requires i <= j <= |s| && r == s[i..j]
    requires NoMatch(s)
    ensures NoMatch(r)
  {
    forall p': nat, q': nat, e': nat | MatchAt(r, p', q', e') ensures false {
      MatchAtShift(s, i, j, p', q', e');
    }
  }

  /** Cleaning a text whose ends are braces and in which the search finds nothing gives it back. */
  lemma CleanKeeps(r: string)
    requires |r| >= 2 && r[0] == '{' && r[|r| - 1] == '}'
    requires Search(r, 0).None?
    ensures CleanJson(r) == r
  {
    StripKeeps(r);
    assert CleanStripped(r) == Fallback(r);
    FallbackKeeps(r);
  }

  /** The group of the first match runs from brace to brace, and the search finds nothing in it. */
  lemma FencedGroup(s: string)
    requires Search(s, 0).Some?
    ensures var r := CleanStripped(s); |r| >= 2 && r[0] == '{' && r[|r| - 1] == '}' && Search(r, 0).None?
  {
    var q, e := Search(s, 0).value.0, Search(s, 0).value.1;
    var r := s[q..e + 1];
    assert CleanStripped(s) == r;
    assert r[0] == s[q] && r[|r| - 1] == s[e];
    SearchFirst(s);
    GroupHasNoMatch(s, q, e, r);
    SearchFinds(r);
  }

  /** When a fenced block matches, its group is a fixed point of `_clean_json`. */
  lemma FencedFixed(s: string)
    requires Search(s, 0).Some?
    ensures CleanJson(CleanStripped(s)) == CleanStripped(s)
  {
    FencedGroup(s);
    CleanKeeps(CleanStripped(s));
  }

  /** Without a fenced block, the brace-to-brace slice runs from brace to brace, and the search finds nothing in it. */
  lemma UnfencedSlice(s: string, start: int, end: int)
    requires Search(s, 0).None?
    requires start == Find(s, '{') && end == RFind(s, '}') && start != -1 && end > start
    ensures var r := s[start..end + 1]; |r| >= 2 && r[0] == '{' && r[|r| - 1] == '}' && Search(r, 0).None?
    ensures CleanStripped(s) == s[start..end + 1]
  {
    assert CleanStripped(s) == Fallback(s);
    var r := s[start..end + 1];
    assert r[0] == s[start] && r[|r| - 1] == s[end];
    SearchFinds(s);
    SliceHasNoMatch(s, start, end + 1, r);
    SearchFinds(r);
  }

  /** Without a fenced block, the brace-to-brace slice is a fixed point of `_clean_json`. */
  lemma UnfencedFixed(s: string)
    requires Search(s, 0).None?
    requires Strip(s) == s
    ensures CleanJson(CleanStripped(s)) == CleanStripped(s)
  {
    var start, end := Find(s, '{'), RFind(s, '}');
    if start != -1 && end != -1 && end > start {
      UnfencedSlice(s, start, end);
      CleanKeeps(s[start..end + 1]);
    } else {
      UnfencedPlain(s);
    }
  }

  /** Without a fenced block or braces in order, a stripped text is its own cleaning. */
  lemma UnfencedPlain(s: string)
    requires Search(s, 0).None?
    requires Strip(s) == s
    requires var start, end := Find(s, '{'), RFind(s, '}'); !(start != -1 && end != -1 && end > start)
    ensures CleanStripped(s) == s && CleanJson(s) == s
  {
    assert CleanStripped(s) == Fallback(s);
  }

  /** `_clean_json` is idempotent. */
  lemma CleanJsonIdempotent(text: string)
    ensures CleanJson(CleanJson(text)) == CleanJson(text)
  {
    var s := Strip(text);
    if Search(s, 0).Some? {
      FencedFixed(s);
    } else {
      StripStrip(text);
      UnfencedFixed(s);
    }
  }

  // --- analyze ---

  const ModelName := "gemini-2.5-flash"
  const EmptyResponseMessage := "Gemini returned empty response"
  const MissingModelMessage := "'GeminiVisionProvider' object has no attribute 'model_name'"

  /** The provider's state: the model name is set only when an API key was configured. */
  datatype GeminiProvider = GeminiProvider(modelName: Option<string>)

  /** `GeminiVisionProvider()` with the configured API key. */
  function NewGeminiProvider(apiKey: string): (p: GeminiProvider)
    ensures p.modelName.Some? <==> apiKey != ""
    ensures p.modelName.Some? ==> p.modelName.value == ModelName
  {
    if apiKey == "" then GeminiProvider(None) else GeminiProvider(Some(ModelName))
  }

  /** What the SDK call does: return a response whose `text` may be missing, or raise. */
  datatype SdkReply = Replied(text: Option<string>) | SdkRaised(message: string)

  /**
   * `analyze(image, prompt)`. `conversion` is the exception the BGR-to-RGB
   * conversion raises, if any; `parse` is `json.loads`, giving the decoded value
   * or the text of its error.
   */
  function Analyze(p: GeminiProvider, conversion: Option<Raised>, reply: SdkReply,
                   parse: string -> Result<Json, string>): Result<Json, Raised>
  {
    if p.modelName.None? then Err(Builtin("AttributeError", MissingModelMessage))
    else if conversion.Some? then Err(conversion.value)
    else
      match reply
      case SdkRaised(m) => Err(App(VisionFailure(m)))
      case Replied(text) =>
        if text.None? || text.value == "" then Err(App(VisionFailure(EmptyResponseMessage)))
        else
          match parse(CleanJson(text.value))
          case Ok(v) => Ok(v)
          case Err(m) => Err(App(VisionFailure(m)))
  }

  /**
   * Inside the try block every failure surfaces as `VisionFailure` (status 502):
   * an SDK error, an empty reply, or cleaned text that does not parse. A success
   * is the parse of the cleaned reply.
   */
  lemma AnalyzeFunnel(p: GeminiProvider, reply: SdkReply, parse: string -> Result<Json, string>)
    requires p.modelName.Some?
    ensures var r := Analyze(p, None, reply, parse);
      && (r.Err? ==> r.error.App? && r.error.error.VisionFailure? && r.error.error.Status() == 502)
      && (reply.SdkRaised? ==> r == Err(App(VisionFailure(reply.message))))
      && (reply == Replied(None) || reply == Replied(Some("")) ==> r == Err(App(VisionFailure(EmptyResponseMessage))))
      && (r.Ok? <==> reply.Replied? && reply.text.Some? && reply.text.value != ""
                     && parse(CleanJson(reply.text.value)).Ok?)
      && (r.Ok? ==> r.value == parse(CleanJson(reply.text.value)).value)
  {
  }

  /** Without an API key, `analyze` fails before its try block with an error that is not `VisionFailure`. */
  lemma AnalyzeWithoutKey(conversion: Option<Raised>, reply: SdkReply, parse: string -> Result<Json, string>)
    ensures Analyze(NewGeminiProvider(""), conversion, reply, parse) == Err(Builtin("AttributeError", MissingModelMessage))
  {
  }
}
