/**
 * The two parsing functions of the FlyCI Wingman bot: recognising a Wingman
 * comment, and extracting the bodies of its fenced diff/patch blocks. The
 * global regular expression /```(?:diff|patch)\n([\s\S]*?)```/g is modelled
 * as an explicit left-to-right scanner: at each position an opener
 * ("```diff" or "```patch" followed by a line feed), then the shortest body
 * up to the next "```"; the scan resumes after that closing fence.
 */
module PatchParser {
  import opened Optional

  const WINGMAN_MARKER: string := "FlyCI Wingman"
  const DIFF_FENCE: string := "```diff"
  const PATCH_FENCE: string := "```patch"
  const DIFF_OPENER: string := "```diff\n"
  const PATCH_OPENER: string := "```patch\n"
  const FENCE: string := "```"

  /** `pat` occurs in `s` starting at index `i`. */
  predicate OccursAt(s: string, pat: string, i: int) {
    0 <= i && i + |pat| <= |s| && forall k :: 0 <= k < |pat| ==> s[i + k] == pat[k]
  }

  /** JavaScript's `String.prototype.includes`, as a property. */
  ghost predicate Contains(s: string, pat: string) {
    exists i :: OccursAt(s, pat, i)
  }

  /** The first index at or after `from` where `pat` occurs in `s`. */
  function IndexOf(s: string, pat: string, from: nat): (r: Option<nat>)
    ensures r.Some? ==> from <= r.value && OccursAt(s, pat, r.value)
    ensures r.Some? ==> forall j :: from <= j < r.value ==> !OccursAt(s, pat, j)
    ensures r.None? ==> forall j :: from <= j ==> !OccursAt(s, pat, j)
    decreases |s| - from
  {
    if from + |pat| > |s| then None
    else if OccursAt(s, pat, from) then Some(from)
    else IndexOf(s, pat, from + 1)
  }

  /** `s.includes(pat)`. */
  function Includes(s: string, pat: string): (b: bool)
    ensures b <==> Contains(s, pat)
  {
    IndexOf(s, pat, 0).Some?
  }

  /** `isFlyciWingmanComment`: the marker and at least one diff or patch fence. */
  function IsFlyciWingmanComment(body: string): (b: bool)
    ensures b <==> Contains(body, WINGMAN_MARKER) && (Contains(body, DIFF_FENCE) || Contains(body, PATCH_FENCE))
  {
    Includes(body, WINGMAN_MARKER) && (Includes(body, DIFF_FENCE) || Includes(body, PATCH_FENCE))
  }

  /**
   * The characters `String.prototype.trim` removes: the ECMAScript WhiteSpace
   * (TAB, VT, FF, SPACE, NBSP, ZWNBSP and the Unicode space separators) and
   * LineTerminator (LF, CR, LS, PS) code points.
   */
  predicate IsJsWhitespace(c: char) {
    || c == '\t' || c == '\n' || c == '\U{000B}' || c == '\U{000C}' || c == '\r'
    || c == ' ' || c == '\U{00A0}' || c == '\U{1680}'
    || '\U{2000}' <= c <= '\U{200A}'
    || c == '\U{2028}' || c == '\U{2029}' || c == '\U{202F}' || c == '\U{205F}' || c == '\U{3000}'
    || c == '\U{FEFF}'
  }

  /** Every character of `t` is whitespace (so is the empty string). */
  ghost predicate AllJsWhitespace(t: string) {
    forall i :: 0 <= i < |t| ==> IsJsWhitespace(t[i])
  }

  /** `s` with its leading whitespace removed: a suffix of `s` that does not start with whitespace. */
  function TrimStart(s: string): (r: string)
    ensures |r| <= |s| && r == s[|s| - |r|..]
    ensures r != [] ==> !IsJsWhitespace(r[0])
    decreases |s|
  {
    if s != [] && IsJsWhitespace(s[0]) then TrimStart(s[1..]) else s
  }

  /** `s` with its trailing whitespace removed: a prefix of `s` that does not end with whitespace. */
  function TrimEnd(s: string): (r: string)
    ensures |r| <= |s| && r == s[..|r|]
    ensures r != [] ==> !IsJsWhitespace(r[|r| - 1])
    decreases |s|
  {
    if s != [] && IsJsWhitespace(s[|s| - 1]) then TrimEnd(s[..|s| - 1]) else s
  }

  /** What `TrimStart` removes is whitespace. */
  lemma {:induction false} TrimStartRemovesWhitespace(s: string)
    ensures AllJsWhitespace(s[..|s| - |TrimStart(s)|])
    decreases |s|
  {
    if s != [] && IsJsWhitespace(s[0]) {
      TrimStartRemovesWhitespace(s[1..]);
      var n := |s| - |TrimStart(s)|;
      assert s[..n] == [s[0]] + s[1..][..n - 1];
    }
  }

  /** What `TrimEnd` removes is whitespace. */
  lemma {:induction false} TrimEndRemovesWhitespace(s: string)
    ensures AllJsWhitespace(s[|TrimEnd(s)|..])
    decreases |s|
  {
    if s != [] && IsJsWhitespace(s[|s| - 1]) {
      var init := s[..|s| - 1];
      TrimEndRemovesWhitespace(init);
      var n := |TrimEnd(s)|;
      assert s[n..] == init[n..] + [s[|s| - 1]];
    }
  }

  /** `r` is the slice of `s` at `a`, and everything of `s` around it is whitespace. */
  ghost predicate TrimmedSliceAt(s: string, r: string, a: int) {
    && 0 <= a && a + |r| <= |s| && r == s[a..a + |r|]
    && AllJsWhitespace(s[..a])
    && AllJsWhitespace(s[a + |r|..])
  }

  /** `String.prototype.trim`: leading and trailing whitespace removed. */
  function Trim(s: string): (r: string)
    ensures |r| <= |s|
    ensures r != [] ==> !IsJsWhitespace(r[0]) && !IsJsWhitespace(r[|r| - 1])
  {
    TrimEnd(TrimStart(s))
  }

  lemma SuffixSlices(s: string, a: nat, k: nat)
    requires a + k <= |s|
    ensures s[a..][k..] == s[a + k..]
    ensures s[a..][..k] == s[a..a + k]
  {
  }

  /** A prefix `r` of the suffix `t == s[a..]`, with whitespace before `a` and after `r` in `t`, is a trimmed slice of `s`. */
  lemma SliceBetweenWhitespace(s: string, t: string, r: string, a: nat)
    requires a <= |s| && t == s[a..]
    requires |r| <= |t| && r == t[..|r|]
    requires AllJsWhitespace(s[..a]) && AllJsWhitespace(t[|r|..])
    ensures TrimmedSliceAt(s, r, a)
  {
    var k := |r|;
    forall i | a + k <= i < |s|
      ensures IsJsWhitespace(s[i])
    {
      assert s[i] == t[k..][i - a - k];
    }
    SuffixSlices(s, a, k);
  }

  /** The trimmed string is the slice of `s` that has only whitespace around it. */
  lemma TrimIsWhitespaceFreeSlice(s: string)
    ensures TrimmedSliceAt(s, Trim(s), |s| - |TrimStart(s)|)
  {
    var t := TrimStart(s);
    TrimStartRemovesWhitespace(s);
    TrimEndRemovesWhitespace(t);
    var r := TrimEnd(t);
    assert Trim(s) == r;
    SliceBetweenWhitespace(s, t, r, |s| - |t|);
  }

  /** Trimming a trimmed string changes nothing. */
  lemma TrimIdempotent(s: string)
    ensures Trim(Trim(s)) == Trim(s)
  {
    var r := Trim(s);
    if r != [] {
      TrimStartKeeps(r);
      TrimEndKeeps(r);
    }
  }

  lemma TrimStartKeeps(s: string)
    requires s != [] && !IsJsWhitespace(s[0])
    ensures TrimStart(s) == s
  {
  }

  lemma TrimEndKeeps(s: string)
    requires s != [] && !IsJsWhitespace(s[|s| - 1])
    ensures TrimEnd(s) == s
  {
  }

  /** A string trims to nothing exactly when it is whitespace only. */
  lemma TrimEmptyIffWhitespace(s: string)
    ensures Trim(s) == [] <==> AllJsWhitespace(s)
  {
    var a := |s| - |TrimStart(s)|;
    TrimIsWhitespaceFreeSlice(s);
    if Trim(s) == [] {
      assert s == s[..a] + s[a..];
    } else {
      assert s[a] == Trim(s)[0];
    }
  }

  /**
   * The regular expression matches at `start` with its capture group spanning
   * `[bodyStart, bodyEnd)`: an opener at `start`, and `bodyEnd` the first
   * closing fence at or after `bodyStart` (the lazy `*?` takes the shortest body).
   */
  ghost predicate MatchesAt(s: string, start: int, bodyStart: int, bodyEnd: int) {
    && ((OccursAt(s, DIFF_OPENER, start) && bodyStart == start + |DIFF_OPENER|)
        || (OccursAt(s, PATCH_OPENER, start) && bodyStart == start + |PATCH_OPENER|))
    && bodyStart <= bodyEnd
    && OccursAt(s, FENCE, bodyEnd)
    && forall j :: bodyStart <= j < bodyEnd ==> !OccursAt(s, FENCE, j)
  }

  /** "```" at `i`, compared character by character. */
  predicate IsFenceAt(s: string, i: int) {
    0 <= i && i + 3 <= |s| && s[i] == '`' && s[i + 1] == '`' && s[i + 2] == '`'
  }

  /** The length of the opener at `p` ("```diff" or "```patch", then a line feed), if there is one. */
  function OpenerAt(s: string, p: nat): Option<nat>
  {
    if IsFenceAt(s, p) && p + 8 <= |s|
       && s[p + 3] == 'd' && s[p + 4] == 'i' && s[p + 5] == 'f' && s[p + 6] == 'f' && s[p + 7] == '\n'
    then Some(8)
    else if IsFenceAt(s, p) && p + 9 <= |s|
       && s[p + 3] == 'p' && s[p + 4] == 'a' && s[p + 5] == 't' && s[p + 6] == 'c' && s[p + 7] == 'h' && s[p + 8] == '\n'
    then Some(9)
    else None
  }

  /** The first closing fence at or after `from`. */
  function FindFence(s: string, from: nat): (r: Option<nat>)
    ensures r.Some? ==> from <= r.value && IsFenceAt(s, r.value)
    ensures r.Some? ==> forall j :: from <= j < r.value ==> !IsFenceAt(s, j)
    ensures r.None? ==> forall j :: from <= j ==> !IsFenceAt(s, j)
    decreases |s| - from
  {
    if from + 3 > |s| then None
    else if IsFenceAt(s, from) then Some(from)
    else FindFence(s, from + 1)
  }

  /** One match of the expression: where it starts, and where its capture group begins and ends. */
  datatype Match = Match(start: nat, bodyStart: nat, bodyEnd: nat)

  /** The match of the expression anchored at `p`, if there is one. */
  function MatchAt(s: string, p: nat): (r: Option<Match>)
    ensures r.Some? ==> r.value.start == p && p < r.value.bodyStart <= r.value.bodyEnd
    ensures r.Some? ==> IsFenceAt(s, r.value.bodyEnd)
  {
    match OpenerAt(s, p)
    case None => None
    case Some(n) =>
      match FindFence(s, p + n)
      case None => None
      case Some(e) => Some(Match(p, p + n, e))
  }

  lemma FenceAgrees(s: string, i: int)
    ensures IsFenceAt(s, i) <==> OccursAt(s, FENCE, i)
  {
    if OccursAt(s, FENCE, i) {
      assert s[i + 0] == FENCE[0] && s[i + 1] == FENCE[1] && s[i + 2] == FENCE[2];
    }
  }

  lemma OpenerAgrees(s: string, p: nat)
    ensures OpenerAt(s, p) == Some(|DIFF_OPENER|) <==> OccursAt(s, DIFF_OPENER, p)
    ensures OpenerAt(s, p) == Some(|PATCH_OPENER|) <==> OccursAt(s, PATCH_OPENER, p)
    ensures OpenerAt(s, p).Some? ==> OpenerAt(s, p) == Some(|DIFF_OPENER|) || OpenerAt(s, p) == Some(|PATCH_OPENER|)
  {
    if OccursAt(s, DIFF_OPENER, p) {
      assert s[p + 0] == DIFF_OPENER[0] && s[p + 1] == DIFF_OPENER[1] && s[p + 2] == DIFF_OPENER[2];
      assert s[p + 3] == DIFF_OPENER[3] && s[p + 4] == DIFF_OPENER[4] && s[p + 5] == DIFF_OPENER[5];
      assert s[p + 6] == DIFF_OPENER[6] && s[p + 7] == DIFF_OPENER[7];
    }
    if OccursAt(s, PATCH_OPENER, p) {
      assert s[p + 0] == PATCH_OPENER[0] && s[p + 1] == PATCH_OPENER[1] && s[p + 2] == PATCH_OPENER[2];
      assert s[p + 3] == PATCH_OPENER[3] && s[p + 4] == PATCH_OPENER[4] && s[p + 5] == PATCH_OPENER[5];
      assert s[p + 6] == PATCH_OPENER[6] && s[p + 7] == PATCH_OPENER[7] && s[p + 8] == PATCH_OPENER[8];
    }
  }

  /** `MatchAt` finds exactly the regular expression's match at `p`, and reports none when there is none. */
  lemma MatchAtIsRegexMatch(s: string, p: nat)
    ensures MatchAt(s, p).Some? ==>
              MatchAt(s, p).value.start == p && MatchesAt(s, p, MatchAt(s, p).value.bodyStart, MatchAt(s, p).value.bodyEnd)
    ensures MatchAt(s, p).None? ==> forall b, e :: !MatchesAt(s, p, b, e)
  {
    OpenerAgrees(s, p);
    forall j | true
      ensures IsFenceAt(s, j) <==> OccursAt(s, FENCE, j)
    {
      FenceAgrees(s, j);
    }
  }

  /** `regex.exec(s)` with `lastIndex == from`: the first position at or after `from` where the expression matches. */
  function NextMatch(s: string, from: nat): (m: Option<Match>)
    ensures m.Some? ==> from <= m.value.start < m.value.bodyStart <= m.value.bodyEnd && Resume(m.value) <= |s|
    decreases |s| - from
  {
    if from >= |s| then None
    else
      match MatchAt(s, from)
      case Some(m) => Some(m)
      case None => NextMatch(s, from + 1)
  }

  /** The match `NextMatch` finds is the one at its start, and no match starts between `from` and there. */
  lemma {:induction false} NextMatchFound(s: string, from: nat, m: Match)
    requires NextMatch(s, from) == Some(m)
    ensures MatchAt(s, m.start) == Some(m)
    ensures forall p :: from <= p < m.start ==> MatchAt(s, p).None?
    decreases |s| - from
  {
    if MatchAt(s, from).None? {
      NextMatchFound(s, from + 1, m);
    }
  }

  /** When `NextMatch` finds nothing, no match starts at or after `from`. */
  lemma {:induction false} NextMatchNotFound(s: string, from: nat)
    requires NextMatch(s, from).None?
    ensures forall p :: from <= p ==> MatchAt(s, p).None?
    decreases |s| - from
  {
    if from < |s| {
      NextMatchNotFound(s, from + 1);
    }
  }

  /**
   * `NextMatch` is `exec` of the global expression: the leftmost match at or
   * after `from`, and none when the expression does not match there.
   */
  lemma NextMatchIsLeftmost(s: string, from: nat)
    ensures NextMatch(s, from).Some? ==>
              var m := NextMatch(s, from).value;
              && MatchesAt(s, m.start, m.bodyStart, m.bodyEnd)
              && forall p, b, e :: from <= p < m.start ==> !MatchesAt(s, p, b, e)
    ensures NextMatch(s, from).None? ==> forall p, b, e :: from <= p ==> !MatchesAt(s, p, b, e)
  {
    match NextMatch(s, from)
    case Some(m) =>
      NextMatchFound(s, from, m);
      MatchAtIsRegexMatch(s, m.start);
      forall p, b, e | from <= p < m.start
        ensures !MatchesAt(s, p, b, e)
      {
        MatchAtIsRegexMatch(s, p);
      }
    case None =>
      NextMatchNotFound(s, from);
      forall p, b, e | from <= p
        ensures !MatchesAt(s, p, b, e)
      {
        MatchAtIsRegexMatch(s, p);
      }
  }

  /** Where the scan resumes after a match: just past its closing fence. */
  function Resume(m: Match): nat {
    m.bodyEnd + |FENCE|
  }

  /** An opener starts at `p`. */
  predicate IsOpenerAt(s: string, p: nat) {
    OpenerAt(s, p).Some?
  }

  /** The number of openers at or after `from`. */
  function OpenersFrom(s: string, from: nat): nat
    decreases |s| - from
  {
    if from >= |s| then 0
    else (if IsOpenerAt(s, from) then 1 else 0) + OpenersFrom(s, from + 1)
  }

  lemma {:induction false} OpenersFromMonotone(s: string, a: nat, b: nat)
    requires a <= b
    ensures OpenersFrom(s, a) >= OpenersFrom(s, b)
    decreases b - a
  {
    if a < b {
      OpenersFromMonotone(s, a + 1, b);
    }
  }

  /** The patch one match yields: its trimmed capture group, or nothing when that trims to nothing. */
  function PatchOf(s: string, m: Match): (r: seq<string>)
    requires m.bodyStart <= m.bodyEnd <= |s|
    ensures |r| <= 1
  {
    var patch := Trim(s[m.bodyStart..m.bodyEnd]);
    if patch != [] then [patch] else []
  }

  /**
   * The patches found by the scan from `from` on: the patch of each match,
   * in order, the scan resuming after each match's closing fence.
   */
  function PatchesFrom(s: string, from: nat): (patches: seq<string>)
    decreases |s| - from
  {
    match NextMatch(s, from)
    case None => []
    case Some(m) => PatchOf(s, m) + PatchesFrom(s, Resume(m))
  }

  /** The patch of one match, if any, is non-empty and already trimmed. */
  lemma PatchOfTrimmed(s: string, m: Match)
    requires m.bodyStart <= m.bodyEnd <= |s|
    ensures forall i :: 0 <= i < |PatchOf(s, m)| ==> PatchOf(s, m)[i] != [] && Trim(PatchOf(s, m)[i]) == PatchOf(s, m)[i]
  {
    TrimIdempotent(s[m.bodyStart..m.bodyEnd]);
  }

  /** Every extracted patch is non-empty and already trimmed. */
  lemma {:induction false} PatchesAreTrimmed(s: string, from: nat)
    ensures forall i :: 0 <= i < |PatchesFrom(s, from)| ==>
              PatchesFrom(s, from)[i] != [] && Trim(PatchesFrom(s, from)[i]) == PatchesFrom(s, from)[i]
    decreases |s| - from
  {
    match NextMatch(s, from)
    case None =>
    case Some(m) =>
      var here, rest := PatchOf(s, m), PatchesFrom(s, Resume(m));
      assert PatchesFrom(s, from) == here + rest;
      PatchOfTrimmed(s, m);
      PatchesAreTrimmed(s, Resume(m));
      forall i | 0 <= i < |here + rest|
        ensures (here + rest)[i] != [] && Trim((here + rest)[i]) == (here + rest)[i]
      {
        if i >= |here| {
          assert (here + rest)[i] == rest[i - |here|];
        }
      }
  }

  /** A match found by `NextMatch` starts at an opener. */
  lemma {:induction false} NextMatchAtOpener(s: string, from: nat, m: Match)
    requires NextMatch(s, from) == Some(m)
    ensures m.start < |s| && IsOpenerAt(s, m.start)
    decreases |s| - from
  {
    if MatchAt(s, from).None? {
      NextMatchAtOpener(s, from + 1, m);
    }
  }

  /** An opener at `start`, between `from` and `resume`, is one more opener from `from` than from `resume`. */
  lemma OpenerCountStep(s: string, from: nat, start: nat, resume: nat)
    requires from <= start < resume && start < |s| && IsOpenerAt(s, start)
    ensures OpenersFrom(s, from) >= 1 + OpenersFrom(s, resume)
  {
    OpenersFromMonotone(s, from, start);
    OpenersFromMonotone(s, start + 1, resume);
  }

  /** Matches do not overlap, so there are never more patches than openers. */
  lemma {:induction false} PatchesBoundedByOpeners(s: string, from: nat)
    ensures |PatchesFrom(s, from)| <= OpenersFrom(s, from)
    decreases |s| - from
  {
    match NextMatch(s, from)
    case None =>
    case Some(m) =>
      NextMatchAtOpener(s, from, m);
      PatchesBoundedByOpeners(s, Resume(m));
      OpenerCountStep(s, from, m.start, Resume(m));
  }

  /** `extractPatches`: the `while (regex.exec(...))` loop with its `lastIndex`. */
  method ExtractPatches(body: string) returns (patches: seq<string>)
    ensures patches == PatchesFrom(body, 0)
  {
    patches := [];
    var lastIndex: nat := 0;
    var m := NextMatch(body, lastIndex);
    while m.Some?
      invariant m == NextMatch(body, lastIndex)
      invariant PatchesFrom(body, 0) == patches + PatchesFrom(body, lastIndex)
      decreases |body| - lastIndex
    {
      patches := patches + PatchOf(body, m.value);
      lastIndex := Resume(m.value);
      m := NextMatch(body, lastIndex);
    }
  }

  /** Both openers end in a line feed, so a body without one yields no patch. */
  lemma NoLineFeedNoPatches(s: string, from: nat)
    requires forall i :: 0 <= i < |s| ==> s[i] != '\n'
    ensures PatchesFrom(s, from) == []
  {
    if m :| NextMatch(s, from) == Some(m) {
      NextMatchFound(s, from, m);
    }
  }

  /** A fence word not followed directly by a line feed opens no block: no match starts there. */
  lemma FenceWithoutLineFeedNoMatch(s: string, p: nat)
    requires || (OccursAt(s, DIFF_FENCE, p) && !OccursAt(s, DIFF_OPENER, p))
             || (OccursAt(s, PATCH_FENCE, p) && !OccursAt(s, PATCH_OPENER, p))
    ensures forall b, e :: !MatchesAt(s, p, b, e)
  {
    if OccursAt(s, DIFF_FENCE, p) {
      assert s[p + 3] == DIFF_FENCE[3] == 'd';
      assert !OccursAt(s, PATCH_OPENER, p) by { if p + 9 <= |s| { assert PATCH_OPENER[3] == 'p'; } }
    } else {
      assert s[p + 3] == PATCH_FENCE[3] == 'p';
      assert !OccursAt(s, DIFF_OPENER, p) by { if p + 8 <= |s| { assert DIFF_OPENER[3] == 'd'; } }
    }
  }

  /** An opener with no closing fence after it, and any later opener, yields no patch. */
  lemma UnclosedOpenerNoPatches(s: string, p: nat)
    requires forall j :: p + |DIFF_OPENER| <= j ==> !OccursAt(s, FENCE, j)
    ensures PatchesFrom(s, p) == []
  {
    if m :| NextMatch(s, p) == Some(m) {
      NextMatchFound(s, p, m);
      FenceAgrees(s, m.bodyEnd);
    }
  }

  /** A comment can pass `isFlyciWingmanComment` and still yield no patch (the bot then reports that none was found). */
  lemma WingmanCommentWithoutPatches()
    ensures var body := "FlyCI Wingman ```diff"; IsFlyciWingmanComment(body) && PatchesFrom(body, 0) == []
  {
    var body := "FlyCI Wingman ```diff";
    assert OccursAt(body, WINGMAN_MARKER, 0);
    assert OccursAt(body, DIFF_FENCE, 14);
    NoLineFeedNoPatches(body, 0);
  }
}
