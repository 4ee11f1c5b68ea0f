/**
 * The two regular expressions the gift pipeline runs on the model's reply,
 * under `String.prototype.match` without the `g` flag:
 *
 *   strict  /\[\s*\{[\s\S]*\}\s*\]/   an array whose content starts with `{`
 *                                    and ends with `}`
 *   loose   /\[[\s\S]*\]/            anything between brackets
 *
 * Each is written as the search a backtracking engine performs (start
 * positions left to right; at each, greedy quantifiers try the longest
 * extent first and give back one character at a time), and is then proved
 * to return the leftmost match, and the longest one at that position, of a
 * declarative description of the pattern.
 */
module Patterns {
  import opened Wrappers

  /** ECMAScript `\s`: the WhiteSpace and LineTerminator code points. */
  predicate IsSpace(c: char)
  {
    c == '\t' || c == '\n' || c == '\U{000B}' || c == '\U{000C}' || c == '\r'
    || c == ' ' || c == '\U{00A0}' || c == '\U{1680}'
    || ('\U{2000}' <= c && c <= '\U{200A}')
    || c == '\U{2028}' || c == '\U{2029}' || c == '\U{202F}' || c == '\U{205F}'
    || c == '\U{3000}' || c == '\U{FEFF}'
  }

  /** Every character of s[lo..hi] is matched by `\s`. */
  ghost predicate AllSpace(s: string, lo: int, hi: int)
  {
    forall k | lo <= k < hi :: 0 <= k < |s| && IsSpace(s[k])
  }

  /** A match: the characters s[start..end]. */
  datatype Span = Span(start: nat, end: nat)

  /** s[i..j] is a string the strict pattern describes:
      `[`, spaces, `{`, anything, `}`, spaces, `]`. */
  ghost predicate StrictMatchAt(s: string, i: int, j: int)
  {
    0 <= i && i + 4 <= j <= |s| && s[i] == '[' && s[j - 1] == ']'
    && exists a, b :: i < a < b < j - 1 && AllSpace(s, i + 1, a) && s[a] == '{'
                      && s[b] == '}' && AllSpace(s, b + 1, j - 1)
  }

  /** s[i..j] is a string the loose pattern describes: `[`, anything, `]`. */
  predicate LooseMatchAt(s: string, i: int, j: int)
  {
    0 <= i && i + 2 <= j <= |s| && s[i] == '[' && s[j - 1] == ']'
  }

  // ---------------------------------------------------------------------
  // The engine's search for the strict pattern.

  /** Where a greedy `\s*` started at k stops: the first non-space at or
      after k, or the end of s. */
  function SkipSpaces(s: string, k: nat): (p: nat)
    requires k <= |s|
    ensures k <= p <= |s|
    ensures AllSpace(s, k, p)
    ensures p < |s| ==> !IsSpace(s[p])
    decreases |s| - k
  {
    if k == |s| || !IsSpace(s[k]) then k else SkipSpaces(s, k + 1)
  }

  /** `\[\s*\{` tried at i: the index of the `{` when it matches. It is the
      only index a that can follow `[` and spaces with a `{`. */
  function OpenAt(s: string, i: nat): (r: Option<nat>)
    requires i < |s|
    ensures r.Some? ==> i < r.value < |s| && s[i] == '[' && AllSpace(s, i + 1, r.value) && s[r.value] == '{'
    ensures forall a :: i < a < |s| && s[i] == '[' && AllSpace(s, i + 1, a) && s[a] == '{' ==> r == Some(a)
  {
    if s[i] != '[' then None
    else
      var a := SkipSpaces(s, i + 1);
      if a < |s| && s[a] == '{' then Some(a) else None
  }

  /** `\}\s*\]` tried at b: the end of the match when it matches. It is the
      only end j for which s[b..j] is `}`, spaces, `]`. */
  function CloseAt(s: string, b: nat): (r: Option<nat>)
    requires b < |s|
    ensures r.Some? ==> b + 2 <= r.value <= |s| && s[b] == '}' && AllSpace(s, b + 1, r.value - 1) && s[r.value - 1] == ']'
    ensures forall j :: b + 2 <= j <= |s| && s[b] == '}' && AllSpace(s, b + 1, j - 1) && s[j - 1] == ']' ==> r == Some(j)
  {
    if s[b] != '}' then None
    else
      var f := SkipSpaces(s, b + 1);
      if f < |s| && s[f] == ']' then Some(f + 1) else None
  }

  /** The greedy `[\s\S]*` between `{` and `}`: the engine tries the `}` at
      e, e - 1, …, lo and keeps the first (rightmost) position that closes. */
  function LastClose(s: string, lo: nat, e: int): (r: Option<nat>)
    requires e < |s|
    ensures r.Some? ==> lo <= r.value <= e && CloseAt(s, r.value).Some?
    ensures r.Some? ==> forall b :: r.value < b <= e ==> CloseAt(s, b).None?
    ensures r.None? ==> forall b :: lo <= b <= e ==> CloseAt(s, b).None?
    decreases e + 1 - lo
  {
    if e < lo then None
    else if CloseAt(s, e).Some? then Some(e)
    else LastClose(s, lo, e - 1)
  }

  /** The strict pattern's match among start positions i, i + 1, …. */
  function StrictFrom(s: string, i: nat): (r: Option<Span>)
    requires i <= |s|
    ensures r.Some? ==> i <= r.value.start < r.value.end <= |s|
    decreases |s| - i
  {
    if i == |s| then None
    else match OpenAt(s, i)
      case None => StrictFrom(s, i + 1)
      case Some(a) =>
        match LastClose(s, a + 1, |s| - 1)
        case None => StrictFrom(s, i + 1)
        case Some(b) => Some(Span(i, CloseAt(s, b).value))
  }

  /** `s.match(/\[\s*\{[\s\S]*\}\s*\]/)`, as the span of `match[0]`. */
  function StrictMatch(s: string): (r: Option<Span>)
    ensures r.Some? ==> r.value.start < r.value.end <= |s|
  {
    StrictFrom(s, 0)
  }

  // ---------------------------------------------------------------------
  // The engine's search for the loose pattern.

  /** The greedy `[\s\S]*` before `]`: the rightmost `]` in s[lo..e + 1]. */
  function LastBracket(s: string, lo: nat, e: int): (r: Option<nat>)
    requires e < |s|
    ensures r.Some? ==> lo <= r.value <= e && s[r.value] == ']'
    ensures r.Some? ==> forall k :: r.value < k <= e ==> s[k] != ']'
    ensures r.None? ==> forall k :: lo <= k <= e ==> s[k] != ']'
    decreases e + 1 - lo
  {
    if e < lo then None
    else if s[e] == ']' then Some(e)
    else LastBracket(s, lo, e - 1)
  }

  /** The loose pattern's match among start positions i, i + 1, …. */
  function LooseFrom(s: string, i: nat): (r: Option<Span>)
    requires i <= |s|
    ensures r.Some? ==> i <= r.value.start < r.value.end <= |s|
    decreases |s| - i
  {
    if i == |s| then None
    else if s[i] != '[' then LooseFrom(s, i + 1)
    else match LastBracket(s, i + 1, |s| - 1)
      case None => LooseFrom(s, i + 1)
      case Some(e) => Some(Span(i, e + 1))
  }

  /** `s.match(/\[[\s\S]*\]/)`, as the span of `match[0]`. */
  function LooseMatch(s: string): (r: Option<Span>)
    ensures r.Some? ==> r.value.start < r.value.end <= |s|
  {
    LooseFrom(s, 0)
  }

  // ---------------------------------------------------------------------
  // What the searches find.

  /** sp is the leftmost strict match in s, and the longest one there. */
  ghost predicate StrictLeftmostLongest(s: string, sp: Span)
  {
    StrictMatchAt(s, sp.start, sp.end)
    && (forall i, j :: 0 <= i < sp.start ==> !StrictMatchAt(s, i, j))
    && (forall j :: sp.end < j ==> !StrictMatchAt(s, sp.start, j))
  }

  /** sp is the leftmost loose match in s, and the longest one there. */
  ghost predicate LooseLeftmostLongest(s: string, sp: Span)
  {
    LooseMatchAt(s, sp.start, sp.end)
    && (forall i, j :: 0 <= i < sp.start ==> !LooseMatchAt(s, i, j))
    && (forall j :: sp.end < j ==> !LooseMatchAt(s, sp.start, j))
  }

  /** A strict match at i starts with the opening the engine finds at i
      and ends with a closing after it. */
  lemma StrictMatchAtSound(s: string, i: nat, j: int)
    requires i < |s| && StrictMatchAt(s, i, j)
    ensures OpenAt(s, i).Some? && exists b :: OpenAt(s, i).value < b < |s| && CloseAt(s, b) == Some(j)
  {
    var a, b :| i < a < b < j - 1 && AllSpace(s, i + 1, a) && s[a] == '{'
                && s[b] == '}' && AllSpace(s, b + 1, j - 1);
    assert OpenAt(s, i) == Some(a);
    assert CloseAt(s, b) == Some(j);
  }

  /** An opening at i and a closing after it make a strict match. */
  lemma StrictMatchAtComplete(s: string, i: nat, b: nat, j: int)
    requires i < |s| && OpenAt(s, i).Some? && OpenAt(s, i).value < b < |s| && CloseAt(s, b) == Some(j)
    ensures StrictMatchAt(s, i, j)
  {
    var a := OpenAt(s, i).value;
    assert i < a && s[i] == '[' && AllSpace(s, i + 1, a) && s[a] == '{';
    assert b + 2 <= j <= |s| && s[b] == '}' && AllSpace(s, b + 1, j - 1) && s[j - 1] == ']';
    assert i + 4 <= j;
  }

  /** A strict match at i is an opening `[`…`{` at i followed by some
      closing `}`…`]` after the `{`. */
  lemma StrictMatchAtIff(s: string, i: nat, j: int)
    requires i < |s|
    ensures StrictMatchAt(s, i, j) <==>
      OpenAt(s, i).Some? && exists b :: OpenAt(s, i).value < b < |s| && CloseAt(s, b) == Some(j)
  {
    if StrictMatchAt(s, i, j) {
      StrictMatchAtSound(s, i, j);
    }
    if OpenAt(s, i).Some? && exists b :: OpenAt(s, i).value < b < |s| && CloseAt(s, b) == Some(j) {
      var b :| OpenAt(s, i).value < b < |s| && CloseAt(s, b) == Some(j);
      StrictMatchAtComplete(s, i, b, j);
    }
  }

  /** A closing `}`…`]` further right ends further right. */
  lemma CloseMonotone(s: string, b1: nat, b2: nat)
    requires b1 < b2 < |s|
    requires CloseAt(s, b1).Some? && CloseAt(s, b2).Some?
    ensures CloseAt(s, b1).value < CloseAt(s, b2).value
  {
  }

  /** sp is the first strict match at a start position i or later, and
      the longest one at its start. */
  ghost predicate StrictFirstFrom(s: string, i: int, sp: Span)
  {
    i <= sp.start && StrictMatchAt(s, sp.start, sp.end)
    && (forall i', j :: i <= i' < sp.start ==> !StrictMatchAt(s, i', j))
    && (forall j :: sp.end < j ==> !StrictMatchAt(s, sp.start, j))
  }

  /** No strict match starts at i. */
  lemma NoStrictMatchAt(s: string, i: nat)
    requires i < |s|
    requires OpenAt(s, i).None?
             || LastClose(s, OpenAt(s, i).value + 1, |s| - 1).None?
    ensures forall j :: !StrictMatchAt(s, i, j)
  {
    forall j ensures !StrictMatchAt(s, i, j) {
      StrictMatchAtIff(s, i, j);
    }
  }

  /** When the opening at i is followed by a closing, the engine's choice
      of the rightmost closing gives a strict match at i that no longer
      strict match at i extends. */
  lemma LongestStrictAt(s: string, i: nat)
    requires i < |s| && OpenAt(s, i).Some?
    requires LastClose(s, OpenAt(s, i).value + 1, |s| - 1).Some?
    ensures var end := CloseAt(s, LastClose(s, OpenAt(s, i).value + 1, |s| - 1).value).value;
      StrictMatchAt(s, i, end) && forall j :: end < j ==> !StrictMatchAt(s, i, j)
  {
    var a := OpenAt(s, i).value;
    var b := LastClose(s, a + 1, |s| - 1).value;
    var end := CloseAt(s, b).value;
    StrictMatchAtIff(s, i, end);
    forall b' | a < b' < |s| && CloseAt(s, b').Some? ensures CloseAt(s, b').value <= end {
      if b' < b {
        CloseMonotone(s, b', b);
      }
    }
    forall j | end < j ensures !StrictMatchAt(s, i, j) {
      StrictMatchAtIff(s, i, j);
    }
  }

  /** With no strict match at i, the first match from i + 1 is the first
      from i. */
  lemma FirstFromEarlier(s: string, i: nat, sp: Span)
    requires forall j :: !StrictMatchAt(s, i, j)
    requires StrictFirstFrom(s, i + 1, sp)
    ensures StrictFirstFrom(s, i, sp)
  {
    assert i < sp.start;
    forall i', j | i <= i' < sp.start ensures !StrictMatchAt(s, i', j) {
      if i' == i {
      } else {
      }
    }
  }

  /** With no strict match at i nor after it, there is none from i. */
  lemma NoneFromEarlier(s: string, i: nat)
    requires forall j :: !StrictMatchAt(s, i, j)
    requires forall i', j :: i + 1 <= i' ==> !StrictMatchAt(s, i', j)
    ensures forall i', j :: i <= i' ==> !StrictMatchAt(s, i', j)
  {
    forall i', j | i <= i' ensures !StrictMatchAt(s, i', j) {
      if i' == i {
      } else {
      }
    }
  }

  lemma {:induction false} StrictFromFinds(s: string, i: nat)
    requires i <= |s|
    ensures StrictFrom(s, i).Some? ==> StrictFirstFrom(s, i, StrictFrom(s, i).value)
    ensures StrictFrom(s, i).None? ==> forall i', j :: i <= i' ==> !StrictMatchAt(s, i', j)
    decreases |s| - i
  {
    if i == |s| {
    } else if OpenAt(s, i).None? || LastClose(s, OpenAt(s, i).value + 1, |s| - 1).None? {
      NoStrictMatchAt(s, i);
      StrictFromFinds(s, i + 1);
      assert StrictFrom(s, i) == StrictFrom(s, i + 1);
      if StrictFrom(s, i + 1).Some? {
        FirstFromEarlier(s, i, StrictFrom(s, i + 1).value);
      } else {
        NoneFromEarlier(s, i);
      }
    } else {
      LongestStrictAt(s, i);
    }
  }

  /** The strict pattern's match is the leftmost and, at its start, the
      longest substring the pattern describes; there is none exactly when
      no substring is described by it. */
  lemma StrictMatchIsLeftmostLongest(s: string)
    ensures StrictMatch(s).Some? ==> StrictLeftmostLongest(s, StrictMatch(s).value)
    ensures StrictMatch(s).None? <==> forall i, j :: !StrictMatchAt(s, i, j)
  {
    StrictFromFinds(s, 0);
  }

  /** As for the strict search, for the loose one. */
  ghost predicate LooseFirstFrom(s: string, i: int, sp: Span)
  {
    i <= sp.start && LooseMatchAt(s, sp.start, sp.end)
    && (forall i', j :: i <= i' < sp.start ==> !LooseMatchAt(s, i', j))
    && (forall j :: sp.end < j ==> !LooseMatchAt(s, sp.start, j))
  }

  lemma {:induction false} LooseFromFinds(s: string, i: nat)
    requires i <= |s|
    ensures LooseFrom(s, i).Some? ==> LooseFirstFrom(s, i, LooseFrom(s, i).value)
    ensures LooseFrom(s, i).None? ==> forall i', j :: i <= i' ==> !LooseMatchAt(s, i', j)
    decreases |s| - i
  {
    if i < |s| {
      LooseFromFinds(s, i + 1);
    }
  }

  /** The loose pattern's match is the leftmost and longest substring it
      describes; there is none exactly when no substring is described. */
  lemma LooseMatchIsLeftmostLongest(s: string)
    ensures LooseMatch(s).Some? ==> LooseLeftmostLongest(s, LooseMatch(s).value)
    ensures LooseMatch(s).None? <==> forall i, j :: !LooseMatchAt(s, i, j)
  {
    LooseFromFinds(s, 0);
  }

  /** In the terms of the reply text: the loose match runs from the first
      `[` of s to the last `]` of s, and there is no match exactly when no
      `]` comes after the first `[` (or s has no `[` at all). */
  lemma LooseMatchIsFirstToLast(s: string)
    ensures LooseMatch(s).Some? ==>
      var sp := LooseMatch(s).value;
      sp.start + 2 <= sp.end <= |s|
      && s[sp.start] == '[' && '[' !in s[..sp.start]
      && s[sp.end - 1] == ']' && ']' !in s[sp.end..]
    ensures LooseMatch(s).None? <==>
      forall p :: 0 <= p < |s| && s[p] == '[' && '[' !in s[..p] ==> ']' !in s[p + 1..]
  {
    LooseMatchIsLeftmostLongest(s);
    if LooseMatch(s).Some? {
      var sp := LooseMatch(s).value;
      forall k | 0 <= k < sp.start ensures s[..sp.start][k] != '[' {
        assert !LooseMatchAt(s, k, sp.end);
      }
      forall k | 0 <= k < |s| - sp.end ensures s[sp.end..][k] != ']' {
        assert !LooseMatchAt(s, sp.start, sp.end + k + 1);
      }
      var p := sp.start;
      assert s[p + 1..][sp.end - 1 - (p + 1)] == ']';
    } else {
      forall p | 0 <= p < |s| && s[p] == '[' && '[' !in s[..p] ensures ']' !in s[p + 1..] {
        var rest := s[p + 1..];
        forall k | 0 <= k < |rest| ensures rest[k] != ']' {
          assert !LooseMatchAt(s, p, p + 1 + k + 1);
        }
      }
    }
  }

  /** Every strict match is also a loose one, so when the strict pattern
      matches, the loose one would too, starting no later. */
  lemma StrictWithinLoose(s: string)
    requires StrictMatch(s).Some?
    ensures LooseMatch(s).Some?
    ensures LooseMatch(s).value.start <= StrictMatch(s).value.start
    ensures StrictMatch(s).value.end <= LooseMatch(s).value.end
  {
    StrictMatchIsLeftmostLongest(s);
    LooseMatchIsLeftmostLongest(s);
    var sp := StrictMatch(s).value;
    assert LooseMatchAt(s, sp.start, sp.end);
    var lp := LooseMatch(s).value;
    assert LooseMatchAt(s, lp.start, sp.end);
  }

  /** A strict match of arr is one of pre + arr + post, moved by |pre|. */
  lemma StrictMatchShifts(pre: string, arr: string, post: string)
    requires StrictMatchAt(arr, 0, |arr|)
    ensures StrictMatchAt(pre + arr + post, |pre|, |pre| + |arr|)
  {
    var s := pre + arr + post;
    var lo, hi := |pre|, |pre| + |arr|;
    var a, b :| 0 < a < b < |arr| - 1 && AllSpace(arr, 1, a) && arr[a] == '{'
                && arr[b] == '}' && AllSpace(arr, b + 1, |arr| - 1);
    forall k | lo <= k < hi ensures s[k] == arr[k - lo] {
    }
    assert AllSpace(s, lo + 1, lo + a);
    assert AllSpace(s, lo + b + 1, hi - 1);
    assert s[lo + a] == '{' && s[lo + b] == '}';
  }

  /** A strict match cannot run past a `]` at hi - 1 when no `}` comes at or
      after hi. */
  lemma StrictMatchEndsBy(s: string, i: nat, j: int, hi: nat)
    requires StrictMatchAt(s, i, j)
    requires i < hi - 1 && hi <= |s| && s[hi - 1] == ']'
    requires forall k :: hi <= k < |s| ==> s[k] != '}'
    ensures j <= hi
  {
    var a, b :| i < a < b < j - 1 && AllSpace(s, i + 1, a) && s[a] == '{'
                && s[b] == '}' && AllSpace(s, b + 1, j - 1);
    assert b < hi - 1;
    assert !IsSpace(s[hi - 1]);
  }

  /** Where pre + arr + post has its brackets, given where pre, arr and
      post have theirs. */
  lemma EmbeddedCharacters(pre: string, arr: string, post: string)
    requires '[' !in pre && '}' !in post && 0 < |arr| && arr[|arr| - 1] == ']'
    ensures var s := pre + arr + post;
      (forall k :: 0 <= k < |pre| ==> s[k] != '[')
      && (forall k :: |pre| + |arr| <= k < |s| ==> s[k] != '}')
      && s[|pre| + |arr| - 1] == ']'
  {
    var s := pre + arr + post;
    forall k | 0 <= k < |pre| ensures s[k] != '[' {
      assert s[k] == pre[k];
    }
    forall k | |pre| + |arr| <= k < |s| ensures s[k] != '}' {
      assert s[k] == post[k - |pre| - |arr|];
    }
  }

  /** Prose around an array: when the text before it has no `[` and the
      text after it has no `}`, the strict match is exactly the array. */
  lemma StrictMatchOfEmbedded(pre: string, arr: string, post: string)
    requires '[' !in pre && '}' !in post
    requires StrictMatchAt(arr, 0, |arr|)
    ensures StrictMatch(pre + arr + post) == Some(Span(|pre|, |pre| + |arr|))
  {
    var s := pre + arr + post;
    StrictMatchShifts(pre, arr, post);
    StrictMatchIsLeftmostLongest(s);
    EmbeddedCharacters(pre, arr, post);
    var sp := StrictMatch(s).value;
    assert sp.start == |pre|;
    StrictMatchEndsBy(s, sp.start, sp.end, |pre| + |arr|);
  }
}
