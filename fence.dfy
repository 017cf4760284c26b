/**
 * The fence grammar shared by the code extractor and both message parsers:
 * the global regular expression  ```(\w+)?\n([\s\S]*?)```  and the way
 * `RegExp.prototype.exec` walks it from `lastIndex`.
 *
 * A match at position p needs three backticks at p, a (possibly empty) run of
 * word characters that is followed directly by a newline, and a later closing
 * run of three backticks; the body is everything up to the FIRST such closing
 * run (the lazy `*?`).  `exec` returns the match with the leftmost start at or
 * after `lastIndex`, and the loops continue from the end of that match.
 *
 * The functions carry only cheap bounds; what they compute is characterized
 * by the lemmas next to them.
 */
module Fence {
  import opened Common
  import opened Strings

  /** Three backticks start at index i. */
  predicate MarkerAt(s: string, i: int) {
    0 <= i && i + 3 <= |s| && s[i] == '`' && s[i + 1] == '`' && s[i + 2] == '`'
  }

  /** No three backticks anywhere in s. */
  predicate NoMarker(s: string) {
    forall j | 0 <= j < |s| :: !MarkerAt(s, j)
  }

  /** The first index at or after `from` where three backticks start: the end of the lazy body. */
  function FindMarker(s: string, from: nat): (r: Option<nat>)
    ensures r.Some? ==> from <= r.value && r.value + 3 <= |s|
    decreases |s| - from
  {
    if from + 3 > |s| then None
    else if MarkerAt(s, from) then Some(from)
    else FindMarker(s, from + 1)
  }

  /** FindMarker finds the first marker at or after `from`, and finds none only when there is none. */
  lemma {:induction false} FindMarkerFirst(s: string, from: nat)
    ensures FindMarker(s, from).Some? ==> MarkerAt(s, FindMarker(s, from).value)
    ensures FindMarker(s, from).Some? ==> forall j :: from <= j < FindMarker(s, from).value ==> !MarkerAt(s, j)
    ensures FindMarker(s, from).None? ==> forall j :: from <= j ==> !MarkerAt(s, j)
    decreases |s| - from
  {
    if from + 3 <= |s| && !MarkerAt(s, from) {
      FindMarkerFirst(s, from + 1);
    }
  }

  /** The end of the longest run of `\w` characters that starts at i (greedy `\w+`). */
  function WordRunEnd(s: string, i: nat): (e: nat)
    requires i <= |s|
    ensures i <= e <= |s|
    decreases |s| - i
  {
    if i < |s| && IsWordChar(s[i]) then WordRunEnd(s, i + 1) else i
  }

  /** The run WordRunEnd ends is all word characters and cannot be extended. */
  lemma {:induction false} WordRunEndMax(s: string, i: nat)
    requires i <= |s|
    ensures forall k :: i <= k < WordRunEnd(s, i) ==> IsWordChar(s[k])
    ensures WordRunEnd(s, i) < |s| ==> !IsWordChar(s[WordRunEnd(s, i)])
    decreases |s| - i
  {
    if i < |s| && IsWordChar(s[i]) {
      WordRunEndMax(s, i + 1);
    }
  }

  /**
   * One match: where it starts, the language tag (group 1, empty when the
   * group did not take part), the body (group 2) and the index after the
   * closing backticks (`lastIndex` after `exec`).
   */
  datatype Match = Match(start: nat, tag: string, body: string, end: nat)

  /** The text a match covers: opening backticks, tag, newline, body, closing backticks. */
  function FenceText(tag: string, body: string): string {
    "```" + tag + "\n" + body + "```"
  }

  /** The regular expression tried at exactly position p. */
  function MatchAt(s: string, p: nat): (r: Option<Match>)
    ensures r.Some? ==> r.value.start == p && p + 7 + |r.value.tag| + |r.value.body| == r.value.end <= |s|
  {
    if !MarkerAt(s, p) then None
    else
      var e := WordRunEnd(s, p + 3);
      if e < |s| && s[e] == '\n' then
        match FindMarker(s, e + 1)
        case None => None
        case Some(c) => Some(Match(p, s[p + 3..e], s[e + 1..c], c + 3))
      else None
  }

  /** The match at p, given where the tag run ends and where the closing backticks start. */
  lemma MatchAtIs(s: string, p: nat, e: nat, c: nat)
    requires MarkerAt(s, p) && WordRunEnd(s, p + 3) == e && e < |s| && s[e] == '\n'
    requires FindMarker(s, e + 1) == Some(c)
    ensures MatchAt(s, p) == Some(Match(p, s[p + 3..e], s[e + 1..c], c + 3))
  {
  }

  /**
   * A match covers exactly its fence text; its tag is word characters only
   * and its body never contains three backticks (the lazy body stops at the first).
   */
  lemma MatchAtShape(s: string, p: nat)
    requires MatchAt(s, p).Some?
    ensures var m := MatchAt(s, p).value;
      s[p..m.end] == FenceText(m.tag, m.body) && AllWordChars(m.tag) && NoMarker(m.body)
  {
    var m := MatchAt(s, p).value;
    var e := WordRunEnd(s, p + 3);
    var c := FindMarker(s, e + 1).value;
    WordRunEndMax(s, p + 3);
    FindMarkerFirst(s, e + 1);
    assert s[p..c + 3] == s[p..p + 3] + s[p + 3..e] + [s[e]] + s[e + 1..c] + s[c..c + 3];
    forall j | 0 <= j < |m.body| ensures !MarkerAt(m.body, j) {
      if j + 3 <= |m.body| {
        assert m.body[j] == s[e + 1 + j] && m.body[j + 1] == s[e + 2 + j] && m.body[j + 2] == s[e + 3 + j];
        assert !MarkerAt(s, e + 1 + j);
      }
    }
  }

  /** `exec` from `lastIndex = from`: the match with the leftmost start at or after `from`. */
  function NextMatch(s: string, from: nat): (r: Option<Match>)
    ensures r.Some? ==> from <= r.value.start && r.value.start + 7 + |r.value.tag| + |r.value.body| == r.value.end <= |s|
    decreases |s| - from
  {
    if from + 3 > |s| then None
    else
      match MatchAt(s, from)
      case Some(m) => Some(m)
      case None => NextMatch(s, from + 1)
  }

  /**
   * NextMatch returns a genuine match, no match starts between `from` and
   * it, and it returns none only when no match starts anywhere after `from`.
   */
  lemma {:induction false} NextMatchLeftmost(s: string, from: nat)
    ensures NextMatch(s, from).Some? ==> MatchAt(s, NextMatch(s, from).value.start) == NextMatch(s, from)
    ensures NextMatch(s, from).Some? ==> forall p :: from <= p < NextMatch(s, from).value.start ==> MatchAt(s, p).None?
    ensures NextMatch(s, from).None? ==> forall p :: from <= p ==> MatchAt(s, p).None?
  {
    NextMatchFirst(s, from);
    NextMatchNone(s, from);
  }

  lemma {:induction false} NextMatchFirst(s: string, from: nat)
    ensures NextMatch(s, from).Some? ==> MatchAt(s, NextMatch(s, from).value.start) == NextMatch(s, from)
    ensures NextMatch(s, from).Some? ==> forall p :: from <= p < NextMatch(s, from).value.start ==> MatchAt(s, p).None?
    decreases |s| - from
  {
    if from + 3 <= |s| && MatchAt(s, from).None? {
      NextMatchFirst(s, from + 1);
    }
  }

  lemma {:induction false} NextMatchNone(s: string, from: nat)
    ensures NextMatch(s, from).None? ==> forall p :: from <= p ==> MatchAt(s, p).None?
    decreases |s| - from
  {
    if from + 3 <= |s| && MatchAt(s, from).None? {
      NextMatchNone(s, from + 1);
    }
  }

  /** Every match the `while (exec)` loops see, starting from `lastIndex = from`. */
  function MatchesFrom(s: string, from: nat): seq<Match>
    decreases |s| - from
  {
    match NextMatch(s, from)
    case None => []
    case Some(m) => [m] + MatchesFrom(s, m.end)
  }

  function Matches(s: string): seq<Match> {
    MatchesFrom(s, 0)
  }

  /** Matches lie in order inside [from, limit] and do not overlap. */
  predicate Ordered(ms: seq<Match>, from: nat, limit: nat) {
    if ms == [] then from <= limit
    else
      from <= ms[0].start && ms[0].start + 7 <= ms[0].end && ms[0].end <= limit &&
      Ordered(ms[1..], ms[0].end, limit)
  }

  /**
   * The text around the matches: the gap before the first match, the gaps
   * between consecutive matches and the gap after the last one, starting at `from`.
   */
  function GapsFrom(s: string, from: nat, ms: seq<Match>): (r: seq<string>)
    requires from <= |s|
    requires Ordered(ms, from, |s|)
    ensures |r| == |ms| + 1
    decreases |ms|
  {
    if ms == [] then [s[from..]]
    else [s[from..ms[0].start]] + GapsFrom(s, ms[0].end, ms[1..])
  }

  /** Gaps and fences, interleaved: gaps[0] + fence 0 + gaps[1] + ... + gaps[n]. */
  function Weave(gaps: seq<string>, ms: seq<Match>): string
    requires |gaps| == |ms| + 1
    decreases |ms|
  {
    if ms == [] then gaps[0]
    else gaps[0] + FenceText(ms[0].tag, ms[0].body) + Weave(gaps[1..], ms[1..])
  }

  /**
   * What the scanning loop promises about the input: the matches are in
   * order and do not overlap, each is a genuine match of the expression, and
   * the gaps woven with the fence texts give the input back.
   */
  lemma {:induction false} MatchesFromSound(s: string, from: nat)
    requires from <= |s|
    ensures Ordered(MatchesFrom(s, from), from, |s|)
    ensures forall m :: m in MatchesFrom(s, from) ==> MatchAt(s, m.start) == Some(m)
    ensures Weave(GapsFrom(s, from, MatchesFrom(s, from)), MatchesFrom(s, from)) == s[from..]
    decreases |s| - from
  {
    var ms := MatchesFrom(s, from);
    NextMatchLeftmost(s, from);
    match NextMatch(s, from)
    case None =>
      assert ms == [];
    case Some(m) =>
      MatchesFromSound(s, m.end);
      var rest := MatchesFrom(s, m.end);
      assert ms == [m] + rest;
      assert ms[1..] == rest;
      var gaps := GapsFrom(s, from, ms);
      assert gaps[0] == s[from..m.start];
      assert gaps[1..] == GapsFrom(s, m.end, rest);
      assert Weave(gaps, ms) == s[from..m.start] + FenceText(m.tag, m.body) + s[m.end..];
      MatchAtShape(s, m.start);
      SliceJoin(s, from, m.start, m.end);
  }

  lemma SliceJoin(s: string, a: nat, b: nat, c: nat)
    requires a <= b <= c <= |s|
    ensures s[a..b] + s[b..c] + s[c..] == s[a..]
  {
  }

  /**
   * The loop skips nothing: wherever the expression matches, outside the
   * span of a match already taken, that match is among those taken.
   */
  lemma {:induction false} MatchesFromComplete(s: string, from: nat, p: nat)
    requires from <= p
    requires forall m :: m in MatchesFrom(s, from) ==> !(m.start < p < m.end)
    requires MatchAt(s, p).Some?
    ensures MatchAt(s, p).value in MatchesFrom(s, from)
    decreases |s| - from
  {
    NextMatchLeftmost(s, from);
    assert NextMatch(s, from).Some?;
    var m := NextMatch(s, from).value;
    assert m in MatchesFrom(s, from);
    if p == m.start {
      assert MatchAt(s, p).value == m;
    } else {
      assert m.end <= p;
      MatchesFromComplete(s, m.end, p);
      assert MatchesFrom(s, from) == [m] + MatchesFrom(s, m.end);
    }
  }

  lemma WordRunEndAt(s: string, i: nat, e: nat)
    requires i <= e < |s|
    requires forall k :: i <= k < e ==> IsWordChar(s[k])
    requires !IsWordChar(s[e])
    ensures WordRunEnd(s, i) == e
  {
    WordRunEndMax(s, i);
  }

  lemma FirstMarker(s: string, from: nat, c: nat)
    requires from <= c && MarkerAt(s, c)
    requires forall j :: from <= j < c ==> !MarkerAt(s, j)
    ensures FindMarker(s, from) == Some(c)
  {
    FindMarkerFirst(s, from);
  }

  /**
   * A fence needs an opening marker and, at least four characters later, a
   * closing one: without a second marker that far on, nothing matches.
   */
  lemma {:induction false} NoClosingMarkerNoMatch(s: string, from: nat)
    requires forall p, q :: MarkerAt(s, p) && MarkerAt(s, q) ==> q < p + 4
    ensures MatchesFrom(s, from) == []
  {
    NextMatchLeftmost(s, from);
    match NextMatch(s, from)
    case None =>
    case Some(m) =>
      MatchAtShape(s, m.start);
      FenceEndsInMarker(s, m);
      assert false;
  }

  /** A match begins with three backticks and ends with three backticks. */
  lemma FenceEndsInMarker(s: string, m: Match)
    requires m.start + 7 <= m.end <= |s|
    requires s[m.start..m.end] == FenceText(m.tag, m.body)
    ensures MarkerAt(s, m.start) && MarkerAt(s, m.end - 3)
  {
    var f := FenceText(m.tag, m.body);
    assert s[m.end - 3] == f[|f| - 3];
    assert s[m.end - 2] == f[|f| - 2];
    assert s[m.end - 1] == f[|f| - 1];
    assert s[m.start] == f[0] && s[m.start + 1] == f[1] && s[m.start + 2] == f[2];
  }

  /** A match found in a suffix, moved back to its position in the whole text. */
  function ShiftMatch(r: Option<Match>, d: nat): Option<Match> {
    match r
    case None => None
    case Some(m) => Some(m.(start := m.start + d, end := m.end + d))
  }

  lemma {:induction false} WordRunEndSuffix(s: string, d: nat, i: nat)
    requires d + i <= |s|
    ensures WordRunEnd(s, d + i) == d + WordRunEnd(s[d..], i)
    decreases |s| - d - i
  {
    if d + i < |s| {
      assert s[d..][i] == s[d + i];
      if IsWordChar(s[d + i]) {
        WordRunEndSuffix(s, d, i + 1);
      }
    }
  }

  lemma MarkerAtSuffix(s: string, d: nat, p: nat)
    requires d <= |s|
    ensures MarkerAt(s, d + p) == MarkerAt(s[d..], p)
  {
    if d + p + 3 <= |s| {
      assert s[d..][p] == s[d + p] && s[d..][p + 1] == s[d + p + 1] && s[d..][p + 2] == s[d + p + 2];
    }
  }

  lemma {:induction false} FindMarkerSuffix(s: string, d: nat, i: nat)
    requires d <= |s|
    ensures FindMarker(s, d + i) == (var r := FindMarker(s[d..], i); if r.None? then None else Some(d + r.value))
    decreases |s| - d - i
  {
    if d + i + 3 <= |s| {
      MarkerAtSuffix(s, d, i);
      if !MarkerAt(s, d + i) {
        FindMarkerSuffix(s, d, i + 1);
      }
    }
  }

  lemma SliceSuffix(s: string, d: nat, i: nat, j: nat)
    requires d + i <= d + j <= |s|
    ensures s[d + i..d + j] == s[d..][i..j] && (j < |s| - d ==> s[d + j] == s[d..][j])
  {
  }

  /** Whether the expression matches at a position depends only on the text from that position on. */
  lemma MatchAtSuffix(s: string, d: nat, p: nat)
    requires d <= |s|
    ensures MatchAt(s, d + p) == ShiftMatch(MatchAt(s[d..], p), d)
  {
    MarkerAtSuffix(s, d, p);
    if MarkerAt(s[d..], p) {
      WordRunEndSuffix(s, d, p + 3);
      var e := WordRunEnd(s[d..], p + 3);
      if e < |s| - d && s[d..][e] == '\n' {
        MatchAtSuffixTagged(s, d, p, e);
      } else {
        MatchAtNotFound(s, d + p);
        MatchAtNotFound(s[d..], p);
      }
    }
  }

  /** The suffix case once the tag run and its line feed are found. */
  lemma MatchAtSuffixTagged(s: string, d: nat, p: nat, e: nat)
    requires d <= |s| && MarkerAt(s[d..], p) && MarkerAt(s, d + p)
    requires WordRunEnd(s[d..], p + 3) == e && WordRunEnd(s, d + p + 3) == d + e
    requires e < |s| - d && s[d..][e] == '\n'
    ensures MatchAt(s, d + p) == ShiftMatch(MatchAt(s[d..], p), d)
  {
    var t := s[d..];
    assert s[d + e] == '\n';
    FindMarkerSuffix(s, d, e + 1);
    var c := FindMarker(t, e + 1);
    if c.Some? {
      MatchAtSuffixFound(s, d, p, e, c.value);
    } else {
      MatchAtNotFound(s, d + p);
      MatchAtNotFound(t, p);
    }
  }

  /** Without a newline after the tag run or without closing backticks, nothing matches at p. */
  lemma MatchAtNotFound(s: string, p: nat)
    requires MarkerAt(s, p)
    requires var e := WordRunEnd(s, p + 3); e == |s| || s[e] != '\n' || FindMarker(s, e + 1).None?
    ensures MatchAt(s, p).None?
  {
  }

  lemma MatchAtSuffixFound(s: string, d: nat, p: nat, e: nat, c: nat)
    requires d <= |s| && MarkerAt(s[d..], p) && MarkerAt(s, d + p)
    requires WordRunEnd(s[d..], p + 3) == e && WordRunEnd(s, d + p + 3) == d + e
    requires e < |s| - d && s[d..][e] == '\n' && s[d + e] == '\n'
    requires FindMarker(s[d..], e + 1) == Some(c) && FindMarker(s, d + e + 1) == Some(d + c)
    ensures MatchAt(s, d + p) == ShiftMatch(MatchAt(s[d..], p), d)
  {
    SliceSuffix(s, d, p + 3, e);
    SliceSuffix(s, d, e + 1, c);
    MatchAtIs(s[d..], p, e, c);
    MatchAtIs(s, d + p, d + e, d + c);
    ShiftFound(s, s[d..], d, p, e, c);
  }

  lemma ShiftFound(s: string, t: string, d: nat, p: nat, e: nat, c: nat)
    requires p + 3 <= e < c <= |t| && d + c <= |s|
    requires t[p + 3..e] == s[d + p + 3..d + e] && t[e + 1..c] == s[d + e + 1..d + c]
    ensures ShiftMatch(Some(Match(p, t[p + 3..e], t[e + 1..c], c + 3)), d)
         == Some(Match(d + p, s[d + p + 3..d + e], s[d + e + 1..d + c], d + c + 3))
  {
  }

  /** `exec` on a suffix finds the same match, moved by the length of the dropped prefix. */
  lemma {:induction false} NextMatchSuffix(s: string, d: nat, i: nat)
    requires d <= |s|
    ensures NextMatch(s, d + i) == ShiftMatch(NextMatch(s[d..], i), d)
    decreases |s| - d - i
  {
    if d + i + 3 <= |s| {
      MatchAtSuffix(s, d, i);
      if MatchAt(s, d + i).None? {
        NextMatchSuffix(s, d, i + 1);
      }
    }
  }

  /** Where no match starts between `from` and `to`, `exec` from either finds the same match. */
  lemma NextMatchSkip(s: string, from: nat, to: nat)
    requires from <= to
    requires forall p :: from <= p < to ==> MatchAt(s, p).None?
    ensures NextMatch(s, from) == NextMatch(s, to)
  {
    NextMatchLeftmost(s, from);
    NextMatchLeftmost(s, to);
    var a, b := NextMatch(s, from), NextMatch(s, to);
    if a.Some? && b.Some? {
      assert a.value.start >= to;
      assert b.value.start <= a.value.start;
    }
  }

  /** No backtick in the first n characters means no match can start there. */
  lemma NoBacktickNoMatch(s: string, n: nat)
    requires n <= |s|
    requires forall k :: 0 <= k < n ==> s[k] != '`'
    ensures forall p :: 0 <= p < n ==> MatchAt(s, p).None?
  {
  }

  /**
   * What a `while (exec)` loop collects from `lastIndex = from` on: for each
   * match, `step` of the text skipped before it, its tag and its body; after
   * the last match, `tail` of the text left over.
   */
  function Collect<T>(s: string, from: nat, step: (string, string, string) -> seq<T>, tail: string -> seq<T>): seq<T>
    requires from <= |s|
    decreases |s| - from
  {
    match NextMatch(s, from)
    case None => tail(s[from..])
    case Some(m) => step(s[from..m.start], m.tag, m.body) + Collect(s, m.end, step, tail)
  }

  /** What is collected depends only on the text from `lastIndex` on. */
  lemma {:induction false} CollectSuffix<T>(s: string, d: nat, i: nat,
      step: (string, string, string) -> seq<T>, tail: string -> seq<T>)
    requires d + i <= |s|
    ensures Collect(s, d + i, step, tail) == Collect(s[d..], i, step, tail)
    decreases |s| - d - i
  {
    NextMatchSuffix(s, d, i);
    match NextMatch(s[d..], i)
    case None =>
      CollectSuffixDone(s, d, i, step, tail);
    case Some(m) =>
      CollectSuffix(s, d, m.end, step, tail);
      var n := Match(d + m.start, m.tag, m.body, d + m.end);
      assert NextMatch(s, d + i) == Some(n);
      SliceSuffix(s, d, i, m.start);
      CollectSuffixFound(s, s[d..], d + i, i, m, n, step, tail);
  }

  lemma CollectSuffixDone<T>(s: string, d: nat, i: nat,
      step: (string, string, string) -> seq<T>, tail: string -> seq<T>)
    requires d + i <= |s| && NextMatch(s[d..], i).None? && NextMatch(s, d + i).None?
    ensures Collect(s, d + i, step, tail) == Collect(s[d..], i, step, tail)
  {
    var t := s[d..];
    CollectDone(s, d + i, step, tail);
    CollectDone(t, i, step, tail);
    assert s[d + i..] == t[i..];
  }

  lemma CollectSuffixFound<T>(s: string, t: string, from: nat, i: nat, m: Match, n: Match,
      step: (string, string, string) -> seq<T>, tail: string -> seq<T>)
    requires from <= |s| && i <= |t| && NextMatch(s, from) == Some(n) && NextMatch(t, i) == Some(m)
    requires n.tag == m.tag && n.body == m.body && n.end <= |s| && m.end <= |t|
    requires s[from..n.start] == t[i..m.start]
    requires Collect(s, n.end, step, tail) == Collect(t, m.end, step, tail)
    ensures Collect(s, from, step, tail) == Collect(t, i, step, tail)
  {
    CollectStep(s, from, n, step, tail);
    CollectStep(t, i, m, step, tail);
  }

  /** After the last match, `tail` takes what is left. */
  lemma CollectDone<T>(s: string, from: nat, step: (string, string, string) -> seq<T>, tail: string -> seq<T>)
    requires from <= |s| && NextMatch(s, from).None?
    ensures Collect(s, from, step, tail) == tail(s[from..])
  {
  }

  /** A match found: `step` of what was skipped, then the rest collected from the match's end. */
  lemma CollectStep<T>(s: string, from: nat, m: Match, step: (string, string, string) -> seq<T>, tail: string -> seq<T>)
    requires from <= |s| && NextMatch(s, from) == Some(m)
    ensures from <= m.start <= m.end <= |s|
    ensures Collect(s, from, step, tail) == step(s[from..m.start], m.tag, m.body) + Collect(s, m.end, step, tail)
  {
  }

  /**
   * A closed fence at the front of the text is the first match, with nothing
   * skipped before it; the text after it is collected on its own.
   */
  lemma CollectLeadingFence<T>(tag: string, body: string, rest: string,
      step: (string, string, string) -> seq<T>, tail: string -> seq<T>)
    requires AllWordChars(tag) && NoMarker(body)
    requires body == [] || body[|body| - 1] != '`'
    ensures Collect(FenceText(tag, body) + rest, 0, step, tail) == step("", tag, body) + Collect(rest, 0, step, tail)
  {
    var f := FenceText(tag, body);
    var s := f + rest;
    LeadingFenceMatch(tag, body, rest);
    CollectStep(s, 0, Match(0, tag, body, |f|), step, tail);
    assert s[0..0] == "";
    CollectSuffix(s, |f|, 0, step, tail);
    assert s[|f|..] == rest;
  }

  /** A closed fence at the front of the text is the first match. */
  lemma LeadingFenceMatch(tag: string, body: string, rest: string)
    requires AllWordChars(tag) && NoMarker(body)
    requires body == [] || body[|body| - 1] != '`'
    ensures NextMatch(FenceText(tag, body) + rest, 0) == Some(Match(0, tag, body, |FenceText(tag, body)|))
  {
    var s := FenceText(tag, body) + rest;
    var e := 3 + |tag|;
    var c := e + 1 + |body|;
    FencePieces(tag, body, rest);
    forall k | 3 <= k < e ensures IsWordChar(s[k]) {
      assert s[k] == s[3..e][k - 3];
    }
    WordRunEndAt(s, 3, e);
    BodyWithoutMarker(s, e + 1, body);
    FirstMarker(s, e + 1, c);
    MatchAtIs(s, 0, e, c);
  }

  /** Where the pieces of a fence at the front of the text stand. */
  lemma FencePieces(tag: string, body: string, rest: string)
    ensures var s := FenceText(tag, body) + rest; var e := 3 + |tag|; var c := e + 1 + |body|;
      |FenceText(tag, body)| == c + 3 && MarkerAt(s, 0) && s[3..e] == tag && s[e] == '\n' &&
      s[e + 1..c] == body && MarkerAt(s, c)
  {
    var f := FenceText(tag, body);
    var s := f + rest;
    var e := 3 + |tag|;
    var c := e + 1 + |body|;
    assert s[..|f|] == f;
    assert f[3..e] == tag && f[e] == '\n' && f[e + 1..c] == body;
  }

  /** A marker-free body ending in something other than a backtick: no marker starts in it. */
  lemma BodyWithoutMarker(s: string, a: nat, body: string)
    requires a + |body| <= |s| && s[a..a + |body|] == body && NoMarker(body)
    requires body == [] || body[|body| - 1] != '`'
    ensures forall j :: a <= j < a + |body| ==> !MarkerAt(s, j)
  {
    var c := a + |body|;
    forall j | a <= j < c ensures !MarkerAt(s, j) {
      if j + 3 <= c {
        assert s[j] == body[j - a] && s[j + 1] == body[j - a + 1] && s[j + 2] == body[j - a + 2];
        assert !MarkerAt(body, j - a);
      } else {
        assert s[c - 1] == body[|body| - 1];
      }
    }
  }

  /** Text with no match at all is collected as a whole by `tail`. */
  lemma CollectNoMatch<T>(s: string, step: (string, string, string) -> seq<T>, tail: string -> seq<T>)
    requires forall p :: 0 <= p ==> MatchAt(s, p).None?
    ensures Collect(s, 0, step, tail) == tail(s)
  {
    NextMatchLeftmost(s, 0);
    assert s[0..] == s;
  }
}
