/**
 * `preprocessMessageContent` (components/message-renderer.tsx): the clean-up
 * applied to every string item of a v0 message before it is rendered. Each
 * global regular-expression replacement is a left-to-right scan that, at every
 * position, either takes the pattern's match there (its length fixed by the
 * pattern's greedy quantifiers) and emits the replacement, or keeps one
 * character and moves on.
 */
module MessageRenderer {
  import opened Common
  import opened Strings

  const Marker: string := "[V0_FILE]"
  const FileAttr: string := ":file=\""
  const ShellMark: string := "... shell ..."

  /** The first index at or after `from` holding `c`; -1 when there is none. */
  function IndexOf(s: string, c: char, from: nat): (k: int)
    requires from <= |s|
    ensures -1 <= k < |s|
    ensures k >= 0 ==> from <= k && s[k] == c && forall t :: from <= t < k ==> s[t] != c
    ensures k == -1 ==> forall t :: from <= t < |s| ==> s[t] != c
    decreases |s| - from
  {
    if from == |s| then -1
    else if s[from] == c then from
    else IndexOf(s, c, from + 1)
  }

  /** How many line feeds the leading whitespace run of `s` holds. */
  function Blank(s: string): nat {
    if s == [] || !IsWhitespace(s[0]) then 0
    else (if s[0] == '\n' then 1 else 0) + Blank(s[1..])
  }

  /** Just past the last line feed of the leading whitespace run; 0 when the run has none. */
  function AfterLastBreak(s: string): (r: nat)
    ensures r <= |s| && AllWhitespace(s[..r])
    ensures Blank(s[r..]) == 0
    ensures r > 0 <==> Blank(s) > 0
  {
    if s == [] || !IsWhitespace(s[0]) then 0
    else
      var r := AfterLastBreak(s[1..]);
      assert forall k :: 0 <= k < r ==> s[1..][..r][k] == s[k + 1];
      if r > 0 then
        assert s[r + 1..] == s[1..][r..];
        r + 1
      else if s[0] == '\n' then
        assert s[1..] == s[1..][0..];
        1
      else 0
  }

  /** The five patterns of the chain that are replaced wherever they occur. */
  datatype Pattern =
    | MarkerAttr  // /\[V0_FILE\][^:]*:file="[^"]*"\n?/g
    | MarkerLine  // /\[V0_FILE\][^\n]*\n?/g
    | Shell       // /\.\.\. shell \.\.\./g
    | LooseShell  // /\.\.\.\.\s*shell\s*\.\.\./g
    | BlankRun    // /\n\s*\n\s*\n/g

  /**
   * The length of the pattern's match at the start of `s`, if it matches there.
   * `[^:]*` must stop at the first colon and `[^"]*` at the first quote; `\s*`
   * before a letter or a dot takes the whole whitespace run; in `\n\s*\n\s*\n`
   * the greedy runs reach the last line feed of the whitespace run.
   */
  function MatchAt(p: Pattern, s: string): (r: Option<nat>)
    ensures r.Some? ==> 0 < r.value <= |s|
  {
    match p
    case MarkerAttr => MarkerAttrAt(s)
    case MarkerLine => MarkerLineAt(s)
    case Shell => ShellAt(s)
    case LooseShell => LooseShellAt(s)
    case BlankRun => BlankRunAt(s)
  }

  function MarkerAttrAt(s: string): (r: Option<nat>)
    ensures r.Some? ==> 0 < r.value <= |s|
  {
    if !StartsWith(s, Marker) then None
    else
      var colon := IndexOf(s, ':', |Marker|);
      if colon == -1 || !StartsWith(s[colon..], FileAttr) then None
      else
        var quote := IndexOf(s, '"', colon + |FileAttr|);
        if quote == -1 then None
        else if quote + 1 < |s| && s[quote + 1] == '\n' then Some(quote + 2)
        else Some(quote + 1)
  }

  function MarkerLineAt(s: string): (r: Option<nat>)
    ensures r.Some? ==> 0 < r.value <= |s|
  {
    if !StartsWith(s, Marker) then None
    else
      var nl := IndexOf(s, '\n', |Marker|);
      if nl == -1 then Some(|s|) else Some(nl + 1)
  }

  function ShellAt(s: string): (r: Option<nat>)
    ensures r.Some? ==> 0 < r.value <= |s|
  {
    if StartsWith(s, ShellMark) then Some(|ShellMark|) else None
  }

  function LooseShellAt(s: string): (r: Option<nat>)
    ensures r.Some? ==> 0 < r.value <= |s|
  {
    if !StartsWith(s, "....") then None
    else
      var a := WsRunEnd(s, 4);
      if !StartsWith(s[a..], "shell") then None
      else
        var b := WsRunEnd(s, a + 5);
        if StartsWith(s[b..], "...") then Some(b + 3) else None
  }

  function BlankRunAt(s: string): (r: Option<nat>)
    ensures r.Some? ==> 0 < r.value <= |s|
  {
    if s != [] && s[0] == '\n' && Blank(s) >= 3 then Some(AfterLastBreak(s)) else None
  }

  /** `s.replace(pattern, repl)` with the global flag. */
  function ReplaceAll(p: Pattern, s: string, repl: string): string
    decreases |s|
  {
    if s == [] then []
    else
      match MatchAt(p, s)
      case Some(n) => repl + ReplaceAll(p, s[n..], repl)
      case None => [s[0]] + ReplaceAll(p, s[1..], repl)
  }

  /** A match of length `|head|` at the front of `head + rest` is replaced and the scan resumes at `rest`. */
  lemma ReplaceStep(p: Pattern, head: string, rest: string)
    requires MatchAt(p, head + rest) == Some(|head|)
    ensures ReplaceAll(p, head + rest, "") == ReplaceAll(p, rest, "")
  {
    var s := head + rest;
    assert s[|head|..] == rest;
  }

  /** A replacement no longer than any match never lengthens the text. */
  lemma {:induction false} ReplaceShrinks(p: Pattern, s: string, repl: string)
    requires forall t :: MatchAt(p, t).Some? ==> |repl| <= MatchAt(p, t).value
    ensures |ReplaceAll(p, s, repl)| <= |s|
    decreases |s|
  {
    if s != [] {
      match MatchAt(p, s)
      case Some(n) => ReplaceShrinks(p, s[n..], repl);
      case None => ReplaceShrinks(p, s[1..], repl);
    }
  }

  /** The pattern matches at no position of `s`. */
  predicate Nowhere(p: Pattern, s: string)
    decreases |s|
  {
    s == [] || (MatchAt(p, s).None? && Nowhere(p, s[1..]))
  }

  /** Where the pattern matches nowhere, the text is left as it is. */
  lemma {:induction false} NoMatchUntouched(p: Pattern, s: string, repl: string)
    requires Nowhere(p, s)
    ensures ReplaceAll(p, s, repl) == s
    decreases |s|
  {
    if s != [] {
      NoMatchUntouched(p, s[1..], repl);
    }
  }

  /** Whitespace-only text stays whitespace-only when the replacement is whitespace. */
  lemma {:induction false} ReplaceKeepsWhitespace(p: Pattern, s: string, repl: string)
    requires AllWhitespace(s) && AllWhitespace(repl)
    ensures AllWhitespace(ReplaceAll(p, s, repl))
    decreases |s|
  {
    if s != [] {
      var rest := match MatchAt(p, s) case Some(n) => s[n..] case None => s[1..];
      assert AllWhitespace(rest) by {
        forall k | 0 <= k < |rest| ensures IsWhitespace(rest[k]) {
          assert rest[k] == s[|s| - |rest| + k];
        }
      }
      ReplaceKeepsWhitespace(p, rest, repl);
    }
  }

  // ---------------------------------------------------------------- file markers

  /** Text without a marker is left alone by both marker patterns. */
  lemma MarkerFreeUntouched(s: string)
    requires !Includes(s, Marker)
    ensures ReplaceAll(MarkerAttr, s, "") == s
    ensures ReplaceAll(MarkerLine, s, "") == s
  {
    MarkerFreeNowhere(s);
    NoMatchUntouched(MarkerAttr, s, "");
    NoMatchUntouched(MarkerLine, s, "");
  }

  lemma {:induction false} MarkerFreeNowhere(s: string)
    requires !Includes(s, Marker)
    ensures Nowhere(MarkerAttr, s) && Nowhere(MarkerLine, s)
    decreases |s|
  {
    if s != [] {
      if StartsWith(s, Marker) {
        assert OccursAt(s, Marker, 0);
      }
      assert !Includes(s[1..], Marker) by {
        forall i | 0 <= i <= |s| - 1 && OccursAt(s[1..], Marker, i)
          ensures false
        {
          assert s[1..][i..i + |Marker|] == s[i + 1..i + 1 + |Marker|];
          assert OccursAt(s, Marker, i + 1);
        }
      }
      MarkerFreeNowhere(s[1..]);
    }
  }

  /** A marker line goes with its line feed; one at the very end goes to the end. */
  lemma MarkerLineRemoved(line: string, rest: string)
    requires '\n' !in line
    ensures ReplaceAll(MarkerLine, Marker + line + "\n" + rest, "") == ReplaceAll(MarkerLine, rest, "")
    ensures ReplaceAll(MarkerLine, Marker + line, "") == []
  {
    var s := Marker + line + "\n" + rest;
    assert s[..|Marker|] == Marker;
    assert forall t :: |Marker| <= t < |Marker| + |line| ==> s[t] == line[t - |Marker|];
    assert s[|Marker| + |line|] == '\n';
    assert IndexOf(s, '\n', |Marker|) == |Marker| + |line|;
    assert s[|Marker| + |line| + 1..] == rest;
    var e := Marker + line;
    assert e[..|Marker|] == Marker;
    assert forall t :: |Marker| <= t < |e| ==> e[t] == line[t - |Marker|];
    assert IndexOf(e, '\n', |Marker|) == -1;
    assert e[|e|..] == [];
  }

  /** A `[V0_FILE]…:file="…"` reference not followed by a line feed is dropped. */
  lemma MarkerAttrRemoved(head: string, before: string, name: string, rest: string)
    requires ':' !in before && '"' !in name && head == Marker + before + FileAttr + name + "\""
    requires rest == [] || rest[0] != '\n'
    ensures ReplaceAll(MarkerAttr, head + rest, "") == ReplaceAll(MarkerAttr, rest, "")
  {
    AttrMatch(head, before, name, rest);
    ReplaceStep(MarkerAttr, head, rest);
  }

  /** A `[V0_FILE]…:file="…"` reference goes together with the line feed that follows it. */
  lemma MarkerAttrLineRemoved(head: string, before: string, name: string, rest: string)
    requires ':' !in before && '"' !in name && head == Marker + before + FileAttr + name + "\""
    ensures ReplaceAll(MarkerAttr, head + ("\n" + rest), "") == ReplaceAll(MarkerAttr, rest, "")
  {
    AttrMatch(head, before, name, "\n" + rest);
    assert head + ("\n" + rest) == (head + "\n") + rest;
    ReplaceStep(MarkerAttr, head + "\n", rest);
  }

  lemma AttrMatch(head: string, before: string, name: string, rest: string)
    requires ':' !in before && '"' !in name && head == Marker + before + FileAttr + name + "\""
    ensures MatchAt(MarkerAttr, head + rest)
         == Some(if rest != [] && rest[0] == '\n' then |head| + 1 else |head|)
  {
    var s := head + rest;
    var colon := |Marker| + |before|;
    var quote := colon + |FileAttr| + |name|;
    AttrPieces(head, before, name, rest);
    IndexOfOver(s, ':', |Marker|, before);
    IndexOfOver(s, '"', colon + |FileAttr|, name);
    assert quote + 1 < |s| ==> s[quote + 1] == rest[0];
  }

  /** Where the pieces of a `[V0_FILE]…:file="…"` reference stand in the text. */
  lemma AttrPieces(head: string, before: string, name: string, rest: string)
    requires head == Marker + before + FileAttr + name + "\""
    ensures |head| == |Marker| + |before| + |FileAttr| + |name| + 1
    ensures (head + rest)[..|Marker|] == Marker
    ensures (head + rest)[|Marker|..|Marker| + |before|] == before
    ensures (head + rest)[|Marker| + |before|..][..|FileAttr|] == FileAttr
    ensures (head + rest)[|Marker| + |before| + |FileAttr|..|head| - 1] == name
    ensures (head + rest)[|head| - 1] == '"'
    ensures (head + rest)[|head|..] == rest
  {
    var s := head + rest;
    var u := Marker + before;
    var t := FileAttr + name + "\"";
    assert head == u + t;
    assert s[..|u|] == u;
    assert s[|u|..|head|] == t;
    assert t[..|FileAttr|] == FileAttr;
    assert t[|FileAttr|..|t| - 1] == name;
  }

  /** When `w` holds no `c` and `c` follows it, the search from the start of `w` stops right after it. */
  lemma IndexOfOver(s: string, c: char, from: nat, w: string)
    requires from + |w| < |s| && s[from..from + |w|] == w && c !in w && s[from + |w|] == c
    ensures IndexOf(s, c, from) == from + |w|
  {
    assert forall t :: from <= t < from + |w| ==> s[t] == w[t - from];
  }

  /**
   * One pass does not catch a marker that only forms once another marker line
   * has been cut out of the middle of it.
   */
  lemma MarkerCanReform(head: string, tail: string)
    requires head == "[V0_" && tail == "FILE]"
    ensures head + tail == Marker
    ensures Includes(ReplaceAll(MarkerLine, head + Marker + "\n" + tail, ""), Marker)
  {
    var rest := Marker + "\n" + tail;
    assert head + Marker + "\n" + tail == head + rest;
    ReformedText(head, tail, rest);
    assert OccursAt(head + tail, Marker, 0);
  }

  lemma ReformedText(head: string, tail: string, rest: string)
    requires head == "[V0_" && tail == "FILE]" && rest == Marker + "\n" + tail
    ensures ReplaceAll(MarkerLine, head + rest, "") == head + tail
  {
    assert rest[0] == Marker[0] == '[';
    HeadUnmatched(head, rest);
    KeepUnmatched(MarkerLine, head, rest);
    RestCut(tail, rest);
  }

  lemma RestCut(tail: string, rest: string)
    requires tail == "FILE]" && rest == Marker + "\n" + tail
    ensures ReplaceAll(MarkerLine, rest, "") == tail
  {
    MarkerLineRemoved("", tail);
    assert Marker + "" + "\n" + tail == rest;
    MarkerFreeUntouched(tail) by {
      forall i | 0 <= i <= |tail| ensures !OccursAt(tail, Marker, i) {
      }
    }
  }

  lemma HeadUnmatched(head: string, rest: string)
    requires head == "[V0_" && rest != [] && rest[0] == '['
    ensures forall i :: 0 <= i < |head| ==> MatchAt(MarkerLine, (head + rest)[i..]).None?
  {
    forall i | 0 <= i < |head|
      ensures MatchAt(MarkerLine, (head + rest)[i..]).None?
    {
      if |(head + rest)[i..]| >= |Marker| {
        assert (head + rest)[i..][..|Marker|] != Marker by {
          if i == 0 {
            assert (head + rest)[i..][4] == '[';
          } else {
            assert (head + rest)[i..][0] == head[i];
          }
        }
      }
    }
  }

  lemma SuffixShift(kept: string, rest: string, i: nat)
    requires 0 < |kept| && i < |kept|
    ensures (kept[1..] + rest)[i..] == (kept + rest)[i + 1..]
  {
  }

  /** A prefix at none of whose positions the pattern matches is kept as it is. */
  lemma {:induction false} KeepUnmatched(p: Pattern, kept: string, rest: string)
    requires forall i :: 0 <= i < |kept| ==> MatchAt(p, (kept + rest)[i..]).None?
    ensures ReplaceAll(p, kept + rest, "") == kept + ReplaceAll(p, rest, "")
    decreases |kept|
  {
    if kept == [] {
      assert kept + rest == rest;
    } else {
      var s := kept + rest;
      assert s[0..] == s;
      assert s[1..] == kept[1..] + rest;
      forall i | 0 <= i < |kept| - 1
        ensures MatchAt(p, (kept[1..] + rest)[i..]).None?
      {
        SuffixShift(kept, rest, i);
      }
      KeepUnmatched(p, kept[1..], rest);
      KeepStep(p, s);
      ConsAssoc(kept, ReplaceAll(p, rest, ""));
    }
  }

  /** Where nothing matches at the front, the first character is kept. */
  lemma KeepStep(p: Pattern, s: string)
    requires s != [] && MatchAt(p, s).None?
    ensures ReplaceAll(p, s, "") == [s[0]] + ReplaceAll(p, s[1..], "")
  {
  }

  lemma ConsAssoc(kept: string, tail: string)
    requires kept != []
    ensures [kept[0]] + (kept[1..] + tail) == kept + tail
  {
    assert kept == [kept[0]] + kept[1..];
  }

  // ---------------------------------------------------------------- shell placeholders

  /** The run of whitespace from `i` ends where the first non-whitespace character stands. */
  lemma {:induction false} WsRunEndAt(s: string, i: nat, j: nat)
    requires i <= j < |s| && !IsWhitespace(s[j])
    requires forall k :: i <= k < j ==> IsWhitespace(s[k])
    ensures WsRunEnd(s, i) == j
    decreases j - i
  {
    if i < j {
      WsRunEndAt(s, i + 1, j);
    }
  }

  /** A `... shell ...` placeholder is dropped. */
  lemma ShellRemoved(rest: string)
    ensures ReplaceAll(Shell, ShellMark + rest, "") == ReplaceAll(Shell, rest, "")
  {
    var s := ShellMark + rest;
    assert s[..|ShellMark|] == ShellMark;
    assert s[|ShellMark|..] == rest;
  }

  /** A `....shell...` placeholder with any whitespace around `shell` is dropped. */
  lemma LooseShellRemoved(head: string, w1: string, w2: string, rest: string)
    requires AllWhitespace(w1) && AllWhitespace(w2) && head == "...." + w1 + "shell" + w2 + "..."
    ensures ReplaceAll(LooseShell, head + rest, "") == ReplaceAll(LooseShell, rest, "")
  {
    LooseShellMatch(head, w1, w2, rest);
    ReplaceStep(LooseShell, head, rest);
  }

  lemma LooseShellMatch(head: string, w1: string, w2: string, rest: string)
    requires AllWhitespace(w1) && AllWhitespace(w2) && head == "...." + w1 + "shell" + w2 + "..."
    ensures MatchAt(LooseShell, head + rest) == Some(|head|)
  {
    var s := head + rest;
    var a := 4 + |w1|;
    var b := a + 5 + |w2|;
    LooseShellPieces(head, w1, w2, rest);
    WsRunOver(s, 4, w1);
    WsRunOver(s, a + 5, w2);
  }

  /** Where the pieces of a loose placeholder stand in the text. */
  lemma LooseShellPieces(head: string, w1: string, w2: string, rest: string)
    requires head == "...." + w1 + "shell" + w2 + "..."
    ensures |head + rest| >= |head| == 12 + |w1| + |w2|
    ensures (head + rest)[..4] == "...."
    ensures (head + rest)[4..4 + |w1|] == w1
    ensures (head + rest)[4 + |w1|..][..5] == "shell"
    ensures (head + rest)[9 + |w1|..9 + |w1| + |w2|] == w2
    ensures (head + rest)[9 + |w1| + |w2|..][..3] == "..."
  {
    var s := head + rest;
    var u := "...." + w1 + "shell";
    var t := w2 + ("..." + rest);
    assert s == u + t;
    assert s[..|u|] == u;
    assert u[..4] == "....";
    assert u[4..4 + |w1|] == w1;
    assert u[4 + |w1|..] == "shell";
    assert s[|u|..] == t;
    assert t[..|w2|] == w2;
    assert t[|w2|..][..3] == "...";
  }

  /** A whitespace run `w` at `a`, followed by a non-whitespace character, ends the run there. */
  lemma WsRunOver(s: string, a: nat, w: string)
    requires a + |w| < |s| && s[a..a + |w|] == w && AllWhitespace(w) && !IsWhitespace(s[a + |w|])
    ensures WsRunEnd(s, a) == a + |w|
  {
    assert forall k :: a <= k < a + |w| ==> s[k] == w[k - a];
    WsRunEndAt(s, a, a + |w|);
  }

  // ---------------------------------------------------------------- blank lines

  /** No line feed opens a whitespace run holding three or more line feeds. */
  predicate NoBlankTriple(t: string) {
    forall i :: 0 <= i < |t| && t[i] == '\n' ==> Blank(t[i..]) < 3
  }

  /** Collapsing never leaves more line feeds at the front than there were. */
  lemma {:induction false} CollapseBlankFront(s: string)
    ensures Blank(ReplaceAll(BlankRun, s, "\n\n")) <= Blank(s)
    decreases |s|
  {
    if s != [] {
      var out := ReplaceAll(BlankRun, s, "\n\n");
      match MatchAt(BlankRun, s)
      case Some(n) =>
        var rest := ReplaceAll(BlankRun, s[n..], "\n\n");
        CollapseBlankFront(s[n..]);
        assert out == "\n\n" + rest;
        assert out[1..] == "\n" + rest && out[1..][1..] == rest;
      case None =>
        CollapseBlankFront(s[1..]);
        assert out[1..] == ReplaceAll(BlankRun, s[1..], "\n\n");
    }
  }

  /** `/\n\s*\n\s*\n/g → '\n\n'` leaves no three line feeds separated only by whitespace. */
  lemma {:induction false} CollapseLeavesNoTriple(s: string)
    ensures NoBlankTriple(ReplaceAll(BlankRun, s, "\n\n"))
    decreases |s|
  {
    if s != [] {
      match MatchAt(BlankRun, s)
      case Some(n) =>
        CollapseLeavesNoTriple(s[n..]);
        CollapseBlankFront(s[n..]);
        TwoBreaksThen(ReplaceAll(BlankRun, s[n..], "\n\n"));
      case None =>
        CollapseLeavesNoTriple(s[1..]);
        CollapseBlankFront(s);
        KeptThen(s[0], ReplaceAll(BlankRun, s[1..], "\n\n"), Blank(s));
    }
  }

  /** Two line feeds in front of a clean text with no front line feeds leave it clean. */
  lemma TwoBreaksThen(rest: string)
    requires NoBlankTriple(rest) && Blank(rest) == 0
    ensures NoBlankTriple("\n\n" + rest)
  {
    var out := "\n\n" + rest;
    forall i | 0 <= i < |out| && out[i] == '\n'
      ensures Blank(out[i..]) < 3
    {
      if i >= 2 {
        assert out[i..] == rest[i - 2..];
      } else {
        assert out[1..] == "\n" + rest && out[1..][1..] == rest;
        assert out[0..] == out;
      }
    }
  }

  /** A kept character in front of a clean text leaves it clean when its own run is short. */
  lemma KeptThen(c: char, rest: string, blank: nat)
    requires NoBlankTriple(rest) && (c == '\n' ==> blank < 3)
    requires Blank([c] + rest) <= blank
    ensures NoBlankTriple([c] + rest)
  {
    var out := [c] + rest;
    forall i | 0 <= i < |out| && out[i] == '\n'
      ensures Blank(out[i..]) < 3
    {
      if i >= 1 {
        assert out[i..] == rest[i - 1..];
      } else {
        assert out[0..] == out;
      }
    }
  }

  /** A leading piece of a string has no more line feeds in its front run. */
  lemma {:induction false} BlankPrefix(s: string, k: nat)
    requires k <= |s|
    ensures Blank(s[..k]) <= Blank(s)
    decreases k
  {
    if k > 0 && IsWhitespace(s[0]) {
      assert s[..k][1..] == s[1..][..k - 1];
      BlankPrefix(s[1..], k - 1);
    }
  }

  /** Cutting a piece out of a string keeps it free of blank triples. */
  lemma Infix(t: string, a: nat, b: nat)
    requires a <= b <= |t| && NoBlankTriple(t)
    ensures NoBlankTriple(t[a..b])
  {
    var u := t[a..b];
    forall i | 0 <= i < |u| && u[i] == '\n'
      ensures Blank(u[i..]) < 3
    {
      assert u[i..] == t[a + i..][..b - a - i];
      BlankPrefix(t[a + i..], b - a - i);
    }
  }

  // ---------------------------------------------------------------- leading and trailing breaks

  /** `/^\s*\n+/g → ''`: the leading whitespace up to its last line feed. */
  function DropLeadingBreaks(s: string): (r: string)
    ensures |r| <= |s| && r == s[|s| - |r|..] && AllWhitespace(s[..|s| - |r|])
    ensures Blank(r) == 0
  {
    if Blank(s) > 0 then s[AfterLastBreak(s)..] else s
  }

  /** The first line feed from `i` on after which there is only whitespace; -1 when none. */
  function TrailingBreak(s: string, i: nat): (k: int)
    requires i <= |s|
    ensures k == -1 || (i <= k < |s| && s[k] == '\n' && AllWhitespace(s[k..]))
    decreases |s| - i
  {
    if i == |s| then -1
    else if s[i] == '\n' && AllWhitespace(s[i..]) then i
    else TrailingBreak(s, i + 1)
  }

  /** `/\n+\s*$/g → ''`: from the first line feed of the trailing whitespace on. */
  function DropTrailingBreaks(s: string): (r: string)
    ensures |r| <= |s| && r == s[..|r|] && AllWhitespace(s[|r|..])
  {
    var k := TrailingBreak(s, 0);
    if k == -1 then s else s[..k]
  }

  /** Whitespace put in front does not survive `trim()`. */
  lemma {:induction false} TrimPrependWhitespace(w: string, s: string)
    requires AllWhitespace(w)
    ensures Trim(w + s) == Trim(s)
    decreases |w|
  {
    if w != [] {
      assert (w + s)[1..] == w[1..] + s;
      assert AllWhitespace(w[1..]) by {
        forall k | 0 <= k < |w| - 1 ensures IsWhitespace(w[1..][k]) {
          assert w[1..][k] == w[k + 1];
        }
      }
      TrimPrependWhitespace(w[1..], s);
    } else {
      assert w + s == s;
    }
  }

  // ---------------------------------------------------------------- one string item

  /** The markers and placeholders removed: the first four replacements. */
  function Stripped(item: string): string {
    var p1 := ReplaceAll(MarkerAttr, item, "");
    var p2 := ReplaceAll(MarkerLine, p1, "");
    var p3 := ReplaceAll(Shell, p2, "");
    ReplaceAll(LooseShell, p3, "")
  }

  /** The whole chain for one string item. */
  function CleanText(item: string): (r: string)
    ensures Trimmed(r)
    ensures NoBlankTriple(r)
    ensures |r| <= |item|
    ensures r == Trim(ReplaceAll(BlankRun, Stripped(item), "\n\n"))
  {
    var p4 := Stripped(item);
    var p5 := ReplaceAll(BlankRun, p4, "\n\n");
    var p6 := DropLeadingBreaks(p5);
    var p7 := DropTrailingBreaks(p6);
    var p8 := Trim(p7);
    CleanTextFacts(item, p4, p5, p6, p7, p8);
    if p8 == [] || AllWhitespace(p8) then "" else p8
  }

  lemma CleanTextFacts(item: string, p4: string, p5: string, p6: string, p7: string, p8: string)
    requires p4 == Stripped(item) && p5 == ReplaceAll(BlankRun, p4, "\n\n")
    requires p6 == DropLeadingBreaks(p5) && p7 == DropTrailingBreaks(p6) && p8 == Trim(p7)
    ensures Trimmed(p8) && NoBlankTriple(p8) && |p8| <= |item| && p8 == Trim(p5)
    ensures p8 == [] || !AllWhitespace(p8)
  {
    var p1 := ReplaceAll(MarkerAttr, item, "");
    var p2 := ReplaceAll(MarkerLine, p1, "");
    var p3 := ReplaceAll(Shell, p2, "");
    ReplaceShrinks(MarkerAttr, item, "");
    ReplaceShrinks(MarkerLine, p1, "");
    ReplaceShrinks(Shell, p2, "");
    ReplaceShrinks(LooseShell, p3, "");
    ReplaceShrinks(BlankRun, p4, "\n\n");
    CollapseLeavesNoTriple(p4);
    EdgesFacts(p5, p6, p7, p8);
  }

  /** Steps six to eight only take whitespace off the ends, so they agree with `trim()` alone. */
  lemma EdgesFacts(p5: string, p6: string, p7: string, p8: string)
    requires NoBlankTriple(p5)
    requires p6 == DropLeadingBreaks(p5) && p7 == DropTrailingBreaks(p6) && p8 == Trim(p7)
    ensures Trimmed(p8) && NoBlankTriple(p8) && |p8| <= |p5| && p8 == Trim(p5)
    ensures p8 == [] || !AllWhitespace(p8)
  {
    EdgesNoTriple(p5, p6, p7, p8);
    TrimIsTrimmed(p7);
    EdgesTrim(p5, p6, p7);
    if p8 != [] {
      assert !IsWhitespace(p8[0]);
    }
  }

  lemma EdgesNoTriple(p5: string, p6: string, p7: string, p8: string)
    requires NoBlankTriple(p5)
    requires p6 == DropLeadingBreaks(p5) && p7 == DropTrailingBreaks(p6) && p8 == Trim(p7)
    ensures NoBlankTriple(p8) && |p8| <= |p5|
  {
    SuffixNoTriple(p5, p6);
    Infix(p6, 0, |p7|);
    TrimNoTriple(p7);
  }

  lemma SuffixNoTriple(s: string, t: string)
    requires NoBlankTriple(s) && |t| <= |s| && t == s[|s| - |t|..]
    ensures NoBlankTriple(t)
  {
    Infix(s, |s| - |t|, |s|);
    assert s[|s| - |t|..|s|] == t;
  }

  lemma TrimNoTriple(s: string)
    requires NoBlankTriple(s)
    ensures NoBlankTriple(Trim(s)) && |Trim(s)| <= |s|
  {
    var a := TrimStart(s);
    SuffixNoTriple(s, a);
    Infix(a, 0, |TrimEnd(a)|);
  }

  lemma EdgesTrim(p5: string, p6: string, p7: string)
    requires p6 == DropLeadingBreaks(p5) && p7 == DropTrailingBreaks(p6)
    ensures Trim(p7) == Trim(p5)
  {
    TrimLeading(p5, p6);
    TrimTrailing(p6, p7);
  }

  lemma TrimLeading(s: string, t: string)
    requires |t| <= |s| && t == s[|s| - |t|..] && AllWhitespace(s[..|s| - |t|])
    ensures Trim(s) == Trim(t)
  {
    var w := s[..|s| - |t|];
    assert s == w + t;
    TrimPrependWhitespace(w, t);
  }

  lemma TrimTrailing(s: string, t: string)
    requires |t| <= |s| && t == s[..|t|] && AllWhitespace(s[|t|..])
    ensures Trim(s) == Trim(t)
  {
    var v := s[|t|..];
    assert s == t + v;
    TrimAppendWhitespace(t, v);
  }

  /** An item of nothing but whitespace becomes the empty string. */
  lemma WhitespaceItemEmpties(item: string)
    requires AllWhitespace(item)
    ensures CleanText(item) == ""
  {
    var p1 := ReplaceAll(MarkerAttr, item, "");
    var p2 := ReplaceAll(MarkerLine, p1, "");
    var p3 := ReplaceAll(Shell, p2, "");
    ReplaceKeepsWhitespace(MarkerAttr, item, "");
    ReplaceKeepsWhitespace(MarkerLine, p1, "");
    ReplaceKeepsWhitespace(Shell, p2, "");
    ReplaceKeepsWhitespace(LooseShell, p3, "");
    ReplaceKeepsWhitespace(BlankRun, Stripped(item), "\n\n");
    TrimIsTrimmed(ReplaceAll(BlankRun, Stripped(item), "\n\n"));
  }

  // ---------------------------------------------------------------- the message

  /** An element of a row: a string or anything else. */
  datatype Item = Text(text: string) | Other(value: int)

  /** A row: an array `[number, ...any[]]` or a value that is not an array. */
  datatype Row = Tuple(items: seq<Item>) | NotArray(value: int)

  /** `MessageBinaryFormat`: the rows of a v0 message, or a plain string. */
  datatype Content = Plain(text: string) | Rows(rows: seq<Row>)

  function CleanItem(item: Item): Item {
    match item
    case Text(t) => Text(CleanText(t))
    case Other(_) => item
  }

  function CleanRow(row: Row): Row {
    match row
    case Tuple(items) => Tuple(seq(|items|, j requires 0 <= j < |items| => CleanItem(items[j])))
    case NotArray(_) => row
  }

  /** `preprocessMessageContent(content)`. */
  function Preprocess(content: Content): (r: Content)
    ensures content.Plain? ==> r == content
    ensures content.Rows? ==> r.Rows? && |r.rows| == |content.rows|
    ensures content.Rows? ==> forall i :: 0 <= i < |content.rows| ==>
      (content.rows[i].NotArray? ==> r.rows[i] == content.rows[i])
      && (content.rows[i].Tuple? ==> r.rows[i].Tuple? && |r.rows[i].items| == |content.rows[i].items|)
  {
    match content
    case Plain(_) => content
    case Rows(rows) => Rows(seq(|rows|, i requires 0 <= i < |rows| => CleanRow(rows[i])))
  }

  /**
   * Every string item of the result is trimmed and free of blank triples,
   * is the cleaned form of the item in its place, and every other item is kept.
   */
  lemma PreprocessedItems(content: Content, i: nat, j: nat)
    requires content.Rows? && i < |content.rows| && content.rows[i].Tuple? && j < |content.rows[i].items|
    ensures var item := content.rows[i].items[j];
            var out := Preprocess(content).rows[i].items[j];
            && (item.Other? ==> out == item)
            && (item.Text? ==> out.Text? && out.text == CleanText(item.text)
                               && Trimmed(out.text) && NoBlankTriple(out.text))
  {
  }
}
