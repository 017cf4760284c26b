/**
 * The chat screen's own logic: `parseMessage`, which cuts a reply into prose
 * and code parts; the guard in front of sending; the choice of which code
 * part the Live Preview opens; and the list of extra Ollama models.
 */
module ChatInterface {
  import opened Common
  import opened Strings
  import opened Fence
  import opened CodeParser

  /** A rendered piece of a message: prose, or a fence body with its language. */
  datatype Part = Text(content: string) | Code(content: string, language: string)

  /** `match[1] || 'typescript'`: a fence without a tag is shown as typescript. */
  function DefaultTag(tag: string): string {
    if tag == [] then "typescript" else tag
  }

  /** One loop iteration: the prose before the fence, if any, then the fence body untrimmed. */
  function PartStep(gap: string, tag: string, body: string): seq<Part> {
    (if gap == [] then [] else [Text(gap)]) + [Code(body, DefaultTag(tag))]
  }

  /** After the loop: the prose after the last fence, if any. */
  function PartTail(rest: string): seq<Part> {
    if rest == [] then [] else [Text(rest)]
  }

  /** What `parseMessage` returns: the collected parts, or the whole content as one text part. */
  function Parts(content: string): seq<Part> {
    var parts := Collect(content, 0, PartStep, PartTail);
    if parts == [] then [Text(content)] else parts
  }

  /** The `while (exec)` loop of `parseMessage`, as it stands in the chat screen. */
  method ParseMessage(content: string) returns (parts: seq<Part>)
    ensures parts == Parts(content)
  {
    parts := [];
    var lastIndex: nat := 0;
    var found := NextMatch(content, lastIndex);
    while found.Some?
      invariant lastIndex <= |content|
      invariant found == NextMatch(content, lastIndex)
      invariant parts + Collect(content, lastIndex, PartStep, PartTail) == Collect(content, 0, PartStep, PartTail)
      decreases |content| - lastIndex
    {
      var m := found.value;
      ghost var before := parts;
      ghost var produced := PartStep(content[lastIndex..m.start], m.tag, m.body);
      ghost var later := Collect(content, m.end, PartStep, PartTail);
      assert Collect(content, lastIndex, PartStep, PartTail) == produced + later;
      if m.start > lastIndex {
        parts := parts + [Text(content[lastIndex..m.start])];
      }
      parts := parts + [Code(m.body, if m.tag == [] then "typescript" else m.tag)];
      assert parts == before + produced;
      AppendAssoc(before, produced, later);
      lastIndex := m.end;
      found := NextMatch(content, lastIndex);
    }
    if lastIndex < |content| {
      parts := parts + [Text(content[lastIndex..])];
    }
    assert parts == Collect(content, 0, PartStep, PartTail);
    if |parts| == 0 {
      parts := [Text(content)];
    }
  }

  // ---------------------------------------------------------------------
  // What the parts are, in terms of the matches and the gaps between them
  // ---------------------------------------------------------------------

  /** The code parts, in order. */
  function CodeParts(parts: seq<Part>): seq<Part> {
    if parts == [] then []
    else (if parts[0].Code? then [parts[0]] else []) + CodeParts(parts[1..])
  }

  /** The text parts' contents, in order. */
  function Texts(parts: seq<Part>): seq<string> {
    if parts == [] then []
    else (if parts[0].Text? then [parts[0].content] else []) + Texts(parts[1..])
  }

  lemma {:induction false} CodePartsAppend(a: seq<Part>, b: seq<Part>)
    ensures CodeParts(a + b) == CodeParts(a) + CodeParts(b)
    decreases |a|
  {
    if a != [] {
      var h := if a[0].Code? then [a[0]] else [];
      assert (a + b)[0] == a[0] && (a + b)[1..] == a[1..] + b;
      assert CodeParts(a + b) == h + CodeParts(a[1..] + b);
      CodePartsAppend(a[1..], b);
      AppendAssoc(h, CodeParts(a[1..]), CodeParts(b));
    } else {
      assert a + b == b;
    }
  }

  lemma {:induction false} TextsAppend(a: seq<Part>, b: seq<Part>)
    ensures Texts(a + b) == Texts(a) + Texts(b)
    decreases |a|
  {
    if a != [] {
      var h := if a[0].Text? then [a[0].content] else [];
      assert (a + b)[0] == a[0] && (a + b)[1..] == a[1..] + b;
      assert Texts(a + b) == h + Texts(a[1..] + b);
      TextsAppend(a[1..], b);
      AppendAssoc(h, Texts(a[1..]), Texts(b));
    } else {
      assert a + b == b;
    }
  }

  /** The code part each fence becomes. */
  function FenceParts(ms: seq<Match>): seq<Part> {
    if ms == [] then [] else [Code(ms[0].body, DefaultTag(ms[0].tag))] + FenceParts(ms[1..])
  }

  /** The gaps that are not empty, in order. */
  function NonEmpty(gaps: seq<string>): seq<string> {
    if gaps == [] then []
    else (if gaps[0] == [] then [] else [gaps[0]]) + NonEmpty(gaps[1..])
  }

  /** Each fence the expression matches is one code part, in order, with its raw body. */
  lemma {:induction false} CollectCodeParts(s: string, from: nat)
    requires from <= |s|
    ensures CodeParts(Collect(s, from, PartStep, PartTail)) == FenceParts(MatchesFrom(s, from))
    decreases |s| - from
  {
    match NextMatch(s, from)
    case None =>
    case Some(m) =>
      var gap := s[from..m.start];
      CollectCodeParts(s, m.end);
      CodePartsAppend(PartStep(gap, m.tag, m.body), Collect(s, m.end, PartStep, PartTail));
      CodePartsAppend(if gap == [] then [] else [Text(gap)], [Code(m.body, DefaultTag(m.tag))]);
      assert MatchesFrom(s, from) == [m] + MatchesFrom(s, m.end);
  }

  /** The text parts are exactly the non-empty gaps before, between and after the fences. */
  lemma {:induction false} CollectTexts(s: string, from: nat)
    requires from <= |s|
    ensures Ordered(MatchesFrom(s, from), from, |s|)
    ensures Texts(Collect(s, from, PartStep, PartTail)) == NonEmpty(GapsFrom(s, from, MatchesFrom(s, from)))
    decreases |s| - from
  {
    MatchesFromSound(s, from);
    match NextMatch(s, from)
    case None =>
      assert GapsFrom(s, from, []) == [s[from..]];
      assert NonEmpty([s[from..]]) == (if s[from..] == [] then [] else [s[from..]]) + NonEmpty([]);
    case Some(m) =>
      CollectTexts(s, m.end);
      TextsStep(s, from, m);
  }

  /** One step of the induction above: a match contributes its non-empty gap. */
  lemma TextsStep(s: string, from: nat, m: Match)
    requires from <= |s| && NextMatch(s, from) == Some(m)
    requires Ordered(MatchesFrom(s, from), from, |s|) && Ordered(MatchesFrom(s, m.end), m.end, |s|)
    requires Texts(Collect(s, m.end, PartStep, PartTail)) == NonEmpty(GapsFrom(s, m.end, MatchesFrom(s, m.end)))
    ensures Texts(Collect(s, from, PartStep, PartTail)) == NonEmpty(GapsFrom(s, from, MatchesFrom(s, from)))
  {
    var gap := s[from..m.start];
    var rest := MatchesFrom(s, m.end);
    var later := Collect(s, m.end, PartStep, PartTail);
    GapsStep(s, from, m, rest);
    var h := if gap == [] then [] else [gap];
    assert Texts(PartStep(gap, m.tag, m.body)) == h by {
      TextsAppend(if gap == [] then [] else [Text(gap)], [Code(m.body, DefaultTag(m.tag))]);
    }
    TextsAppend(PartStep(gap, m.tag, m.body), later);
    assert NonEmpty([gap] + GapsFrom(s, m.end, rest)) == h + NonEmpty(GapsFrom(s, m.end, rest)) by {
      assert ([gap] + GapsFrom(s, m.end, rest))[1..] == GapsFrom(s, m.end, rest);
    }
  }

  /** The gaps after a first match are the gap before it and the gaps after it. */
  lemma GapsStep(s: string, from: nat, m: Match, rest: seq<Match>)
    requires from <= |s| && NextMatch(s, from) == Some(m) && rest == MatchesFrom(s, m.end)
    requires Ordered(MatchesFrom(s, from), from, |s|)
    ensures MatchesFrom(s, from) == [m] + rest
    ensures GapsFrom(s, from, MatchesFrom(s, from)) == [s[from..m.start]] + GapsFrom(s, m.end, rest)
  {
    var ms := MatchesFrom(s, from);
    assert ms == [m] + rest;
    assert ms[1..] == rest;
  }

  /**
   * The code parts of a message are its fences in order, each with the raw
   * body and the tag or typescript; its text parts are the non-empty gaps.
   */
  lemma PartsAreFencesAndGaps(s: string)
    ensures Ordered(Matches(s), 0, |s|)
    ensures CodeParts(Parts(s)) == FenceParts(Matches(s))
    ensures Matches(s) != [] ==> Texts(Parts(s)) == NonEmpty(GapsFrom(s, 0, Matches(s)))
  {
    CollectCodeParts(s, 0);
    CollectTexts(s, 0);
  }

  /** Steps always produce a code part, so an empty collection means no fence and no text. */
  lemma {:induction false} CollectEmpty(s: string, from: nat)
    requires from <= |s|
    ensures Collect(s, from, PartStep, PartTail) == [] <==> MatchesFrom(s, from) == [] && from == |s|
  {
    match NextMatch(s, from)
    case None =>
    case Some(m) =>
  }

  /** Without a complete fence, including the empty message, the whole content is one text part. */
  lemma NoFenceSingleText(s: string)
    requires Matches(s) == []
    ensures Parts(s) == [Text(s)]
  {
    CollectEmpty(s, 0);
    assert NextMatch(s, 0).None?;
    assert s[0..] == s;
  }

  /** A non-empty message never yields an empty text part, and there is always at least one part. */
  lemma TextPartsNonEmpty(s: string)
    ensures Parts(s) != []
    ensures s != [] ==> forall t :: t in Texts(Parts(s)) ==> t != []
  {
    CollectEmpty(s, 0);
    CollectTexts(s, 0);
    NonEmptyHasNoEmpty(GapsFrom(s, 0, Matches(s)));
    if s != [] && Matches(s) == [] {
      NoFenceSingleText(s);
      assert Texts([Text(s)]) == [s];
    }
  }

  lemma {:induction false} NonEmptyHasNoEmpty(gaps: seq<string>)
    ensures forall t :: t in NonEmpty(gaps) ==> t != []
  {
    if gaps != [] {
      NonEmptyHasNoEmpty(gaps[1..]);
    }
  }

  // ---------------------------------------------------------------------
  // Re-wrapping a code part for the Live Preview
  // ---------------------------------------------------------------------

  /** The template literal "```tsx\n" + content + "\n```". */
  function Rewrap(code: string): string {
    "```tsx\n" + code + "\n```"
  }

  /** The body of a matched fence, plus a line break, holds no marker. */
  lemma NoMarkerWithNewline(body: string)
    requires NoMarker(body)
    ensures NoMarker(body + "\n")
  {
    var t := body + "\n";
    forall j | 0 <= j < |t| ensures !MarkerAt(t, j) {
      if j + 3 <= |body| {
        assert t[j..j + 3] == body[j..j + 3];
        assert !MarkerAt(body, j);
      } else if j + 3 <= |t| {
        assert t[j + 2] == '\n';
      }
    }
  }

  /**
   * Re-wrapping a fence body in a tsx fence gives exactly one block: the body
   * trimmed, in tsx, flagged as a component exactly when its trimmed code is one.
   */
  lemma RewrapOneBlock(body: string)
    requires NoMarker(body)
    ensures |CodeBlocks(Rewrap(body))| == 1
    ensures CodeBlocks(Rewrap(body))[0].code == Trim(body)
    ensures CodeBlocks(Rewrap(body))[0].language == Tsx
    ensures CodeBlocks(Rewrap(body))[0].hasReactComponent == DetectReactComponent(Trim(body))
  {
    var b := body + "\n";
    NoMarkerWithNewline(body);
    assert Rewrap(body) == FenceText("tsx", b) + "";
    assert AllWordChars("tsx");
    LeadingFence("tsx", b, "");
    assert NextMatch("", 0).None?;
    assert CodeBlocks("") == [];
    TsxTag();
    BlockOfFence("tsx", b);
    assert AllWhitespace("\n");
    TrimAppendWhitespace(body, "\n");
  }

  lemma TsxTag()
    ensures TagLanguage("tsx") == "tsx" && IsSupportedLanguage("tsx") && NormalizeLanguage("tsx") == Tsx
  {
    LowerOfLower("tsx");
  }

  /** A code part's content is the body of a matched fence, so it holds no marker. */
  lemma CodePartBody(s: string, i: nat)
    requires i < |Parts(s)| && Parts(s)[i].Code?
    ensures NoMarker(Parts(s)[i].content)
  {
    var c := Parts(s)[i];
    CodePartMember(Parts(s), i);
    PartsAreFencesAndGaps(s);
    var k := FencePartsMember(Matches(s), c);
    var m := Matches(s)[k];
    MatchesFromSound(s, 0);
    assert m in Matches(s);
    MatchAtShape(s, m.start);
  }

  /** Every code part of every message re-wraps into exactly one block. */
  lemma CodePartRewraps(s: string, i: nat)
    requires i < |Parts(s)| && Parts(s)[i].Code?
    ensures |CodeBlocks(Rewrap(Parts(s)[i].content))| == 1
  {
    CodePartBody(s, i);
    RewrapOneBlock(Parts(s)[i].content);
  }

  lemma {:induction false} CodePartMember(parts: seq<Part>, i: nat)
    requires i < |parts| && parts[i].Code?
    ensures parts[i] in CodeParts(parts)
  {
    if i > 0 {
      CodePartMember(parts[1..], i - 1);
    }
  }

  lemma {:induction false} FencePartsMember(ms: seq<Match>, c: Part) returns (k: nat)
    requires c in FenceParts(ms)
    ensures k < |ms| && c == Code(ms[k].body, DefaultTag(ms[k].tag))
  {
    if c == Code(ms[0].body, DefaultTag(ms[0].tag)) {
      k := 0;
    } else {
      var j := FencePartsMember(ms[1..], c);
      k := j + 1;
    }
  }

  // ---------------------------------------------------------------------
  // Sending
  // ---------------------------------------------------------------------

  /** What `handleSend` does: the input box's new text, and the message sent if any. */
  datatype SendOutcome = SendOutcome(input: string, sent: Option<string>)

  function HandleSend(input: string, isStreaming: bool): SendOutcome {
    if Trim(input) == [] || isStreaming then SendOutcome(input, None)
    else SendOutcome("", Some(Trim(input)))
  }

  /**
   * Nothing is sent, and the input is kept, while a reply streams or when the
   * input is blank; otherwise the input is cleared and its trimmed text,
   * never blank, is sent.
   */
  lemma HandleSendGuard(input: string, isStreaming: bool)
    ensures HandleSend(input, isStreaming).sent.None? <==> AllWhitespace(input) || isStreaming
    ensures HandleSend(input, isStreaming).sent.None? ==> HandleSend(input, isStreaming).input == input
    ensures HandleSend(input, isStreaming).sent.Some? ==>
      var m := HandleSend(input, isStreaming).sent.value;
      HandleSend(input, isStreaming).input == "" && m != [] && Trimmed(m) && m == Trim(input)
  {
    TrimIsTrimmed(input);
  }

  // ---------------------------------------------------------------------
  // Which code part the Live Preview opens
  // ---------------------------------------------------------------------

  /** The fields of a chat message the preview effect looks at. */
  datatype ShownMessage = ShownMessage(
    id: string, role: string, content: string, isStreaming: bool, hasProjectFiles: bool)

  /** `findIndex`: the first index whose element satisfies p. */
  function FindIndex<T>(s: seq<T>, p: T -> bool): (r: Option<nat>)
    ensures r.Some? ==> r.value < |s| && p(s[r.value])
  {
    if s == [] then None
    else if p(s[0]) then Some(0)
    else match FindIndex(s[1..], p)
      case None => None
      case Some(i) => Some(i + 1)
  }

  lemma {:induction false} FindIndexFirst<T>(s: seq<T>, p: T -> bool)
    ensures FindIndex(s, p).Some? ==> forall j :: 0 <= j < FindIndex(s, p).value ==> !p(s[j])
    ensures FindIndex(s, p).None? ==> forall j :: 0 <= j < |s| ==> !p(s[j])
  {
    if s != [] && !p(s[0]) {
      FindIndexFirst(s[1..], p);
    }
  }

  /** `[...s].reverse().find(p)`: the last element satisfying p, as an index. */
  function FindLastIndex<T>(s: seq<T>, p: T -> bool): (r: Option<nat>)
    ensures r.Some? ==> r.value < |s| && p(s[r.value])
  {
    if s == [] then None
    else if p(s[|s| - 1]) then Some(|s| - 1)
    else FindLastIndex(s[..|s| - 1], p)
  }

  lemma {:induction false} FindLastIndexLast<T>(s: seq<T>, p: T -> bool)
    ensures FindLastIndex(s, p).Some? ==> forall j :: FindLastIndex(s, p).value < j < |s| ==> !p(s[j])
    ensures FindLastIndex(s, p).None? ==> forall j :: 0 <= j < |s| ==> !p(s[j])
  {
    if s != [] && !p(s[|s| - 1]) {
      var front := s[..|s| - 1];
      FindLastIndexLast(front, p);
      assert forall j :: 0 <= j < |front| ==> front[j] == s[j];
    }
  }

  predicate IsCodePart(p: Part) {
    p.Code?
  }

  /** A code part whose tsx re-wrap holds a component. */
  predicate IsComponentPart(p: Part) {
    p.Code? && AnyComponent(CodeBlocks(Rewrap(p.content)))
  }

  predicate HasProjectFiles(m: ShownMessage) {
    m.hasProjectFiles
  }

  predicate IsFinishedReply(m: ShownMessage) {
    m.role == "assistant" && !m.isStreaming
  }

  /** The preview id of part `index` of a message: `${id}-${index}`. */
  function PreviewId(id: string, index: nat): string {
    id + "-" + IntToString(index)
  }

  /** The preview id after the effect runs, given the one shown before. */
  function AutoPreview(msgs: seq<ShownMessage>, shown: Option<string>): Option<string> {
    var t := FindIndex(msgs, HasProjectFiles);
    if t.Some? && |msgs| == 1 then
      var code := FindIndex(Parts(msgs[t.value].content), IsCodePart);
      if code.Some? then Some(PreviewId(msgs[t.value].id, code.value)) else shown
    else
      var last := FindLastIndex(msgs, IsFinishedReply);
      if last.None? then shown
      else
        var idx := FindIndex(Parts(msgs[last.value].content), IsComponentPart);
        if idx.Some? then Some(PreviewId(msgs[last.value].id, idx.value)) else shown
  }

  /** A single template message previews its first code part, or keeps the preview when it has none. */
  lemma TemplatePreview(m: ShownMessage, shown: Option<string>)
    requires m.hasProjectFiles
    ensures var parts := Parts(m.content);
      (forall j :: 0 <= j < |parts| ==> !parts[j].Code?) ==> AutoPreview([m], shown) == shown
    ensures var parts := Parts(m.content);
      forall i :: 0 <= i < |parts| && parts[i].Code? && (forall j :: 0 <= j < i ==> !parts[j].Code?) ==>
        AutoPreview([m], shown) == Some(PreviewId(m.id, i))
  {
    var parts := Parts(m.content);
    assert FindIndex([m], HasProjectFiles) == Some(0);
    FindIndexFirst(parts, IsCodePart);
  }

  /**
   * Otherwise the preview opens the first component part of the last
   * finished assistant reply, and is left as it was when there is none.
   */
  lemma ReplyPreview(msgs: seq<ShownMessage>, shown: Option<string>)
    requires !(|msgs| == 1 && msgs[0].hasProjectFiles)
    ensures AutoPreview(msgs, shown) != shown ==>
      exists k, i :: 0 <= k < |msgs| && IsFinishedReply(msgs[k]) &&
        (forall j :: k < j < |msgs| ==> !IsFinishedReply(msgs[j])) &&
        0 <= i < |Parts(msgs[k].content)| && IsComponentPart(Parts(msgs[k].content)[i]) &&
        (forall j :: 0 <= j < i ==> !IsComponentPart(Parts(msgs[k].content)[j])) &&
        AutoPreview(msgs, shown) == Some(PreviewId(msgs[k].id, i))
  ensures forall k, i ::
    (0 <= k < |msgs| && IsFinishedReply(msgs[k]) &&
     (forall j :: k < j < |msgs| ==> !IsFinishedReply(msgs[j])) &&
     0 <= i < |Parts(msgs[k].content)| && IsComponentPart(Parts(msgs[k].content)[i]) &&
     (forall j :: 0 <= j < i ==> !IsComponentPart(Parts(msgs[k].content)[j]))) ==>
      AutoPreview(msgs, shown) == Some(PreviewId(msgs[k].id, i))
  {
    if |msgs| == 1 {
      assert FindIndex(msgs, HasProjectFiles).None?;
    }
    var last := FindLastIndex(msgs, IsFinishedReply);
    FindLastIndexLast(msgs, IsFinishedReply);
    if last.Some? {
      var k := last.value;
      var parts := Parts(msgs[k].content);
      FindIndexFirst(parts, IsComponentPart);
      var idx := FindIndex(parts, IsComponentPart);
      if idx.Some? {
        assert AutoPreview(msgs, shown) == Some(PreviewId(msgs[k].id, idx.value));
      }
    }
    forall k, i | 0 <= k < |msgs| && IsFinishedReply(msgs[k]) &&
      (forall j :: k < j < |msgs| ==> !IsFinishedReply(msgs[j])) &&
      0 <= i < |Parts(msgs[k].content)| && IsComponentPart(Parts(msgs[k].content)[i]) &&
      (forall j :: 0 <= j < i ==> !IsComponentPart(Parts(msgs[k].content)[j]))
      ensures AutoPreview(msgs, shown) == Some(PreviewId(msgs[k].id, i))
    {
      // k is the last finished reply, and i its first component part
      assert last.Some? && last.value == k;
      var parts := Parts(msgs[k].content);
      FindIndexFirst(parts, IsComponentPart);
      assert FindIndex(parts, IsComponentPart) == Some(i);
    }
  }

  /** A re-wrapped fence body holds a component exactly when its trimmed code is one. */
  lemma RewrapComponent(body: string)
    requires NoMarker(body)
    ensures AnyComponent(CodeBlocks(Rewrap(body))) <==> DetectReactComponent(Trim(body))
  {
    RewrapOneBlock(body);
    AnyComponentSingle(CodeBlocks(Rewrap(body)));
  }

  lemma AnyComponentSingle(blocks: seq<CodeBlock>)
    requires |blocks| == 1
    ensures AnyComponent(blocks) <==> blocks[0].hasReactComponent
  {
  }

  /** For a code part of a message, "its re-wrap holds a component" is "its trimmed code is a component". */
  lemma ComponentPartIsComponentCode(s: string, i: nat)
    requires i < |Parts(s)| && Parts(s)[i].Code?
    ensures IsComponentPart(Parts(s)[i]) <==> DetectReactComponent(Trim(Parts(s)[i].content))
  {
    CodePartBody(s, i);
    RewrapComponent(Parts(s)[i].content);
  }

  // ---------------------------------------------------------------------
  // The model picker
  // ---------------------------------------------------------------------

  /** The preset local models, by task. */
  const OllamaModels: seq<string> := ["deepseek-coder", "llama3.2", "mistral", "qwen2.5", "llava"]

  /** The fetched models offered below the presets: those that are not a preset, in fetched order. */
  function ExtraOllamaModels(fetched: seq<string>): (r: seq<string>)
    ensures |r| <= |fetched|
  {
    if fetched == [] then []
    else (if fetched[0] in OllamaModels then [] else [fetched[0]]) + ExtraOllamaModels(fetched[1..])
  }

  /** A model is offered exactly when it was fetched and is not a preset. */
  lemma {:induction false} ExtraOllamaModelsExact(fetched: seq<string>)
    ensures forall m :: m in ExtraOllamaModels(fetched) <==> m in fetched && m !in OllamaModels
  {
    if fetched != [] {
      ExtraOllamaModelsExact(fetched[1..]);
      assert fetched == [fetched[0]] + fetched[1..];
    }
  }
}
