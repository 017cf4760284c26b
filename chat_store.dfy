/**
 * The chat store: sessions, the current session and the streaming flags,
 * and `sendMessage`, which appends a user/assistant pair and folds the
 * newline-delimited records read from the chat endpoint into the reply.
 */
module ChatStore {
  import opened Common
  import opened Strings
  import opened Json
  import CodeParser

  datatype ChatMessage = ChatMessage(
    id: string, role: string, content: string, timestamp: int,
    provider: Option<string>, model: Option<string>, isStreaming: Option<bool>, code: Option<seq<string>>)

  datatype ChatSession = ChatSession(
    id: string, title: string, messages: seq<ChatMessage>, createdAt: int, updatedAt: int)

  /** `createNewSession`: the id, clock and time label are supplied by the caller. */
  function NewSession(title: Option<string>, id: string, now: int, timeLabel: string): ChatSession {
    ChatSession(id, if title.Some? && title.value != [] then title.value else "New Chat " + timeLabel, [], now, now)
  }

  // ---------------------------------------------------------------------
  // Sessions
  // ---------------------------------------------------------------------

  predicate HasSession(sessions: seq<ChatSession>, id: string) {
    exists k :: 0 <= k < |sessions| && sessions[k].id == id
  }

  predicate DistinctIds(sessions: seq<ChatSession>) {
    forall i, j :: 0 <= i < j < |sessions| ==> sessions[i].id != sessions[j].id
  }

  /** `sessions.find(s => s.id === id)`. */
  function FindSession(sessions: seq<ChatSession>, id: string): Option<ChatSession> {
    if sessions == [] then None
    else if sessions[0].id == id then Some(sessions[0])
    else FindSession(sessions[1..], id)
  }

  /** The session found is the first one with that id, and there is one exactly when some session has it. */
  lemma {:induction false} FindSessionFirst(sessions: seq<ChatSession>, id: string)
    ensures FindSession(sessions, id).Some? <==> HasSession(sessions, id)
    ensures FindSession(sessions, id).Some? ==>
      exists k :: 0 <= k < |sessions| && sessions[k] == FindSession(sessions, id).value && sessions[k].id == id &&
        forall j :: 0 <= j < k ==> sessions[j].id != id
  {
    if sessions != [] && sessions[0].id != id {
      FindSessionFirst(sessions[1..], id);
      if HasSession(sessions, id) {
        var k :| 0 <= k < |sessions| && sessions[k].id == id;
        assert sessions[1..][k - 1].id == id;
      }
      if FindSession(sessions, id).Some? {
        var k :| 0 <= k < |sessions[1..]| && sessions[1..][k] == FindSession(sessions, id).value && sessions[1..][k].id == id &&
          forall j :: 0 <= j < k ==> sessions[1..][j].id != id;
        assert sessions[k + 1] == sessions[1..][k];
        forall j | 0 <= j < k + 1 ensures sessions[j].id != id {
          if j > 0 { assert sessions[j] == sessions[1..][j - 1]; }
        }
      }
    }
  }

  /** `sessions.filter(s => s.id !== id)`. */
  function WithoutSession(sessions: seq<ChatSession>, id: string): seq<ChatSession> {
    if sessions == [] then []
    else (if sessions[0].id == id then [] else [sessions[0]]) + WithoutSession(sessions[1..], id)
  }

  /** What is left is exactly the sessions with another id; an unknown id changes nothing. */
  lemma {:induction false} WithoutSessionSpec(sessions: seq<ChatSession>, id: string)
    ensures forall s :: s in WithoutSession(sessions, id) <==> s in sessions && s.id != id
    ensures !HasSession(sessions, id) ==> WithoutSession(sessions, id) == sessions
    ensures |WithoutSession(sessions, id)| <= |sessions|
  {
    if sessions != [] {
      WithoutSessionSpec(sessions[1..], id);
      if !HasSession(sessions, id) {
        assert !HasSession(sessions[1..], id) by {
          forall k | 0 <= k < |sessions[1..]| ensures sessions[1..][k].id != id {
            assert sessions[1..][k] == sessions[k + 1];
          }
        }
        assert sessions == [sessions[0]] + sessions[1..];
      }
    }
  }

  lemma DistinctTail(sessions: seq<ChatSession>)
    requires sessions != [] && DistinctIds(sessions)
    ensures DistinctIds(sessions[1..])
    ensures forall s :: s in sessions[1..] ==> s.id != sessions[0].id
  {
    forall i, j | 0 <= i < j < |sessions[1..]| ensures sessions[1..][i].id != sessions[1..][j].id {
      assert sessions[1..][i] == sessions[i + 1] && sessions[1..][j] == sessions[j + 1];
    }
    forall s | s in sessions[1..] ensures s.id != sessions[0].id {
      var m :| 0 <= m < |sessions[1..]| && sessions[1..][m] == s;
      assert sessions[m + 1] == s;
    }
  }

  lemma DistinctCons(s: ChatSession, rest: seq<ChatSession>)
    requires DistinctIds(rest) && forall t :: t in rest ==> t.id != s.id
    ensures DistinctIds([s] + rest)
  {
    var r := [s] + rest;
    forall i, j | 0 <= i < j < |r| ensures r[i].id != r[j].id {
      assert r[j] == rest[j - 1] && r[j] in rest;
      if i > 0 {
        assert r[i] == rest[i - 1];
      }
    }
  }

  /** Deleting keeps the session ids distinct. */
  lemma {:induction false} WithoutSessionDistinct(sessions: seq<ChatSession>, id: string)
    requires DistinctIds(sessions)
    ensures DistinctIds(WithoutSession(sessions, id))
  {
    if sessions != [] {
      DistinctTail(sessions);
      WithoutSessionDistinct(sessions[1..], id);
      if sessions[0].id != id {
        WithoutSessionSpec(sessions[1..], id);
        DistinctCons(sessions[0], WithoutSession(sessions[1..], id));
      }
    }
  }

  /** The `map` of `updateSessionTitle`. */
  function Retitle(sessions: seq<ChatSession>, id: string, title: string, now: int): (r: seq<ChatSession>)
    ensures |r| == |sessions|
  {
    seq(|sessions|, k requires 0 <= k < |sessions| =>
      if sessions[k].id == id then sessions[k].(title := title, updatedAt := now) else sessions[k])
  }

  /** Renaming keeps every session in place with its id and messages; only those with the id change title. */
  lemma RetitleSpec(sessions: seq<ChatSession>, id: string, title: string, now: int)
    ensures forall k :: 0 <= k < |sessions| ==>
      Retitle(sessions, id, title, now)[k].id == sessions[k].id &&
      Retitle(sessions, id, title, now)[k].messages == sessions[k].messages &&
      (Retitle(sessions, id, title, now)[k].title == title || Retitle(sessions, id, title, now)[k] == sessions[k]) &&
      (sessions[k].id != id ==> Retitle(sessions, id, title, now)[k] == sessions[k])
    ensures DistinctIds(sessions) ==> DistinctIds(Retitle(sessions, id, title, now))
    ensures !HasSession(sessions, id) ==> Retitle(sessions, id, title, now) == sessions
  {
  }

  /** A new session with a fresh id keeps the ids distinct. */
  lemma PrependFresh(sessions: seq<ChatSession>, s: ChatSession)
    requires DistinctIds(sessions) && !HasSession(sessions, s.id)
    ensures DistinctIds([s] + sessions)
  {
    forall t | t in sessions ensures t.id != s.id {
      var k :| 0 <= k < |sessions| && sessions[k] == t;
    }
    DistinctCons(s, sessions);
  }

  // ---------------------------------------------------------------------
  // Messages
  // ---------------------------------------------------------------------

  const ErrorText: string := "Error: Failed to connect to AI service."

  /** The update after each parsed line: the messages with the id get the text so far. */
  function SetContent(ms: seq<ChatMessage>, id: string, content: string): (r: seq<ChatMessage>)
    ensures |r| == |ms|
  {
    seq(|ms|, k requires 0 <= k < |ms| => if ms[k].id == id then ms[k].(content := content) else ms[k])
  }

  /** The update on completion: streaming over, code attached. */
  function MarkDone(ms: seq<ChatMessage>, id: string, code: seq<string>): (r: seq<ChatMessage>)
    ensures |r| == |ms|
  {
    seq(|ms|, k requires 0 <= k < |ms| =>
      if ms[k].id == id then ms[k].(isStreaming := Some(false), code := Some(code)) else ms[k])
  }

  /** The update on failure: the error text replaces the content. */
  function MarkFailed(ms: seq<ChatMessage>, id: string): (r: seq<ChatMessage>)
    ensures |r| == |ms|
  {
    seq(|ms|, k requires 0 <= k < |ms| =>
      if ms[k].id == id then ms[k].(content := ErrorText, isStreaming := Some(false)) else ms[k])
  }

  /** `messages.filter(m => m.id !== id)`. */
  function WithoutMessage(ms: seq<ChatMessage>, id: string): seq<ChatMessage> {
    if ms == [] then []
    else (if ms[0].id == id then [] else [ms[0]]) + WithoutMessage(ms[1..], id)
  }

  /** Deleting a message keeps exactly the others, in order. */
  lemma WithoutMessageSpec(ms: seq<ChatMessage>, id: string)
    ensures forall m :: m in WithoutMessage(ms, id) <==> m in ms && m.id != id
    ensures |WithoutMessage(ms, id)| <= |ms|
    ensures (forall k :: 0 <= k < |ms| ==> ms[k].id != id) ==> WithoutMessage(ms, id) == ms
  {
    WithoutMessageMembers(ms, id);
    WithoutMessageUnmatched(ms, id);
  }

  lemma {:induction false} WithoutMessageMembers(ms: seq<ChatMessage>, id: string)
    ensures forall m :: m in WithoutMessage(ms, id) <==> m in ms && m.id != id
    ensures |WithoutMessage(ms, id)| <= |ms|
  {
    if ms != [] {
      WithoutMessageMembers(ms[1..], id);
      assert ms == [ms[0]] + ms[1..];
    }
  }

  lemma {:induction false} WithoutMessageUnmatched(ms: seq<ChatMessage>, id: string)
    ensures (forall k :: 0 <= k < |ms| ==> ms[k].id != id) ==> WithoutMessage(ms, id) == ms
  {
    if ms != [] && forall k :: 0 <= k < |ms| ==> ms[k].id != id {
      forall k | 0 <= k < |ms[1..]| ensures ms[1..][k].id != id {
        assert ms[1..][k] == ms[k + 1];
      }
      WithoutMessageUnmatched(ms[1..], id);
      assert ms == [ms[0]] + ms[1..];
    }
  }

  /** A later update of the text replaces an earlier one. */
  lemma SetContentTwice(ms: seq<ChatMessage>, id: string, a: string, b: string)
    ensures SetContent(SetContent(ms, id, a), id, b) == SetContent(ms, id, b)
  {
  }

  /** The error text overwrites whatever had been streamed. */
  lemma FailedOverwrites(ms: seq<ChatMessage>, id: string, text: string)
    ensures MarkFailed(SetContent(ms, id, text), id) == MarkFailed(ms, id)
  {
  }

  // ---------------------------------------------------------------------
  // Reading the stream
  // ---------------------------------------------------------------------

  /** `lines.filter(line => line.trim() !== '')`. */
  function NonBlank(lines: seq<string>): seq<string> {
    if lines == [] then []
    else (if Trim(lines[0]) == [] then [] else [lines[0]]) + NonBlank(lines[1..])
  }

  /** The lines of one read that are looked at. */
  function ReadLines(chunk: string): seq<string> {
    NonBlank(Split(chunk, '\n'))
  }

  /** `data.content || ''` when the line parses, and nothing when it does not. */
  function LineText(line: string): string {
    DecodeRecord(line).GetOr("")
  }

  /** The text the lines add, in order. */
  function LinesText(lines: seq<string>): string {
    if lines == [] then "" else LinesText(lines[..|lines| - 1]) + LineText(lines[|lines| - 1])
  }

  /** Whether some line parses, which is when the reply is written to. */
  predicate LinesParsed(lines: seq<string>) {
    lines != [] && (LinesParsed(lines[..|lines| - 1]) || DecodeRecord(lines[|lines| - 1]).Some?)
  }

  /** `fullResponse` after the chunks: the text of their lines in order. */
  function StreamText(chunks: seq<string>): string {
    if chunks == [] then "" else StreamText(chunks[..|chunks| - 1]) + LinesText(ReadLines(chunks[|chunks| - 1]))
  }

  predicate StreamParsed(chunks: seq<string>) {
    chunks != [] && (StreamParsed(chunks[..|chunks| - 1]) || LinesParsed(ReadLines(chunks[|chunks| - 1])))
  }

  /** One more read extends the text by its lines' text. */
  lemma StreamStep(chunks: seq<string>, i: nat)
    requires i < |chunks|
    ensures StreamText(chunks[..i + 1]) == StreamText(chunks[..i]) + LinesText(ReadLines(chunks[i]))
    ensures StreamParsed(chunks[..i + 1]) == (StreamParsed(chunks[..i]) || LinesParsed(ReadLines(chunks[i])))
  {
    assert chunks[..i + 1][..i] == chunks[..i];
  }

  lemma {:induction false} SecondRead(chunks: seq<string>)
    requires |chunks| == 2
    ensures StreamText(chunks) ==
      StreamText(chunks[..1]) + LinesText(ReadLines(chunks[1]))
  {
    StreamStep(chunks, 1);
    assert chunks[..2] == chunks;
  }

  lemma {:induction false} FirstRead(chunks: seq<string>)
    requires |chunks| == 2
    ensures StreamText(chunks[..1]) == LinesText(ReadLines(chunks[0]))
  {
    StreamStep(chunks, 0);
    assert chunks[..0] == [];
  }

  lemma {:induction false} UnparsedLinesAddNothing(lines: seq<string>)
    requires !LinesParsed(lines)
    ensures LinesText(lines) == ""
  {
    if lines != [] {
      UnparsedLinesAddNothing(lines[..|lines| - 1]);
    }
  }

  /** When no line parses the text stays empty, so the reply keeps its empty content. */
  lemma {:induction false} UnparsedStreamIsEmpty(chunks: seq<string>)
    requires !StreamParsed(chunks)
    ensures StreamText(chunks) == ""
  {
    if chunks != [] {
      UnparsedStreamIsEmpty(chunks[..|chunks| - 1]);
      UnparsedLinesAddNothing(ReadLines(chunks[|chunks| - 1]));
    }
  }

  /** The reply's messages after the chunks. */
  function Streamed(ms: seq<ChatMessage>, id: string, chunks: seq<string>): seq<ChatMessage> {
    if StreamParsed(chunks) then SetContent(ms, id, StreamText(chunks)) else ms
  }

  /** `extractCodeBlocks(text).map(block => block.code)`. */
  function Codes(text: string): (r: seq<string>)
    ensures |r| == |CodeParser.CodeBlocks(text)|
  {
    var blocks := CodeParser.CodeBlocks(text);
    seq(|blocks|, k requires 0 <= k < |blocks| => blocks[k].code)
  }

  /** The answer of the chat endpoint: whether it was OK, the chunks of its body, and whether reading threw after them. */
  datatype Response = Response(ok: bool, chunks: seq<string>, breaks: bool)

  /** The messages `sendMessage` leaves, from those right after the pair was appended. */
  function SendOutcome(ms: seq<ChatMessage>, id: string, response: Response): seq<ChatMessage> {
    if !response.ok || response.breaks then MarkFailed(ms, id)
    else MarkDone(Streamed(ms, id, response.chunks), id, Codes(StreamText(response.chunks)))
  }

  /** The body posted to the chat endpoint; `temperature` in tenths. */
  datatype RequestBody = RequestBody(
    message: string, chatId: Option<string>, streaming: bool, provider: string, model: string, temperature: nat)

  function UserMessage(id: string, content: string, now: int): ChatMessage {
    ChatMessage(id, "user", content, now, None, None, None, None)
  }

  function AssistantMessage(id: string, now: int, provider: string, model: string): ChatMessage {
    ChatMessage(id, "assistant", "", now, Some(provider), Some(model), Some(true), None)
  }

  /**
   * With fresh ids, the exchange ends as the earlier messages, the user
   * message, and the reply: on success it holds the streamed text and the
   * code of its blocks; on any failure the error text. Streaming is over
   * either way.
   */
  lemma ExchangeOutcome(earlier: seq<ChatMessage>, user: ChatMessage, reply: ChatMessage, response: Response)
    requires reply.content == "" && user.id != reply.id
    requires forall k :: 0 <= k < |earlier| ==> earlier[k].id != reply.id
    ensures var r := SendOutcome(earlier + [user, reply], reply.id, response);
      |r| == |earlier| + 2 && r[..|earlier| + 1] == earlier + [user] &&
      (response.ok && !response.breaks ==>
        r[|earlier| + 1] == reply.(content := StreamText(response.chunks), isStreaming := Some(false),
                                    code := Some(Codes(StreamText(response.chunks))))) &&
      (!response.ok || response.breaks ==>
        r[|earlier| + 1] == reply.(content := ErrorText, isStreaming := Some(false)))
  {
    var ms := earlier + [user, reply];
    var r := SendOutcome(ms, reply.id, response);
    if response.ok && !response.breaks && !StreamParsed(response.chunks) {
      UnparsedStreamIsEmpty(response.chunks);
    }
    assert r[..|earlier| + 1] == earlier + [user] by {
      forall k | 0 <= k < |earlier| + 1 ensures r[k] == (earlier + [user])[k] {
        assert ms[k] == (earlier + [user])[k];
      }
    }
  }

  // ---------------------------------------------------------------------
  // The store
  // ---------------------------------------------------------------------

  class Store {
    var currentSession: Option<ChatSession>
    var sessions: seq<ChatSession>
    var isStreaming: bool
    var streamingMessageId: Option<string>
    var provider: string
    var model: string
    /** In tenths. */
    var temperature: nat

    constructor()
      ensures currentSession == None && sessions == [] && !isStreaming && streamingMessageId == None
      ensures provider == "deepseek" && model == "deepseek-chat" && temperature == 7
    {
      currentSession, sessions := None, [];
      isStreaming, streamingMessageId := false, None;
      provider, model, temperature := "deepseek", "deepseek-chat", 7;
    }

    /** `createSession`: the new session goes first and becomes current. */
    method CreateSession(title: Option<string>, id: string, now: int, timeLabel: string) returns (sessionId: string)
      modifies this
      ensures sessionId == id
      ensures sessions == [NewSession(title, id, now, timeLabel)] + old(sessions)
      ensures currentSession == Some(NewSession(title, id, now, timeLabel))
      ensures isStreaming == old(isStreaming) && streamingMessageId == old(streamingMessageId)
      ensures provider == old(provider) && model == old(model) && temperature == old(temperature)
    {
      var s := NewSession(title, id, now, timeLabel);
      sessions := [s] + sessions;
      currentSession := Some(s);
      sessionId := s.id;
    }

    /** `loadSession`: only a known id changes the current session. */
    method LoadSession(id: string)
      modifies this
      ensures currentSession == (if FindSession(sessions, id).Some? then FindSession(sessions, id) else old(currentSession))
      ensures sessions == old(sessions) && isStreaming == old(isStreaming) && streamingMessageId == old(streamingMessageId)
      ensures provider == old(provider) && model == old(model) && temperature == old(temperature)
    {
      var session := FindSession(sessions, id);
      if session.Some? {
        currentSession := session;
      }
    }

    /** `deleteSession`: the current session falls to the first remaining one, or none, only when it was deleted. */
    method DeleteSession(id: string)
      modifies this
      ensures sessions == WithoutSession(old(sessions), id)
      ensures old(currentSession).Some? && old(currentSession).value.id == id ==>
        currentSession == (if sessions == [] then None else Some(sessions[0]))
      ensures !(old(currentSession).Some? && old(currentSession).value.id == id) ==> currentSession == old(currentSession)
      ensures isStreaming == old(isStreaming) && streamingMessageId == old(streamingMessageId)
      ensures provider == old(provider) && model == old(model) && temperature == old(temperature)
    {
      var newSessions := WithoutSession(sessions, id);
      if currentSession.Some? && currentSession.value.id == id {
        currentSession := if newSessions == [] then None else Some(newSessions[0]);
      }
      sessions := newSessions;
    }

    /** `updateSessionTitle`: in the list and, when it is that session, in the current one. */
    method UpdateSessionTitle(id: string, title: string, now: int)
      modifies this
      ensures sessions == Retitle(old(sessions), id, title, now)
      ensures currentSession == (if old(currentSession).Some? && old(currentSession).value.id == id
        then Some(old(currentSession).value.(title := title, updatedAt := now)) else old(currentSession))
      ensures isStreaming == old(isStreaming) && streamingMessageId == old(streamingMessageId)
      ensures provider == old(provider) && model == old(model) && temperature == old(temperature)
    {
      sessions := Retitle(sessions, id, title, now);
      if currentSession.Some? && currentSession.value.id == id {
        currentSession := Some(currentSession.value.(title := title, updatedAt := now));
      }
    }

    /** `stopStreaming`: the flags only; no message is touched. */
    method StopStreaming()
      modifies this
      ensures !isStreaming && streamingMessageId == None
      ensures currentSession == old(currentSession) && sessions == old(sessions)
      ensures provider == old(provider) && model == old(model) && temperature == old(temperature)
    {
      isStreaming, streamingMessageId := false, None;
    }

    /** `setProvider`: only the provider the next request carries changes. */
    method SetProvider(p: string)
      modifies this
      ensures provider == p && model == old(model) && temperature == old(temperature)
      ensures currentSession == old(currentSession) && sessions == old(sessions)
      ensures isStreaming == old(isStreaming) && streamingMessageId == old(streamingMessageId)
    {
      provider := p;
    }

    /** `setModel`: only the model the next request carries changes. */
    method SetModel(m: string)
      modifies this
      ensures model == m && provider == old(provider) && temperature == old(temperature)
      ensures currentSession == old(currentSession) && sessions == old(sessions)
      ensures isStreaming == old(isStreaming) && streamingMessageId == old(streamingMessageId)
    {
      model := m;
    }

    /** `setTemperature`: only the temperature the next request carries changes. */
    method SetTemperature(t: nat)
      modifies this
      ensures temperature == t && provider == old(provider) && model == old(model)
      ensures currentSession == old(currentSession) && sessions == old(sessions)
      ensures isStreaming == old(isStreaming) && streamingMessageId == old(streamingMessageId)
    {
      temperature := t;
    }

    /** `clearMessages`: a current session is emptied; none stays none. */
    method ClearMessages(now: int)
      modifies this
      ensures currentSession == (if old(currentSession).Some?
        then Some(old(currentSession).value.(messages := [], updatedAt := now)) else None)
      ensures sessions == old(sessions) && isStreaming == old(isStreaming) && streamingMessageId == old(streamingMessageId)
      ensures provider == old(provider) && model == old(model) && temperature == old(temperature)
    {
      if currentSession.Some? {
        currentSession := Some(currentSession.value.(messages := [], updatedAt := now));
      }
    }

    /** `deleteMessage`: from the current session only. */
    method DeleteMessage(id: string, now: int)
      modifies this
      ensures currentSession == (if old(currentSession).Some?
        then Some(old(currentSession).value.(messages := WithoutMessage(old(currentSession).value.messages, id), updatedAt := now))
        else None)
      ensures sessions == old(sessions) && isStreaming == old(isStreaming) && streamingMessageId == old(streamingMessageId)
      ensures provider == old(provider) && model == old(model) && temperature == old(temperature)
    {
      if currentSession.Some? {
        var s := currentSession.value;
        currentSession := Some(s.(messages := WithoutMessage(s.messages, id), updatedAt := now));
      }
    }

    /** The inner `for` over the lines of one read: each line that parses extends the text and rewrites the reply. */
    method FoldLines(lines: seq<string>, replyId: string, ghost started: ChatSession, ghost ms: seq<ChatMessage>,
        before: string, ghost parsedBefore: bool)
      returns (fullResponse: string)
      requires currentSession == Some(started.(messages := if parsedBefore then SetContent(ms, replyId, before) else ms))
      modifies this
      ensures fullResponse == before + LinesText(lines)
      ensures currentSession == Some(started.(messages :=
        if parsedBefore || LinesParsed(lines) then SetContent(ms, replyId, fullResponse) else ms))
      ensures sessions == old(sessions) && isStreaming == old(isStreaming) && streamingMessageId == old(streamingMessageId)
      ensures provider == old(provider) && model == old(model) && temperature == old(temperature)
    {
      fullResponse := before;
      ghost var parsed := parsedBefore;
      var j := 0;
      while j < |lines|
        invariant 0 <= j <= |lines|
        invariant fullResponse == before + LinesText(lines[..j])
        invariant parsed == (parsedBefore || LinesParsed(lines[..j]))
        invariant currentSession == Some(started.(messages := if parsed then SetContent(ms, replyId, fullResponse) else ms))
        invariant sessions == old(sessions) && isStreaming == old(isStreaming) && streamingMessageId == old(streamingMessageId)
        invariant provider == old(provider) && model == old(model) && temperature == old(temperature)
      {
        assert lines[..j + 1][..j] == lines[..j];
        var data := DecodeRecord(lines[j]);
        if data.Some? {
          AppendAssoc(before, LinesText(lines[..j]), data.value);
          ghost var previous := fullResponse;
          fullResponse := fullResponse + data.value;
          SetContentTwice(ms, replyId, previous, fullResponse);
          parsed := true;
          currentSession := Some(currentSession.value.(messages := SetContent(currentSession.value.messages, replyId, fullResponse)));
        }
        j := j + 1;
      }
      assert lines[..|lines|] == lines;
    }

    /** The outer loop over the reads: the text is the fold of all their lines. */
    method ReadResponse(chunks: seq<string>, replyId: string, ghost started: ChatSession, ghost ms: seq<ChatMessage>)
      returns (fullResponse: string)
      requires currentSession == Some(started.(messages := ms))
      modifies this
      ensures fullResponse == StreamText(chunks)
      ensures currentSession == Some(started.(messages := Streamed(ms, replyId, chunks)))
      ensures sessions == old(sessions) && isStreaming == old(isStreaming) && streamingMessageId == old(streamingMessageId)
      ensures provider == old(provider) && model == old(model) && temperature == old(temperature)
    {
      fullResponse := "";
      var i := 0;
      while i < |chunks|
        invariant 0 <= i <= |chunks|
        invariant fullResponse == StreamText(chunks[..i])
        invariant currentSession == Some(started.(messages :=
          if StreamParsed(chunks[..i]) then SetContent(ms, replyId, fullResponse) else ms))
        invariant sessions == old(sessions) && isStreaming == old(isStreaming) && streamingMessageId == old(streamingMessageId)
        invariant provider == old(provider) && model == old(model) && temperature == old(temperature)
      {
        StreamStep(chunks, i);
        fullResponse := FoldLines(ReadLines(chunks[i]), replyId, started, ms, fullResponse, StreamParsed(chunks[..i]));
        i := i + 1;
      }
      assert chunks[..|chunks|] == chunks;
    }

    /**
     * `sendMessage`. `userId`, `replyId` and `sessionId` stand for the ids
     * the generator makes, `now` and `timeLabel` for the clock, `response`
     * for what `fetch` yields; the result is the body that is posted.
     */
    method SendMessage(content: string, userId: string, replyId: string, sessionId: string,
        now: int, timeLabel: string, response: Response)
      returns (body: RequestBody)
      modifies this
      ensures var start := if old(currentSession).Some? then old(currentSession).value
                           else NewSession(None, sessionId, now, timeLabel);
        var ms := start.messages + [UserMessage(userId, content, now), AssistantMessage(replyId, now, old(provider), old(model))];
        currentSession == Some(start.(messages := SendOutcome(ms, replyId, response), updatedAt := now))
      ensures sessions == (if old(currentSession).Some? then old(sessions)
                           else [NewSession(None, sessionId, now, timeLabel)] + old(sessions))
      ensures !isStreaming && streamingMessageId == None
      ensures body == RequestBody(content, if old(currentSession).Some? then Some(old(currentSession).value.id) else None,
                                  true, old(provider), old(model), old(temperature))
      ensures provider == old(provider) && model == old(model) && temperature == old(temperature)
    {
      var captured := currentSession;
      if currentSession.None? {
        var _ := CreateSession(None, sessionId, now, timeLabel);
      }
      var user := UserMessage(userId, content, now);
      var reply := AssistantMessage(replyId, now, provider, model);
      var started := currentSession.value.(messages := currentSession.value.messages + [user, reply], updatedAt := now);
      currentSession := Some(started);
      isStreaming, streamingMessageId := true, Some(replyId);
      body := RequestBody(content, if captured.Some? then Some(captured.value.id) else None, true, provider, model, temperature);
      ghost var ms := started.messages;

      if !response.ok {
        currentSession := Some(started.(messages := MarkFailed(currentSession.value.messages, replyId)));
        isStreaming, streamingMessageId := false, None;
        return;
      }

      var fullResponse := ReadResponse(response.chunks, replyId, started, ms);

      if response.breaks {
        if StreamParsed(response.chunks) {
          FailedOverwrites(ms, replyId, fullResponse);
        }
        currentSession := Some(started.(messages := MarkFailed(currentSession.value.messages, replyId)));
      } else {
        var blocks := CodeParser.ExtractCodeBlocks(fullResponse);
        var codeBlocks := seq(|blocks|, k requires 0 <= k < |blocks| => blocks[k].code);
        currentSession := Some(started.(messages := MarkDone(currentSession.value.messages, replyId, codeBlocks)));
      }
      isStreaming, streamingMessageId := false, None;
    }
  }
}
