/**
 * One rendered chat message: its own copy of `parseMessage`, and the
 * comparator that decides when the memoised message is drawn again.
 */
module MessageItem {
  import opened Common
  import opened Strings
  import opened Fence
  import ChatInterface

  type Part = ChatInterface.Part

  /** The message list item's copy of the loop; it computes the chat screen's parts. */
  method ParseMessage(content: string) returns (parts: seq<Part>)
    ensures parts == ChatInterface.Parts(content)
  {
    parts := [];
    var lastIndex: nat := 0;
    var found := NextMatch(content, lastIndex);
    while found.Some?
      invariant lastIndex <= |content|
      invariant found == NextMatch(content, lastIndex)
      invariant parts + Collect(content, lastIndex, ChatInterface.PartStep, ChatInterface.PartTail) ==
        Collect(content, 0, ChatInterface.PartStep, ChatInterface.PartTail)
      decreases |content| - lastIndex
    {
      var m := found.value;
      ghost var before := parts;
      ghost var produced := ChatInterface.PartStep(content[lastIndex..m.start], m.tag, m.body);
      ghost var later := Collect(content, m.end, ChatInterface.PartStep, ChatInterface.PartTail);
      assert Collect(content, lastIndex, ChatInterface.PartStep, ChatInterface.PartTail) == produced + later;
      // text before the fence
      if m.start > lastIndex {
        parts := parts + [ChatInterface.Text(content[lastIndex..m.start])];
      }
      // the fence itself
      parts := parts + [ChatInterface.Code(m.body, if m.tag == [] then "typescript" else m.tag)];
      assert parts == before + produced;
      AppendAssoc(before, produced, later);
      lastIndex := m.end;
      found := NextMatch(content, lastIndex);
    }
    // text after the last fence
    if lastIndex < |content| {
      parts := parts + [ChatInterface.Text(content[lastIndex..])];
    }
    assert parts == Collect(content, 0, ChatInterface.PartStep, ChatInterface.PartTail);
    if |parts| == 0 {
      parts := [ChatInterface.Text(content)];
    }
  }

  /**
   * The two copies agree on every input. Both loops are methods, which a
   * lemma cannot call, so the agreement is stated as a scenario that runs
   * both on the same content and compares what they return.
   */
  method BothCopiesAgree(content: string) returns (same: bool)
    ensures same
  {
    var here := ParseMessage(content);
    var there := ChatInterface.ParseMessage(content);
    same := here == there;
  }

  /**
   * Parts come in input order: the code parts are the fences in order, each
   * with a language (the tag, or typescript); text parts of a non-empty
   * message are never empty.
   */
  lemma PartsInOrder(content: string)
    ensures ChatInterface.CodeParts(ChatInterface.Parts(content)) == ChatInterface.FenceParts(Matches(content))
    ensures forall i :: 0 <= i < |ChatInterface.Parts(content)| && ChatInterface.Parts(content)[i].Code? ==>
      ChatInterface.Parts(content)[i].language != []
    ensures content != [] ==> forall t :: t in ChatInterface.Texts(ChatInterface.Parts(content)) ==> t != []
  {
    ChatInterface.PartsAreFencesAndGaps(content);
    ChatInterface.TextPartsNonEmpty(content);
    forall i | 0 <= i < |ChatInterface.Parts(content)| && ChatInterface.Parts(content)[i].Code?
      ensures ChatInterface.Parts(content)[i].language != []
    {
      var c := ChatInterface.Parts(content)[i];
      ChatInterface.CodePartMember(ChatInterface.Parts(content), i);
      var k := ChatInterface.FencePartsMember(Matches(content), c);
    }
  }

  /** The message fields the item is drawn from. */
  datatype MessageProps = MessageProps(
    id: string, role: string, content: string, isStreaming: Option<bool>, provider: Option<string>)

  /** The `memo` comparator: true means the item is not drawn again. */
  function PropsEqual(prev: MessageProps, next: MessageProps): bool {
    prev.content == next.content && prev.isStreaming == next.isStreaming && prev.role == next.role
  }

  /**
   * A new id or provider alone never redraws the item, a change of content,
   * streaming flag or role always does, and the test is reflexive and symmetric.
   */
  lemma PropsEqualIgnoresIdAndProvider(prev: MessageProps, next: MessageProps, id: string, provider: Option<string>)
    ensures PropsEqual(prev, prev.(id := id, provider := provider))
    ensures PropsEqual(prev, next) == PropsEqual(prev, next.(id := id, provider := provider))
    ensures prev.content != next.content || prev.isStreaming != next.isStreaming || prev.role != next.role ==>
      !PropsEqual(prev, next)
    ensures PropsEqual(prev, prev)
    ensures PropsEqual(prev, next) == PropsEqual(next, prev)
  {
  }
}
