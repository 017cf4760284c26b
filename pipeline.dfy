/**
 * The chat pipeline end to end: the route relays each non-empty delta as
 * one record line, the transport hands the bytes to the store in reads,
 * and the store folds the records back into the reply. When every read
 * carries whole lines the reply is exactly the relayed text; a record cut
 * across two reads is lost.
 */
module Pipeline {
  import opened Common
  import opened Strings
  import opened Json
  import opened Streams
  import ChatRoute
  import ChatStore

  /** The strings one after another. */
  function Concat(parts: seq<string>): string {
    if parts == [] then "" else parts[0] + Concat(parts[1..])
  }

  /** The groups one after another. */
  function Flatten(groups: seq<seq<string>>): seq<string> {
    if groups == [] then [] else groups[0] + Flatten(groups[1..])
  }

  /** The frames of some fragments, written back to back. */
  function FramesText(fragments: seq<string>): string {
    if fragments == [] then "" else Frame(fragments[0]) + FramesText(fragments[1..])
  }

  /** The record lines of some fragments. */
  function Records(fragments: seq<string>): seq<string> {
    if fragments == [] then [] else [Record(fragments[0])] + Records(fragments[1..])
  }

  lemma {:induction false} ConcatAppend(a: seq<string>, b: seq<string>)
    ensures Concat(a + b) == Concat(a) + Concat(b)
  {
    if a != [] {
      assert (a + b)[1..] == a[1..] + b;
      ConcatAppend(a[1..], b);
      AppendAssoc(a[0], Concat(a[1..]), Concat(b));
    } else {
      assert a + b == b;
    }
  }

  lemma {:induction false} LinesTextAppend(a: seq<string>, b: seq<string>)
    ensures ChatStore.LinesText(a + b) == ChatStore.LinesText(a) + ChatStore.LinesText(b)
    decreases |b|
  {
    if b == [] {
      assert a + b == a;
    } else {
      var b' := b[..|b| - 1];
      LinesTextSnoc(a, b);
      LinesTextAppend(a, b');
      AppendAssoc(ChatStore.LinesText(a), ChatStore.LinesText(b'), ChatStore.LineText(b[|b| - 1]));
    }
  }

  lemma LinesTextSnoc(a: seq<string>, b: seq<string>)
    requires b != []
    ensures ChatStore.LinesText(a + b)
         == ChatStore.LinesText(a + b[..|b| - 1]) + ChatStore.LineText(b[|b| - 1])
  {
    var c := a + b;
    assert c[..|c| - 1] == a + b[..|b| - 1];
    assert c[|c| - 1] == b[|b| - 1];
  }

  /** A record line is not blank: it opens with a brace. */
  lemma RecordNotBlank(content: string)
    ensures Trim(Record(content)) != []
  {
    TrimIsTrimmed(Record(content));
    assert Record(content)[0] == '{';
  }

  /** The lines of back-to-back frames, blank ones dropped, are their records. */
  lemma {:induction false} FramesTextLines(fragments: seq<string>)
    ensures ChatStore.ReadLines(FramesText(fragments)) == Records(fragments)
  {
    if fragments == [] {
      assert Split("", '\n') == [""];
      TrimIsTrimmed("");
    } else {
      var r := Record(fragments[0]);
      var rest := FramesText(fragments[1..]);
      RecordHasNoLineBreak(fragments[0]);
      SplitAfterLine(r, '\n', rest);
      assert FramesText(fragments) == r + ['\n'] + rest;
      var pieces := Split(FramesText(fragments), '\n');
      assert pieces[0] == r && pieces[1..] == Split(rest, '\n');
      RecordNotBlank(fragments[0]);
      FramesTextLines(fragments[1..]);
    }
  }

  /** Folding the records gives back the fragments, joined. */
  lemma {:induction false} RecordsText(fragments: seq<string>)
    ensures ChatStore.LinesText(Records(fragments)) == Concat(fragments)
  {
    if fragments != [] {
      RecordsText(fragments[1..]);
      LinesTextAppend([Record(fragments[0])], Records(fragments[1..]));
      DecodeRecordRoundTrip(fragments[0]);
      assert ChatStore.LinesText([Record(fragments[0])]) == fragments[0] by {
        assert [Record(fragments[0])][..0] == [];
      }
    }
  }

  /** One read that carries whole frames adds exactly their fragments. */
  lemma WholeFramesRead(fragments: seq<string>)
    ensures ChatStore.LinesText(ChatStore.ReadLines(FramesText(fragments))) == Concat(fragments)
  {
    FramesTextLines(fragments);
    RecordsText(fragments);
  }

  /** The reads: each group of fragments arrives as its frames, in one read. */
  function GroupReads(groups: seq<seq<string>>): (r: seq<string>)
    ensures |r| == |groups|
  {
    seq(|groups|, i requires 0 <= i < |groups| => FramesText(groups[i]))
  }

  lemma {:induction false} FlattenSnoc(groups: seq<seq<string>>)
    requires groups != []
    ensures Flatten(groups) == Flatten(groups[..|groups| - 1]) + groups[|groups| - 1]
  {
    if |groups| == 1 {
      assert Flatten(groups[1..]) == [];
      assert groups[..0] == [];
    } else {
      assert groups[1..][..|groups[1..]| - 1] == groups[..|groups| - 1][1..];
      FlattenSnoc(groups[1..]);
      AppendAssoc(groups[0], Flatten(groups[..|groups| - 1][1..]), groups[|groups| - 1]);
    }
  }

  /** The store's text after reads of whole frames is the fragments, joined. */
  lemma {:induction false} WholeFramesStream(groups: seq<seq<string>>)
    ensures ChatStore.StreamText(GroupReads(groups)) == Concat(Flatten(groups))
    decreases |groups|
  {
    if groups != [] {
      var n := |groups|;
      var chunks := GroupReads(groups);
      assert chunks[..n - 1] == GroupReads(groups[..n - 1]);
      WholeFramesStream(groups[..n - 1]);
      WholeFramesRead(groups[n - 1]);
      FlattenSnoc(groups);
      ConcatAppend(Flatten(groups[..n - 1]), groups[n - 1]);
    }
  }

  /** The relay's chunks, written back to back, are the frames of its fragments. */
  lemma {:induction false} RelayBytes(deltas: seq<Option<string>>)
    ensures Concat(ChatRoute.Frames(deltas)) == FramesText(Fragments(deltas))
  {
    if deltas != [] {
      RelayBytes(deltas[1..]);
      if DeltaText(deltas[0]) != [] {
        assert ChatRoute.Frames(deltas) == [Frame(DeltaText(deltas[0]))] + ChatRoute.Frames(deltas[1..]);
        assert Fragments(deltas) == [DeltaText(deltas[0])] + Fragments(deltas[1..]);
        assert Concat(ChatRoute.Frames(deltas)) == Frame(DeltaText(deltas[0])) + Concat(ChatRoute.Frames(deltas[1..]));
      } else {
        assert ChatRoute.Frames(deltas) == ChatRoute.Frames(deltas[1..]);
        assert Fragments(deltas) == Fragments(deltas[1..]);
      }
    }
  }

  lemma {:induction false} FramesTextAppend(a: seq<string>, b: seq<string>)
    ensures FramesText(a + b) == FramesText(a) + FramesText(b)
  {
    if a != [] {
      assert (a + b)[1..] == a[1..] + b;
      FramesTextAppend(a[1..], b);
      AppendAssoc(Frame(a[0]), FramesText(a[1..]), FramesText(b));
    } else {
      assert a + b == b;
    }
  }

  /** Reads that split the relayed fragments into groups carry, together, exactly the relay's bytes. */
  lemma {:induction false} GroupReadsCarryRelay(groups: seq<seq<string>>)
    ensures Concat(GroupReads(groups)) == FramesText(Flatten(groups))
  {
    if groups != [] {
      assert GroupReads(groups)[1..] == GroupReads(groups[1..]);
      GroupReadsCarryRelay(groups[1..]);
      FramesTextAppend(groups[0], Flatten(groups[1..]));
    }
  }

  /**
   * The round trip. When the reads carry the relay's bytes cut only at line
   * ends, so that they hold the fragments in groups, the store ends with the
   * relayed text: the non-empty deltas, joined in order. With fresh ids and
   * a relay that did not fail, that is the reply's content.
   */
  lemma RoundTrip(upstream: Upstream, groups: seq<seq<string>>,
      earlier: seq<ChatStore.ChatMessage>, user: ChatStore.ChatMessage, reply: ChatStore.ChatMessage)
    requires Flatten(groups) == Fragments(upstream.deltas)
    requires reply.content == "" && user.id != reply.id
    requires forall k :: 0 <= k < |earlier| ==> earlier[k].id != reply.id
    ensures Concat(GroupReads(groups)) == Concat(ChatRoute.Frames(upstream.deltas))
    ensures ChatStore.StreamText(GroupReads(groups)) == Concat(Fragments(upstream.deltas))
    ensures !upstream.fails ==>
      var r := ChatStore.SendOutcome(earlier + [user, reply], reply.id,
                                     ChatStore.Response(true, GroupReads(groups), upstream.fails));
      r[|earlier| + 1].content == Concat(Fragments(upstream.deltas))
  {
    GroupReadsCarryRelay(groups);
    RelayBytes(upstream.deltas);
    WholeFramesStream(groups);
    ChatStore.ExchangeOutcome(earlier, user, reply, ChatStore.Response(true, GroupReads(groups), upstream.fails));
  }

  /** The simplest transport: every relayed chunk arrives as one read. */
  lemma OneReadPerChunk(deltas: seq<Option<string>>)
    ensures ChatStore.StreamText(ChatRoute.Frames(deltas)) == Concat(Fragments(deltas))
  {
    var fs := Fragments(deltas);
    var groups := seq(|fs|, i requires 0 <= i < |fs| => [fs[i]]);
    FlattenSingletons(fs, groups);
    ChatRoute.FramesAreRecords(deltas);
    assert GroupReads(groups) == ChatRoute.Frames(deltas) by {
      forall i | 0 <= i < |groups| ensures GroupReads(groups)[i] == ChatRoute.Frames(deltas)[i] {
        assert FramesText([fs[i]]) == Frame(fs[i]) + "";
      }
    }
    WholeFramesStream(groups);
  }

  lemma {:induction false} FlattenSingletons(fs: seq<string>, groups: seq<seq<string>>)
    requires |groups| == |fs| && forall i :: 0 <= i < |fs| ==> groups[i] == [fs[i]]
    ensures Flatten(groups) == fs
  {
    if fs != [] {
      FlattenSingletons(fs[1..], groups[1..]);
    }
  }

  lemma NonBlankOne(line: string)
    ensures ChatStore.NonBlank([line]) == (if Trim(line) == [] then [] else [line])
  {
    assert [line][1..] == [];
  }

  lemma NonBlankEmptyAfter(line: string)
    ensures ChatStore.NonBlank([line, ""]) == ChatStore.NonBlank([line])
  {
    assert [line, ""][1..] == [""];
    assert [""][1..] == [];
    TrimIsTrimmed("");
    NonBlankOne(line);
  }

  lemma NotRecordAddsNothing(lines: seq<string>)
    requires lines == [] || (|lines| == 1 && DecodeRecord(lines[0]) == None)
    ensures ChatStore.LinesText(lines) == ""
  {
    if lines != [] {
      assert lines[..0] == [];
    }
  }

  /** A read holding one line that is not a record, with or without its line break, adds nothing. */
  lemma LineWithoutRecord(line: string)
    requires '\n' !in line && DecodeRecord(line) == None
    ensures ChatStore.LinesText(ChatStore.ReadLines(line)) == ""
    ensures ChatStore.LinesText(ChatStore.ReadLines(line + "\n")) == ""
  {
    SplitNoSeparator(line, '\n');
    NonBlankOne(line);
    NotRecordAddsNothing(ChatStore.ReadLines(line));
    SplitAfterLine(line, '\n', "");
    assert line + "\n" == line + ['\n'] + "";
    assert Split("", '\n') == [""];
    assert [line] + [""] == [line, ""];
    NonBlankEmptyAfter(line);
    NotRecordAddsNothing(ChatStore.ReadLines(line + "\n"));
  }

  /** Two reads add the text of the first and then that of the second. */
  lemma TwoReads(chunks: seq<string>)
    requires |chunks| == 2
    ensures ChatStore.StreamText(chunks) ==
      ChatStore.LinesText(ChatStore.ReadLines(chunks[0])) + ChatStore.LinesText(ChatStore.ReadLines(chunks[1]))
  {
    ChatStore.SecondRead(chunks);
    ChatStore.FirstRead(chunks);
  }

  lemma HalvesAreNotRecords()
    ensures DecodeRecord("{\"co") == None
    ensures DecodeRecord("ntent\":\"hi\"}") == None
  {
    assert "ntent\":\"hi\"}"[0] == 'n';
  }

  lemma FrameOfHi()
    ensures "{\"co" + "ntent\":\"hi\"}\n" == Frame("hi")
  {
    assert Escape("hi") == "hi";
  }

  /** Two reads of which neither holds a record line add nothing. */
  lemma CutRecordIsLost(chunks: seq<string>, line: string)
    requires |chunks| == 2 && '\n' !in chunks[0] && '\n' !in line && chunks[1] == line + "\n"
    requires DecodeRecord(chunks[0]) == None && DecodeRecord(line) == None
    ensures ChatStore.StreamText(chunks) == ""
  {
    LineWithoutRecord(chunks[0]);
    LineWithoutRecord(line);
    TwoReads(chunks);
  }

  /**
   * A record cut across two reads is lost: the two reads below together
   * carry the frame of "hi", yet neither half is a record, so the store adds
   * nothing.
   */
  lemma SplitRecordIsLost(first: string, line: string)
    requires first == "{\"co" && line == "ntent\":\"hi\"}"
    ensures first + (line + "\n") == Frame("hi")
    ensures ChatStore.StreamText([first, line + "\n"]) == ""
  {
    FrameOfHi();
    HalvesAreNotRecords();
    CutRecordIsLost([first, line + "\n"], line);
  }
}
