/**
 * The part of a web `ReadableStream` controller the relays use: chunks are
 * enqueued while the stream is open, and it ends by closing or by erroring.
 */
module Streams {
  import opened Common

  datatype StreamState = Open | Closed | Errored

  class StreamController {
    /** Every chunk enqueued so far, in order. */
    var chunks: seq<string>
    var state: StreamState

    constructor()
      ensures chunks == [] && state == Open
    {
      chunks := [];
      state := Open;
    }

    /** `controller.enqueue(chunk)`. */
    method Enqueue(chunk: string)
      requires state == Open
      modifies this
      ensures chunks == old(chunks) + [chunk] && state == Open
    {
      chunks := chunks + [chunk];
    }

    /** `controller.close()`: no chunk is added. */
    method Close()
      requires state == Open
      modifies this
      ensures chunks == old(chunks) && state == Closed
    {
      state := Closed;
    }

    /** `controller.error(e)`: no chunk is added. */
    method Error()
      requires state == Open
      modifies this
      ensures chunks == old(chunks) && state == Errored
    {
      state := Errored;
    }
  }

  /** `chunk.choices[0]?.delta?.content || ''`: a missing delta reads as empty. */
  function DeltaText(delta: Option<string>): string {
    match delta
    case None => ""
    case Some(t) => t
  }

  /**
   * The model's streamed completion as the relay sees it: the deltas in
   * arrival order, and whether iterating it throws after the last of them.
   */
  datatype Upstream = Upstream(deltas: seq<Option<string>>, fails: bool)

  /** The non-empty delta texts, in order: what a relay passes on. */
  function Fragments(deltas: seq<Option<string>>): seq<string> {
    if deltas == [] then []
    else (if DeltaText(deltas[0]) == [] then [] else [DeltaText(deltas[0])]) + Fragments(deltas[1..])
  }

  lemma FragmentsStep(deltas: seq<Option<string>>, i: nat)
    requires i < |deltas|
    ensures Fragments(deltas[i..]) ==
      (if DeltaText(deltas[i]) == [] then [] else [DeltaText(deltas[i])]) + Fragments(deltas[i + 1..])
  {
    assert deltas[i..][1..] == deltas[i + 1..];
  }

  /** `completion.choices[0]?.message?.content || ''`: the first answer, or empty. */
  function FirstChoice(choices: seq<Option<string>>): string {
    if choices == [] then "" else DeltaText(choices[0])
  }

  /** The first answer is empty exactly when there is none, it is absent, or it is empty. */
  lemma FirstChoiceEmpty(choices: seq<Option<string>>)
    ensures FirstChoice(choices) == [] <==> choices == [] || choices[0] == None || choices[0] == Some([])
    ensures choices != [] && choices[0].Some? ==> FirstChoice(choices) == choices[0].value
  {
  }
}
