/**
 * One chat turn of the page: the question is added to the message history
 * with an empty assistant placeholder, the streamed answer is read frame by
 * frame, the placeholder shows the text accumulated so far, and every
 * increment is synthesized to speech and handed to the audio queue. Any
 * failure adds one fixed error message.
 *
 * The network is given as data: `ok` says whether the chat endpoint
 * answered with a success status, and the response body is the sequence of
 * events its reader delivers (its end is the end of the sequence). Speech
 * synthesis is given as data too: each frame carries what synthesizing its
 * text yields.
 */
module Chat {
  import opened Wrappers
  import opened Audio

  /** Who a message is from. */
  datatype Kind = User | Ai | Error

  datatype Message = Message(kind: Kind, content: string)

  /** The text of the message added when a turn fails. */
  const ErrorNotice: string := "An error occurred while processing your request."

  const ErrorMessage: Message := Message(Error, ErrorNotice)

  /** What one read of the response body yields. */
  datatype Event<C> =
      /** A frame that decodes to an increment `text` with completion flag
          `isLast`; `speech` is the clip synthesized for `text`, or `None`
          when synthesis fails. */
    | Frame(text: string, isLast: bool, speech: Option<C>)
      /** A frame that does not decode, or a read that fails. */
    | BadFrame

  // ----- The history updates -----

  /** The history once a question is submitted. */
  function Begin(prior: seq<Message>, question: string): (h: seq<Message>)
    ensures |h| == |prior| + 2
    ensures h[..|prior|] == prior
    ensures h[|prior|] == Message(User, question)
    ensures h[|prior| + 1] == Message(Ai, "")
  {
    prior + [Message(User, question), Message(Ai, "")]
  }

  /** The history update run after each increment: the last message shows
      `buffer` if it is an assistant message, and nothing else changes. */
  function ShowBuffer(prev: seq<Message>, buffer: string): (h: seq<Message>)
    requires |prev| > 0
    ensures |h| == |prev|
    ensures h[..|prev| - 1] == prev[..|prev| - 1]
    ensures prev[|prev| - 1].kind == Ai ==> h[|prev| - 1] == Message(Ai, buffer)
    ensures prev[|prev| - 1].kind != Ai ==> h == prev
  {
    var last := prev[|prev| - 1];
    if last.kind == Ai then prev[|prev| - 1 := last.(content := buffer)] else prev
  }

  // ----- What a turn consumes -----

  /** The turn stops reading at this event: it fails to decode, it closes
      the answer, or its speech cannot be synthesized. */
  predicate Stops<C>(e: Event<C>)
  {
    e.BadFrame? || e.isLast || e.speech.None?
  }

  /** The frames whose text reaches the history, in stream order. */
  function Applied<C>(events: seq<Event<C>>): (r: seq<Event<C>>)
    ensures |r| <= |events| && r == events[..|r|]
    ensures forall j :: 0 <= j < |r| ==> r[j].Frame?
    ensures forall j :: 0 <= j < |r| - 1 ==> !Stops(r[j])
  {
    if events == [] || events[0].BadFrame? then []
    else if Stops(events[0]) then [events[0]]
    else [events[0]] + Applied(events[1..])
  }

  /** The index of the event at which the loop stops reading, or the length
      of the stream when no event stops it. */
  function FirstStop<C>(events: seq<Event<C>>): (p: nat)
    ensures p <= |events|
    ensures forall j :: 0 <= j < p ==> !Stops(events[j])
    ensures p < |events| ==> Stops(events[p])
  {
    if events == [] || Stops(events[0]) then 0 else 1 + FirstStop(events[1..])
  }

  /** The turn ends in failure: it reaches the error handler exactly when
      the event it stops at is undecodable or could not be synthesized. */
  predicate Fails<C>(events: seq<Event<C>>): (r: bool)
    ensures r <==> FirstStop(events) < |events|
                   && (events[FirstStop(events)].BadFrame? || events[FirstStop(events)].speech.None?)
  {
    if events == [] then false
    else if events[0].BadFrame? || events[0].speech.None? then true
    else if events[0].isLast then false
    else Fails(events[1..])
  }

  /** The texts of `frames`, concatenated in order. */
  function Joined<C>(frames: seq<Event<C>>): string
  {
    if frames == [] then ""
    else
      (match frames[0] case Frame(t, _, _) => t case BadFrame => "") + Joined(frames[1..])
  }

  /** The clips synthesized for `frames`, in order. */
  function Spoken<C>(frames: seq<Event<C>>): seq<C>
  {
    if frames == [] then []
    else
      (match frames[0] case Frame(_, _, Some(c)) => [c] case _ => []) + Spoken(frames[1..])
  }

  // ----- Lemmas about the turn -----

  /** The turn stops at the first stopping event `p` (or at the end of the
      stream when there is none): the frames applied are those before it,
      plus the stopping frame itself when it decoded; and the turn fails
      exactly when it stopped on an undecodable frame or a failed
      synthesis. In particular nothing after the first closing frame is
      applied. */
  lemma {:induction false} StopsAtFirstStop<C>(events: seq<Event<C>>, p: nat)
    requires p <= |events|
    requires forall j :: 0 <= j < p ==> !Stops(events[j])
    requires p < |events| ==> Stops(events[p])
    ensures Applied(events) == if p < |events| && events[p].Frame? then events[..p + 1] else events[..p]
    ensures Fails(events) <==> p < |events| && (events[p].BadFrame? || events[p].speech.None?)
  {
    assert FirstStop(events) == p;
    if p > 0 {
      var rest := events[1..];
      assert forall j :: 0 <= j < p - 1 ==> rest[j] == events[j + 1];
      StopsAtFirstStop(rest, p - 1);
      if p < |events| {
        assert [events[0]] + rest[..p] == events[..p + 1];
      }
      assert [events[0]] + rest[..p - 1] == events[..p];
    }
  }

  /** The buffer after all of `frames` is the buffer after the first `k`
      followed by the texts of the rest: text once shown is never taken
      back. */
  lemma {:induction false} JoinedSplit<C>(frames: seq<Event<C>>, k: nat)
    requires k <= |frames|
    ensures Joined(frames) == Joined(frames[..k]) + Joined(frames[k..])
  {
    if k > 0 {
      assert frames[..k][1..] == frames[1..][..k - 1];
      assert frames[k..] == frames[1..][k - 1..];
      JoinedSplit(frames[1..], k - 1);
    } else {
      assert frames[..0] == [] && frames[0..] == frames;
    }
  }

  /** The text of one more frame is added at the end. */
  lemma {:induction false} JoinedAppend<C>(frames: seq<Event<C>>, text: string, isLast: bool, speech: Option<C>)
    ensures Joined(frames + [Frame(text, isLast, speech)]) == Joined(frames) + text
  {
    if frames != [] {
      assert (frames + [Frame(text, isLast, speech)])[1..] == frames[1..] + [Frame(text, isLast, speech)];
      JoinedAppend(frames[1..], text, isLast, speech);
    } else {
      assert Joined([Frame(text, isLast, speech)]) == text + Joined<C>([]);
    }
  }

  /** The clip of one more frame, if its synthesis succeeded, is added at
      the end. */
  lemma {:induction false} SpokenAppend<C>(frames: seq<Event<C>>, text: string, isLast: bool, speech: Option<C>)
    ensures Spoken(frames + [Frame(text, isLast, speech)])
            == Spoken(frames) + (if speech.Some? then [speech.value] else [])
  {
    if frames != [] {
      assert (frames + [Frame(text, isLast, speech)])[1..] == frames[1..] + [Frame(text, isLast, speech)];
      SpokenAppend(frames[1..], text, isLast, speech);
    } else {
      assert Spoken([Frame(text, isLast, speech)])
             == (if speech.Some? then [speech.value] else []) + Spoken<C>([]);
    }
  }

  /** One clip reaches the audio queue for every applied frame, in stream
      order, except for a last frame whose synthesis failed. */
  lemma {:induction false} SpokenMatchesApplied<C>(frames: seq<Event<C>>)
    requires forall j :: 0 <= j < |frames| ==> frames[j].Frame?
    requires forall j :: 0 <= j < |frames| - 1 ==> frames[j].speech.Some?
    ensures |Spoken(frames)|
            == if frames != [] && frames[|frames| - 1].speech.None? then |frames| - 1 else |frames|
    ensures forall j :: 0 <= j < |Spoken(frames)| ==> frames[j].speech == Some(Spoken(frames)[j])
  {
    if frames != [] {
      SpokenMatchesApplied(frames[1..]);
    }
  }

  /** Of the increments a turn applies, every one has its clip queued, in
      stream order, except a last one whose synthesis failed. */
  lemma SpokenOfApplied<C>(events: seq<Event<C>>)
    ensures var a := Applied(events);
            |Spoken(a)| == (if a != [] && a[|a| - 1].speech.None? then |a| - 1 else |a|)
            && forall j :: 0 <= j < |Spoken(a)| ==> a[j].speech == Some(Spoken(a)[j])
  {
    var a := Applied(events);
    assert forall j :: 0 <= j < |a| - 1 ==> a[j].Frame? && !Stops(a[j]);
    SpokenMatchesApplied(a);
  }

  /** Three increments, the third closing the answer: the placeholder ends
      up with the whole answer, the three clips are queued in order and the
      turn does not fail. */
  lemma ThreeIncrementTurn<C>(c1: C, c2: C, c3: C)
    ensures var events := [Frame("Hel", false, Some(c1)), Frame("lo", false, Some(c2)),
                           Frame(" world", true, Some(c3))];
            Joined(Applied(events)) == "Hello world"
            && Spoken(Applied(events)) == [c1, c2, c3]
            && !Fails(events)
  {
    var events := [Frame("Hel", false, Some(c1)), Frame("lo", false, Some(c2)),
                   Frame(" world", true, Some(c3))];
    StopsAtFirstStop(events, 2);
    assert events[..3] == events;
    assert events[1..][1..] == events[2..] && events[2..][1..] == [];
    assert Joined(events[2..]) == " world" && Spoken(events[2..]) == [c3];
    assert Joined(events[1..]) == "lo world" && Spoken(events[1..]) == [c2, c3];
  }

  /** Synthesis failing for the second of three increments ends the turn:
      the second increment's text is still shown, the third increment is
      never read, only the first clip is queued, and the turn fails. */
  lemma SynthesisFailureEndsTurn<C>(c1: C, c3: C)
    ensures var events := [Frame("Hel", false, Some(c1)), Frame("lo", false, None),
                           Frame(" world", true, Some(c3))];
            Joined(Applied(events)) == "Hello"
            && Spoken(Applied(events)) == [c1]
            && Fails(events)
  {
    var events := [Frame("Hel", false, Some(c1)), Frame("lo", false, None),
                   Frame(" world", true, Some(c3))];
    StopsAtFirstStop(events, 1);
    var applied := events[..2];
    assert applied[1..] == [applied[1]] && applied[1..][1..] == [];
    assert Joined(applied[1..]) == "lo" && Spoken(applied[1..]) == [];
  }

  /** Index identities on `pending0 + clips` and its extension by `clip`:
      the waiting part `all[|clips|..]` grown by `clip` has as head the
      element at `|clips|` of the extension and as tail the extension's
      suffix after it, and adding that head to the first `|clips|` elements
      gives the first `|clips| + 1` of the extension. They advance the
      queue state by one added clip when the flag captured is cleared. */
  lemma TakenAfterOneMore<C>(pending0: seq<C>, started0: seq<C>, clips: seq<C>, clip: C)
    ensures var all, all' := pending0 + clips, pending0 + clips + [clip];
            (all[|clips|..] + [clip])[0] == all'[|clips|]
            && (all[|clips|..] + [clip])[1..] == all'[|clips| + 1..]
            && started0 + all[..|clips|] + [all'[|clips|]] == started0 + all'[..|clips| + 1]
  {
  }

  // ----- The page's chat state -----

  class ChatSession<C> {
    /** The message history shown on the page. */
    var messages: seq<Message>
    /** The text of the input box. */
    var question: string
    /** Whether the first question has been asked. */
    var chatStarted: bool
    /** The page's audio queue. */
    const audio: AudioQueue<C>

    constructor (audio: AudioQueue<C>)
      ensures messages == [] && question == "" && !chatStarted
      ensures this.audio == audio
    {
      messages, question, chatStarted := [], "", false;
      this.audio := audio;
    }

    /** The relation between the audio queue before (`pending0`, `started0`,
        `pushed0`, `playing0`) and after `clips` have been added, with the
        flag value `playingAtRender` captured by the closure that adds them. */
    ghost predicate QueuedAfter(pushed0: seq<C>, pending0: seq<C>, started0: seq<C>, playing0: bool,
                                playingAtRender: bool, clips: seq<C>)
      reads audio
    {
      audio.Valid()
      && audio.pushed == pushed0 + clips
      && (playingAtRender ==>
            audio.pending == pending0 + clips && audio.started == started0
            && audio.isPlaying == playing0)
      && (!playingAtRender ==>
            var all := pending0 + clips;
            audio.pending == all[|clips|..] && audio.started == started0 + all[..|clips|]
            && audio.isPlaying == (playing0 || |clips| > 0))
    }

    /** Applies one decoded increment: the buffer grows by `text`, the
        placeholder at the end of `prior` shows the whole buffer, and the
        clip synthesized for `text` goes to the audio queue. */
    method ApplyIncrement(buffer: string, text: string, clip: Option<C>, playingAtRender: bool,
                          ghost prior: seq<Message>, ghost pushed0: seq<C>, ghost pending0: seq<C>,
                          ghost started0: seq<C>, ghost playing0: bool, ghost clips: seq<C>)
      returns (grown: string)
      requires messages == prior + [Message(Ai, buffer)]
      requires QueuedAfter(pushed0, pending0, started0, playing0, playingAtRender, clips)
      modifies `messages, audio
      ensures grown == buffer + text
      ensures messages == prior + [Message(Ai, grown)]
      ensures QueuedAfter(pushed0, pending0, started0, playing0, playingAtRender,
                          clips + if clip.Some? then [clip.value] else [])
    {
      grown := buffer + text;
      messages := ShowBuffer(messages, grown);
      assert messages == prior + [Message(Ai, grown)];
      if clip.Some? {
        TakenAfterOneMore(pending0, started0, clips, clip.value);
        var _ := audio.Add(clip.value, playingAtRender);
      } else {
        assert clips + [] == clips;
      }
    }

    /** Runs one turn for `initialQuestion`: the history gains the question
        and a placeholder; when the endpoint answers with a failure status
        the turn fails at once, otherwise the answer is read. A failed turn
        adds one error message and keeps the text already shown.
        `playingAtRender` is the "is playing" flag of the render current when
        the turn began; the turn checks that value, unchanged, before every
        playback step it runs. */
    method StartChat(initialQuestion: string, ok: bool, events: seq<Event<C>>, playingAtRender: bool)
      requires audio.Valid()
      modifies this, audio
      ensures chatStarted && question == ""
      ensures !ok ==> messages == Begin(old(messages), initialQuestion) + [ErrorMessage]
      ensures ok ==>
                messages == old(messages) + [Message(User, initialQuestion), Message(Ai, Joined(Applied(events)))]
                            + (if Fails(events) then [ErrorMessage] else [])
      ensures QueuedAfter(old(audio.pushed), old(audio.pending), old(audio.started), old(audio.isPlaying),
                          playingAtRender, if ok then Spoken(Applied(events)) else [])
    {
      chatStarted := true;
      question := "";
      messages := Begin(messages, initialQuestion);
      var failed := !ok;
      if ok {
        failed := ReadAnswer(events, playingAtRender, old(messages) + [Message(User, initialQuestion)]);
      }
      if failed {
        messages := messages + [ErrorMessage];
      }
    }

    /** Reads the answer: each decoded increment is added to the buffer, the
        placeholder at the end of `prior` shows the whole buffer, and the
        increment's clip goes to the audio queue. Reading stops after the
        first closing increment, at the end of the stream, or at the first
        failure, which is reported in `failed`. */
    method ReadAnswer(events: seq<Event<C>>, playingAtRender: bool, ghost prior: seq<Message>) returns (failed: bool)
      requires messages == prior + [Message(Ai, "")]
      requires audio.Valid()
      modifies `messages, audio
      ensures messages == prior + [Message(Ai, Joined(Applied(events)))]
      ensures failed == Fails(events)
      ensures QueuedAfter(old(audio.pushed), old(audio.pending), old(audio.started), old(audio.isPlaying),
                          playingAtRender, Spoken(Applied(events)))
    {
      ghost var pushed0, pending0, started0, playing0 := audio.pushed, audio.pending, audio.started, audio.isPlaying;
      var i, buffer := ReadIncrements(events, playingAtRender, prior);
      StopsAtFirstStop(events, i);
      failed := false;
      if i < |events| {
        match events[i]
        case BadFrame =>
          failed := true;
        case Frame(text, isLast, speech) =>
          // the closing increment, or the one whose synthesis failed
          assert events[..i + 1] == events[..i] + [events[i]];
          JoinedAppend(events[..i], text, isLast, speech);
          SpokenAppend(events[..i], text, isLast, speech);
          buffer := ApplyIncrement(buffer, text, speech, playingAtRender, prior,
                                   pushed0, pending0, started0, playing0, Spoken(events[..i]));
          failed := speech.None?;
      } else {
        assert events[..i] == events;
      }
    }

    /** Applies the increments before the first stopping event (all of them
        when there is none) and returns where reading stopped. */
    method ReadIncrements(events: seq<Event<C>>, playingAtRender: bool, ghost prior: seq<Message>)
      returns (i: nat, buffer: string)
      requires messages == prior + [Message(Ai, "")]
      requires audio.Valid()
      modifies `messages, audio
      ensures i <= |events| && (i < |events| ==> Stops(events[i]))
      ensures forall j :: 0 <= j < i ==> !Stops(events[j])
      ensures buffer == Joined(events[..i])
      ensures messages == prior + [Message(Ai, buffer)]
      ensures QueuedAfter(old(audio.pushed), old(audio.pending), old(audio.started), old(audio.isPlaying),
                          playingAtRender, Spoken(events[..i]))
    {
      ghost var pushed0, pending0, started0, playing0 := audio.pushed, audio.pending, audio.started, audio.isPlaying;
      buffer := "";
      i := 0;
      while i < |events| && !Stops(events[i])
        invariant 0 <= i <= |events|
        invariant forall j :: 0 <= j < i ==> !Stops(events[j])
        invariant buffer == Joined(events[..i])
        invariant messages == prior + [Message(Ai, buffer)]
        invariant QueuedAfter(pushed0, pending0, started0, playing0, playingAtRender, Spoken(events[..i]))
        decreases |events| - i
      {
        var e := events[i];
        assert events[..i + 1] == events[..i] + [e];
        JoinedAppend(events[..i], e.text, e.isLast, e.speech);
        SpokenAppend(events[..i], e.text, e.isLast, e.speech);
        buffer := ApplyIncrement(buffer, e.text, e.speech, playingAtRender, prior,
                                 pushed0, pending0, started0, playing0, Spoken(events[..i]));
        i := i + 1;
      }
    }
  }
}
