/** The speech-capture hook (src/hooks/useSpeechRecognition.js).

    Each call of `startListening` creates a new recogniser whose callbacks close over
    their own `handled` and `answeredRef` flags and their own 120 s timeout, while the
    captured text, the stop request, the listening flag and the status live in refs
    shared by every call. A recogniser aborted by a later start can still fire its
    callbacks, so every event names the capture session (the index of the
    `startListening` call) whose callback runs. */
module SpeechHook {
  import opened Common

  /** Values of the hook's `status` state (`null` is `Unset`). */
  datatype Status = Unset | Idle | Listening | Evaluating | Error | Speaking | Ready

  /** The variables one `startListening` call closes over: `handled`, `answeredRef`,
      and whether its 120 s timeout is still pending. */
  datatype Closure = Closure(handled: bool, answered: bool, timerArmed: bool)

  /** Recogniser error codes the error callback ignores. */
  predicate IsIgnoredError(code: string) {
    code == "aborted" || code == "no-speech"
  }

  /** The full transcript of one result event: the transcripts of all results in order. */
  function Concat(parts: seq<string>): string {
    if parts == [] then "" else Concat(parts[..|parts| - 1]) + parts[|parts| - 1]
  }

  /** The loop of `onresult`: concatenates the transcript of every result. */
  method JoinTranscripts(parts: seq<string>) returns (full: string)
    ensures full == Concat(parts)
  {
    full := "";
    var i := 0;
    while i < |parts|
      invariant 0 <= i <= |parts|
      invariant full == Concat(parts[..i])
    {
      assert parts[..i + 1][..i] == parts[..i];
      full := full + parts[i];
      i := i + 1;
    }
    assert parts[..i] == parts;
  }

  /** The concatenation of two result lists is the concatenation of their transcripts. */
  lemma {:induction false} ConcatAppend(a: seq<string>, b: seq<string>)
    ensures Concat(a + b) == Concat(a) + Concat(b)
    decreases |b|
  {
    if b == [] {
      assert a + b == a;
    } else {
      var ab := a + b;
      assert ab[..|ab| - 1] == a + b[..|b| - 1];
      assert ab[|ab| - 1] == b[|b| - 1];
      ConcatAppend(a, b[..|b| - 1]);
    }
  }

  /** Every result's transcript stands, whole and in order, between those of the
      results before it and those after it. */
  lemma {:induction false} ConcatSplitsAt(parts: seq<string>, k: nat)
    requires k < |parts|
    ensures Concat(parts) == Concat(parts[..k]) + parts[k] + Concat(parts[k + 1..])
  {
    var pre, post := parts[..k], parts[k + 1..];
    assert parts == (pre + [parts[k]]) + post;
    ConcatAppend(pre + [parts[k]], post);
    assert (pre + [parts[k]])[..|pre|] == pre;
  }

  /** How many answers a session has delivered, as its flags account for them: one
      through `answeredRef` (timeout, end, or end after a manual stop) and one through
      a fatal error, which sets `handled` but not `answeredRef`. */
  ghost predicate DeliveryAccount(c: Closure, delivered: nat, fatal: bool) {
    && delivered == (if c.answered then 1 else 0) + (if fatal then 1 else 0)
    && (fatal ==> c.handled)
    && (c.handled ==> c.answered || fatal)
  }

  /** The flags allow at most one delivery unless a fatal error delivered as well, and
      never more than two. */
  lemma DeliveryBound(c: Closure, delivered: nat, fatal: bool)
    requires DeliveryAccount(c, delivered, fatal)
    ensures delivered <= 2
    ensures !fatal ==> delivered <= 1
    ensures delivered == 2 ==> fatal && c.answered && c.handled
  {
  }

  /** Every session's flags account for its deliveries. */
  ghost predicate Accounts(sessions: seq<Closure>, delivered: seq<nat>, fatal: seq<bool>) {
    && |delivered| == |sessions| == |fatal|
    && forall k :: 0 <= k < |sessions| ==> DeliveryAccount(sessions[k], delivered[k], fatal[k])
  }

  /** A new session with no deliveries keeps the accounting. */
  lemma AccountsSnoc(sessions: seq<Closure>, delivered: seq<nat>, fatal: seq<bool>, c: Closure)
    requires Accounts(sessions, delivered, fatal) && !c.handled && !c.answered
    ensures Accounts(sessions + [c], delivered + [0], fatal + [false])
  {
  }

  /** The warning shown when the browser has no speech recognition. */
  const UnsupportedWarning := Warning("Unsupported browser", "Please use Chrome or Edge for speech recording.")

  class SpeechCapture {
    /** Whether the browser provides a speech-recognition class. */
    const supported: bool
    var status: Status
    /** The displayed transcript (`transcript` state). */
    var transcript: string
    /** `recognitionRef.current !== null`. */
    var hasRecognizer: bool
    var listening: bool
    var captured: string
    var stopRequested: bool
    /** `mediaRecorderRef.current !== null`: raw audio is being recorded. */
    var recorderActive: bool
    /** The closures of the `startListening` calls so far, oldest first. */
    var sessions: seq<Closure>
    /** Answers delivered by each session's callbacks. */
    ghost var delivered: seq<nat>
    /** Whether each session's error callback delivered. */
    ghost var fatalDelivered: seq<bool>
    /** Answers delivered because recognition is unsupported. */
    ghost var unsupportedDeliveries: nat

    ghost predicate Valid()
      reads this
    {
      && Accounts(sessions, delivered, fatalDelivered)
      && (hasRecognizer <==> sessions != [])
      && (!supported ==> sessions == [])
    }

    constructor (supported: bool)
      ensures Valid() && this.supported == supported
      ensures status == Unset && transcript == "" && captured == ""
      ensures !hasRecognizer && !listening && !stopRequested && !recorderActive
      ensures sessions == [] && unsupportedDeliveries == 0
    {
      this.supported := supported;
      status, transcript, captured := Unset, "", "";
      hasRecognizer, listening, stopRequested, recorderActive := false, false, false, false;
      sessions, delivered, fatalDelivered := [], [], [];
      unsupportedDeliveries := 0;
    }

    /** `startListening`. Without recognition support it warns, sets `idle` and answers
        "" at once; otherwise it aborts a live recogniser, starts raw recording in the
        speaking section when the microphone is granted, and opens a new session. */
    method StartListening(isSpeakingSection: bool, micGranted: bool)
      returns (answer: Option<string>, warning: Option<Warning>, abortedPrevious: bool)
      requires Valid()
      modifies this
      ensures Valid()
      ensures !supported ==>
        && answer == Some("") && status == Idle
        && warning == Some(UnsupportedWarning)
        && unsupportedDeliveries == old(unsupportedDeliveries) + 1
        && sessions == old(sessions) && delivered == old(delivered)
        && fatalDelivered == old(fatalDelivered) && hasRecognizer == old(hasRecognizer)
        && listening == old(listening) && captured == old(captured)
        && stopRequested == old(stopRequested) && recorderActive == old(recorderActive)
        && transcript == old(transcript) && !abortedPrevious
      ensures supported ==>
        && answer == None && warning == None
        && abortedPrevious == (old(listening) && old(hasRecognizer))
        && sessions == old(sessions) + [Closure(false, false, true)]
        && delivered == old(delivered) + [0] && fatalDelivered == old(fatalDelivered) + [false]
        && hasRecognizer && listening && !stopRequested && captured == "" && transcript == ""
        && status == Listening
        && recorderActive == (old(recorderActive) || (isSpeakingSection && micGranted))
        && unsupportedDeliveries == old(unsupportedDeliveries)
    {
      if !supported {
        status := Idle;
        unsupportedDeliveries := unsupportedDeliveries + 1;
        return Some(""), Some(UnsupportedWarning), false;
      }
      abortedPrevious := listening && hasRecognizer;
      AccountsSnoc(sessions, delivered, fatalDelivered, Closure(false, false, true));
      hasRecognizer, listening, stopRequested, captured, transcript, status, recorderActive :=
        true, true, false, "", "", Listening, recorderActive || (isSpeakingSection && micGranted);
      sessions, delivered, fatalDelivered :=
        sessions + [Closure(false, false, true)], delivered + [0], fatalDelivered + [false];
      answer, warning := None, None;
    }

    /** `onresult` of session `k`: the captured text becomes the concatenation of all
        result transcripts (it replaces, never appends to, what was captured). */
    method OnResult(k: nat, results: seq<string>)
      requires Valid() && k < |sessions|
      modifies this`captured, this`transcript
      ensures Valid()
      ensures captured == Concat(results) && transcript == Trim(Concat(results))
    {
      var full := JoinTranscripts(results);
      var shown := Trim(full);
      captured, transcript := full, shown;
    }

    /** The 120 s timeout of session `k`. It runs only while armed, and delivers the
        captured text only when neither `handled` nor `answeredRef` is set. */
    method OnTimeout(k: nat) returns (answer: Option<string>)
      requires Valid() && k < |sessions|
      modifies this`sessions, this`status, this`delivered
      ensures Valid()
      ensures var c := old(sessions[k]);
        answer == (if c.timerArmed && !c.handled && !c.answered then Some(captured) else None)
      ensures var c := old(sessions[k]);
        sessions == old(sessions)[k := if answer.Some? then Closure(true, true, false) else c.(timerArmed := false)]
      ensures delivered == old(delivered)[k := old(delivered[k]) + (if answer.Some? then 1 else 0)]
      ensures status == (if answer.Some? then Idle else old(status))
    {
      var c := sessions[k];
      if !c.timerArmed || c.handled || c.answered {
        sessions := sessions[k := c.(timerArmed := false)];
        return None;
      }
      sessions := sessions[k := Closure(true, true, false)];
      delivered := delivered[k := delivered[k] + 1];
      status := Idle;
      answer := Some(captured);
    }

    /** `onend` of session `k`. After a manual stop it delivers the trimmed text and sets
        `answeredRef` (leaving `handled` and the timer alone); otherwise it delivers the
        untrimmed text once, guarded by `handled`, and clears the timer. */
    method OnEnd(k: nat) returns (answer: Option<string>)
      requires Valid() && k < |sessions|
      modifies this`sessions, this`status, this`delivered, this`listening
      ensures Valid()
      ensures !listening
      ensures var c := old(sessions[k]);
        answer == (if c.answered then None
                   else if stopRequested then Some(Trim(captured))
                   else if !c.handled then Some(captured)
                   else None)
      ensures var c := old(sessions[k]);
        sessions == old(sessions)[k := if c.answered || answer.None? then c
                                       else if stopRequested then c.(answered := true)
                                       else Closure(true, true, false)]
      ensures delivered == old(delivered)[k := old(delivered[k]) + (if answer.Some? then 1 else 0)]
      ensures status == (if answer.Some? && !stopRequested then Idle else old(status))
    {
      listening := false;
      var c := sessions[k];
      if c.answered {
        return None;
      }
      if stopRequested {
        sessions := sessions[k := c.(answered := true)];
        delivered := delivered[k := delivered[k] + 1];
        return Some(Trim(captured));
      }
      if !c.handled {
        sessions := sessions[k := Closure(true, true, false)];
        delivered := delivered[k := delivered[k] + 1];
        status := Idle;
        return Some(captured);
      }
      answer := None;
    }

    /** `onerror` of session `k`. `aborted` and `no-speech` are ignored; any other error,
        if the session is not handled yet, sets `handled` (not `answeredRef`), clears the
        timer, sets `error` and delivers "". */
    method OnError(k: nat, code: string) returns (answer: Option<string>)
      requires Valid() && k < |sessions|
      modifies this`sessions, this`status, this`delivered, this`fatalDelivered
      ensures Valid()
      ensures var c := old(sessions[k]);
        answer == (if c.handled || IsIgnoredError(code) then None else Some(""))
      ensures var c := old(sessions[k]);
        sessions == old(sessions)[k := if answer.Some? then c.(handled := true, timerArmed := false) else c]
      ensures delivered == old(delivered)[k := old(delivered[k]) + (if answer.Some? then 1 else 0)]
      ensures fatalDelivered == old(fatalDelivered)[k := old(fatalDelivered[k]) || answer.Some?]
      ensures status == (if answer.Some? then Error else old(status))
    {
      var c := sessions[k];
      if c.handled || IsIgnoredError(code) {
        return None;
      }
      sessions := sessions[k := c.(handled := true, timerArmed := false)];
      delivered := delivered[k := delivered[k] + 1];
      fatalDelivered := fatalDelivered[k := true];
      status := Error;
      answer := Some("");
    }

    /** `stopAndSubmit`: without a recogniser nothing happens; otherwise it requests the
        stop and shows `evaluating`, and in the speaking section it finishes the raw
        recording (whose upload is not modelled). */
    method StopAndSubmit(isSpeakingSection: bool) returns (recordingFinished: bool)
      requires Valid()
      modifies this`stopRequested, this`status, this`recorderActive
      ensures Valid()
      ensures !old(hasRecognizer) ==>
        stopRequested == old(stopRequested) && status == old(status) && recorderActive == old(recorderActive)
        && !recordingFinished
      ensures old(hasRecognizer) ==> stopRequested && status == Evaluating
      ensures recordingFinished == (old(hasRecognizer) && old(recorderActive) && isSpeakingSection)
      ensures recorderActive == (old(recorderActive) && !recordingFinished)
    {
      if !hasRecognizer {
        return false;
      }
      stopRequested := true;
      status := Evaluating;
      recordingFinished := recorderActive && isSpeakingSection;
      if recordingFinished {
        recorderActive := false;
      }
    }

    /** `cleanup`: aborts the current recogniser, which is then no longer listening. */
    method Cleanup()
      requires Valid()
      modifies this`listening
      ensures Valid()
      ensures listening == (old(listening) && !hasRecognizer)
    {
      if hasRecognizer {
        listening := false;
      }
    }

    /** At any time, each session has delivered at most once unless its error callback
        delivered too. */
    lemma AtMostOneDeliveryWithoutFatalError(k: nat)
      requires Valid() && k < |sessions|
      ensures !fatalDelivered[k] ==> delivered[k] <= 1
      ensures delivered[k] <= 2
    {
      DeliveryBound(sessions[k], delivered[k], fatalDelivered[k]);
    }
  }

  /** Two results " Par" and "is " make " Paris ", shown trimmed as "Paris". */
  lemma SpokenParis()
    ensures Concat([" Par", "is "]) == " Paris "
    ensures Trim(" Paris ") == "Paris"
  {
    assert Concat([" Par", "is "]) == Concat([" Par"]) + "is ";
    assert Concat([" Par"]) == Concat([]) + " Par";
    assert ' ' in JsWhitespace && 'P' !in JsWhitespace && 's' !in JsWhitespace;
    assert DropLeading(" Paris ", JsWhitespace) == "Paris ";
    assert "Paris "[..5] == "Paris";
    assert DropTrailing("Paris", JsWhitespace) == "Paris";
    assert DropTrailing("Paris ", JsWhitespace) == "Paris";
  }

  /** A manual stop followed by the recogniser's end delivers the trimmed text, and the
      timeout firing afterwards delivers nothing. */
  method StopThenEndThenTimeout() returns (atEnd: Option<string>, atTimeout: Option<string>)
    ensures atEnd == Some("Paris")
    ensures atTimeout == None
  {
    var h := new SpeechCapture(true);
    var _, _, _ := h.StartListening(false, false);
    SpokenParis();
    h.OnResult(0, [" Par", "is "]);
    var _ := h.StopAndSubmit(false);
    atEnd := h.OnEnd(0);
    atTimeout := h.OnTimeout(0);
  }

  /** The gap the flags leave: a fatal error delivers "", and a manual stop followed by
      the recogniser's end then delivers a second time for the same session. */
  method FatalErrorThenStopDeliversTwice() returns (atError: Option<string>, atEnd: Option<string>)
    ensures atError == Some("")
    ensures atEnd == Some("")
  {
    var h := new SpeechCapture(true);
    var _, _, _ := h.StartListening(false, false);
    atError := h.OnError(0, "network");
    var _ := h.StopAndSubmit(false);
    atEnd := h.OnEnd(0);
    assert h.delivered[0] == 2;
  }
}
