/** The older single-file exam screen (src/App.jsx): a two-question spoken test with its
    own incident cooldown, an inline speech-capture flow, the instructions countdown,
    the student login against a CSV of credentials, and the incident CSV it uploads.
    The recogniser is created once at mount; each `startListening` installs new
    result/end/error callbacks on it, so those events always reach the latest call's
    closure, while each call's 120 s timeout keeps its own. */
module LegacyApp {
  import opened Common
  import Proctoring
  import SpeechHook

  datatype View = Login | SystemCheck | Instructions | Test | Finish

  /** The fixed question list. */
  const Questions: seq<string> := ["What is the capital of France?", "What is 8 multiplied by 7?"]

  /** Seconds shown when the instructions screen opens. */
  const CountdownStart: int := 10

  /** An entry of `incidents`: `{ type, ...payload }`, without a question context. */
  datatype AppIncident = AppIncident(kind: string, ts: Option<int>, message: Option<string>)

  /** This screen's own `warnings` table (no entry for `unknown_person`). */
  function AppWarningText(kind: string): Option<string> {
    if kind == "no_face" then Some("Warning: No face detected")
    else if kind == "multiple_faces" then Some("Warning: Multiple people detected")
    else if kind == "gaze_away" then Some("Warning: Looking away")
    else if kind == "tab_hidden" then Some("Warning: You switched tabs")
    else if kind == "window_blur" then Some("Warning: Window focus lost")
    else None
  }

  // ------------------------------------------------------------------- login

  /** The first two comma-separated fields of a row equal the trimmed id and password;
      a row with no comma has no password field and never matches. */
  predicate RowMatches(row: string, id: string, pass: string) {
    var fields := Split(row, ',');
    |fields| >= 2 && fields[0] == Trim(id) && fields[1] == Trim(pass)
  }

  /** `rows.find(...)` over the rows after the header. */
  function FindRow(rows: seq<string>, id: string, pass: string): (r: Option<nat>)
    ensures r.Some? ==> r.value < |rows| && RowMatches(rows[r.value], id, pass)
    ensures r.Some? ==> forall j :: 0 <= j < r.value ==> !RowMatches(rows[j], id, pass)
    ensures r.None? ==> forall j :: 0 <= j < |rows| ==> !RowMatches(rows[j], id, pass)
  {
    if rows == [] then None
    else if RowMatches(rows[0], id, pass) then Some(0)
    else match FindRow(rows[1..], id, pass)
      case None => None
      case Some(i) => Some(i + 1)
  }

  /** The data rows: the trimmed text split at newlines, without the header line. */
  function DataRows(text: string): seq<string> {
    Split(Trim(text), '\n')[1..]
  }

  /** The credentials check of the login form. */
  predicate LoginMatch(text: string, id: string, pass: string) {
    FindRow(DataRows(text), id, pass).Some?
  }

  /** Login succeeds exactly when some row after the header carries the trimmed id
      and password as its first two fields. */
  lemma LoginMatchIff(text: string, id: string, pass: string)
    ensures LoginMatch(text, id, pass) <==>
      exists j :: 0 <= j < |DataRows(text)| && RowMatches(DataRows(text)[j], id, pass)
  {
    if LoginMatch(text, id, pass) {
      assert RowMatches(DataRows(text)[FindRow(DataRows(text), id, pass).value], id, pass);
    }
  }

  /** A credentials file with the header and the row `id,pass` lets that student in. */
  lemma {:induction false} LoginAcceptsListedStudent(header: string, id: string, pass: string)
    requires '\n' !in header && '\n' !in id && '\n' !in pass && ',' !in id && ',' !in pass
    requires header != [] && header[0] !in JsWhitespace && id != [] && id[0] !in JsWhitespace && id[|id| - 1] !in JsWhitespace
    requires pass != [] && pass[0] !in JsWhitespace && pass[|pass| - 1] !in JsWhitespace
    ensures LoginMatch(header + "\n" + id + "," + pass, id, pass)
  {
    var row := id + "," + pass;
    var text := header + "\n" + row;
    assert text[0] == header[0];
    assert text[|text| - 1] == pass[|pass| - 1];
    StripUnchanged(text, JsWhitespace);
    StripUnchanged(id, JsWhitespace);
    StripUnchanged(pass, JsWhitespace);
    assert text == header + ['\n'] + row;
    SplitAppend(header, row, '\n');
    assert '\n' !in row;
    SplitNoSep(row, '\n');
    assert DataRows(text) == [row];
    assert row == id + [','] + pass;
    SplitAppend(id, pass, ',');
    SplitNoSep(pass, ',');
    assert RowMatches(row, id, pass);
    assert FindRow(DataRows(text), id, pass) == Some(0);
    assert text == header + "\n" + id + "," + pass;
  }

  // ------------------------------------------------------------- incident CSV

  const CsvHeader: string := "Student ID" + "," + "Incident Type" + "," + "Timestamp (IST)" + "," + "Details"

  /** The details column: the message when there is one, else a default text for the
      known types, else empty. */
  function IncidentDetails(inc: AppIncident): (d: string)
    ensures Truthy(inc.message) ==> d == inc.message.value
    ensures !Truthy(inc.message) && inc.kind !in {"no_face", "multiple_faces", "gaze_away", "tab_hidden", "voice_detected"} ==> d == ""
    ensures !Truthy(inc.message) && inc.kind in {"no_face", "multiple_faces", "gaze_away", "tab_hidden", "voice_detected"} ==> d != ""
  {
    if Truthy(inc.message) then inc.message.value
    else if inc.kind == "no_face" then "Student face not visible in frame"
    else if inc.kind == "multiple_faces" then "Multiple faces detected in frame"
    else if inc.kind == "gaze_away" then "Student looking away from screen"
    else if inc.kind == "tab_hidden" then "Student switched to another tab/window"
    else if inc.kind == "voice_detected" then "Voice/audio detected in background"
    else ""
  }

  /** One row: `id,type,timestamp,"details"`. The timestamp text is an input (it is
      locale formatting of the incident time, or of the current time without one). */
  function IncidentRow(studentId: string, inc: AppIncident, stamp: string): string {
    studentId + "," + inc.kind + "," + stamp + ",\"" + IncidentDetails(inc) + "\""
  }

  /** The uploaded CSV text: the header, then one row per incident, joined by newlines. */
  function IncidentsCsv(studentId: string, incs: seq<AppIncident>, stamp: Option<int> -> string): string {
    Join([CsvHeader] + seq(|incs|, i requires 0 <= i < |incs| => IncidentRow(studentId, incs[i], stamp(incs[i].ts))), "\n")
  }

  lemma CsvHeaderIsOneLine()
    ensures '\n' !in CsvHeader
  {
    assert '\n' !in "Student ID";
    assert '\n' !in "Incident Type";
    assert '\n' !in "Timestamp (IST)";
    assert '\n' !in "Details";
    assert '\n' !in ",";
  }

  /** When no field holds a newline, splitting the CSV at newlines gives back the header
      and exactly one row per incident, in order. */
  lemma IncidentsCsvLines(studentId: string, incs: seq<AppIncident>, stamp: Option<int> -> string)
    requires forall i :: 0 <= i < |incs| ==> '\n' !in IncidentRow(studentId, incs[i], stamp(incs[i].ts))
    ensures var lines := Split(IncidentsCsv(studentId, incs, stamp), '\n');
      && |lines| == |incs| + 1
      && lines[0] == CsvHeader
      && forall i :: 0 <= i < |incs| ==> lines[i + 1] == IncidentRow(studentId, incs[i], stamp(incs[i].ts))
  {
    var rows := seq(|incs|, i requires 0 <= i < |incs| => IncidentRow(studentId, incs[i], stamp(incs[i].ts)));
    var parts := [CsvHeader] + rows;
    CsvHeaderIsOneLine();
    assert forall k :: 0 <= k < |parts| ==> '\n' !in parts[k] by {
      forall k | 0 <= k < |parts| ensures '\n' !in parts[k] {
        if k > 0 {
          assert parts[k] == rows[k - 1];
        }
      }
    }
    SplitJoin(parts, '\n');
    assert IncidentsCsv(studentId, incs, stamp) == Join(parts, "\n");
  }

  /** The first two fields of a row are the student id and the incident type when
      neither holds a comma. */
  lemma IncidentRowFields(studentId: string, inc: AppIncident, stamp: string)
    requires ',' !in studentId && ',' !in inc.kind
    ensures var f := Split(IncidentRow(studentId, inc, stamp), ',');
      |f| >= 3 && f[0] == studentId && f[1] == inc.kind
  {
    var rest := stamp + ",\"" + IncidentDetails(inc) + "\"";
    assert IncidentRow(studentId, inc, stamp) == studentId + [','] + (inc.kind + [','] + rest);
    SplitAppend(studentId, inc.kind + [','] + rest, ',');
    SplitAppend(inc.kind, rest, ',');
  }

  // --------------------------------------------------------------- the screen

  class LegacyExamApp {
    /** Whether the browser has a speech recogniser (one is created at mount if so). */
    const supported: bool
    var view: View
    var studentId: string
    var authError: string
    var questionIndex: nat
    var questionText: string
    var status: SpeechHook.Status
    var transcript: string
    var timer: int
    var startEnabled: bool
    /** Whether the countdown interval is still running. */
    var ticking: bool
    // Speech capture: the shared refs and, per `startListening` call, its `handled`.
    var listening: bool
    var stopRequested: bool
    var captured: string
    var handled: seq<bool>
    /** Every answer passed to `handleAnswer`, in order. */
    var answers: seq<string>
    /** Per call, the deliveries made through a `handled`-guarded path. */
    ghost var guardedDeliveries: seq<nat>
    // Proctoring.
    var incidents: seq<AppIncident>
    var shots: seq<Proctoring.Shot>
    var lastAlert: map<string, int>

    ghost predicate Valid()
      reads this
    {
      && |guardedDeliveries| == |handled|
      && (!supported ==> handled == [])
      && forall k :: 0 <= k < |handled| ==> guardedDeliveries[k] == (if handled[k] then 1 else 0)
    }

    constructor (supported: bool)
      ensures Valid() && this.supported == supported
      ensures view == Login && questionIndex == 0 && timer == 60 && !startEnabled
      ensures status == SpeechHook.Unset && transcript == "..." && answers == [] && handled == []
      ensures incidents == [] && shots == [] && lastAlert == map[]
    {
      this.supported := supported;
      view, studentId, authError := Login, "", "";
      questionIndex, questionText := 0, "Loading question...";
      status, transcript := SpeechHook.Unset, "...";
      timer, startEnabled, ticking := 60, false, false;
      listening, stopRequested, captured := false, false, "";
      handled, answers, guardedDeliveries := [], [], [];
      incidents, shots, lastAlert := [], [], map[];
    }

    // ----------------------------------------------------------- proctoring

    /** `handleIncident`: always appends; alerts with the raw table text when the type
        is in this screen's table and its 5000 ms cooldown has run out. */
    method HandleIncident(kind: string, payload: Proctoring.Payload, now: int) returns (alert: Option<string>)
      modifies this`incidents, this`lastAlert
      ensures incidents == old(incidents) + [AppIncident(kind, payload.ts, payload.message)]
      ensures alert == Proctoring.AlertFor(AppWarningText, kind, now, old(lastAlert))
      ensures lastAlert == Proctoring.AfterAlert(old(lastAlert), kind, now, alert.Some?)
    {
      incidents := incidents + [AppIncident(kind, payload.ts, payload.message)];
      alert := Proctoring.AlertFor(AppWarningText, kind, now, lastAlert);
      if alert.Some? {
        lastAlert := lastAlert[kind := now];
      }
    }

    /** `handleSnapshot`: appends `{ ts, faces }`. */
    method HandleSnapshot(ts: int, faces: Option<int>)
      modifies this`shots
      ensures shots == old(shots) + [Proctoring.Shot(ts, faces)]
    {
      shots := shots + [Proctoring.Shot(ts, faces)];
    }

    // ------------------------------------------------------- login and views

    /** The login form's submit. `fetched` is the text of `/students.csv`, or `None`
        when the request fails. */
    method SubmitLogin(id: string, pass: string, fetched: Option<string>)
      modifies this`view, this`studentId, this`authError
      requires view == Login
      ensures studentId == id
      ensures fetched.None? ==> view == Login && authError == "Error loading credentials database"
      ensures fetched.Some? && LoginMatch(fetched.value, id, pass) ==> view == SystemCheck && authError == ""
      ensures fetched.Some? && !LoginMatch(fetched.value, id, pass) ==> view == Login && authError == "Invalid Student ID or Password"
    {
      studentId := id;
      authError := "";
      if fetched.None? {
        authError := "Error loading credentials database";
        return;
      }
      if LoginMatch(fetched.value, id, pass) {
        view := SystemCheck;
      } else {
        authError := "Invalid Student ID or Password";
      }
    }

    /** Entering the instructions view: the timer is set to 10, Start is disabled and
        the one-second interval begins. */
    method EnterInstructions()
      modifies this`view, this`timer, this`startEnabled, this`ticking
      ensures view == Instructions && timer == CountdownStart && !startEnabled && ticking
    {
      view := Instructions;
      timer, startEnabled, ticking := CountdownStart, false, true;
    }

    /** One interval tick: the timer goes down by one; at zero or below it is clamped
        to 0, the interval is cleared and Start is enabled. */
    method Tick()
      modifies this`timer, this`startEnabled, this`ticking
      ensures !old(ticking) ==> timer == old(timer) && startEnabled == old(startEnabled) && !ticking
      ensures old(ticking) && old(timer) - 1 > 0 ==> timer == old(timer) - 1 && startEnabled == old(startEnabled) && ticking
      ensures old(ticking) && old(timer) - 1 <= 0 ==> timer == 0 && startEnabled && !ticking
    {
      if !ticking {
        return;
      }
      var next := timer - 1;
      if next <= 0 {
        ticking := false;
        startEnabled := true;
        timer := 0;
      } else {
        timer := next;
      }
    }

    /** `n` ticks after the instructions open: the timer reads `10 - n` down to 0, and
        Start becomes enabled exactly at the tenth tick. */
    method RunCountdown(n: nat)
      modifies this`timer, this`startEnabled, this`ticking
      requires timer == CountdownStart && !startEnabled && ticking
      ensures timer == (if n >= 10 then 0 else CountdownStart - n)
      ensures startEnabled <==> n >= 10
      ensures ticking <==> n < 10
    {
      var i := 0;
      while i < n
        invariant 0 <= i <= n
        invariant timer == (if i >= 10 then 0 else CountdownStart - i)
        invariant startEnabled <==> i >= 10
        invariant ticking <==> i < 10
      {
        Tick();
        i := i + 1;
      }
    }

    /** The question effect: in the test view, past the last question the test
        finishes (returning the incident upload, if any); otherwise the current
        question is shown and the transcript reset. */
    method ShowCurrentQuestion(stamp: Option<int> -> string) returns (upload: Option<string>)
      modifies this`view, this`questionText, this`transcript, this`status, this`listening
      ensures old(view) != Test ==>
        && view == old(view) && questionText == old(questionText) && transcript == old(transcript)
        && status == old(status) && listening == old(listening) && upload == None
      ensures old(view) == Test && questionIndex < |Questions| ==>
        && view == Test && questionText == Questions[questionIndex] && transcript == "..."
        && status == old(status) && listening == old(listening) && upload == None
      ensures old(view) == Test && questionIndex >= |Questions| ==>
        && view == Finish && status == SpeechHook.Unset
        && questionText == old(questionText) && transcript == old(transcript)
        && listening == (if supported then false else old(listening))
        && upload == (if incidents == [] then None else Some(IncidentsCsv(studentId, incidents, stamp)))
    {
      upload := None;
      if view != Test {
        return;
      }
      if questionIndex >= |Questions| {
        upload := FinishTest(stamp);
        return;
      }
      questionText := Questions[questionIndex];
      transcript := "...";
    }

    /** `startTest`: the test view, empty logs, the first question. Leaving the
        instructions view runs the countdown effect's cleanup, so the interval stops. */
    method StartTest()
      modifies this`view, this`incidents, this`shots, this`questionIndex, this`ticking
      ensures view == Test && incidents == [] && shots == [] && questionIndex == 0 && !ticking
    {
      view := Test;
      incidents, shots := [], [];
      questionIndex := 0;
      ticking := false;
    }

    /** `finishTest`: clears the status, shows the finish view, stops listening and
        uploads the incident CSV unless there are no incidents. */
    method FinishTest(stamp: Option<int> -> string) returns (upload: Option<string>)
      modifies this`view, this`status, this`listening
      ensures view == Finish && status == SpeechHook.Unset
      ensures supported ==> !listening
      ensures !supported ==> listening == old(listening)
      ensures upload == (if incidents == [] then None else Some(IncidentsCsv(studentId, incidents, stamp)))
    {
      status := SpeechHook.Unset;
      view := Finish;
      if supported {
        listening := false;
      }
      upload := if incidents == [] then None else Some(IncidentsCsv(studentId, incidents, stamp));
    }

    // ------------------------------------------------------------ answering

    /** `handleAnswer`: records the answer and moves to the next question, exactly one
        step per call (the evaluation and sheet calls are mocks). */
    method HandleAnswer(answer: string)
      modifies this`status, this`answers, this`questionIndex
      ensures status == SpeechHook.Evaluating
      ensures answers == old(answers) + [answer]
      ensures questionIndex == old(questionIndex) + 1
    {
      status := SpeechHook.Evaluating;
      answers := answers + [answer];
      questionIndex := questionIndex + 1;
    }

    /** `startListening`. Without a recogniser the status is set to an error and the
        fixed answer is submitted, whose first step sets it to evaluating. Otherwise the shared refs are reset and a new call
        with its own `handled` flag and pending timeout begins. */
    method StartListening()
      modifies this`status, this`answers, this`questionIndex, this`listening, this`stopRequested
      modifies this`captured, this`transcript, this`handled, this`guardedDeliveries
      requires Valid()
      ensures Valid()
      ensures !supported ==>
        && status == SpeechHook.Evaluating && answers == old(answers) + ["Error: API unsupported."]
        && questionIndex == old(questionIndex) + 1 && handled == old(handled)
        && listening == old(listening) && stopRequested == old(stopRequested)
        && captured == old(captured) && transcript == old(transcript)
      ensures supported ==>
        && handled == old(handled) + [false] && answers == old(answers)
        && listening && !stopRequested && captured == "" && transcript == ""
        && status == SpeechHook.Listening && questionIndex == old(questionIndex)
      ensures view == old(view) && incidents == old(incidents) && studentId == old(studentId)
    {
      if !supported {
        status := SpeechHook.Error;
        HandleAnswer("Error: API unsupported.");
        return;
      }
      listening, stopRequested, captured := true, false, "";
      transcript := "";
      status := SpeechHook.Listening;
      handled := handled + [false];
      guardedDeliveries := guardedDeliveries + [0];
    }

    /** The 120 s timeout of call `k`: if that call is not yet handled, it is now, and
        the timeout error is submitted. The error status it sets first is replaced at
        once by `handleAnswer`'s evaluating. */
    method OnTimeout(k: nat)
      modifies this`status, this`answers, this`questionIndex, this`handled, this`guardedDeliveries
      requires Valid() && k < |handled|
      ensures Valid()
      ensures old(handled[k]) ==>
        && answers == old(answers) && handled == old(handled) && questionIndex == old(questionIndex)
        && status == old(status)
      ensures !old(handled[k]) ==>
        && handled == old(handled)[k := true] && status == SpeechHook.Evaluating
        && answers == old(answers) + ["Error: Timeout / no speech detected."]
        && questionIndex == old(questionIndex) + 1
      ensures view == old(view) && incidents == old(incidents) && studentId == old(studentId) && stopRequested == old(stopRequested)
    {
      if handled[k] {
        return;
      }
      handled := handled[k := true];
      guardedDeliveries := guardedDeliveries[k := guardedDeliveries[k] + 1];
      status := SpeechHook.Error;
      HandleAnswer("Error: Timeout / no speech detected.");
    }

    /** `onresult`: the captured text becomes the concatenation of all result
        transcripts, replacing what was there; the shown transcript is its trim. */
    method OnResult(results: seq<string>)
      modifies this`captured, this`transcript
      requires handled != []
      ensures captured == SpeechHook.Concat(results) && transcript == Trim(captured)
    {
      var full := SpeechHook.JoinTranscripts(results);
      captured := full;
      transcript := Trim(full);
    }

    /** `onend`, reaching the latest call. After a manual stop the trimmed capture is
        submitted, without setting `handled` or clearing the timeout. Otherwise, if the
        call is not yet handled, it is now and the recognition error is submitted (the
        error status giving way to `handleAnswer`'s evaluating). */
    method OnEnd()
      modifies this`listening, this`status, this`answers, this`questionIndex, this`handled, this`guardedDeliveries
      requires Valid() && handled != []
      ensures Valid()
      ensures !listening
      ensures |handled| == |old(handled)|
      ensures var k := |handled| - 1;
        if old(stopRequested) then
          handled == old(handled) && answers == old(answers) + [Trim(old(captured))]
          && questionIndex == old(questionIndex) + 1 && status == SpeechHook.Evaluating
        else if old(handled)[k] then
          handled == old(handled) && answers == old(answers) && questionIndex == old(questionIndex)
          && status == old(status)
        else
          handled == old(handled)[k := true] && status == SpeechHook.Evaluating
          && answers == old(answers) + ["Error: Could not recognize speech."]
          && questionIndex == old(questionIndex) + 1
      ensures view == old(view) && incidents == old(incidents) && stopRequested == old(stopRequested)
    {
      listening := false;
      var k := |handled| - 1;
      if stopRequested {
        HandleAnswer(Trim(captured));
        return;
      }
      if !handled[k] {
        handled := handled[k := true];
        guardedDeliveries := guardedDeliveries[k := guardedDeliveries[k] + 1];
        status := SpeechHook.Error;
        HandleAnswer("Error: Could not recognize speech.");
      }
    }

    /** `onerror`, reaching the latest call: once per call, guarded by `handled`, it
        submits `Error: <code>`, ending in `handleAnswer`'s evaluating status; no error
        code is ignored. */
    method OnError(code: string)
      modifies this`status, this`answers, this`questionIndex, this`handled, this`guardedDeliveries
      requires Valid() && handled != []
      ensures Valid()
      ensures |handled| == |old(handled)|
      ensures var k := |handled| - 1;
        if old(handled)[k] then
          handled == old(handled) && answers == old(answers) && questionIndex == old(questionIndex)
          && status == old(status)
        else
          handled == old(handled)[k := true] && status == SpeechHook.Evaluating
          && answers == old(answers) + ["Error: " + code]
          && questionIndex == old(questionIndex) + 1
      ensures view == old(view) && incidents == old(incidents) && stopRequested == old(stopRequested)
    {
      var k := |handled| - 1;
      if handled[k] {
        return;
      }
      handled := handled[k := true];
      guardedDeliveries := guardedDeliveries[k := guardedDeliveries[k] + 1];
      status := SpeechHook.Error;
      HandleAnswer("Error: " + code);
    }

    /** `stopAndSubmit`: with a recogniser, marks the stop and shows evaluating. */
    method StopAndSubmit()
      modifies this`stopRequested, this`status
      ensures supported ==> stopRequested && status == SpeechHook.Evaluating
      ensures !supported ==> stopRequested == old(stopRequested) && status == old(status)
    {
      if !supported {
        return;
      }
      stopRequested := true;
      status := SpeechHook.Evaluating;
    }

    /** Through the `handled`-guarded paths (timeout, plain end, error) each call
        submits at most once; only the manual-stop path is unguarded. */
    lemma GuardedAtMostOnce(k: nat)
      requires Valid() && k < |handled|
      ensures guardedDeliveries[k] <= 1
      ensures guardedDeliveries[k] == 1 <==> handled[k]
    {
    }
  }

  /** A manual stop followed by the end event submits the answer, and the same call's
      timeout still fires later and submits the timeout error: one spoken answer moves
      the test two questions on. */
  method StopThenTimeoutSkipsAQuestion() returns (answers: seq<string>, index: int)
    ensures answers == ["Paris", "Error: Timeout / no speech detected."]
    ensures index == 2
  {
    var app := new LegacyExamApp(true);
    app.StartTest();
    app.StartListening();
    SpokenParis();
    app.OnResult(["Paris "]);
    app.StopAndSubmit();
    app.OnEnd();
    app.OnTimeout(0);
    answers, index := app.answers, app.questionIndex;
  }

  /** The transcript of one result "Paris " is shown trimmed as "Paris". */
  lemma SpokenParis()
    ensures SpeechHook.Concat(["Paris "]) == "Paris "
    ensures Trim("Paris ") == "Paris"
  {
    assert SpeechHook.Concat(["Paris "]) == SpeechHook.Concat([]) + "Paris ";
    assert ' ' in JsWhitespace && 'P' !in JsWhitespace && 's' !in JsWhitespace;
    assert DropLeading("Paris ", JsWhitespace) == "Paris ";
    assert "Paris "[..5] == "Paris";
    assert DropTrailing("Paris", JsWhitespace) == "Paris";
    assert DropTrailing("Paris ", JsWhitespace) == "Paris";
  }

  /** From the instructions screen, Start is enabled after exactly ten ticks. */
  method CountdownEnablesStartAfterTen() returns (afterNine: bool, afterTen: bool, shown: int)
    ensures !afterNine && afterTen && shown == 0
  {
    var app := new LegacyExamApp(true);
    app.EnterInstructions();
    app.RunCountdown(9);
    afterNine := app.startEnabled;
    app.Tick();
    afterTen, shown := app.startEnabled, app.timer;
  }
}
