/** The proctoring hook (src/hooks/useProctoring.js): an append-only incident log, a
    snapshot log, and a per-type alert cooldown kept in `lastAlertRef`. */
module Proctoring {
  import opened Common

  /** What callers pass along with an incident (`{ ts, message }`, both optional). */
  datatype Payload = Payload(ts: Option<int>, message: Option<string>)

  /** One entry of `incidents`: `{ type, questionContext, ...payload }`. */
  datatype Incident = Incident(kind: string, questionContext: string, ts: Option<int>, message: Option<string>)

  /** The JSON body sent to `/save_incident`. */
  datatype IncidentRecord = IncidentRecord(studentId: string, incidentType: string, details: string, questionContext: string)

  /** One entry of `shots`: `{ ts, faces }` (`faces` is null when detection failed). */
  datatype Shot = Shot(ts: int, faces: Option<int>)

  /** Milliseconds that must pass between two alerts of one incident type. */
  const AlertCooldownMs: int := 5000

  /** The hook's `warnings` table. */
  function HookWarningText(kind: string): Option<string> {
    if kind == "no_face" then Some("No face detected. Position yourself in view.")
    else if kind == "multiple_faces" then Some("Only the registered student should be visible.")
    else if kind == "gaze_away" then Some("Keep your gaze on the screen.")
    else if kind == "unknown_person" then Some("Unrecognized person detected.")
    else if kind == "tab_hidden" then Some("Do not switch tabs during the exam.")
    else if kind == "window_blur" then Some("Return focus to the exam window.")
    else None
  }

  /** `lastAlertRef.current[type] || 0`. */
  function LastAlert(lastAlert: map<string, int>, kind: string): int {
    if kind in lastAlert then lastAlert[kind] else 0
  }

  /** The alert text shown for an incident of `kind` at time `now`, given a warnings
      table: none while the type's cooldown runs, none for types missing from the table,
      and never one for `window_blur` or `window_focus`. */
  function AlertFor(table: string -> Option<string>, kind: string, now: int, lastAlert: map<string, int>): (r: Option<string>)
    ensures r.Some? <==>
      now - LastAlert(lastAlert, kind) >= AlertCooldownMs && table(kind).Some?
      && kind != "window_blur" && kind != "window_focus"
    ensures r.Some? ==> r == table(kind)
  {
    if now - LastAlert(lastAlert, kind) < AlertCooldownMs then None
    else if table(kind).Some? && kind != "window_blur" && kind != "window_focus" then table(kind)
    else None
  }

  /** `lastAlertRef` after an incident: stamped with `now` only when an alert was shown. */
  function AfterAlert(lastAlert: map<string, int>, kind: string, now: int, shown: bool): map<string, int> {
    if shown then lastAlert[kind := now] else lastAlert
  }

  /** After an alert of `kind` at `t`, no alert of `kind` is shown before `t + 5000`,
      whatever happens to other types in between. */
  lemma CooldownSuppresses(table: string -> Option<string>, kind: string, t: int, later: int, lastAlert: map<string, int>)
    requires t <= later < t + AlertCooldownMs
    requires kind in lastAlert && lastAlert[kind] == t
    ensures AlertFor(table, kind, later, lastAlert) == None
  {
  }

  /** Stamping one type leaves the alert decision of every other type unchanged. */
  lemma CooldownPerType(table: string -> Option<string>, kind: string, other: string, now: int, later: int, lastAlert: map<string, int>)
    requires other != kind
    ensures AlertFor(table, other, later, AfterAlert(lastAlert, kind, now, true))
         == AlertFor(table, other, later, lastAlert)
  {
  }

  /** The request body `registerIncident` hands to `/save_incident`. */
  function PersistedRecord(studentId: string, kind: string, payload: Payload, questionContext: string): (r: IncidentRecord)
    ensures r.studentId == studentId && r.incidentType == kind && r.questionContext == questionContext
    ensures r.details == (if Truthy(payload.message) then payload.message.value else "")
  {
    IncidentRecord(studentId, kind, OrElse(payload.message, ""), OrElse(Some(questionContext), ""))
  }

  class ProctoringLog {
    const studentId: string
    var incidents: seq<Incident>
    var shots: seq<Shot>
    var lastAlert: map<string, int>

    constructor (studentId: string)
      ensures this.studentId == studentId && incidents == [] && shots == [] && lastAlert == map[]
    {
      this.studentId := studentId;
      incidents, shots, lastAlert := [], [], map[];
    }

    /** `registerIncident`: appends exactly one entry and returns the record it persists. */
    method RegisterIncident(kind: string, payload: Payload, questionContext: string) returns (record: IncidentRecord)
      modifies this`incidents
      ensures incidents == old(incidents) + [Incident(kind, questionContext, payload.ts, payload.message)]
      ensures record == PersistedRecord(studentId, kind, payload, questionContext)
    {
      incidents := incidents + [Incident(kind, questionContext, payload.ts, payload.message)];
      record := PersistedRecord(studentId, kind, payload, questionContext);
    }

    /** `handleIncident`: always registers the incident (with an empty question
        context), then shows an alert when the table has the type and its cooldown
        has run out, stamping that type's last alert time. */
    method HandleIncident(kind: string, payload: Payload, now: int) returns (record: IncidentRecord, alert: Option<Warning>)
      modifies this`incidents, this`lastAlert
      ensures incidents == old(incidents) + [Incident(kind, "", payload.ts, payload.message)]
      ensures record == PersistedRecord(studentId, kind, payload, "")
      ensures var text := AlertFor(HookWarningText, kind, now, old(lastAlert));
        alert == (if text.Some? then Some(Warning("Proctoring Alert", text.value)) else None)
      ensures lastAlert == AfterAlert(old(lastAlert), kind, now, alert.Some?)
    {
      record := RegisterIncident(kind, payload, "");
      var text := AlertFor(HookWarningText, kind, now, lastAlert);
      if text.Some? {
        lastAlert := lastAlert[kind := now];
        alert := Some(Warning("Proctoring Alert", text.value));
      } else {
        alert := None;
      }
    }

    /** `handleSnapshot`: appends exactly `{ ts, faces }`. */
    method HandleSnapshot(ts: int, faces: Option<int>)
      modifies this`shots
      ensures shots == old(shots) + [Shot(ts, faces)]
    {
      shots := shots + [Shot(ts, faces)];
    }

    /** `resetProctoring`: empties both logs and keeps the alert timestamps. */
    method ResetProctoring()
      modifies this`incidents, this`shots
      ensures incidents == [] && shots == []
    {
      incidents, shots := [], [];
    }
  }

  /** Two incidents of one type 1 s apart: both are logged, only the first alerts. */
  method RepeatedIncidentIsLoggedButNotRealerted() returns (first: Option<Warning>, second: Option<Warning>, logged: nat)
    ensures first == Some(Warning("Proctoring Alert", "No face detected. Position yourself in view."))
    ensures second == None
    ensures logged == 2
  {
    var log := new ProctoringLog("s1");
    var _, a := log.HandleIncident("no_face", Payload(Some(10000), None), 10000);
    var _, b := log.HandleIncident("no_face", Payload(Some(11000), None), 11000);
    first, second, logged := a, b, |log.incidents|;
  }
}
