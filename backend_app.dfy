/** Helpers of the back-end service (backend/app.py): the face-label registry kept as
    two dictionaries, file-name sanitisation, the incident-CSV normalisation of
    `/save_incidents`, the answer-script file name of `/save_answer`, and the
    face-count and match decisions of `/detect`, `/train_face` and `/verify_face`.
    Face detection and recognition themselves are inputs (a face count, a predicted
    label and its confidence). */
module BackendApp {
  import opened Common

  // ------------------------------------------------------------ face labels

  /** A non-empty set has a member. */
  lemma HasMember(s: set<int>)
    requires s != {}
    ensures exists x :: x in s
  {
    if forall x :: x !in s {
      assert false;
    }
  }

  /** The largest label in use, or -1 when there is none
      (`max(keys, default=-1)`). */
  method MaxLabel(labels: set<int>) returns (m: int)
    ensures labels == {} ==> m == -1
    ensures labels != {} ==> m in labels && forall l :: l in labels ==> l <= m
  {
    m := -1;
    var seen: set<int> := {};
    var rest := labels;
    while rest != {}
      invariant seen + rest == labels && seen * rest == {}
      invariant seen == {} ==> m == -1
      invariant seen != {} ==> m in seen && forall l :: l in seen ==> l <= m
      decreases |rest|
    {
      HasMember(rest);
      var x :| x in rest;
      if seen == {} || x > m {
        m := x;
      }
      seen := seen + {x};
      rest := rest - {x};
    }
  }

  /** `label_mapping`: labels to students and students to labels. */
  class LabelRegistry {
    var labelToStudent: map<int, string>
    var studentToLabel: map<string, int>

    /** The two dictionaries are mutual inverses. */
    ghost predicate Valid()
      reads this
    {
      && (forall l :: l in labelToStudent ==> labelToStudent[l] in studentToLabel && studentToLabel[labelToStudent[l]] == l)
      && (forall s :: s in studentToLabel ==> studentToLabel[s] in labelToStudent && labelToStudent[studentToLabel[s]] == s)
    }

    /** The dictionaries as loaded from the labels file (or empty). */
    constructor (labelToStudent: map<int, string>, studentToLabel: map<string, int>)
      ensures this.labelToStudent == labelToStudent && this.studentToLabel == studentToLabel
    {
      this.labelToStudent := labelToStudent;
      this.studentToLabel := studentToLabel;
    }

    /** `_get_or_create_label`. A known student keeps its label and nothing changes.
        A new student gets one more than the largest label (0 for the first) and is
        entered in both dictionaries, which stay mutual inverses. */
    method GetOrCreateLabel(student: string) returns (lbl: int)
      modifies this
      ensures old(student in studentToLabel) ==>
        lbl == old(studentToLabel[student])
        && labelToStudent == old(labelToStudent) && studentToLabel == old(studentToLabel)
      ensures old(student !in studentToLabel) ==>
        && lbl !in old(labelToStudent)
        && (forall l :: l in old(labelToStudent) ==> l < lbl)
        && (old(labelToStudent) == map[] ==> lbl == 0)
        && (old(labelToStudent) != map[] ==> lbl - 1 in old(labelToStudent))
        && labelToStudent == old(labelToStudent)[lbl := student]
        && studentToLabel == old(studentToLabel)[student := lbl]
      ensures old(Valid()) ==> Valid()
    {
      if student in studentToLabel {
        return studentToLabel[student];
      }
      var top := MaxLabel(labelToStudent.Keys);
      lbl := top + 1;
      labelToStudent := labelToStudent[lbl := student];
      studentToLabel := studentToLabel[student := lbl];
    }
  }

  /** Three registrations: labels are handed out 0, 1, ... and a repeated student gets
      its label back. */
  method RegisterTwoStudents() returns (a: int, b: int, again: int)
    ensures a == 0 && b == 1 && again == 0
  {
    var registry := new LabelRegistry(map[], map[]);
    a := registry.GetOrCreateLabel("s1");
    b := registry.GetOrCreateLabel("s2");
    again := registry.GetOrCreateLabel("s1");
  }

  // -------------------------------------------------------- file-name safety

  /** Characters kept as they are: ASCII letters and digits, '-' and '_'. */
  predicate SafeChar(ch: char) {
    IsAlnum(ch) || ch == '-' || ch == '_'
  }

  const Separators: set<char> := {'-', '_'}

  /** A segment already in sanitised form: non-empty, safe characters only, no
      separator at either end. */
  predicate CleanSegment(s: string) {
    s != [] && (forall i :: 0 <= i < |s| ==> SafeChar(s[i])) && s[0] !in Separators && s[|s| - 1] !in Separators
  }

  /** Every unsafe character becomes '-'. */
  function SafeMap(text: string): (r: string)
    ensures |r| == |text|
    ensures forall i :: 0 <= i < |text| ==> r[i] == (if SafeChar(text[i]) then text[i] else '-')
  {
    seq(|text|, i requires 0 <= i < |text| => if SafeChar(text[i]) then text[i] else '-')
  }

  /** `_sanitize_filename_segment(value, fallback)`; `None` stands for a missing value. */
  function SanitizeSegment(value: Option<string>, fallback: string): string {
    var text := PyStrip(OrElse(value, ""));
    if text == "" then fallback
    else
      var safe := Strip(SafeMap(text), Separators);
      if safe == "" then fallback else safe
  }

  /** Blank input gives the fallback; anything else is the fallback or a clean
      segment. */
  lemma SanitizeSegmentSafe(value: Option<string>, fallback: string)
    ensures PyStrip(OrElse(value, "")) == "" ==> SanitizeSegment(value, fallback) == fallback
    ensures SanitizeSegment(value, fallback) == fallback || CleanSegment(SanitizeSegment(value, fallback))
  {
    var text := PyStrip(OrElse(value, ""));
    if text != "" {
      var m := SafeMap(text);
      StripSlice(m, Separators);
      var r := Strip(m, Separators);
      var a := |m| - |DropLeading(m, Separators)|;
      forall i | 0 <= i < |r| ensures SafeChar(r[i]) {
        assert r[i] == m[a + i];
      }
    }
  }

  /** Sanitising is idempotent when the fallback is itself clean. */
  lemma SanitizeSegmentIdempotent(value: Option<string>, fallback: string)
    requires CleanSegment(fallback)
    ensures SanitizeSegment(Some(SanitizeSegment(value, fallback)), fallback) == SanitizeSegment(value, fallback)
  {
    var r := SanitizeSegment(value, fallback);
    SanitizeSegmentSafe(value, fallback);
    assert CleanSegment(r);
    CleanIsFixed(r);
  }

  /** A clean segment passes through unchanged. */
  lemma CleanIsFixed(s: string)
    requires CleanSegment(s)
    ensures SanitizeSegment(Some(s), "") == s
    ensures forall fb :: SanitizeSegment(Some(s), fb) == s
  {
    assert s[0] !in PyWhitespace && s[|s| - 1] !in PyWhitespace;
    StripUnchanged(s, PyWhitespace);
    assert SafeMap(s) == s;
    StripUnchanged(s, Separators);
  }

  // ------------------------------------------------------------- incidents

  const IncidentMarker: string := "PROCTORING INCIDENTS"

  /** `text.replace('﻿', '')`. */
  function RemoveByteOrderMarks(s: string): (r: string)
    ensures '﻿' !in r
    ensures |r| <= |s|
    ensures '﻿' !in s ==> r == s
  {
    if s == [] then []
    else (if s[0] == '﻿' then [] else [s[0]]) + RemoveByteOrderMarks(s[1..])
  }

  /** Removing the marks works piecewise: every other character is kept, in order. */
  lemma {:induction false} RemoveByteOrderMarksAppend(a: string, b: string)
    ensures RemoveByteOrderMarks(a + b) == RemoveByteOrderMarks(a) + RemoveByteOrderMarks(b)
  {
    if a == [] {
      assert a + b == b;
    } else {
      var t := a[1..];
      assert (a + b)[0] == a[0] && (a + b)[1..] == t + b;
      RemoveByteOrderMarksAppend(t, b);
      if a[0] != '﻿' {
        assert [a[0]] + (RemoveByteOrderMarks(t) + RemoveByteOrderMarks(b))
            == ([a[0]] + RemoveByteOrderMarks(t)) + RemoveByteOrderMarks(b);
      }
    }
  }

  /** The text from the first marker on, or all of it when there is no marker. */
  function IncidentSlice(normalized: string): string {
    match IndexOf(normalized, IncidentMarker)
    case None => normalized
    case Some(i) => normalized[i..]
  }

  /** `_extract_incident_section`: without byte-order marks, from the first marker on
      when there is one, stripped of surrounding whitespace. */
  function ExtractIncidentSection(csv: string): string {
    if csv == [] then "" else PyStrip(IncidentSlice(RemoveByteOrderMarks(csv)))
  }

  /** A slice found by the marker search starts with the marker. */
  lemma IncidentSliceStartsWithMarker(normalized: string)
    requires Contains(normalized, IncidentMarker)
    ensures StartsWith(IncidentSlice(normalized), IncidentMarker)
  {
    var i := IndexOf(normalized, IncidentMarker).value;
    assert normalized[i..][..|IncidentMarker|] == normalized[i..i + |IncidentMarker|];
  }

  /** Stripping only removes characters. */
  lemma TrimKeepsOnlyItsChars(t: string)
    ensures forall c :: c in PyStrip(t) ==> c in t
  {
    StripSlice(t, PyWhitespace);
    var r := PyStrip(t);
    var a := |t| - |DropLeading(t, PyWhitespace)|;
    forall k | 0 <= k < |r| ensures r[k] in t {
      assert r[k] == t[a + k];
    }
  }

  /** A stripped text that starts with the marker keeps the marker at its front. */
  lemma StripKeepsMarker(s: string)
    requires StartsWith(s, IncidentMarker)
    ensures StartsWith(PyStrip(s), IncidentMarker)
  {
    assert s[0] == 'P' && s[|IncidentMarker| - 1] == 'S';
    DropLeadingSpec(s, PyWhitespace);
    assert DropLeading(s, PyWhitespace) == s;
    StripSlice(s, PyWhitespace);
    var r := PyStrip(s);
    assert r[..|IncidentMarker|] == s[..|IncidentMarker|];
  }

  /** The extracted section holds no byte-order mark, starts with the marker when the
      text has one, and has no surrounding whitespace. */
  lemma ExtractIncidentSectionShape(csv: string)
    ensures csv == [] ==> ExtractIncidentSection(csv) == ""
    ensures '﻿' !in ExtractIncidentSection(csv)
    ensures Contains(RemoveByteOrderMarks(csv), IncidentMarker) && csv != [] ==>
      StartsWith(ExtractIncidentSection(csv), IncidentMarker)
    ensures var r := ExtractIncidentSection(csv); r == [] || (r[0] !in PyWhitespace && r[|r| - 1] !in PyWhitespace)
  {
    if csv != [] {
      var normalized := RemoveByteOrderMarks(csv);
      var t := IncidentSlice(normalized);
      StripSlice(t, PyWhitespace);
      TrimKeepsOnlyItsChars(t);
      assert forall c :: c in t ==> c in normalized;
      if Contains(normalized, IncidentMarker) {
        IncidentSliceStartsWithMarker(normalized);
        StripKeepsMarker(t);
      }
    }
  }

  /** The header written when the upload holds no incident section. */
  const DefaultIncidentText: string := "PROCTORING INCIDENTS\nStudent ID,Incident Type,Timestamp (IST),Details\n"

  /** What `/save_incidents` answers: a rejection, or the text it writes. */
  datatype SaveOutcome = Rejected(message: string) | Saved(content: string)

  /** `/save_incidents`, without the file path (it holds the current time). */
  function SaveIncidents(studentId: string, text: string): SaveOutcome {
    if studentId == "" then Rejected("Student ID required")
    else
      var section := ExtractIncidentSection(text);
      var content := if PyStrip(section) == "" then DefaultIncidentText else section;
      Saved(if EndsWith(content, "\n") then content else content + "\n")
  }

  /** The saved text always ends with a newline: the default header for a blank
      section, and otherwise the section followed by exactly one newline. */
  lemma SaveIncidentsShape(studentId: string, text: string)
    ensures studentId == "" <==> SaveIncidents(studentId, text).Rejected?
    ensures SaveIncidents(studentId, text).Saved? ==> EndsWith(SaveIncidents(studentId, text).content, "\n")
    ensures studentId != "" && PyStrip(ExtractIncidentSection(text)) == "" ==>
      SaveIncidents(studentId, text) == Saved(DefaultIncidentText)
    ensures studentId != "" && PyStrip(ExtractIncidentSection(text)) != "" ==>
      SaveIncidents(studentId, text) == Saved(ExtractIncidentSection(text) + "\n")
  {
    var section := ExtractIncidentSection(text);
    ExtractIncidentSectionShape(text);
    assert DefaultIncidentText[|DefaultIncidentText| - 1] == '\n';
    if section != [] {
      assert section[|section| - 1] != '\n';
    }
  }

  // ------------------------------------------------------- answer scripts

  /** The part of an `/save_answer` request the file name depends on. */
  datatype AnswerRequest = AnswerRequest(studentId: Option<string>, attemptId: Option<string>,
                                         sectionId: Option<string>, sectionTitle: Option<string>)

  /** `section_id or section_title or "section"`. */
  function SectionHint(req: AnswerRequest): string {
    if Truthy(req.sectionId) then req.sectionId.value
    else if Truthy(req.sectionTitle) then req.sectionTitle.value
    else "section"
  }

  /** The attempt segment: a leading `{student}_` is dropped (with any separators
      after it) unless nothing would be left. */
  function AttemptSegment(safeAttempt: string, safeStudent: string): string {
    var prefix := safeStudent + "_";
    if StartsWith(safeAttempt, prefix) then
      var trimmed := Strip(safeAttempt[|prefix|..], Separators);
      if trimmed == "" then safeAttempt else trimmed
    else safeAttempt
  }

  /** The answer-script file name of `/save_answer`, or `None` when the student id is
      blank. `stamp` is the current UTC time as `%Y%m%d-%H%M%S`, the fallback attempt. */
  function AnswerFilename(req: AnswerRequest, stamp: string): Option<string> {
    var student := PyStrip(OrElse(req.studentId, ""));
    if student == "" then None
    else
      var safeAttempt := SanitizeSegment(Some(OrElse(req.attemptId, stamp)), stamp);
      var safeStudent := SanitizeSegment(Some(student), "student");
      var safeSection := SanitizeSegment(Some(SectionHint(req)), "section");
      Some(safeStudent + "_" + safeSection + "_" + AttemptSegment(safeAttempt, safeStudent) + ".csv")
  }

  predicate FileNameChar(ch: char) {
    SafeChar(ch) || ch == '.'
  }

  lemma CleanLiterals()
    ensures CleanSegment("student") && CleanSegment("section")
  {
  }

  /** With a clean time stamp, the file name is `{student}_{section}_{attempt}.csv`
      built from clean segments, so it holds only letters, digits, '-', '_' and the
      final '.'; a blank student id gives no file. */
  lemma AnswerFilenameSafe(req: AnswerRequest, stamp: string)
    requires CleanSegment(stamp)
    ensures PyStrip(OrElse(req.studentId, "")) == "" <==> AnswerFilename(req, stamp).None?
    ensures AnswerFilename(req, stamp).Some? ==>
      var f := AnswerFilename(req, stamp).value;
      && EndsWith(f, ".csv")
      && StartsWith(f, SanitizeSegment(Some(PyStrip(OrElse(req.studentId, ""))), "student") + "_")
      && forall i :: 0 <= i < |f| ==> FileNameChar(f[i])
  {
    var student := PyStrip(OrElse(req.studentId, ""));
    if student != "" {
      CleanLiterals();
      var safeAttempt := SanitizeSegment(Some(OrElse(req.attemptId, stamp)), stamp);
      var safeStudent := SanitizeSegment(Some(student), "student");
      var safeSection := SanitizeSegment(Some(SectionHint(req)), "section");
      SanitizeSegmentSafe(Some(OrElse(req.attemptId, stamp)), stamp);
      SanitizeSegmentSafe(Some(student), "student");
      SanitizeSegmentSafe(Some(SectionHint(req)), "section");
      AttemptSegmentSafe(safeAttempt, safeStudent);
      FileNameFromCleanSegments(safeStudent, safeSection, AttemptSegment(safeAttempt, safeStudent));
    }
  }

  /** `{a}_{b}_{c}.csv` over clean segments holds only file-name characters. */
  lemma FileNameFromCleanSegments(a: string, b: string, c: string)
    requires CleanSegment(a) && CleanSegment(b) && CleanSegment(c)
    ensures var f := a + "_" + b + "_" + c + ".csv";
      && EndsWith(f, ".csv")
      && StartsWith(f, a + "_")
      && forall i :: 0 <= i < |f| ==> FileNameChar(f[i])
  {
    var f := a + "_" + b + "_" + c + ".csv";
    forall i | 0 <= i < |f| ensures FileNameChar(f[i]) {
      if i < |a| {
        assert f[i] == a[i];
      } else if i == |a| {
      } else if i < |a| + 1 + |b| {
        assert f[i] == b[i - |a| - 1];
      } else if i == |a| + 1 + |b| {
      } else if i < |a| + 2 + |b| + |c| {
        assert f[i] == c[i - |a| - 2 - |b|];
      }
    }
    assert f[|f| - 4..] == ".csv";
    assert f[..|a| + 1] == a + "_";
  }

  /** The attempt segment of a clean attempt is clean. */
  lemma AttemptSegmentSafe(safeAttempt: string, safeStudent: string)
    requires CleanSegment(safeAttempt)
    ensures CleanSegment(AttemptSegment(safeAttempt, safeStudent))
  {
    var prefix := safeStudent + "_";
    if StartsWith(safeAttempt, prefix) {
      var rest := safeAttempt[|prefix|..];
      StripSlice(rest, Separators);
      var t := Strip(rest, Separators);
      var a := |rest| - |DropLeading(rest, Separators)|;
      forall i | 0 <= i < |t| ensures SafeChar(t[i]) {
        assert t[i] == rest[a + i] == safeAttempt[|prefix| + a + i];
      }
    }
  }

  // ------------------------------------------------------------ face checks

  /** The `/detect` flag for a face count. */
  function FaceFlag(faces: nat): (flag: Option<string>)
    ensures flag.None? <==> faces == 1
    ensures flag == Some("no_face") <==> faces == 0
    ensures flag == Some("multiple_faces") <==> faces > 1
  {
    if faces == 0 then Some("no_face")
    else if faces > 1 then Some("multiple_faces")
    else None
  }

  /** The checks `/train_face` makes before storing a sample: a trimmed, non-empty
      student id first, then exactly one face. */
  function TrainFaceCheck(studentId: string, faces: nat): (r: SaveOutcome)
    ensures r.Saved? <==> PyStrip(studentId) != "" && faces == 1
    ensures r.Saved? ==> r.content == PyStrip(studentId)
    ensures PyStrip(studentId) == "" ==> r == Rejected("Student ID required")
  {
    var id := PyStrip(studentId);
    if id == "" then Rejected("Student ID required")
    else if faces == 0 then Rejected("No face detected")
    else if faces > 1 then Rejected("Multiple faces detected")
    else Saved(id)
  }

  /** The early exits of `/verify_face`, before any prediction: an untrained
      recogniser, then no face, then several faces. */
  function VerifyFaceRejection(trained: bool, faces: nat): (r: Option<string>)
    ensures r.None? <==> trained && faces == 1
    ensures !trained ==> r == Some("Face recognizer is not trained yet")
    ensures trained && faces != 1 ==> r == Some(if faces == 0 then "No face detected" else "Multiple faces detected")
  {
    if !trained then Some("Face recognizer is not trained yet")
    else if faces == 0 then Some("No face detected")
    else if faces > 1 then Some("Multiple faces detected")
    else None
  }

  /** The LBPH distance at or below which a prediction counts as a match. */
  const ConfidenceThreshold: real := 60.0

  /** The match rule of `/verify_face`: the predicted label must belong to a student
      and its (rounded) confidence be within the threshold; when an id is provided,
      the predicted student must also be that id. */
  function VerifyMatch(labelToStudent: map<int, string>, lbl: int, confidence: real, providedId: string): bool {
    var predicted := if lbl in labelToStudent then Some(labelToStudent[lbl]) else None;
    var matched := predicted.Some? && confidence <= ConfidenceThreshold;
    var provided := PyStrip(providedId);
    if provided != "" then matched && predicted == Some(provided) else matched
  }

  /** Both directions of the match rule. */
  lemma VerifyMatchIff(labelToStudent: map<int, string>, lbl: int, confidence: real, providedId: string)
    ensures VerifyMatch(labelToStudent, lbl, confidence, providedId) <==>
      && lbl in labelToStudent
      && confidence <= ConfidenceThreshold
      && (PyStrip(providedId) != "" ==> labelToStudent[lbl] == PyStrip(providedId))
  {
  }
}
