# Entrance exam: verified model of the session controllers and back-end helpers

This project models the deterministic core of an online entrance-exam system. It has two halves.

**The browser client.** These are React hooks and components that drive one exam sitting:
- the speech-answer capture state machine (`useSpeechRecognition`, plus the older inline copy in `App.jsx`);
- the proctoring incident log with its per-type alert cooldown (`useProctoring`);
- the fullscreen strike counter (`useFullscreen`);
- the section and subject navigation derivations (`useExamData`);
- the subject lock rule (`SubjectTabs`);
- the `m:ss` timer text and fullscreen badge (`ExamHeader`);
- the API and WebSocket base derivation (`config.js`).

**The Python back-end.** This covers:
- rule-based grading and its AI fallback (`grading/grader.py`);
- question-bank lookups (`grading/rubric_loader.py`);
- the helpers of `app.py`: the face-label registry, file-name sanitisation, incident-CSV normalisation, the answer-script file name, and the face-count and match decisions.

Modelling follows the shape of the code. Wherever the source keeps mutable state, the model uses a Dafny `class`:
- `useRef` and `useState` slots and closure flags in the client;
- the global `label_mapping` dictionaries in the back-end.

Each event handler or endpoint step is a `method` whose postcondition states the complete new state. Ghost fields count the answer deliveries of the speech machines. Expression-style code becomes functions with lemmas. Loops in the source become methods with loop invariants, each proved equal to a specification function. Examples are the transcript concatenation, the reference carry-forward, the keyword grader and the backward previous-question search.

Outside inputs are parameters:
- browser APIs (speech recognition availability, fullscreen state, the fetch of `students.csv`);
- the clock;
- URL parsing;
- file existence;
- the LLM reply;
- face detection and recognition.

Delivery guarantees of the two speech machines, as proved:
- **Hook version.** `SpeechHook.SpeechCapture.AtMostOneDeliveryWithoutFatalError` shows that each listening session delivers at most one answer unless a fatal recognition error occurred. In that case it delivers at most two. The two-delivery case is real: `onerror` sets `handled` but not `answeredRef`, so a later manual stop and `onend` deliver again (`SpeechHook.FatalErrorThenStopDeliversTwice`).
- **Inline `App.jsx` version.** Only the `handled`-guarded deliveries are at most one (`LegacyApp.LegacyExamApp.GuardedAtMostOnce`). The manual-stop branch of `onend` neither sets `handled` nor clears the 120 s timer. So stop, end and timeout deliver two answers and move the question index forward by two (`LegacyApp.StopThenTimeoutSkipsAQuestion`).

## Model

| member | source | states |
|---|---|---|
| SpeechHook.JoinTranscripts | src/hooks/useSpeechRecognition.js:80-87 | the loop over result transcripts yields exactly their concatenation, rebuilt from scratch |
| SpeechHook.ConcatAppend | src/hooks/useSpeechRecognition.js:81-84 | concatenating two batches of results is the concatenation of each batch |
| SpeechHook.ConcatSplitsAt | src/hooks/useSpeechRecognition.js:81-84 | every result's transcript appears in the full text, between the text before and after it |
| SpeechHook.DeliveryBound | src/hooks/useSpeechRecognition.js:64-119 | under the closure-flag accounting a session delivers at most once without a fatal error, at most twice with one, and twice only when both flags are set |
| SpeechHook.SpeechCapture.constructor | src/hooks/useSpeechRecognition.js:5-17 | status unset, empty transcript and captured text, no recogniser, not listening, no sessions |
| SpeechHook.SpeechCapture.StartListening | src/hooks/useSpeechRecognition.js:19-68 | without a recogniser class: one empty answer, status idle, the unsupported-browser warning, nothing else changed; otherwise a fresh session with both flags false, listening, stop cleared, captured and transcript empty, status listening, the previous recogniser aborted exactly when one was listening |
| SpeechHook.SpeechCapture.OnResult | src/hooks/useSpeechRecognition.js:80-87 | captured text replaced by the concatenation of all results, transcript by its trimmed form |
| SpeechHook.SpeechCapture.OnTimeout | src/hooks/useSpeechRecognition.js:69-78 | delivers the captured text only if the timer is armed and neither `handled` nor `answered` is set, then sets both and status idle; otherwise nothing is delivered |
| SpeechHook.SpeechCapture.OnEnd | src/hooks/useSpeechRecognition.js:91-107 | not listening afterwards; nothing if answered; after a stop the trimmed text with `answered` set; otherwise the untrimmed text once, guarded by `handled`, with the timer cleared and status idle |
| SpeechHook.SpeechCapture.OnError | src/hooks/useSpeechRecognition.js:109-119 | `aborted` and `no-speech` are ignored; any other error, if not handled, sets `handled` (not `answered`), clears the timer, sets status error and delivers "" |
| SpeechHook.SpeechCapture.StopAndSubmit | src/hooks/useSpeechRecognition.js:135-178 | without a recogniser nothing changes; otherwise the stop is requested and status is evaluating; the speaking-section recording is finished exactly when it was active |
| SpeechHook.SpeechCapture.Cleanup | src/hooks/useSpeechRecognition.js:180-187 | with a recogniser, listening is cleared; without one nothing changes |
| SpeechHook.SpeechCapture.AtMostOneDeliveryWithoutFatalError | src/hooks/useSpeechRecognition.js:64-119 | in every reachable state a session has delivered at most once unless a fatal error delivered, and never more than twice |
| SpeechHook.StopThenEndThenTimeout | src/hooks/useSpeechRecognition.js:69-99 | after stop and end deliver "Paris", the late timeout delivers nothing (the `answered` flag guards it) |
| SpeechHook.FatalErrorThenStopDeliversTwice | src/hooks/useSpeechRecognition.js:94-119 | a fatal error delivers "" and a later stop plus end delivers again |
| Proctoring.AlertFor | src/hooks/useProctoring.js:42-58 | an alert is shown iff the type has warning text, is not `window_blur`/`window_focus`, and at least 5000 ms passed since that type's last alert (missing counts as 0); the text is the table's |
| Proctoring.CooldownSuppresses | src/hooks/useProctoring.js:42-44 | within 5000 ms of a type's alert, no alert of that type is shown |
| Proctoring.CooldownPerType | src/hooks/useProctoring.js:43-56 | recording one type's alert leaves every other type's alert decision unchanged |
| Proctoring.PersistedRecord | src/hooks/useProctoring.js:9-32 | the stored record has details = message or "", and the given type, student and question context |
| Proctoring.ProctoringLog.constructor | src/hooks/useProctoring.js:4-7 | no incidents, no shots, no alert times |
| Proctoring.ProctoringLog.RegisterIncident | src/hooks/useProctoring.js:29-35 | exactly one incident appended at the end, earlier ones unchanged; the persisted record as above |
| Proctoring.ProctoringLog.HandleIncident | src/hooks/useProctoring.js:37-61 | always registers the incident; the alert ("Proctoring Alert", text) is shown as `AlertFor` decides and only then is the type's last-alert time set to now |
| Proctoring.ProctoringLog.HandleSnapshot | src/hooks/useProctoring.js:63-73 | exactly `{ts, faces}` appended to the shots |
| Proctoring.ProctoringLog.ResetProctoring | src/hooks/useProctoring.js:75-78 | incidents and shots emptied, alert times kept |
| Proctoring.RepeatedIncidentIsLoggedButNotRealerted | src/hooks/useProctoring.js:37-58 | a `no_face` twice within 5 s alerts once but logs twice |
| Fullscreen.ExitWarning | src/hooks/useFullscreen.js:64-74 | the warning is "Exam ended" exactly when the strike count reached 2 |
| Fullscreen.FullscreenGuard.constructor | src/hooks/useFullscreen.js:3-6 | zero strikes, not ending |
| Fullscreen.FullscreenGuard.SetEnding | src/hooks/useFullscreen.js:6 | the ending flag is set to the given value |
| Fullscreen.FullscreenGuard.EnterFullscreen | src/hooks/useFullscreen.js:8-39 | no API: nothing; already fullscreen or granted: counter reset to 0 only with `resetCount`; denied: warning, counter untouched, `fullscreen_denied` logged only with `logFailure` |
| Fullscreen.FullscreenGuard.HandleFullscreenExit | src/hooks/useFullscreen.js:51-79 | while ending or still fullscreen nothing changes; otherwise one strike and one `fullscreen_exit` incident "Exited fullscreen (n/2)"; at 2 strikes force submission, below it warn and re-request fullscreen |
| Fullscreen.TwoExitsForceSubmission | src/hooks/useFullscreen.js:51-76 | the first exit re-requests, the second forces submission, two incidents are logged |
| Fullscreen.EndingSilencesGuard | src/hooks/useFullscreen.js:53 | with the ending flag set an exit changes nothing |
| ExamData.EnglishExamFor | src/hooks/useExamData.js:8-16 | an exam set other than B or C selects set A |
| ExamData.Tagged | src/hooks/useExamData.js:19-26 | same length; each section kept with its subject replaced |
| ExamData.ExamSectionsOrder | src/hooks/useExamData.js:18-28 | the English sections, tagged english, come first and in order, followed by the maths sections tagged maths |
| ExamData.ReferenceAtIsLastCarried | src/hooks/useExamData.js:34-40 | entry i is null iff no question up to i has a reference id, else the id of the last one that has |
| ExamData.ReferenceColumn | src/hooks/useExamData.js:35-40 | one entry per question |
| ExamData.CarryReferences | src/hooks/useExamData.js:33-40 | the carry-forward loop produces exactly the reference column |
| ExamData.LastWinsStep | src/hooks/useExamData.js:32-41 | one `forEach` step that writes `f(section)` under the section's id keeps every id mapped to `f` of its last section |
| ExamData.SectionReferenceMatrix | src/hooks/useExamData.js:30-43 | keys are the section ids; each id's column is that of the last section with that id |
| ExamData.SubjectsKeysDistinct | src/hooks/useExamData.js:45-53 | the grouping's keys are exactly the subjects present (missing as `other`), each listed once |
| ExamData.SubjectsKeysFirstSeen | src/hooks/useExamData.js:45-53 | the keys are in first-seen order: every section of a later key comes after some section of each earlier key |
| ExamData.SubjectsGroupInOrder | src/hooks/useExamData.js:45-53 | each subject's group is the subsequence of sections of that subject, in order |
| ExamData.FindById | src/hooks/useExamData.js:104 | the first section with that id, or none when no section has it |
| ExamData.SectionPosition | src/hooks/useExamData.js:109-112 | the position is -1 or a valid index |
| ExamData.PositionOfActive | src/hooks/useExamData.js:102-112 | the active section is the one with the id, else the first; its position is -1 only for no sections |
| ExamData.CurrentQuestion | src/hooks/useExamData.js:114-121 | null when there is no active section or it has no questions; the question at the stored index (0 when unset) exactly when that index is in range, and nothing otherwise |
| ExamData.NextSectionUnlessLast | src/hooks/useExamData.js:123-133 | there is no next section iff the position is -1 or the last index; otherwise it is the section at position + 1 |
| ExamData.NearestEarlierNonEmpty | src/hooks/useExamData.js:143-147 | the found section lies before the position |
| ExamData.NearestEarlierNonEmptySpec | src/hooks/useExamData.js:143-148 | none iff every earlier section is empty; else the nearest earlier section with questions |
| ExamData.PreviousQuestionTarget | src/hooks/useExamData.js:135-155 | same section at index - 1 when the index is positive; else the last question of the nearest earlier non-empty section; else none |
| ExamData.BuildResetState | src/hooks/useExamData.js:157-169 | fails iff some section lacks its question list; else every index 0, directions false, audio and selections empty, results one null per question, active the first section |
| ExamData.ExamNavigation.constructor | src/hooks/useExamData.js:55-100 | the sections are the concatenation; subject english, nothing completed or locked; for every id: index 0, no audio played, directions unseen, no selections and an empty result list; active the first section |
| ExamData.ExamNavigation.ResetSectionState | src/hooks/useExamData.js:157-176 | the state becomes the reset state when every section has questions, else it is unchanged |
| SubjectTabs.OnClick | src/components/SubjectTabs.jsx:19-29 | the subject changes iff the tab is not locked, to that tab's key (also the active one) |
| SubjectTabs.LockRule | src/components/SubjectTabs.jsx:15 | maths is locked iff English is not completed; english iff English is locked; other keys never |
| SubjectTabs.LockedTabsWarn | src/components/SubjectTabs.jsx:20-26 | a locked english tab warns "English Locked"; a locked maths tab warns "Section locked" |
| ExamHeader.JsRem60 | src/components/ExamHeader.jsx:12 | JavaScript's truncating remainder: equal to the mathematical one for non-negative input |
| ExamHeader.PadStart2 | src/components/ExamHeader.jsx:12 | left-pads with '0' to at least two characters, keeping the text as a suffix |
| ExamHeader.SecondsField | src/components/ExamHeader.jsx:12 | a remainder below 60, padded, is exactly two digits whose value is the remainder |
| ExamHeader.FormatTimeRoundTrip | src/components/ExamHeader.jsx:10-14 | for a non-negative count the text starts with the unpadded minutes, is 3 characters longer, and is read back to the original seconds by `ParseTime`, a reference `m:ss` reader defined in the model as the partner of `formatTime` (the source has no parser) |
| ExamHeader.HourShowsSixtyMinutes | src/components/ExamHeader.jsx:10-14 | minutes are not wrapped at 60: 3600 s shows "60:00" |
| ExamHeader.FullscreenBadge | src/components/ExamHeader.jsx:27-31 | the badge shows iff the warning count is above 0 |
| Config.SanitizedBase | src/config.js:1-13 | no `wq` gives the default; an unparsable trimmed override gives the default; otherwise the parsed origin |
| Config.WsBaseScheme | src/config.js:16-18 | `https` becomes `wss`, other `http` becomes `ws`, a base without `http` is unchanged |
| Config.DefaultWsBase | src/config.js:1-18 | with no override the WebSocket base is `ws://localhost:8000` |
| LegacyApp.FindRow | src/App.jsx:355-358 | the first row whose first two comma fields equal the id and password, or none when no row does |
| LegacyApp.LoginMatchIff | src/App.jsx:354-358 | login succeeds iff some row after the header, of the trimmed text, matches the trimmed id and password |
| LegacyApp.LoginAcceptsListedStudent | src/App.jsx:354-358 | a file with a header line and the row `id,pass` accepts that id and password |
| LegacyApp.IncidentDetails | src/App.jsx:274-288 | the message when present, else a non-empty default for the five known types, else "" |
| LegacyApp.CsvHeaderIsOneLine | src/App.jsx:258 | the CSV header holds no newline |
| LegacyApp.IncidentsCsvLines | src/App.jsx:257-292 | split at newlines, the upload is the header followed by one row per incident, in order |
| LegacyApp.IncidentRowFields | src/App.jsx:290 | a row splits into the student id, the type, the time stamp and the quoted details |
| LegacyApp.LegacyExamApp.constructor | src/App.jsx:12-44 | login view, question 0, timer 60, Start disabled, no answers, incidents or shots |
| LegacyApp.LegacyExamApp.HandleIncident | src/App.jsx:46-69 | always appends the incident; alerts exactly as `AlertFor` decides with the App's table; records the alert time only when alerting |
| LegacyApp.LegacyExamApp.HandleSnapshot | src/App.jsx:70-73 | exactly `{ts, faces}` appended |
| LegacyApp.LegacyExamApp.SubmitLogin | src/App.jsx:349-367 | a failed fetch shows the database error; a match moves to the system check; otherwise the invalid-credentials error |
| LegacyApp.LegacyExamApp.EnterInstructions | src/App.jsx:96-100 | instructions view, timer 10, Start disabled, countdown running |
| LegacyApp.LegacyExamApp.Tick | src/App.jsx:101-111 | one tick decrements the timer; reaching 0 or below clamps to 0, enables Start and stops the countdown |
| LegacyApp.LegacyExamApp.RunCountdown | src/App.jsx:96-114 | after n ticks the timer is 10 - n, or 0 with Start enabled once n reaches 10 |
| LegacyApp.LegacyExamApp.ShowCurrentQuestion | src/App.jsx:84-94 | outside the test view nothing changes; past the last question the test finishes (status cleared, listening stopped, the upload when there are incidents); otherwise the question text is shown and the transcript reset, with status and listening unchanged |
| LegacyApp.LegacyExamApp.StartTest | src/App.jsx:112-125 | test view, incidents and shots emptied, question index 0, and the countdown interval cleared as the instructions view is left |
| LegacyApp.LegacyExamApp.FinishTest | src/App.jsx:237-254 | finish view, status cleared, recogniser stopped; the incident CSV is uploaded exactly when there are incidents |
| LegacyApp.LegacyExamApp.HandleAnswer | src/App.jsx:229-235 | status evaluating, the answer recorded, question index advanced by exactly 1 |
| LegacyApp.LegacyExamApp.StartListening | src/App.jsx:150-166 | without a recogniser: the answer "Error: API unsupported.", the index advanced and status evaluating (the error status is overwritten by `handleAnswer`), nothing else changed; otherwise a new unhandled session, capture and stop cleared, status listening |
| LegacyApp.LegacyExamApp.OnTimeout | src/App.jsx:167-174 | only an unhandled session delivers "Error: Timeout / no speech detected.", becomes handled and ends in status evaluating; a handled one changes nothing |
| LegacyApp.LegacyExamApp.OnResult | src/App.jsx:176-184 | captured text replaced by the concatenation of all results |
| LegacyApp.LegacyExamApp.OnEnd | src/App.jsx:188-202 | after a stop the trimmed text is delivered without setting `handled`; else an unhandled session becomes handled and delivers "Error: Could not recognize speech." once; a delivery ends in status evaluating, no delivery leaves status alone |
| LegacyApp.LegacyExamApp.OnError | src/App.jsx:204-211 | an unhandled session delivers "Error: code" once and ends in status evaluating; a handled one changes nothing; no code is ignored |
| LegacyApp.LegacyExamApp.StopAndSubmit | src/App.jsx:221-227 | with a recogniser the stop is requested and status is evaluating; otherwise nothing |
| LegacyApp.LegacyExamApp.GuardedAtMostOnce | src/App.jsx:167-211 | each session's `handled`-guarded deliveries, counted one by one, number at most one, and one exactly when it is handled |
| LegacyApp.StopThenTimeoutSkipsAQuestion | src/App.jsx:168-234 | stop, end and timeout deliver two answers for one question and advance the index by 2 |
| LegacyApp.CountdownEnablesStartAfterTen | src/App.jsx:98-110 | Start is still disabled after 9 ticks and enabled, showing 0, after 10 |
| Grader.Min | backend/grading/grader.py:56 | the minimum of the two values |
| Grader.GradeMcq | backend/grading/grader.py:15-21 | score 1 iff both options are non-empty and equal ignoring case, else 0 with the correct answer in the feedback; max marks always 1 |
| Grader.McqIgnoresCase | backend/grading/grader.py:16 | an option in lower case matches itself in upper case |
| Grader.McqSymmetric | backend/grading/grader.py:16 | swapping the two options does not change the score |
| Grader.AnyTermIn | backend/grading/grader.py:39-44 | true iff some non-empty term, lower-cased, occurs in the lower-cased answer |
| Grader.CountTermsIn | backend/grading/grader.py:47 | the supporting count is at most the number of terms |
| Grader.FeedbackParts | backend/grading/grader.py:41-53 | one feedback part per idea, in rubric order |
| Grader.KeywordStep | backend/grading/grader.py:33-53 | each loop iteration adds that idea's score and appends its feedback part |
| Grader.GradeKeyword | backend/grading/grader.py:24-59 | the loop over the ideas yields exactly the keyword result |
| Grader.IdeaScoreRule | backend/grading/grader.py:39-50 | a banned term gives 0 even when a required term matches; otherwise a required match gives exactly the idea's marks, and no match gives 0; supporting terms never change the score |
| Grader.TotalScoreBounds | backend/grading/grader.py:33-56 | with non-negative marks the total lies between 0 and the sum of the marks |
| Grader.KeywordResultBounds | backend/grading/grader.py:24-59 | max marks defaults to 1; an empty answer gives 0 and "No answer provided"; otherwise the score is capped at max marks and the feedback is the parts joined by "; " |
| Grader.FallbackRules | backend/grading/grader.py:124-177 | a positive keyword score is returned unchanged; the AI is used only with a client, more than 5 stripped characters and a reply; the result never exceeds max marks |
| Grader.GradeSpeaking | backend/grading/grader.py:62-121 | max marks 40; no client gives no score; under 10 stripped characters gives 0; any other score is the parsed total |
| RubricLoader.RubricFile | backend/grading/rubric_loader.py:10-15 | the rubric file is `{subject}_set{set}.json` iff it exists |
| RubricLoader.QuestionBankFilePreference | backend/grading/rubric_loader.py:18-35 | the per-set file is preferred when a set is given and the file exists, then the default file, else nothing; the chosen file exists |
| RubricLoader.FirstCorrect | backend/grading/rubric_loader.py:43-45 | the index of the first option marked correct, or none |
| RubricLoader.FromOptionsIsFirstCorrect | backend/grading/rubric_loader.py:43-45 | the option scan returns the key of the first correct option |
| RubricLoader.CorrectOptionIsFirstCandidate | backend/grading/rubric_loader.py:38-46 | the correct option is the first correct one among all options of matching sections and questions, in order, and None when there is none |
| RubricLoader.FindReference | backend/grading/rubric_loader.py:58-59 | the first reference with the id, or none when none has it |
| RubricLoader.QuestionContextCases | backend/grading/rubric_loader.py:56-63 | a found reference gives "title\n\ntext"; no reference id, or a dangling one, gives all references joined |
| RubricLoader.NoReferencesNoContext | backend/grading/rubric_loader.py:49-64 | with no references anywhere the context is "" |
| RubricLoader.QuestionsWithoutReferences | backend/grading/rubric_loader.py:62-64 | a section without references yields no context |
| RubricLoader.PassageContextIsFirstCandidate | backend/grading/rubric_loader.py:49-64 | the context is what the first matching question of a matching section yields, in document order (its named passage, else all of its section's passages), skipping those whose section has no passages; "" when none yields anything |
| RubricLoader.NothingMatches | backend/grading/rubric_loader.py:49-64 | when no section with the id holds a question with the id, the context is "" |
| RubricLoader.ReferencedPassageFound | backend/grading/rubric_loader.py:49-60 | in a bank of one matching section whose one question names an existing reference, the context is exactly that passage |
| BackendApp.MaxLabel | backend/app.py:89 | -1 for no labels, else the largest label |
| BackendApp.LabelRegistry.constructor | backend/app.py:69-80 | the registry holds the loaded dictionaries |
| BackendApp.LabelRegistry.GetOrCreateLabel | backend/app.py:86-92 | a known student gets its label with both maps unchanged; a new one gets max + 1 (0 first), added to both maps; mutual inverses are preserved |
| BackendApp.RegisterTwoStudents | backend/app.py:86-92 | labels 0 and 1 are handed out in order and a repeated student gets 0 back |
| BackendApp.SafeMap | backend/app.py:166 | each unsafe character becomes '-', others are kept |
| BackendApp.SanitizeSegmentSafe | backend/app.py:162-168 | blank input gives the fallback; any other result is the fallback or non-empty, only alphanumerics, '-' and '_', with no '-' or '_' at either end |
| BackendApp.SanitizeSegmentIdempotent | backend/app.py:162-168 | with a clean fallback, sanitising twice equals sanitising once |
| BackendApp.CleanIsFixed | backend/app.py:162-168 | an already clean segment is returned unchanged |
| BackendApp.RemoveByteOrderMarks | backend/app.py:174 | no U+FEFF remains, the text never grows, and a text without U+FEFF is unchanged |
| BackendApp.RemoveByteOrderMarksAppend | backend/app.py:174 | removal works piecewise over concatenation, so every other character is kept in order |
| BackendApp.IncidentSliceStartsWithMarker | backend/app.py:175-179 | when the marker occurs, the slice from its first occurrence starts with it |
| BackendApp.StripKeepsMarker | backend/app.py:176-180 | stripping text that starts with the marker keeps the marker at the front |
| BackendApp.ExtractIncidentSectionShape | backend/app.py:171-180 | empty input gives ""; no U+FEFF; starts with the marker when present; no surrounding whitespace |
| BackendApp.SaveIncidentsShape | backend/app.py:331-353 | an empty student id is rejected; a blank section saves the default header; otherwise the section plus one newline; always ends in a newline |
| BackendApp.AnswerFilenameSafe | backend/app.py:362-377 | blank student id gives no file; otherwise `{student}_…csv` of only letters, digits, '-', '_' and '.' |
| BackendApp.FileNameFromCleanSegments | backend/app.py:377 | joining clean segments as `a_b_c.csv` gives only file-name characters |
| BackendApp.AttemptSegmentSafe | backend/app.py:373-376 | removing the student prefix from a clean attempt leaves a clean attempt |
| BackendApp.FaceFlag | backend/app.py:192-196 | no flag iff exactly one face; `no_face` iff 0; `multiple_faces` iff more than 1 |
| BackendApp.TrainFaceCheck | backend/app.py:258-269 | accepted iff the trimmed id is non-empty and there is exactly one face; the id is checked first |
| BackendApp.VerifyFaceRejection | backend/app.py:286-296 | no early exit iff trained and exactly one face; untrained first, then no face, then several faces |
| BackendApp.VerifyMatchIff | backend/app.py:306-311 | match iff the label maps to a student, confidence ≤ 60.0, and a non-empty provided id equals that student |

## Left out

- Browser and media APIs are not modelled: `getUserMedia`, MediaRecorder and the `/save_audio` upload, `speechSynthesis`, and the `recog.start()` retry after an exception. The speaking-section recording is a single flag.
- Network traffic is left out: every `fetch`, the persisted-incident POST, and the heartbeat WebSocket with `/status`. These are I/O and concurrency.
- The clock is left out. `Date.now()`, `time.time()` and `datetime` readings are integer or string inputs.
- IST and locale timestamp formatting is a function parameter `stamp`.
- Face detection, recognition and gaze are left out: OpenCV, MediaPipe, LBPH training and prediction, preprocessing and head-pose numerics are foreign code and floating point. Only the counts, the predicted label and the confidence enter the model.
- `backend/storage.py`, `backend/proctoring.py`, `CameraMonitor.jsx`, `SystemCheck.jsx` and the presentational components are not part of this model.
- The LLM prompts, the Groq calls and JSON extraction are left out. Their outcome is an oracle reply value.
- Python Unicode `str.isalnum` and `lower`/`upper` are modelled over ASCII only. Whitespace is exact on both sides: `trim()` strips the ECMAScript white space and line terminators, `strip()` the characters of `str.isspace()`.
- Behaviours that some documentation describes but the code does not have are not modelled: a recogniser watchdog or restart-with-prefix, frame debouncing or an 8 s frame cooldown, an audio-play-once check, and gating on maths explanations.
- Grader.GradeKeyword: marks are integers, so Python's float marks and the `min(score + 0.25, marks)` supporting bonus (which never changes an idea's score) are modelled as integer scores.
- BackendApp.VerifyMatchIff: the confidence is taken as already rounded to two decimals, and the recogniser exception path is not modelled.
- BackendApp.SaveIncidentsShape: the output path, with its time stamp, and the UTF-8 decoding fallback are not modelled.
- BackendApp.LabelRegistry.GetOrCreateLabel: saving the mapping to the pickle file is not modelled.
- ExamData.BuildResetState: where the source throws on a section without a question list, the model returns no state and leaves the old state in place.
- Config.SanitizedBase: `new URL(...)` is an oracle returning the origin or failing.
- ExamData.SubjectsKeysFirstSeen: JavaScript lists integer-like object keys (such as "2") before the others, so first-seen order holds in the source only for other keys. Sections are only ever tagged `english` or `maths`, so this cannot arise there. The model's grouping accepts any subject and keeps first-seen order for all of them.
- ExamData.EnglishExamFor: the lookup is a plain comparison with "B" and "C". A set name such as `constructor` or `toString` reaches an inherited `Object.prototype` member in the source. That value is truthy, so the source shows no English sections where the model picks set A.
- SubjectTabs.OnClick: a locked tab's button is `disabled`, so in a browser a click never reaches the locked branch or the warnings of `LockedTabsWarn`. The model states what the handler itself does.
- LegacyApp.LegacyExamApp.HandleAnswer: the source advances the question index only after two awaited mock calls. The model advances it at once, so other events that arrive in between are not interleaved.
- RubricLoader.QuestionBankFilePreference: file existence is an oracle and the JSON contents are not read.
