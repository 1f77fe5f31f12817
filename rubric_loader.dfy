/** Question-bank lookups of the back end (backend/grading/rubric_loader.py): which
    file a rubric or question bank is read from, the correct option of a question,
    and the reference passage given to the AI grader. Whether a file exists is an
    input; the JSON content is given already parsed. */
module RubricLoader {
  import opened Common

  /** An answer option; `correct` is the truthiness of its `correct` field. */
  datatype BankOption = BankOption(key: Option<string>, correct: bool)

  datatype BankQuestion = BankQuestion(id: Option<string>, referenceId: Option<string>, options: seq<BankOption>)

  /** A reading passage; a missing title or text reads as "". */
  datatype Reference = Reference(id: Option<string>, title: string, text: string)

  /** A section; absent `questions` or `references` are empty. */
  datatype BankSection = BankSection(id: Option<string>, questions: seq<BankQuestion>, references: seq<Reference>)

  // ------------------------------------------------------------ file choice

  /** `load_rubric`: `{subject}_set{exam_set}.json` when it exists, else nothing. */
  function RubricFile(subject: string, examSet: string, fileExists: string -> bool): (r: Option<string>)
    ensures r.Some? <==> fileExists(subject + "_set" + examSet + ".json")
    ensures r.Some? ==> r.value == subject + "_set" + examSet + ".json"
  {
    var name := subject + "_set" + examSet + ".json";
    if fileExists(name) then Some(name) else None
  }

  /** `load_question_bank`: the set's file when a set is given and the file exists,
      then the subject's default file, else nothing (an empty bank). */
  function QuestionBankFile(subject: string, examSet: Option<string>, fileExists: string -> bool): Option<string> {
    if Truthy(examSet) && fileExists(subject + "_exam_" + examSet.value + ".json") then
      Some(subject + "_exam_" + examSet.value + ".json")
    else if fileExists(subject + "_exam.json") then Some(subject + "_exam.json")
    else None
  }

  /** The set's own file wins; the default file is used only when there is no set or
      its file is missing; nothing is loaded when neither exists. */
  lemma QuestionBankFilePreference(subject: string, examSet: Option<string>, fileExists: string -> bool)
    ensures var r := QuestionBankFile(subject, examSet, fileExists);
      && (Truthy(examSet) && fileExists(subject + "_exam_" + examSet.value + ".json") ==>
            r == Some(subject + "_exam_" + examSet.value + ".json"))
      && (!(Truthy(examSet) && fileExists(subject + "_exam_" + examSet.value + ".json")) && fileExists(subject + "_exam.json") ==>
            r == Some(subject + "_exam.json"))
      && (r.None? <==> !fileExists(subject + "_exam.json") && !(Truthy(examSet) && fileExists(subject + "_exam_" + examSet.value + ".json")))
      && (r.Some? ==> fileExists(r.value))
  {
  }

  // ---------------------------------------------------------- correct option

  /** The innermost loop: `Some(key)` for the first option marked correct (its key may
      itself be missing), `None` when no option is. */
  function FromOptions(opts: seq<BankOption>): Option<Option<string>> {
    if opts == [] then None
    else if opts[0].correct then Some(opts[0].key)
    else FromOptions(opts[1..])
  }

  /** The loop over the questions of a matching section. */
  function FromQuestions(qs: seq<BankQuestion>, questionId: string): Option<Option<string>> {
    if qs == [] then None
    else if qs[0].id == Some(questionId) && FromOptions(qs[0].options).Some? then FromOptions(qs[0].options)
    else FromQuestions(qs[1..], questionId)
  }

  /** The loop over the sections. */
  function FromSections(secs: seq<BankSection>, sectionId: string, questionId: string): Option<Option<string>> {
    if secs == [] then None
    else if secs[0].id == Some(sectionId) && FromQuestions(secs[0].questions, questionId).Some? then
      FromQuestions(secs[0].questions, questionId)
    else FromSections(secs[1..], sectionId, questionId)
  }

  /** `get_correct_option`. */
  function GetCorrectOption(secs: seq<BankSection>, sectionId: string, questionId: string): Option<string> {
    match FromSections(secs, sectionId, questionId)
    case None => None
    case Some(key) => key
  }

  /** Reference definition: every option of every question with the id, in every
      section with the id, in document order. */
  function QuestionCandidates(qs: seq<BankQuestion>, questionId: string): seq<BankOption> {
    if qs == [] then []
    else (if qs[0].id == Some(questionId) then qs[0].options else []) + QuestionCandidates(qs[1..], questionId)
  }

  function Candidates(secs: seq<BankSection>, sectionId: string, questionId: string): seq<BankOption> {
    if secs == [] then []
    else (if secs[0].id == Some(sectionId) then QuestionCandidates(secs[0].questions, questionId) else [])
         + Candidates(secs[1..], sectionId, questionId)
  }

  /** The first option marked correct, by position. */
  function FirstCorrect(opts: seq<BankOption>): (r: Option<nat>)
    ensures r.Some? ==> r.value < |opts| && opts[r.value].correct
    ensures r.Some? ==> forall j :: 0 <= j < r.value ==> !opts[j].correct
    ensures r.None? ==> forall j :: 0 <= j < |opts| ==> !opts[j].correct
  {
    if opts == [] then None
    else if opts[0].correct then Some(0)
    else match FirstCorrect(opts[1..])
      case None => None
      case Some(i) => Some(i + 1)
  }

  lemma {:induction false} FromOptionsIsFirstCorrect(opts: seq<BankOption>)
    ensures FromOptions(opts) == match FirstCorrect(opts) case None => None case Some(i) => Some(opts[i].key)
  {
    if opts != [] && !opts[0].correct {
      FromOptionsIsFirstCorrect(opts[1..]);
    }
  }

  lemma {:induction false} FromOptionsAppend(a: seq<BankOption>, b: seq<BankOption>)
    ensures FromOptions(a + b) == if FromOptions(a).Some? then FromOptions(a) else FromOptions(b)
  {
    if a != [] {
      assert (a + b)[1..] == a[1..] + b;
      FromOptionsAppend(a[1..], b);
    } else {
      assert a + b == b;
    }
  }

  lemma {:induction false} FromQuestionsFlat(qs: seq<BankQuestion>, questionId: string)
    ensures FromQuestions(qs, questionId) == FromOptions(QuestionCandidates(qs, questionId))
  {
    if qs != [] {
      FromQuestionsFlat(qs[1..], questionId);
      var head := if qs[0].id == Some(questionId) then qs[0].options else [];
      FromOptionsAppend(head, QuestionCandidates(qs[1..], questionId));
      assert FromOptions([]) == None;
    }
  }

  lemma {:induction false} FromSectionsFlat(secs: seq<BankSection>, sectionId: string, questionId: string)
    ensures FromSections(secs, sectionId, questionId) == FromOptions(Candidates(secs, sectionId, questionId))
  {
    if secs != [] {
      FromSectionsFlat(secs[1..], sectionId, questionId);
      FromQuestionsFlat(secs[0].questions, questionId);
      var head := if secs[0].id == Some(sectionId) then QuestionCandidates(secs[0].questions, questionId) else [];
      FromOptionsAppend(head, Candidates(secs[1..], sectionId, questionId));
      assert FromOptions([]) == None;
    }
  }

  /** The nested search returns the key of the first correct option among all options
      of matching questions in matching sections, scanning in document order, and
      `None` when there is no such option. */
  lemma CorrectOptionIsFirstCandidate(secs: seq<BankSection>, sectionId: string, questionId: string)
    ensures var c := Candidates(secs, sectionId, questionId);
      GetCorrectOption(secs, sectionId, questionId) ==
        match FirstCorrect(c) case None => None case Some(i) => c[i].key
  {
    FromSectionsFlat(secs, sectionId, questionId);
    FromOptionsIsFirstCorrect(Candidates(secs, sectionId, questionId));
  }

  // ---------------------------------------------------------- passage context

  /** The first reference with the given id. */
  function FindReference(refs: seq<Reference>, id: string): (r: Option<nat>)
    ensures r.Some? ==> r.value < |refs| && refs[r.value].id == Some(id)
    ensures r.Some? ==> forall j :: 0 <= j < r.value ==> refs[j].id != Some(id)
    ensures r.None? ==> forall j :: 0 <= j < |refs| ==> refs[j].id != Some(id)
  {
    if refs == [] then None
    else if refs[0].id == Some(id) then Some(0)
    else match FindReference(refs[1..], id)
      case None => None
      case Some(i) => Some(i + 1)
  }

  /** All passages of a section, each "title\ntext", separated by blank lines. */
  function AllReferences(refs: seq<Reference>): string {
    Join(seq(|refs|, i requires 0 <= i < |refs| => refs[i].title + "\n" + refs[i].text), "\n\n")
  }

  /** What one matching question yields: the passage it names, else (also for a
      dangling name) all of the section's passages, else nothing. */
  function QuestionContext(q: BankQuestion, refs: seq<Reference>): Option<string> {
    if Truthy(q.referenceId) && FindReference(refs, q.referenceId.value).Some? then
      var r := refs[FindReference(refs, q.referenceId.value).value];
      Some(r.title + "\n\n" + r.text)
    else if refs != [] then Some(AllReferences(refs))
    else None
  }

  /** The loop over the questions of a matching section: the first matching question
      that yields something decides. */
  function ContextFromQuestions(qs: seq<BankQuestion>, questionId: string, refs: seq<Reference>): Option<string> {
    if qs == [] then None
    else if qs[0].id == Some(questionId) && QuestionContext(qs[0], refs).Some? then QuestionContext(qs[0], refs)
    else ContextFromQuestions(qs[1..], questionId, refs)
  }

  function ContextFromSections(secs: seq<BankSection>, sectionId: string, questionId: string): Option<string> {
    if secs == [] then None
    else if secs[0].id == Some(sectionId) && ContextFromQuestions(secs[0].questions, questionId, secs[0].references).Some? then
      ContextFromQuestions(secs[0].questions, questionId, secs[0].references)
    else ContextFromSections(secs[1..], sectionId, questionId)
  }

  /** `get_passage_context`. */
  function GetPassageContext(secs: seq<BankSection>, sectionId: string, questionId: string): string {
    ContextFromSections(secs, sectionId, questionId).GetOr("")
  }

  /** Reference definition: what every question with the id, in every section with
      the id, would yield, in document order. */
  function QuestionContexts(qs: seq<BankQuestion>, questionId: string, refs: seq<Reference>): seq<Option<string>> {
    if qs == [] then []
    else (if qs[0].id == Some(questionId) then [QuestionContext(qs[0], refs)] else [])
         + QuestionContexts(qs[1..], questionId, refs)
  }

  function ContextCandidates(secs: seq<BankSection>, sectionId: string, questionId: string): seq<Option<string>> {
    if secs == [] then []
    else (if secs[0].id == Some(sectionId) then QuestionContexts(secs[0].questions, questionId, secs[0].references) else [])
         + ContextCandidates(secs[1..], sectionId, questionId)
  }

  /** The first candidate that yields a context, by position. */
  function FirstSome(cs: seq<Option<string>>): (r: Option<nat>)
    ensures r.Some? ==> r.value < |cs| && cs[r.value].Some?
    ensures r.Some? ==> forall j :: 0 <= j < r.value ==> cs[j].None?
    ensures r.None? ==> forall j :: 0 <= j < |cs| ==> cs[j].None?
  {
    if cs == [] then None
    else if cs[0].Some? then Some(0)
    else match FirstSome(cs[1..])
      case None => None
      case Some(i) => Some(i + 1)
  }

  /** The scan of a flat candidate list, in the shape of the nested loops. */
  function FirstContext(cs: seq<Option<string>>): Option<string> {
    if cs == [] then None else if cs[0].Some? then cs[0] else FirstContext(cs[1..])
  }

  lemma {:induction false} FirstContextIsFirstSome(cs: seq<Option<string>>)
    ensures FirstContext(cs) == match FirstSome(cs) case None => None case Some(i) => cs[i]
  {
    if cs != [] && cs[0].None? {
      FirstContextIsFirstSome(cs[1..]);
    }
  }

  lemma {:induction false} FirstContextAppend(a: seq<Option<string>>, b: seq<Option<string>>)
    ensures FirstContext(a + b) == if FirstContext(a).Some? then FirstContext(a) else FirstContext(b)
  {
    if a != [] {
      assert (a + b)[1..] == a[1..] + b;
      FirstContextAppend(a[1..], b);
    } else {
      assert a + b == b;
    }
  }

  lemma {:induction false} ContextFromQuestionsFlat(qs: seq<BankQuestion>, questionId: string, refs: seq<Reference>)
    ensures ContextFromQuestions(qs, questionId, refs) == FirstContext(QuestionContexts(qs, questionId, refs))
  {
    if qs != [] {
      ContextFromQuestionsFlat(qs[1..], questionId, refs);
      var head := if qs[0].id == Some(questionId) then [QuestionContext(qs[0], refs)] else [];
      FirstContextAppend(head, QuestionContexts(qs[1..], questionId, refs));
      assert FirstContext([]) == None;
    }
  }

  lemma {:induction false} ContextFromSectionsFlat(secs: seq<BankSection>, sectionId: string, questionId: string)
    ensures ContextFromSections(secs, sectionId, questionId) == FirstContext(ContextCandidates(secs, sectionId, questionId))
  {
    if secs != [] {
      ContextFromSectionsFlat(secs[1..], sectionId, questionId);
      ContextFromQuestionsFlat(secs[0].questions, questionId, secs[0].references);
      var head := if secs[0].id == Some(sectionId) then QuestionContexts(secs[0].questions, questionId, secs[0].references) else [];
      FirstContextAppend(head, ContextCandidates(secs[1..], sectionId, questionId));
      assert FirstContext([]) == None;
    }
  }

  /** The nested search returns what the first matching question, in the first
      matching section, in document order, yields (the passage it names, else all of
      its section's passages), skipping questions whose section has no passages; ""
      when no matching question yields anything. */
  lemma PassageContextIsFirstCandidate(secs: seq<BankSection>, sectionId: string, questionId: string)
    ensures var c := ContextCandidates(secs, sectionId, questionId);
      GetPassageContext(secs, sectionId, questionId) ==
        match FirstSome(c) case None => "" case Some(i) => c[i].value
  {
    ContextFromSectionsFlat(secs, sectionId, questionId);
    FirstContextIsFirstSome(ContextCandidates(secs, sectionId, questionId));
  }

  /** Without a question of that id in a section of that id there are no candidates. */
  lemma {:induction false} NoMatchNoCandidates(secs: seq<BankSection>, sectionId: string, questionId: string)
    requires forall i, p :: 0 <= i < |secs| && secs[i].id == Some(sectionId) && 0 <= p < |secs[i].questions| ==>
      secs[i].questions[p].id != Some(questionId)
    ensures ContextCandidates(secs, sectionId, questionId) == []
  {
    if secs != [] {
      if secs[0].id == Some(sectionId) {
        NoMatchingQuestion(secs[0].questions, questionId, secs[0].references);
      }
      NoMatchNoCandidates(secs[1..], sectionId, questionId);
    }
  }

  lemma {:induction false} NoMatchingQuestion(qs: seq<BankQuestion>, questionId: string, refs: seq<Reference>)
    requires forall p :: 0 <= p < |qs| ==> qs[p].id != Some(questionId)
    ensures QuestionContexts(qs, questionId, refs) == []
  {
    if qs != [] {
      NoMatchingQuestion(qs[1..], questionId, refs);
    }
  }

  /** When no section with the id holds a question with the id, the lookup falls
      through to "". */
  lemma NothingMatches(secs: seq<BankSection>, sectionId: string, questionId: string)
    requires forall i, p :: 0 <= i < |secs| && secs[i].id == Some(sectionId) && 0 <= p < |secs[i].questions| ==>
      secs[i].questions[p].id != Some(questionId)
    ensures GetPassageContext(secs, sectionId, questionId) == ""
  {
    NoMatchNoCandidates(secs, sectionId, questionId);
    PassageContextIsFirstCandidate(secs, sectionId, questionId);
  }

  /** A question naming an existing passage gets exactly that passage; one without a
      name, or naming a missing passage, gets all of the section's passages. */
  lemma QuestionContextCases(q: BankQuestion, refs: seq<Reference>, name: string, j: nat)
    requires j < |refs| && refs[j].id == Some(name) && forall m :: 0 <= m < j ==> refs[m].id != Some(name)
    ensures q.referenceId == Some(name) && name != "" ==> QuestionContext(q, refs) == Some(refs[j].title + "\n\n" + refs[j].text)
    ensures !Truthy(q.referenceId) || FindReference(refs, q.referenceId.value).None? ==> QuestionContext(q, refs) == Some(AllReferences(refs))
  {
    if q.referenceId == Some(name) && name != "" {
      assert FindReference(refs, name) == Some(j);
    }
  }

  /** Sections without passages never yield a context, so the lookup gives "". */
  lemma {:induction false} NoReferencesNoContext(secs: seq<BankSection>, sectionId: string, questionId: string)
    requires forall i :: 0 <= i < |secs| ==> secs[i].references == []
    ensures GetPassageContext(secs, sectionId, questionId) == ""
  {
    if secs != [] {
      QuestionsWithoutReferences(secs[0].questions, questionId);
      NoReferencesNoContext(secs[1..], sectionId, questionId);
    }
  }

  lemma {:induction false} QuestionsWithoutReferences(qs: seq<BankQuestion>, questionId: string)
    ensures ContextFromQuestions(qs, questionId, []) == None
  {
    if qs != [] {
      QuestionsWithoutReferences(qs[1..], questionId);
    }
  }

  /** A bank of one matching section with one question naming one of its passages:
      the context is that passage. */
  lemma ReferencedPassageFound(sectionId: string, q: BankQuestion, refs: seq<Reference>, name: string, j: nat)
    requires q.id.Some? && q.referenceId == Some(name) && name != ""
    requires j < |refs| && refs[j].id == Some(name) && forall m :: 0 <= m < j ==> refs[m].id != Some(name)
    ensures GetPassageContext([BankSection(Some(sectionId), [q], refs)], sectionId, q.id.value) == refs[j].title + "\n\n" + refs[j].text
  {
    QuestionContextCases(q, refs, name, j);
  }
}
