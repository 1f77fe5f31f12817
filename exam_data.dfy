/** The exam-data hook (src/hooks/useExamData.js): the section list of an exam set,
    the reference-passage matrix, the grouping of sections by subject, the derived
    navigation values (active section, its position, next section, previous question)
    and the reset of all per-section state. The question banks are inputs. */
module ExamData {
  import opened Common

  datatype Question = Question(id: string, referenceId: Option<string>)

  /** A section; `questions` is `None` when the JSON lacks the field. */
  datatype Section = Section(id: string, subject: Option<string>, questions: Option<seq<Question>>)

  /** A question-bank file; `sections` is `None` when the JSON lacks the field. */
  datatype ExamBank = ExamBank(sections: Option<seq<Section>>)

  /** `section.questions || []`. */
  function QuestionsOf(s: Section): seq<Question> {
    s.questions.GetOr([])
  }

  /** `exam.sections || []`. */
  function SectionsOf(b: ExamBank): seq<Section> {
    b.sections.GetOr([])
  }

  /** `englishExamSets[examSet] || englishExamA`: sets A, B and C exist, anything else
      falls back to set A. */
  function EnglishExamFor(examSet: string, setA: ExamBank, setB: ExamBank, setC: ExamBank): (r: ExamBank)
    ensures examSet != "B" && examSet != "C" ==> r == setA
  {
    if examSet == "B" then setB else if examSet == "C" then setC else setA
  }

  /** `sections.map(s => ({ ...s, subject }))`. */
  function Tagged(secs: seq<Section>, subject: string): (r: seq<Section>)
    ensures |r| == |secs|
    ensures forall i :: 0 <= i < |secs| ==> r[i] == secs[i].(subject := Some(subject))
  {
    seq(|secs|, i requires 0 <= i < |secs| => secs[i].(subject := Some(subject)))
  }

  /** `examSections`: the English sections tagged `english`, then the maths sections
      tagged `maths`. */
  function ExamSections(english: ExamBank, maths: ExamBank): seq<Section> {
    Tagged(SectionsOf(english), "english") + Tagged(SectionsOf(maths), "maths")
  }

  /** The list keeps both banks' sections in order, every English section before every
      maths section, each tagged with its subject and otherwise unchanged. */
  lemma ExamSectionsOrder(english: ExamBank, maths: ExamBank)
    ensures var r, e, m := ExamSections(english, maths), SectionsOf(english), SectionsOf(maths);
      && |r| == |e| + |m|
      && (forall i :: 0 <= i < |r| ==> (r[i].subject == Some("english") <==> i < |e|))
      && (forall i :: 0 <= i < |r| ==> (r[i].subject == Some("maths") <==> |e| <= i))
      && (forall i :: 0 <= i < |e| ==> r[i].id == e[i].id && r[i].questions == e[i].questions)
      && (forall j :: 0 <= j < |m| ==> r[|e| + j].id == m[j].id && r[|e| + j].questions == m[j].questions)
  {
    var r, e, m := ExamSections(english, maths), SectionsOf(english), SectionsOf(maths);
    var te, tm := Tagged(e, "english"), Tagged(m, "maths");
    assert r == te + tm;
    forall i | 0 <= i < |r|
      ensures r[i].subject == Some("english") <==> i < |e|
      ensures r[i].subject == Some("maths") <==> |e| <= i
    {
      if i < |e| {
        assert r[i] == te[i];
      } else {
        assert r[i] == tm[i - |e|];
      }
    }
  }

  // --------------------------------------------------------- reference matrix

  /** The reference in force at question `i`: the `referenceId` of the last question
      at or before `i` that has one, or none. */
  function ReferenceAt(qs: seq<Question>, i: nat): Option<string>
    requires i < |qs|
  {
    if Truthy(qs[i].referenceId) then qs[i].referenceId
    else if i == 0 then None
    else ReferenceAt(qs, i - 1)
  }

  /** The same, stated without recursion: a reference comes from the last question at
      or before `i` that carries one, and there is none exactly when no such question
      exists. */
  lemma {:induction false} ReferenceAtIsLastCarried(qs: seq<Question>, i: nat)
    requires i < |qs|
    ensures ReferenceAt(qs, i).None? <==> forall j :: 0 <= j <= i ==> !Truthy(qs[j].referenceId)
    ensures ReferenceAt(qs, i).Some? ==>
      exists j :: 0 <= j <= i && Truthy(qs[j].referenceId) && qs[j].referenceId == ReferenceAt(qs, i)
        && forall m :: j < m <= i ==> !Truthy(qs[m].referenceId)
  {
    if !Truthy(qs[i].referenceId) && i > 0 {
      ReferenceAtIsLastCarried(qs, i - 1);
    }
  }

  /** The column of the matrix for one section. */
  function ReferenceColumn(qs: seq<Question>): (r: seq<Option<string>>)
    ensures |r| == |qs|
  {
    seq(|qs|, i requires 0 <= i < |qs| => ReferenceAt(qs, i))
  }

  /** The `questions.map` of one section, carrying `lastReferenceId` forward. */
  method CarryReferences(qs: seq<Question>) returns (col: seq<Option<string>>)
    ensures col == ReferenceColumn(qs)
  {
    var last: Option<string> := None;
    col := [];
    var i := 0;
    while i < |qs|
      invariant 0 <= i <= |qs|
      invariant |col| == i
      invariant forall j :: 0 <= j < i ==> col[j] == ReferenceAt(qs, j)
      invariant i > 0 ==> last == ReferenceAt(qs, i - 1)
      invariant i == 0 ==> last == None
    {
      if Truthy(qs[i].referenceId) {
        last := qs[i].referenceId;
      }
      col := col + [last];
      i := i + 1;
    }
  }

  /** No section after `j` (and before `upto`) has the id of section `j`. */
  ghost predicate LastWithId(secs: seq<Section>, j: nat, upto: nat)
    requires j < upto <= |secs|
  {
    forall m :: j < m < upto ==> secs[m].id != secs[j].id
  }

  function Ids(secs: seq<Section>): set<string> {
    set i | 0 <= i < |secs| :: secs[i].id
  }

  lemma IdsSnoc(secs: seq<Section>, i: nat)
    requires i < |secs|
    ensures Ids(secs[..i + 1]) == Ids(secs[..i]) + {secs[i].id}
  {
    forall x | x in Ids(secs[..i + 1]) ensures x in Ids(secs[..i]) + {secs[i].id} {
      var j :| 0 <= j < i + 1 && secs[..i + 1][j].id == x;
      if j < i {
        assert secs[..i][j].id == x;
      }
    }
    forall x | x in Ids(secs[..i]) ensures x in Ids(secs[..i + 1]) {
      var j :| 0 <= j < i && secs[..i][j].id == x;
      assert secs[..i + 1][j].id == x;
    }
  }

  /** `m` is keyed by the ids of the first `upto` sections, and each id maps to
      `f` of the last of those sections with that id: what `m[section.id] = ...`
      over a `forEach` leaves behind. */
  ghost predicate LastWins<V>(m: map<string, V>, secs: seq<Section>, upto: nat, f: Section -> V)
    requires upto <= |secs|
  {
    && m.Keys == Ids(secs[..upto])
    && forall j :: 0 <= j < upto && LastWithId(secs, j, upto) ==> m[secs[j].id] == f(secs[j])
  }

  /** A section that is last with its id among `upto + 1` sections was already
      last among `upto`, and differs in id from section `upto`. */
  lemma LastWithIdShrinks(secs: seq<Section>, j: nat, upto: nat)
    requires j < upto < |secs| && LastWithId(secs, j, upto + 1)
    ensures LastWithId(secs, j, upto) && secs[j].id != secs[upto].id
  {
  }

  /** One `forEach` step keeps `LastWins`. */
  lemma LastWinsStep<V>(m: map<string, V>, secs: seq<Section>, i: nat, f: Section -> V)
    requires i < |secs| && LastWins(m, secs, i, f)
    ensures LastWins(m[secs[i].id := f(secs[i])], secs, i + 1, f)
  {
    var after := m[secs[i].id := f(secs[i])];
    IdsSnoc(secs, i);
    forall j | 0 <= j < i + 1 && LastWithId(secs, j, i + 1)
      ensures after[secs[j].id] == f(secs[j])
    {
      if j < i {
        LastWithIdShrinks(secs, j, i);
      }
    }
  }

  /** The reference column of a section's questions. */
  function SectionColumn(s: Section): seq<Option<string>> {
    ReferenceColumn(QuestionsOf(s))
  }

  /** `sectionReferenceMatrix`: one column per section id; when ids repeat, the last
      section with that id wins, as with `matrix[section.id] = ...`. */
  method SectionReferenceMatrix(secs: seq<Section>) returns (matrix: map<string, seq<Option<string>>>)
    ensures matrix.Keys == Ids(secs)
    ensures forall j :: 0 <= j < |secs| && LastWithId(secs, j, |secs|) ==>
      matrix[secs[j].id] == ReferenceColumn(QuestionsOf(secs[j]))
  {
    matrix := map[];
    var i := 0;
    while i < |secs|
      invariant 0 <= i <= |secs|
      invariant LastWins(matrix, secs, i, SectionColumn)
    {
      var col := CarryReferences(QuestionsOf(secs[i]));
      LastWinsStep(matrix, secs, i, SectionColumn);
      matrix := matrix[secs[i].id := col];
      i := i + 1;
    }
    assert secs[..i] == secs;
  }

  // ---------------------------------------------------------------- subjects

  /** `section.subject || "other"`. */
  function SubjectKey(s: Section): string {
    OrElse(s.subject, "other")
  }

  /** The `subjectMap` object: its keys in insertion order and the sections under each. */
  datatype Groups = Groups(keys: seq<string>, members: map<string, seq<Section>>)

  function AddToGroups(g: Groups, s: Section): Groups {
    var k := SubjectKey(s);
    if k in g.members then Groups(g.keys, g.members[k := g.members[k] + [s]])
    else Groups(g.keys + [k], g.members[k := [s]])
  }

  /** `subjects`: the sections grouped by subject key, in order. */
  function Subjects(secs: seq<Section>): Groups {
    if secs == [] then Groups([], map[])
    else AddToGroups(Subjects(secs[..|secs| - 1]), secs[|secs| - 1])
  }

  /** The sections of one subject, in order. */
  function OfSubject(secs: seq<Section>, k: string): seq<Section> {
    if secs == [] then []
    else OfSubject(secs[..|secs| - 1], k) + (if SubjectKey(secs[|secs| - 1]) == k then [secs[|secs| - 1]] else [])
  }

  function SubjectKeys(secs: seq<Section>): set<string> {
    set i | 0 <= i < |secs| :: SubjectKey(secs[i])
  }

  lemma SubjectKeysSnoc(secs: seq<Section>)
    requires secs != []
    ensures SubjectKeys(secs) == SubjectKeys(secs[..|secs| - 1]) + {SubjectKey(secs[|secs| - 1])}
  {
    var init := secs[..|secs| - 1];
    forall x | x in SubjectKeys(secs) ensures x in SubjectKeys(init) + {SubjectKey(secs[|secs| - 1])} {
      var j :| 0 <= j < |secs| && SubjectKey(secs[j]) == x;
      if j < |init| {
        assert init[j] == secs[j];
      }
    }
    forall x | x in SubjectKeys(init) ensures x in SubjectKeys(secs) {
      var j :| 0 <= j < |init| && SubjectKey(init[j]) == x;
      assert secs[j] == init[j];
    }
  }

  /** The group keys are exactly the subjects that occur, each listed once. */
  lemma {:induction false} SubjectsKeysDistinct(secs: seq<Section>)
    ensures var g := Subjects(secs);
      && g.members.Keys == SubjectKeys(secs)
      && (forall a :: 0 <= a < |g.keys| ==> g.keys[a] in g.members)
      && (forall k :: k in g.members ==> k in g.keys)
      && (forall a, b :: 0 <= a < b < |g.keys| ==> g.keys[a] != g.keys[b])
  {
    if secs != [] {
      SubjectsKeysDistinct(secs[..|secs| - 1]);
      SubjectKeysSnoc(secs);
    }
  }

  /** Every section of subject `y` comes after some section of subject `x`. */
  ghost predicate SeenBefore(secs: seq<Section>, x: string, y: string) {
    forall j :: 0 <= j < |secs| && SubjectKey(secs[j]) == y ==>
      exists i :: 0 <= i < j && SubjectKey(secs[i]) == x
  }

  /** The group keys are in first-seen order: every section of a later key comes after
      some section of each earlier key. */
  lemma {:induction false} SubjectsKeysFirstSeen(secs: seq<Section>)
    ensures var g := Subjects(secs);
      forall a, b :: 0 <= a < b < |g.keys| ==> SeenBefore(secs, g.keys[a], g.keys[b])
  {
    if secs != [] {
      var init := secs[..|secs| - 1];
      SubjectsKeysFirstSeen(init);
      SubjectsKeysDistinct(init);
      var g0, g := Subjects(init), Subjects(secs);
      assert g.keys[..|g0.keys|] == g0.keys;
      forall a, b | 0 <= a < b < |g.keys| ensures SeenBefore(secs, g.keys[a], g.keys[b]) {
        assert g.keys[a] == g0.keys[a];
        if b < |g0.keys| {
          assert g.keys[b] == g0.keys[b];
          SeenBeforeKept(secs, g0.keys[a], g0.keys[b]);
        } else {
          SeenBeforeNew(secs, g0.keys[a], g.keys[b]);
        }
      }
    }
  }

  /** An order between two keys that both occur before the last section survives it. */
  lemma SeenBeforeKept(secs: seq<Section>, x: string, y: string)
    requires secs != [] && SeenBefore(secs[..|secs| - 1], x, y) && y in SubjectKeys(secs[..|secs| - 1])
    ensures SeenBefore(secs, x, y)
  {
    var init := secs[..|secs| - 1];
    var j0 :| 0 <= j0 < |init| && SubjectKey(init[j0]) == y;
    forall j | 0 <= j < |secs| && SubjectKey(secs[j]) == y
      ensures exists i :: 0 <= i < j && SubjectKey(secs[i]) == x
    {
      var j1 := if j < |init| then j else j0;
      assert init[j1] == secs[j1];
      var i :| 0 <= i < j1 && SubjectKey(init[i]) == x;
      assert secs[i] == init[i];
    }
  }

  /** A key first seen at the last section comes after every key seen before it. */
  lemma SeenBeforeNew(secs: seq<Section>, x: string, y: string)
    requires secs != [] && x in SubjectKeys(secs[..|secs| - 1]) && y !in SubjectKeys(secs[..|secs| - 1])
    ensures SeenBefore(secs, x, y)
  {
    var init := secs[..|secs| - 1];
    var i0 :| 0 <= i0 < |init| && SubjectKey(init[i0]) == x;
    assert secs[i0] == init[i0];
    forall j | 0 <= j < |init| ensures SubjectKey(secs[j]) != y {
      assert secs[j] == init[j];
    }
  }

  /** Every section sits, in order, under its own subject key. */
  lemma {:induction false} SubjectsGroupInOrder(secs: seq<Section>)
    ensures forall k :: k in Subjects(secs).members ==> Subjects(secs).members[k] == OfSubject(secs, k)
  {
    if secs != [] {
      var init, s := secs[..|secs| - 1], secs[|secs| - 1];
      SubjectsGroupInOrder(init);
      SubjectsKeysDistinct(init);
      var g0 := Subjects(init);
      var k := SubjectKey(s);
      if k !in g0.members {
        OfSubjectEmpty(init, k);
      }
    }
  }

  /** A subject that never occurs has no sections. */
  lemma {:induction false} OfSubjectEmpty(secs: seq<Section>, k: string)
    requires k !in SubjectKeys(secs)
    ensures OfSubject(secs, k) == []
  {
    if secs != [] {
      SubjectKeysSnoc(secs);
      OfSubjectEmpty(secs[..|secs| - 1], k);
    }
  }

  // ------------------------------------------------------- derived navigation

  /** `findIndex(section => section.id === id)`, as an index when found. */
  function FindById(secs: seq<Section>, id: string): (r: Option<nat>)
    ensures r.Some? ==> r.value < |secs| && secs[r.value].id == id && forall j :: 0 <= j < r.value ==> secs[j].id != id
    ensures r.None? ==> forall j :: 0 <= j < |secs| ==> secs[j].id != id
  {
    if secs == [] then None
    else if secs[0].id == id then Some(0)
    else match FindById(secs[1..], id)
      case None => None
      case Some(i) => Some(i + 1)
  }

  /** `activeSection`: the section whose id is `activeId`, else the first one. */
  function ActiveSection(secs: seq<Section>, activeId: string): Option<Section> {
    match FindById(secs, activeId)
    case Some(i) => Some(secs[i])
    case None => if secs == [] then None else Some(secs[0])
  }

  /** `currentSectionPosition`: the first index whose id is the active section's, or -1. */
  function SectionPosition(secs: seq<Section>, activeId: string): (p: int)
    ensures -1 <= p < |secs|
  {
    match ActiveSection(secs, activeId)
    case None => -1
    case Some(s) => match FindById(secs, s.id) case Some(i) => i case None => -1
  }

  /** The position is -1 exactly when there are no sections; otherwise it points at the
      active section, at the first section with `activeId` when there is one and at
      section 0 when there is none. */
  lemma PositionOfActive(secs: seq<Section>, activeId: string)
    ensures var p := SectionPosition(secs, activeId);
      && (p == -1 <==> secs == [])
      && (p != -1 ==> 0 <= p < |secs| && ActiveSection(secs, activeId) == Some(secs[p]))
      && (FindById(secs, activeId).Some? ==> p == FindById(secs, activeId).value)
      && (secs != [] && FindById(secs, activeId).None? ==> p == 0)
  {
    if secs != [] {
      assert FindById(secs, secs[0].id) == Some(0);
    }
  }

  /** `sectionIndices[activeSection.id] || 0`. */
  function CurrentQuestionIndex(secs: seq<Section>, activeId: string, indices: map<string, int>): int {
    match ActiveSection(secs, activeId)
    case None => 0
    case Some(s) => if s.id in indices then indices[s.id] else 0
  }

  /** `currentQuestion`: null when the active section has no questions (and absent
      when the stored index is out of range). */
  function CurrentQuestion(secs: seq<Section>, activeId: string, indices: map<string, int>): (r: Option<Question>)
    ensures (ActiveSection(secs, activeId).None? || QuestionsOf(ActiveSection(secs, activeId).value) == []) ==> r.None?
    ensures r.Some? ==>
      var qs, idx := QuestionsOf(ActiveSection(secs, activeId).value), CurrentQuestionIndex(secs, activeId, indices);
      0 <= idx < |qs| && r.value == qs[idx]
    ensures ActiveSection(secs, activeId).Some? ==>
      var qs, idx := QuestionsOf(ActiveSection(secs, activeId).value), CurrentQuestionIndex(secs, activeId, indices);
      0 <= idx < |qs| ==> r == Some(qs[idx])
  {
    match ActiveSection(secs, activeId)
    case None => None
    case Some(s) =>
      var qs, idx := QuestionsOf(s), CurrentQuestionIndex(secs, activeId, indices);
      if |qs| > 0 && 0 <= idx < |qs| then Some(qs[idx]) else None
  }

  /** `nextSection`. */
  function NextSection(secs: seq<Section>, pos: int): Option<Section>
    requires -1 <= pos < |secs|
  {
    if pos == -1 then None else if pos + 1 < |secs| then Some(secs[pos + 1]) else None
  }

  /** `isLastSection`. */
  predicate IsLastSection(secs: seq<Section>, pos: int) {
    pos != -1 && pos == |secs| - 1
  }

  /** There is a next section exactly when the position is known and not the last one,
      and it is the section right after. */
  lemma NextSectionUnlessLast(secs: seq<Section>, pos: int)
    requires -1 <= pos < |secs|
    ensures NextSection(secs, pos).None? <==> pos == -1 || IsLastSection(secs, pos)
    ensures NextSection(secs, pos).Some? ==> NextSection(secs, pos) == Some(secs[pos + 1])
  {
  }

  /** Where "previous question" leads. */
  datatype Target = Target(sectionId: string, questionIndex: int)

  /** The nearest section before `pos` that has at least one question. */
  function NearestEarlierNonEmpty(secs: seq<Section>, pos: int): (r: Option<nat>)
    requires pos <= |secs|
    ensures r.Some? ==> r.value < pos
    decreases pos
  {
    if pos <= 0 then None
    else if |QuestionsOf(secs[pos - 1])| > 0 then Some(pos - 1)
    else NearestEarlierNonEmpty(secs, pos - 1)
  }

  /** What the nearest earlier non-empty section is: the last section before `pos`
      with a question; none exactly when every earlier section is empty. */
  lemma {:induction false} NearestEarlierNonEmptySpec(secs: seq<Section>, pos: int)
    requires pos <= |secs|
    ensures var r := NearestEarlierNonEmpty(secs, pos);
      && (r.None? <==> forall j :: 0 <= j < pos ==> |QuestionsOf(secs[j])| == 0)
      && (r.Some? ==> r.value < pos && |QuestionsOf(secs[r.value])| > 0
                      && forall j :: r.value < j < pos ==> |QuestionsOf(secs[j])| == 0)
    decreases pos
  {
    if pos > 0 && |QuestionsOf(secs[pos - 1])| == 0 {
      NearestEarlierNonEmptySpec(secs, pos - 1);
    }
  }

  /** `previousQuestionTarget`: the previous question of the active section, else the
      last question of the nearest earlier section that has questions, else none. */
  method PreviousQuestionTarget(secs: seq<Section>, activeId: string, indices: map<string, int>) returns (r: Option<Target>)
    ensures var pos, idx := SectionPosition(secs, activeId), CurrentQuestionIndex(secs, activeId, indices);
      if pos == -1 then r.None?
      else if |QuestionsOf(secs[pos])| > 0 && idx > 0 then r == Some(Target(secs[pos].id, idx - 1))
      else r == match NearestEarlierNonEmpty(secs, pos)
                case None => None
                case Some(i) => Some(Target(secs[i].id, |QuestionsOf(secs[i])| - 1))
  {
    PositionOfActive(secs, activeId);
    var active := ActiveSection(secs, activeId);
    var pos := SectionPosition(secs, activeId);
    if active.None? || pos == -1 {
      return None;
    }
    var total := |QuestionsOf(active.value)|;
    var idx := CurrentQuestionIndex(secs, activeId, indices);
    if total > 0 && idx > 0 {
      return Some(Target(active.value.id, idx - 1));
    }
    var i := pos - 1;
    while i >= 0
      invariant -1 <= i < pos
      invariant NearestEarlierNonEmpty(secs, i + 1) == NearestEarlierNonEmpty(secs, pos)
    {
      var count := |QuestionsOf(secs[i])|;
      if count > 0 {
        return Some(Target(secs[i].id, count - 1));
      }
      i := i - 1;
    }
    r := None;
  }

  // ------------------------------------------------------------------ reset

  /** The per-section state of the hook. */
  datatype SectionState = SectionState(
    indices: map<string, int>,
    audioPlayed: map<string, map<int, bool>>,
    results: map<string, seq<Option<string>>>,
    directionsSeen: map<string, bool>,
    selectedOptions: map<string, map<int, string>>,
    activeSectionId: string)

  /** Every per-section map has exactly the ids in `ids` as keys and holds its
      default: index 0, no audio played, directions unseen, nothing selected. */
  ghost predicate DefaultsOver(indices: map<string, int>, audio: map<string, map<int, bool>>,
                               directions: map<string, bool>, selected: map<string, map<int, string>>,
                               ids: set<string>)
  {
    && indices.Keys == audio.Keys == directions.Keys == selected.Keys == ids
    && (forall id :: id in indices ==> indices[id] == 0)
    && (forall id :: id in audio ==> audio[id] == map[])
    && (forall id :: id in directions ==> !directions[id])
    && (forall id :: id in selected ==> selected[id] == map[])
  }

  /** Giving one more id its defaults keeps every map at its default. */
  lemma DefaultsStep(indices: map<string, int>, audio: map<string, map<int, bool>>,
                     directions: map<string, bool>, selected: map<string, map<int, string>>,
                     ids: set<string>, id: string)
    requires DefaultsOver(indices, audio, directions, selected, ids)
    ensures DefaultsOver(indices[id := 0], audio[id := map[]], directions[id := false],
                         selected[id := map[]], ids + {id})
  {
  }

  /** One null per question of the section. */
  function NullColumn(s: Section): seq<Option<string>> {
    seq(|QuestionsOf(s)|, _ => None)
  }

  /** `results` holds one null per question for every section, the last section
      with an id deciding that id's entry. */
  ghost predicate NullResults(results: map<string, seq<Option<string>>>, secs: seq<Section>, upto: nat)
    requires upto <= |secs|
  {
    LastWins(results, secs, upto, NullColumn)
  }

  /** What a completed reset leaves behind. */
  ghost predicate IsReset(st: SectionState, secs: seq<Section>) {
    && DefaultsOver(st.indices, st.audioPlayed, st.directionsSeen, st.selectedOptions, Ids(secs))
    && NullResults(st.results, secs, |secs|)
    && st.activeSectionId == (if secs == [] then "" else secs[0].id)
  }

  /** The body of `resetSectionState`. It reads `section.questions.length` without a
      fallback, so a section without questions throws and nothing is reset (`None`). */
  method BuildResetState(secs: seq<Section>) returns (r: Option<SectionState>)
    ensures r.None? <==> exists i :: 0 <= i < |secs| && secs[i].questions.None?
    ensures r.Some? ==> IsReset(r.value, secs)
  {
    var indices: map<string, int> := map[];
    var audio: map<string, map<int, bool>> := map[];
    var results: map<string, seq<Option<string>>> := map[];
    var directions: map<string, bool> := map[];
    var selected: map<string, map<int, string>> := map[];
    var i := 0;
    while i < |secs|
      invariant 0 <= i <= |secs|
      invariant forall j :: 0 <= j < i ==> secs[j].questions.Some?
      invariant DefaultsOver(indices, audio, directions, selected, Ids(secs[..i]))
      invariant NullResults(results, secs, i)
    {
      var s := secs[i];
      if s.questions.None? {
        return None;
      }
      LastWinsStep(results, secs, i, NullColumn);
      IdsSnoc(secs, i);
      DefaultsStep(indices, audio, directions, selected, Ids(secs[..i]), s.id);
      indices := indices[s.id := 0];
      audio := audio[s.id := map[]];
      results := results[s.id := NullColumn(s)];
      directions := directions[s.id := false];
      selected := selected[s.id := map[]];
      i := i + 1;
    }
    assert secs[..i] == secs;
    r := Some(SectionState(indices, audio, results, directions, selected, if secs == [] then "" else secs[0].id));
  }

  /** The hook's state: the fixed section list and everything navigation updates. */
  class ExamNavigation {
    const sections: seq<Section>
    var activeSubject: string
    var englishCompleted: bool
    var englishLocked: bool
    var state: SectionState

    /** The `useState` initialisers: every index 0, no audio played, no directions seen,
        no selections, empty result arrays, the first section active. */
    constructor (english: ExamBank, maths: ExamBank)
      ensures sections == ExamSections(english, maths)
      ensures activeSubject == "english" && !englishCompleted && !englishLocked
      ensures DefaultsOver(state.indices, state.audioPlayed, state.directionsSeen, state.selectedOptions, Ids(sections))
      ensures state.indices.Keys == state.results.Keys == Ids(sections)
      ensures forall id :: id in state.indices ==> state.indices[id] == 0
      ensures forall id :: id in state.results ==> state.results[id] == []
      ensures state.activeSectionId == (if sections == [] then "" else sections[0].id)
    {
      var secs := ExamSections(english, maths);
      sections := secs;
      activeSubject := "english";
      englishCompleted, englishLocked := false, false;
      var ids := Ids(secs);
      state := SectionState(
        map id | id in ids :: 0,
        map id | id in ids :: map[],
        map id | id in ids :: [],
        map id | id in ids :: false,
        map id | id in ids :: map[],
        if secs == [] then "" else secs[0].id);
    }

    /** `resetSectionState`: every index back to 0, directions unseen, audio and
        selections emptied, results a null per question, the first section active. A
        section without questions makes it throw before anything is set. */
    method ResetSectionState() returns (ok: bool)
      modifies this`state
      ensures ok <==> forall i :: 0 <= i < |sections| ==> sections[i].questions.Some?
      ensures !ok ==> state == old(state)
      ensures ok ==> IsReset(state, sections)
    {
      var r := BuildResetState(sections);
      ok := r.Some?;
      if ok {
        state := r.value;
      }
    }
  }
}
