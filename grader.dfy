/** The back end's rule-based grading (backend/grading/grader.py): multiple-choice
    comparison, keyword scoring of written answers against rubric ideas, the fallback
    to an AI grader when keyword scoring gives nothing, and the early exits of the
    spoken-answer grader. The AI model is an input: what its call returned. */
module Grader {
  import opened Common

  /** The dictionary every grader returns: `auto_score`, `max_marks`, `feedback`. */
  datatype GradeResult = GradeResult(autoScore: int, maxMarks: int, feedback: string)

  /** Python's rendering of an optional string in an f-string (`None` when absent). */
  function PyText(s: Option<string>): string {
    match s
    case None => "None"
    case Some(t) => t
  }

  function Min(a: int, b: int): (m: int)
    ensures m <= a && m <= b && (m == a || m == b)
  {
    if a <= b then a else b
  }

  // --------------------------------------------------------------- MCQ

  /** `is_correct`: both options present and non-empty, equal after upper-casing. */
  predicate McqCorrect(selected: Option<string>, correct: Option<string>) {
    Truthy(selected) && Truthy(correct) && Upper(selected.value) == Upper(correct.value)
  }

  /** `grade_mcq`. */
  function GradeMcq(selected: Option<string>, correct: Option<string>): (r: GradeResult)
    ensures r.maxMarks == 1
    ensures r.autoScore == 1 <==> McqCorrect(selected, correct)
    ensures r.autoScore == 0 <==> !McqCorrect(selected, correct)
    ensures !McqCorrect(selected, correct) ==> r.feedback == "Incorrect. Correct answer: " + PyText(correct)
  {
    if McqCorrect(selected, correct) then GradeResult(1, 1, "Correct")
    else GradeResult(0, 1, "Incorrect. Correct answer: " + PyText(correct))
  }

  /** The comparison ignores case: an option matches itself in either case, and the
      test is symmetric. */
  lemma McqIgnoresCase(option: string)
    requires option != []
    ensures GradeMcq(Some(Lower(option)), Some(Upper(option))).autoScore == 1
    ensures GradeMcq(Some(option), Some(option)).autoScore == 1
  {
    assert Upper(Lower(option)) == Upper(Upper(option)) by {
      forall i | 0 <= i < |option|
        ensures Upper(Lower(option))[i] == Upper(Upper(option))[i]
      {
        var c := option[i];
        assert UpperChar(LowerChar(c)) == UpperChar(UpperChar(c));
      }
    }
  }

  lemma McqSymmetric(a: Option<string>, b: Option<string>)
    ensures GradeMcq(a, b).autoScore == GradeMcq(b, a).autoScore
  {
  }

  // ----------------------------------------------------------- keywords

  /** One rubric idea; `marks` is `None` when the JSON lacks it (default 1), absent
      term lists are empty. */
  datatype Idea = Idea(id: Option<string>, marks: Option<int>, requiredAny: seq<string>, banned: seq<string>, supporting: seq<string>)

  /** A keyword rubric: `max_marks` (default 1) and `ideas` (default none). */
  datatype Rubric = Rubric(maxMarks: Option<int>, ideas: seq<Idea>)

  function IdeaMarks(idea: Idea): int {
    idea.marks.GetOr(1)
  }

  function MaxMarks(rubric: Rubric): int {
    rubric.maxMarks.GetOr(1)
  }

  /** `any(t.lower() in text for t in terms if t)`. */
  predicate AnyTermIn(terms: seq<string>, text: string)
    ensures AnyTermIn(terms, text) <==> exists i :: 0 <= i < |terms| && terms[i] != "" && Contains(text, Lower(terms[i]))
  {
    if terms == [] then false
    else (terms[0] != "" && Contains(text, Lower(terms[0]))) || AnyTermIn(terms[1..], text)
  }

  /** How many supporting terms occur (`supporting_count`). */
  function CountTermsIn(terms: seq<string>, text: string): (n: nat)
    ensures n <= |terms|
  {
    if terms == [] then 0
    else (if terms[0] != "" && Contains(text, Lower(terms[0])) then 1 else 0) + CountTermsIn(terms[1..], text)
  }

  /** The marks one idea contributes, given the lower-cased answer. */
  function IdeaScore(idea: Idea, answerLower: string): int {
    if AnyTermIn(idea.banned, answerLower) then 0
    else if AnyTermIn(idea.requiredAny, answerLower) then IdeaMarks(idea)
    else 0
  }

  /** The feedback part of one idea. */
  function IdeaFeedback(idea: Idea, answerLower: string): string {
    var tag := "[" + PyText(idea.id) + "] ";
    if AnyTermIn(idea.banned, answerLower) then tag + "Contains misconception - 0 marks"
    else if AnyTermIn(idea.requiredAny, answerLower) then tag + "Matched - " + IntToString(IdeaMarks(idea)) + " marks"
    else tag + "Not matched - 0 marks"
  }

  /** `total_score` after the given ideas. */
  function TotalScore(ideas: seq<Idea>, answerLower: string): int {
    if ideas == [] then 0
    else TotalScore(ideas[..|ideas| - 1], answerLower) + IdeaScore(ideas[|ideas| - 1], answerLower)
  }

  function FeedbackParts(ideas: seq<Idea>, answerLower: string): (parts: seq<string>)
    ensures |parts| == |ideas|
    ensures forall i :: 0 <= i < |ideas| ==> parts[i] == IdeaFeedback(ideas[i], answerLower)
  {
    seq(|ideas|, i requires 0 <= i < |ideas| => IdeaFeedback(ideas[i], answerLower))
  }

  /** What `grade_keyword` returns. */
  function KeywordResult(answer: string, rubric: Rubric): GradeResult {
    if answer == "" then GradeResult(0, MaxMarks(rubric), "No answer provided")
    else
      var al := Lower(answer);
      GradeResult(
        Min(TotalScore(rubric.ideas, al), MaxMarks(rubric)),
        MaxMarks(rubric),
        if rubric.ideas == [] then "Graded by keyword matching" else Join(FeedbackParts(rubric.ideas, al), "; "))
  }

  /** Both accumulators after one more idea. */
  lemma KeywordStep(ideas: seq<Idea>, i: nat, answerLower: string)
    requires i < |ideas|
    ensures TotalScore(ideas[..i + 1], answerLower) == TotalScore(ideas[..i], answerLower) + IdeaScore(ideas[i], answerLower)
    ensures FeedbackParts(ideas[..i + 1], answerLower) == FeedbackParts(ideas[..i], answerLower) + [IdeaFeedback(ideas[i], answerLower)]
  {
    var init, next := ideas[..i], ideas[..i + 1];
    assert next[..i] == init;
    var a, b := FeedbackParts(next, answerLower), FeedbackParts(init, answerLower) + [IdeaFeedback(ideas[i], answerLower)];
    forall j | 0 <= j < |a| ensures a[j] == b[j] {
      if j < i {
        assert next[j] == init[j];
      }
    }
  }

  /** `grade_keyword`: the loop over the ideas, accumulating the score and the
      feedback parts. */
  method GradeKeyword(answer: string, rubric: Rubric) returns (r: GradeResult)
    ensures r == KeywordResult(answer, rubric)
  {
    if answer == "" {
      return GradeResult(0, MaxMarks(rubric), "No answer provided");
    }
    var answerLower := Lower(answer);
    var total := 0;
    var maxMarks := MaxMarks(rubric);
    var parts: seq<string> := [];
    var i := 0;
    while i < |rubric.ideas|
      invariant 0 <= i <= |rubric.ideas|
      invariant total == TotalScore(rubric.ideas[..i], answerLower)
      invariant parts == FeedbackParts(rubric.ideas[..i], answerLower)
    {
      var idea := rubric.ideas[i];
      var ideaMarks := IdeaMarks(idea);
      var tag := "[" + PyText(idea.id) + "] ";
      var part;
      if AnyTermIn(idea.banned, answerLower) {
        part := tag + "Contains misconception - 0 marks";
      } else if AnyTermIn(idea.requiredAny, answerLower) {
        var score := ideaMarks;
        if CountTermsIn(idea.supporting, answerLower) > 0 {
          // min(score + 0.25, idea_marks) is always the idea's marks.
          assert (ideaMarks as real) < (score as real) + 0.25;
          score := ideaMarks;
        }
        total := total + score;
        part := tag + "Matched - " + IntToString(score) + " marks";
      } else {
        part := tag + "Not matched - 0 marks";
      }
      assert part == IdeaFeedback(idea, answerLower);
      parts := parts + [part];
      KeywordStep(rubric.ideas, i, answerLower);
      i := i + 1;
    }
    assert rubric.ideas[..i] == rubric.ideas;
    r := GradeResult(Min(total, maxMarks), maxMarks,
                     if parts == [] then "Graded by keyword matching" else Join(parts, "; "));
  }

  /** A matching banned term zeroes the idea even when a required term matches too;
      otherwise a required match earns exactly the idea's marks, and the supporting
      terms play no part. */
  lemma IdeaScoreRule(idea: Idea, answerLower: string, otherSupporting: seq<string>)
    ensures AnyTermIn(idea.banned, answerLower) ==> IdeaScore(idea, answerLower) == 0
    ensures !AnyTermIn(idea.banned, answerLower) && AnyTermIn(idea.requiredAny, answerLower) ==>
      IdeaScore(idea, answerLower) == IdeaMarks(idea)
    ensures !AnyTermIn(idea.requiredAny, answerLower) ==> IdeaScore(idea, answerLower) == 0
    ensures IdeaScore(idea.(supporting := otherSupporting), answerLower) == IdeaScore(idea, answerLower)
  {
  }

  /** The sum of the ideas' marks, counting only non-negative ones. */
  function PositiveMarks(ideas: seq<Idea>): int {
    if ideas == [] then 0
    else PositiveMarks(ideas[..|ideas| - 1]) + (if IdeaMarks(ideas[|ideas| - 1]) > 0 then IdeaMarks(ideas[|ideas| - 1]) else 0)
  }

  /** With non-negative marks the total lies between 0 and the sum of all marks. */
  lemma {:induction false} TotalScoreBounds(ideas: seq<Idea>, answerLower: string)
    requires forall i :: 0 <= i < |ideas| ==> IdeaMarks(ideas[i]) >= 0
    ensures 0 <= TotalScore(ideas, answerLower) <= PositiveMarks(ideas)
  {
    if ideas != [] {
      TotalScoreBounds(ideas[..|ideas| - 1], answerLower);
    }
  }

  /** The score never exceeds `max_marks`, and with non-negative marks and a
      non-negative maximum it is never negative; feedback has one part per idea. */
  lemma KeywordResultBounds(answer: string, rubric: Rubric)
    ensures KeywordResult(answer, rubric).maxMarks == MaxMarks(rubric)
    ensures answer != "" || MaxMarks(rubric) >= 0 ==> KeywordResult(answer, rubric).autoScore <= MaxMarks(rubric)
    ensures (forall i :: 0 <= i < |rubric.ideas| ==> IdeaMarks(rubric.ideas[i]) >= 0) && MaxMarks(rubric) >= 0 ==>
      KeywordResult(answer, rubric).autoScore >= 0
    ensures answer == "" ==> KeywordResult(answer, rubric) == GradeResult(0, MaxMarks(rubric), "No answer provided")
    ensures answer != "" && rubric.ideas != [] ==>
      KeywordResult(answer, rubric).feedback == Join(FeedbackParts(rubric.ideas, Lower(answer)), "; ")
  {
    if answer != "" && (forall i :: 0 <= i < |rubric.ideas| ==> IdeaMarks(rubric.ideas[i]) >= 0) {
      TotalScoreBounds(rubric.ideas, Lower(answer));
    }
  }

  // ------------------------------------------------------------ AI fallback

  /** What the fallback's AI call produced: nothing usable (an exception or no JSON
      object in the reply), or the parsed `score` and `feedback`. */
  datatype AiReply = NoReply | Reply(score: int, feedback: string)

  /** `grade_keyword_with_ai_fallback`. `hasClient` says whether an API key was
      configured. */
  function GradeWithFallback(answer: string, rubric: Rubric, hasClient: bool, ai: AiReply): GradeResult {
    var kr := KeywordResult(answer, rubric);
    if kr.autoScore > 0 then kr
    else if hasClient && answer != "" && |PyStrip(answer)| > 5 && ai.Reply? then
      GradeResult(Min(ai.score, MaxMarks(rubric)), MaxMarks(rubric), "[AI] " + ai.feedback)
    else kr
  }

  /** A positive keyword score is returned unchanged; the AI is consulted only for a
      zero score, with a client and more than five characters of answer; an AI score
      is capped at `max_marks`, so the result never exceeds it. */
  lemma FallbackRules(answer: string, rubric: Rubric, hasClient: bool, ai: AiReply)
    ensures var kr, r := KeywordResult(answer, rubric), GradeWithFallback(answer, rubric, hasClient, ai);
      && (kr.autoScore > 0 ==> r == kr)
      && (!hasClient || |PyStrip(answer)| <= 5 || ai.NoReply? ==> r == kr)
      && (answer != "" || MaxMarks(rubric) >= 0 ==> r.autoScore <= MaxMarks(rubric))
      && r.maxMarks == MaxMarks(rubric)
  {
    KeywordResultBounds(answer, rubric);
  }

  // ------------------------------------------------------------- speaking

  /** The spoken grader's result: `ai_score` is `None` when no score could be had. */
  datatype SpeakingResult = SpeakingResult(aiScore: Option<int>, maxMarks: int, feedback: string)

  /** What its AI call produced: an exception (with its text), a reply without a JSON
      object, or the parsed `total` and `overall_feedback`. */
  datatype SpeakingReply = CallFailed(error: string) | Unparsed | Parsed(total: int, feedback: string)

  const SpeakingMaxMarks: int := 40

  /** `grade_speaking_with_ai`, without the prompt text and the score breakdown. */
  function GradeSpeaking(answer: string, hasClient: bool, reply: SpeakingReply): (r: SpeakingResult)
    ensures r.maxMarks == SpeakingMaxMarks
    ensures !hasClient ==> r.aiScore == None
    ensures hasClient && |PyStrip(answer)| < 10 ==> r.aiScore == Some(0)
    ensures r.aiScore.Some? && r.aiScore != Some(0) ==> reply.Parsed? && r.aiScore == Some(reply.total)
  {
    if !hasClient then SpeakingResult(None, 40, "AI grading unavailable - API key not configured")
    else if answer == "" || |PyStrip(answer)| < 10 then SpeakingResult(Some(0), 40, "Response too short to evaluate")
    else match reply
      case CallFailed(e) => SpeakingResult(None, 40, "AI grading error: " + e)
      case Unparsed => SpeakingResult(None, 40, "Could not parse AI response")
      case Parsed(total, fb) => SpeakingResult(Some(total), 40, fb)
  }
}
