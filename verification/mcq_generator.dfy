/** The quiz panel of a lesson: generating questions for the lesson's notes
    through the generation service, revealing answers one question at a time,
    and what the panel derives from that state (button enabled, labels,
    highlighted options). The service is not modelled; its answer is an input,
    either the returned questions or a failure. */
module MCQGenerator {
  import opened Types

  const EmptyNotesError: string := "Cannot generate questions without lesson notes."
  const GenerationFailedError: string := "Failed to generate questions. Please try again."

  const GenerateLabelText: string := "Generate Questions"
  const RegenerateLabelText: string := "Regenerate Questions"
  const GeneratingLabelText: string := "Generating..."
  const ShowAnswerText: string := "Show Answer"
  const HideAnswerText: string := "Hide Answer"

  /** The panel's own state: a request in flight, the error message shown and
      the indices of questions whose answer is revealed. */
  datatype QuizState = QuizState(isLoading: bool, error: Option<string>, revealed: seq<nat>)

  /** The state a freshly mounted panel starts in. */
  const Initial: QuizState := QuizState(false, None, [])

  /** What the generation service answered. */
  datatype ServiceOutcome = Success(mcqs: seq<MCQ>) | Failure

  // ---- revealed answers ----

  /** No index is listed twice. */
  predicate NoDup(s: seq<nat>)
  {
    forall i, j :: 0 <= i < j < |s| ==> s[i] != s[j]
  }

  /** `s` without any occurrence of `x`, the others in order. */
  function RemoveAll(s: seq<nat>, x: nat): (r: seq<nat>)
    ensures x !in r
    ensures forall y :: y != x ==> (y in r <==> y in s)
    ensures NoDup(s) ==> NoDup(r)
    ensures x !in s ==> r == s
  {
    if s == [] then []
    else
      assert s == [s[0]] + s[1..];
      var rest := RemoveAll(s[1..], x);
      assert NoDup(s) ==> NoDup(s[1..]) && s[0] !in rest by {
        if NoDup(s) {
          forall k | 0 <= k < |s[1..]|
            ensures s[1..][k] != s[0]
          {
            assert s[1..][k] == s[k + 1];
          }
        }
      }
      (if s[0] == x then [] else [s[0]]) + rest
  }

  /** The answer-toggle: hides question `index` if it is revealed, reveals it
      (at the end of the list) otherwise. */
  function Toggle(revealed: seq<nat>, index: nat): (r: seq<nat>)
    ensures index in r <==> index !in revealed
    ensures forall j :: j != index ==> (j in r <==> j in revealed)
    ensures NoDup(revealed) ==> NoDup(r)
  {
    if index in revealed then RemoveAll(revealed, index) else revealed + [index]
  }

  /** Toggling twice restores which questions are revealed. */
  lemma ToggleTwiceRestoresMembership(revealed: seq<nat>, index: nat)
    ensures forall j :: j in Toggle(Toggle(revealed, index), index) <==> j in revealed
  {
  }

  /** Revealing a hidden question and hiding it again restores the list itself. */
  lemma ToggleTwiceFromHidden(revealed: seq<nat>, index: nat)
    requires index !in revealed
    ensures Toggle(Toggle(revealed, index), index) == revealed
  {
    assert RemoveAll(revealed + [index], index) == revealed by {
      RemoveAllConcat(revealed, [index], index);
      assert [index][1..] == [];
    }
  }

  lemma {:induction false} RemoveAllConcat(a: seq<nat>, b: seq<nat>, x: nat)
    ensures RemoveAll(a + b, x) == RemoveAll(a, x) + RemoveAll(b, x)
  {
    if a == [] {
      assert a + b == b;
    } else {
      assert (a + b)[1..] == a[1..] + b;
      RemoveAllConcat(a[1..], b, x);
    }
  }

  // ---- derived display ----

  /** An option is highlighted when its question's answer is revealed and it
      is the question's recorded correct answer. */
  predicate Highlighted(revealed: seq<nat>, index: nat, mcq: MCQ, option: string)
  {
    index in revealed && option == mcq.correctAnswer
  }

  /** The label of question `index`'s toggle button. */
  function AnswerLabel(revealed: seq<nat>, index: nat): (text: string)
    ensures text == HideAnswerText <==> index in revealed
    ensures text == ShowAnswerText <==> index !in revealed
  {
    if index in revealed then HideAnswerText else ShowAnswerText
  }

  /** The generate button refuses clicks while a request is in flight or when
      the notes are empty. */
  predicate ButtonDisabled(st: QuizState, lesson: Lesson)
  {
    st.isLoading || lesson.notes == []
  }

  /** The generate button's text. */
  function GenerateLabel(st: QuizState, lesson: Lesson): (text: string)
    ensures text == GeneratingLabelText <==> st.isLoading
    ensures !st.isLoading ==> (text == RegenerateLabelText <==> |lesson.mcqs| > 0)
    ensures !st.isLoading ==> (text == GenerateLabelText <==> |lesson.mcqs| == 0)
  {
    if st.isLoading then GeneratingLabelText
    else if |lesson.mcqs| > 0 then RegenerateLabelText
    else GenerateLabelText
  }

  /** A click on an enabled button always gets past the empty-notes guard:
      the button is enabled exactly when no request is in flight and the
      click would issue one. */
  lemma EnabledButtonIssuesRequest(lesson: Lesson, st: QuizState)
    ensures !ButtonDisabled(st, lesson) <==> !st.isLoading && BeginGenerate(lesson, st).Requested?
  {
  }

  /** The highlight flags of question `index`'s options, in option order. */
  function OptionHighlights(revealed: seq<nat>, index: nat, mcq: MCQ): (flags: seq<bool>)
    ensures |flags| == |mcq.options|
    ensures forall k :: 0 <= k < |flags| ==> (flags[k] <==> Highlighted(revealed, index, mcq, mcq.options[k]))
    ensures (exists k :: 0 <= k < |flags| && flags[k]) <==> index in revealed && mcq.correctAnswer in mcq.options
  {
    seq(|mcq.options|, k requires 0 <= k < |mcq.options| => Highlighted(revealed, index, mcq, mcq.options[k]))
  }

  /** Toggling question `index` flips the highlight of its correct option and
      of nothing else: other options are never highlighted, and other
      questions keep theirs. */
  lemma ToggleFlipsHighlight(revealed: seq<nat>, index: nat, other: nat, mcq: MCQ, option: string)
    ensures Highlighted(Toggle(revealed, index), index, mcq, option)
            <==> option == mcq.correctAnswer && !Highlighted(revealed, index, mcq, option)
    ensures other != index ==>
              (Highlighted(Toggle(revealed, index), other, mcq, option) <==> Highlighted(revealed, other, mcq, option))
  {
  }

  /** Toggling flips the label of the toggled question. */
  lemma ToggleFlipsLabel(revealed: seq<nat>, index: nat)
    ensures AnswerLabel(Toggle(revealed, index), index) != AnswerLabel(revealed, index)
  {
  }

  /** A freshly mounted panel reveals no answer, shows no error, and its
      button is enabled exactly when the lesson has notes; it offers to
      regenerate exactly when the lesson already has questions. */
  lemma FreshPanel(lesson: Lesson, index: nat, mcq: MCQ, option: string)
    ensures !Highlighted(Initial.revealed, index, mcq, option)
    ensures AnswerLabel(Initial.revealed, index) == ShowAnswerText
    ensures Initial.error == None
    ensures !ButtonDisabled(Initial, lesson) <==> lesson.notes != []
    ensures GenerateLabel(Initial, lesson) == RegenerateLabelText <==> |lesson.mcqs| > 0
  {
  }

  // ---- generation ----

  /** The first, synchronous half of a click on the generate button: either
      the empty-notes guard fires, or the request for `notes` is issued and the
      panel shows it is busy. */
  datatype Begin = Rejected(state: QuizState) | Requested(state: QuizState, notes: string)

  function BeginGenerate(lesson: Lesson, st: QuizState): (b: Begin)
    ensures b.Rejected? <==> lesson.notes == []
    ensures b.Rejected? ==> b.state == QuizState(st.isLoading, Some(EmptyNotesError), st.revealed)
    ensures b.Requested? ==> b.notes == lesson.notes
    ensures b.Requested? ==> b.state.isLoading && b.state.error == None && b.state.revealed == st.revealed
    ensures b.Requested? ==> ButtonDisabled(b.state, lesson) && GenerateLabel(b.state, lesson) == GeneratingLabelText
  {
    if lesson.notes == [] then Rejected(st.(error := Some(EmptyNotesError)))
    else Requested(st.(isLoading := true, error := None), lesson.notes)
  }

  /** The second half, once the service has answered: the panel's new state
      and the lesson handed to the update callback, if any. */
  datatype Completion = Completion(state: QuizState, update: Option<Lesson>)

  function CompleteGenerate(lesson: Lesson, st: QuizState, outcome: ServiceOutcome): (c: Completion)
    ensures !c.state.isLoading
    ensures outcome.Success? ==> c.update.Some? && c.update.value.mcqs == outcome.mcqs
    ensures outcome.Success? ==> SameExceptMcqs(c.update.value, lesson)
    ensures outcome.Success? ==> c.state.revealed == [] && c.state.error == st.error
    ensures outcome.Failure? ==> c.update == None
    ensures outcome.Failure? ==> c.state.error == Some(GenerationFailedError) && c.state.revealed == st.revealed
  {
    match outcome
    case Success(mcqs) => Completion(QuizState(false, st.error, []), Some(lesson.(mcqs := mcqs)))
    case Failure => Completion(st.(isLoading := false, error := Some(GenerationFailedError)), None)
  }

  /** A whole click on the generate button, run to completion. */
  datatype Attempt = Attempt(state: QuizState, update: Option<Lesson>, serviceCalled: bool)

  function HandleGenerate(lesson: Lesson, st: QuizState, outcome: ServiceOutcome): (a: Attempt)
    ensures !a.serviceCalled <==> lesson.notes == []
    ensures lesson.notes == [] ==> a.update == None && a.state == QuizState(st.isLoading, Some(EmptyNotesError), st.revealed)
    ensures lesson.notes != [] ==> !a.state.isLoading
    ensures lesson.notes != [] && outcome.Success? ==>
              && a.update.Some?
              && a.update.value.mcqs == outcome.mcqs
              && SameExceptMcqs(a.update.value, lesson)
              && a.state == QuizState(false, None, [])
    ensures lesson.notes != [] && outcome.Failure? ==>
              a.update == None && a.state == QuizState(false, Some(GenerationFailedError), st.revealed)
  {
    match BeginGenerate(lesson, st)
    case Rejected(st') => Attempt(st', None, false)
    case Requested(st', _) =>
      var c := CompleteGenerate(lesson, st', outcome);
      Attempt(c.state, c.update, true)
  }

  /** After any attempt that got past the guard the button is usable again,
      and generating twice with the same answer gives the same lesson as
      generating once. */
  lemma RegenerateSameAnswer(lesson: Lesson, st: QuizState, mcqs: seq<MCQ>)
    requires lesson.notes != []
    ensures var a := HandleGenerate(lesson, st, Success(mcqs));
            && !ButtonDisabled(a.state, lesson)
            && HandleGenerate(a.update.value, a.state, Success(mcqs)).update == a.update
  {
  }

  /** Revealing answers never survives a successful regeneration: after it,
      no option of any question is highlighted. */
  lemma SuccessHidesAllAnswers(lesson: Lesson, st: QuizState, mcqs: seq<MCQ>, index: nat, mcq: MCQ, option: string)
    requires lesson.notes != []
    ensures !Highlighted(HandleGenerate(lesson, st, Success(mcqs)).state.revealed, index, mcq, option)
  {
  }
}
