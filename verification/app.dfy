/** The root component: the lesson collection together with the view state
    (splash shown, selected lesson, creation modal open), the handlers that
    change them, and which screen the state shows. Every handler is one
    atomic transition; the clock readings it needs are parameters. */
module App {
  import opened Types
  import Lessons
  import LessonList
  import MCQGenerator

  datatype AppState = AppState(
    isLoading: bool,
    lessons: seq<Lesson>,
    selectedLesson: Option<Lesson>,
    isModalOpen: bool)

  /** The state at start-up: the splash is showing, the collection is what
      local storage held, nothing is selected and the modal is closed. */
  function Init(stored: seq<Lesson>): (s: AppState)
    ensures s.isLoading && s.lessons == stored
    ensures s.selectedLesson == None && !s.isModalOpen
    ensures Render(s) == Splash
  {
    AppState(true, stored, None, false)
  }

  // ---- what is shown ----

  datatype Screen = ListScreen(list: LessonList.ListView) | DetailScreen(lesson: Lesson)

  /** Only the splash, or a page holding one screen and possibly the
      creation modal on top. */
  datatype View = Splash | Page(screen: Screen, modal: bool)

  function Render(s: AppState): (v: View)
    ensures v == Splash <==> s.isLoading
    ensures !s.isLoading ==> (v.screen.DetailScreen? <==> s.selectedLesson.Some?)
    ensures !s.isLoading ==> (v.modal <==> s.isModalOpen)
    ensures !s.isLoading && s.selectedLesson.Some? ==> v.screen.lesson == s.selectedLesson.value
    ensures !s.isLoading && s.selectedLesson.None? ==> v.screen.list == LessonList.Render(s.lessons)
  {
    if s.isLoading then Splash
    else
      var screen := match s.selectedLesson
        case Some(l) => DetailScreen(l)
        case None => ListScreen(LessonList.Render(s.lessons));
      Page(screen, s.isModalOpen)
  }

  // ---- handlers ----

  /** The splash timer has fired. */
  function FinishLoading(s: AppState): (r: AppState)
    ensures !r.isLoading
    ensures r.lessons == s.lessons && r.selectedLesson == s.selectedLesson && r.isModalOpen == s.isModalOpen
    ensures Render(r).Page?
  {
    s.(isLoading := false)
  }

  /** "New Lesson" in the header opens the creation modal. */
  function OpenModal(s: AppState): (r: AppState)
    ensures r.isModalOpen
    ensures r.isLoading == s.isLoading && r.lessons == s.lessons && r.selectedLesson == s.selectedLesson
    ensures !s.isLoading ==> Render(r).modal && Render(r).screen == Render(s).screen
  {
    s.(isModalOpen := true)
  }

  /** The modal's close action. */
  function CloseModal(s: AppState): (r: AppState)
    ensures !r.isModalOpen
    ensures r.isLoading == s.isLoading && r.lessons == s.lessons && r.selectedLesson == s.selectedLesson
    ensures !s.isLoading ==> !Render(r).modal && Render(r).screen == Render(s).screen
  {
    s.(isModalOpen := false)
  }

  /** Clicking a card opens that lesson's detail screen. */
  function SelectLesson(s: AppState, l: Lesson): (r: AppState)
    ensures r.selectedLesson == Some(l)
    ensures r.isLoading == s.isLoading && r.lessons == s.lessons && r.isModalOpen == s.isModalOpen
    ensures !s.isLoading ==> Render(r).screen == DetailScreen(l)
  {
    s.(selectedLesson := Some(l))
  }

  /** "All Lessons" on the detail screen returns to the list. */
  function Back(s: AppState): (r: AppState)
    ensures r.selectedLesson == None
    ensures r.isLoading == s.isLoading && r.lessons == s.lessons && r.isModalOpen == s.isModalOpen
    ensures !s.isLoading ==> Render(r).screen == ListScreen(LessonList.Render(s.lessons))
  {
    s.(selectedLesson := None)
  }

  /** Submitting the creation form: the new lesson (id and creation time from
      two clock readings) is appended and the modal closes; the screen stays. */
  function AddLesson(s: AppState, draft: Draft, id: string, createdAt: int): (r: AppState)
    ensures r.lessons == Lessons.Add(s.lessons, draft, id, createdAt)
    ensures |r.lessons| == |s.lessons| + 1
    ensures r.lessons[..|s.lessons|] == s.lessons
    ensures DraftOf(r.lessons[|s.lessons|]) == draft
    ensures r.lessons[|s.lessons|].mcqs == [] && r.lessons[|s.lessons|].feedback == None
    ensures r.lessons[|s.lessons|].id == id && r.lessons[|s.lessons|].createdAt == createdAt
    ensures !r.isModalOpen
    ensures r.selectedLesson == s.selectedLesson && r.isLoading == s.isLoading
    ensures !s.isLoading ==> !Render(r).modal && (Render(r).screen.DetailScreen? <==> Render(s).screen.DetailScreen?)
  {
    s.(lessons := Lessons.Add(s.lessons, draft, id, createdAt), isModalOpen := false)
  }

  /** A lesson changed on the detail screen: it replaces every entry with its
      id and becomes the selected lesson, whether or not an entry matched. */
  function UpdateLesson(s: AppState, updated: Lesson): (r: AppState)
    ensures r.lessons == Lessons.Update(s.lessons, updated)
    ensures |r.lessons| == |s.lessons|
    ensures forall k :: 0 <= k < |s.lessons| ==>
              r.lessons[k] == if s.lessons[k].id == updated.id then updated else s.lessons[k]
    ensures r.selectedLesson == Some(updated)
    ensures r.isLoading == s.isLoading && r.isModalOpen == s.isModalOpen
    ensures !s.isLoading ==> Render(r).screen == DetailScreen(updated)
  {
    s.(lessons := Lessons.Update(s.lessons, updated), selectedLesson := Some(updated))
  }

  /** Deleting a lesson: every entry with the id goes, and the list screen
      comes back. */
  function DeleteLesson(s: AppState, id: string): (r: AppState)
    ensures r.lessons == Lessons.Delete(s.lessons, id)
    ensures forall k :: 0 <= k < |r.lessons| ==> r.lessons[k].id != id
    ensures forall l :: l in r.lessons <==> l in s.lessons && l.id != id
    ensures |r.lessons| == |s.lessons| - Lessons.CountId(s.lessons, id)
    ensures r.selectedLesson == None
    ensures r.isLoading == s.isLoading && r.isModalOpen == s.isModalOpen
    ensures !s.isLoading ==> Render(r).screen.ListScreen?
  {
    s.(lessons := Lessons.Delete(s.lessons, id), selectedLesson := None)
  }

  /** The delete button of the detail screen: deletes the shown lesson only
      when the user confirmed the dialog. */
  function ConfirmDelete(s: AppState, confirmed: bool): (r: AppState)
    ensures !confirmed || s.selectedLesson.None? ==> r == s
    ensures confirmed && s.selectedLesson.Some? ==>
              && r.lessons == Lessons.Delete(s.lessons, s.selectedLesson.value.id)
              && r.selectedLesson == None
              && r.isLoading == s.isLoading && r.isModalOpen == s.isModalOpen
  {
    match s.selectedLesson
    case Some(l) => if confirmed then DeleteLesson(s, l.id) else s
    case None => s
  }

  // ---- the session as a sequence of events ----

  datatype Event =
    | TimerFired
    | OpenModalClicked
    | CloseModalClicked
    | Selected(lesson: Lesson)
    | BackClicked
    | Submitted(draft: Draft, id: string, createdAt: int)
    | Updated(lesson: Lesson)
    | DeleteClicked(confirmed: bool)

  function Step(s: AppState, e: Event): (r: AppState)
    ensures !e.TimerFired? ==> r.isLoading == s.isLoading
    ensures e.Submitted? || e.Updated? || e.DeleteClicked? || r.lessons == s.lessons
  {
    match e
    case TimerFired => FinishLoading(s)
    case OpenModalClicked => OpenModal(s)
    case CloseModalClicked => CloseModal(s)
    case Selected(l) => SelectLesson(s, l)
    case BackClicked => Back(s)
    case Submitted(d, id, t) => AddLesson(s, d, id, t)
    case Updated(l) => UpdateLesson(s, l)
    case DeleteClicked(c) => ConfirmDelete(s, c)
  }

  function Run(s: AppState, events: seq<Event>): AppState
    decreases |events|
  {
    if events == [] then s else Run(Step(s, events[0]), events[1..])
  }

  /** A submission in state `s` brings an id no stored lesson carries. */
  predicate FreshFor(s: AppState, e: Event)
  {
    e.Submitted? ==> !Lessons.HasId(s.lessons, e.id)
  }

  /** Every event keeps the collection's ids unique, provided a submission
      brings a fresh id (the source does not ensure this: its ids are clock
      readings). */
  lemma StepKeepsUniqueIds(s: AppState, e: Event)
    requires Lessons.UniqueIds(s.lessons)
    requires FreshFor(s, e)
    ensures Lessons.UniqueIds(Step(s, e).lessons)
  {
    match e
    case Submitted(d, id, t) => Lessons.AddKeepsUniqueIds(s.lessons, d, id, t);
    case Updated(l) => Lessons.UpdateKeepsUniqueIds(s.lessons, l);
    case DeleteClicked(c) =>
      if c && s.selectedLesson.Some? {
        Lessons.DeleteKeepsUniqueIds(s.lessons, s.selectedLesson.value.id);
      }
    case _ =>
  }

  /** Every submission of `events`, run from `s`, brings a fresh id. */
  predicate AllFresh(s: AppState, events: seq<Event>)
    decreases |events|
  {
    events == [] || (FreshFor(s, events[0]) && AllFresh(Step(s, events[0]), events[1..]))
  }

  /** Sessions whose submissions bring fresh ids keep the ids unique. */
  lemma {:induction false} RunKeepsUniqueIds(s: AppState, events: seq<Event>)
    requires Lessons.UniqueIds(s.lessons)
    requires AllFresh(s, events)
    ensures Lessons.UniqueIds(Run(s, events).lessons)
    decreases |events|
  {
    if events != [] {
      StepKeepsUniqueIds(s, events[0]);
      RunKeepsUniqueIds(Step(s, events[0]), events[1..]);
    }
  }

  /** Running `a` and then `b` is running `a + b`. */
  lemma {:induction false} RunConcat(s: AppState, a: seq<Event>, b: seq<Event>)
    ensures Run(s, a + b) == Run(Run(s, a), b)
    decreases |a|
  {
    if a == [] {
      assert a + b == b;
    } else {
      assert (a + b)[1..] == a[1..] + b;
      RunConcat(Step(s, a[0]), a[1..], b);
    }
  }

  /** Running one event is one step. */
  lemma RunOne(s: AppState, e: Event)
    ensures Run(s, [e]) == Step(s, e)
  {
    assert [e][1..] == [];
  }

  /** A session split around one event: the part before it, the event, and
      the part after it. */
  lemma RunAround(s: AppState, pre: seq<Event>, e: Event, post: seq<Event>)
    ensures Run(s, pre + [e] + post) == Run(Step(Run(s, pre), e), post)
  {
    RunConcat(s, pre + [e], post);
    RunConcat(s, pre, [e]);
    RunOne(Run(s, pre), e);
  }

  // ---- the collection over a session ----

  /** The ids the submissions of `events` bring. */
  function SubmittedIds(events: seq<Event>): set<string>
    decreases |events|
  {
    if events == [] then {}
    else (if events[0].Submitted? then {events[0].id} else {}) + SubmittedIds(events[1..])
  }

  /** One step adds no id but the one a submission brings. */
  lemma StepNoIdFromNowhere(s: AppState, e: Event, id: string)
    ensures Lessons.HasId(Step(s, e).lessons, id) ==> Lessons.HasId(s.lessons, id) || (e.Submitted? && e.id == id)
  {
    var r := Step(s, e).lessons;
    if Lessons.HasId(r, id) {
      var k :| 0 <= k < |r| && r[k].id == id;
      match e
      case Submitted(d, i, t) =>
        if k < |s.lessons| {
          assert s.lessons[k] == r[k];
        }
      case Updated(u) => Lessons.UpdateKeepsIds(s.lessons, u);
      case DeleteClicked(c) =>
        assert r[k] in s.lessons;
      case _ =>
    }
  }

  /** At the end of a session, every id of the collection was there at the
      start or was brought by a submission. */
  lemma {:induction false} NoIdFromNowhere(s: AppState, events: seq<Event>, id: string)
    ensures Lessons.HasId(Run(s, events).lessons, id) ==> Lessons.HasId(s.lessons, id) || id in SubmittedIds(events)
    decreases |events|
  {
    if events != [] {
      StepNoIdFromNowhere(s, events[0], id);
      NoIdFromNowhere(Step(s, events[0]), events[1..], id);
    }
  }

  /** Whether event `e` in state `s` can change the lessons carrying `id`: a
      submission or an update with that id, or a confirmed delete while a
      lesson with that id is selected. */
  predicate Touches(s: AppState, e: Event, id: string)
  {
    match e
    case Submitted(_, i, _) => i == id
    case Updated(l) => l.id == id
    case DeleteClicked(c) => c && s.selectedLesson.Some? && s.selectedLesson.value.id == id
    case _ => false
  }

  /** No event of `events`, run from `s`, touches `id`. */
  predicate Untouched(s: AppState, events: seq<Event>, id: string)
    decreases |events|
  {
    events == [] || (!Touches(s, events[0], id) && Untouched(Step(s, events[0]), events[1..], id))
  }

  /** A step that does not touch `id` keeps exactly the lessons carrying it. */
  lemma StepKeepsUntouched(s: AppState, e: Event, id: string, l: Lesson)
    requires !Touches(s, e, id)
    requires l.id == id
    ensures l in Step(s, e).lessons <==> l in s.lessons
  {
    match e
    case Updated(u) => Lessons.UpdateKeepsOtherEntries(s.lessons, u, l);
    case _ =>
  }

  /** A run that never touches `id` keeps exactly the lessons carrying it. */
  lemma {:induction false} RunKeepsUntouched(s: AppState, events: seq<Event>, id: string, l: Lesson)
    requires Untouched(s, events, id)
    requires l.id == id
    ensures l in Run(s, events).lessons <==> l in s.lessons
    decreases |events|
  {
    if events != [] {
      StepKeepsUntouched(s, events[0], id, l);
      RunKeepsUntouched(Step(s, events[0]), events[1..], id, l);
    }
  }

  /** A lesson submitted during a session is in the collection at its end,
      unless a later event touched its id. */
  lemma SubmittedLessonSurvives(s: AppState, pre: seq<Event>, draft: Draft, id: string, createdAt: int, post: seq<Event>)
    requires Untouched(Step(Run(s, pre), Submitted(draft, id, createdAt)), post, id)
    ensures Lessons.NewLesson(draft, id, createdAt) in Run(s, pre + [Submitted(draft, id, createdAt)] + post).lessons
  {
    var e := Submitted(draft, id, createdAt);
    var m := Step(Run(s, pre), e);
    RunAround(s, pre, e, post);
    assert m.lessons[|Run(s, pre).lessons|] == Lessons.NewLesson(draft, id, createdAt);
    RunKeepsUntouched(m, post, id, Lessons.NewLesson(draft, id, createdAt));
  }

  /** An update of a lesson in the collection is what the collection shows for
      its id at the end of the session, unless a later event touched the id:
      the updated lesson is then the only entry carrying it. */
  lemma LatestUpdateShows(s: AppState, pre: seq<Event>, updated: Lesson, post: seq<Event>, l: Lesson)
    requires Lessons.HasId(Run(s, pre).lessons, updated.id)
    requires Untouched(Step(Run(s, pre), Updated(updated)), post, updated.id)
    requires l.id == updated.id
    ensures l in Run(s, pre + [Updated(updated)] + post).lessons <==> l == updated
  {
    var e := Updated(updated);
    var m := Step(Run(s, pre), e);
    RunAround(s, pre, e, post);
    Lessons.UpdateLeavesOnlyUpdated(Run(s, pre).lessons, updated, l);
    RunKeepsUntouched(m, post, updated.id, l);
  }

  /** A confirmed delete removes the selected lesson's id for the rest of the
      session, unless a later submission brings the same id again. */
  lemma DeletedIdStaysGone(s: AppState, pre: seq<Event>, post: seq<Event>)
    requires Run(s, pre).selectedLesson.Some?
    requires Run(s, pre).selectedLesson.value.id !in SubmittedIds(post)
    ensures !Lessons.HasId(Run(s, pre + [DeleteClicked(true)] + post).lessons, Run(s, pre).selectedLesson.value.id)
  {
    var e := DeleteClicked(true);
    var id := Run(s, pre).selectedLesson.value.id;
    var m := Step(Run(s, pre), e);
    RunAround(s, pre, e, post);
    NoIdFromNowhere(m, post, id);
  }

  /** The events the program can deliver in state `s`. While the splash
      shows nothing but the timer is mounted. The header is always on a page;
      the modal's actions need the modal; a card click needs the list screen
      and a lesson of the collection; back and delete need the detail screen.
      An update may arrive on any page: a generation still in flight calls the
      update handler even after the user went back. */
  predicate Enabled(s: AppState, e: Event)
  {
    match e
    case TimerFired => s.isLoading
    case OpenModalClicked => !s.isLoading
    case CloseModalClicked => !s.isLoading && s.isModalOpen
    case Selected(l) => !s.isLoading && s.selectedLesson.None? && l in s.lessons
    case BackClicked => !s.isLoading && s.selectedLesson.Some?
    case Submitted(_, _, _) => !s.isLoading && s.isModalOpen
    case Updated(_) => !s.isLoading
    case DeleteClicked(_) => !s.isLoading && s.selectedLesson.Some?
  }

  /** Every event of `events`, run from `s`, is one the program can deliver. */
  predicate AllEnabled(s: AppState, events: seq<Event>)
    decreases |events|
  {
    events == [] || (Enabled(s, events[0]) && AllEnabled(Step(s, events[0]), events[1..]))
  }

  /** While the splash shows, the timer is the only possible event, and it
      leads to the list screen of the stored collection with nothing selected
      and no modal. */
  lemma SplashOnlyEndsByTimer(s: AppState, e: Event)
    requires s.isLoading && s.selectedLesson.None? && !s.isModalOpen
    requires Enabled(s, e)
    ensures e == TimerFired
    ensures Render(Step(s, e)) == Page(ListScreen(LessonList.Render(s.lessons)), false)
  {
  }

  /** Once the splash is gone it never returns, whatever events follow. */
  lemma {:induction false} RunNeverReturnsToSplash(s: AppState, events: seq<Event>)
    requires !s.isLoading
    ensures !Run(s, events).isLoading
    decreases |events|
  {
    if events != [] {
      RunNeverReturnsToSplash(Step(s, events[0]), events[1..]);
    }
  }

  /** A session from start-up: it either has not left the splash yet (and
      then nothing has happened), or its first event is the timer and the
      first page is the list screen of the stored collection, without a
      selection or a modal, and the splash never comes back. */
  lemma {:induction false} SessionFromInit(stored: seq<Lesson>, events: seq<Event>)
    requires AllEnabled(Init(stored), events)
    ensures events == [] ==> Render(Run(Init(stored), events)) == Splash
    ensures events != [] ==> events[0] == TimerFired
    ensures events != [] ==>
              Render(Step(Init(stored), events[0])) == Page(ListScreen(LessonList.Render(stored)), false)
    ensures events != [] ==> !Run(Init(stored), events).isLoading
  {
    if events != [] {
      SplashOnlyEndsByTimer(Init(stored), events[0]);
      RunNeverReturnsToSplash(Step(Init(stored), events[0]), events[1..]);
    }
  }

  // ---- the quiz panel wired to the collection ----

  /** Generating questions for the shown lesson, with the service answering
      `mcqs`: the collection entries with that lesson's id now hold the new
      questions and otherwise the shown lesson's data, all other entries are
      unchanged, and the detail screen shows the updated lesson. */
  lemma GeneratedQuestionsReachCollection(s: AppState, st: MCQGenerator.QuizState, mcqs: seq<MCQ>)
    requires !s.isLoading
    requires s.selectedLesson.Some? && s.selectedLesson.value.notes != []
    ensures var shown := s.selectedLesson.value;
            var a := MCQGenerator.HandleGenerate(shown, st, MCQGenerator.Success(mcqs));
            && a.update.Some?
            && var r := ApplyUpdate(s, a.update);
            && |r.lessons| == |s.lessons|
            && (forall k :: 0 <= k < |s.lessons| && s.lessons[k].id == shown.id ==>
                  r.lessons[k].mcqs == mcqs && SameExceptMcqs(r.lessons[k], shown))
            && (forall k :: 0 <= k < |s.lessons| && s.lessons[k].id != shown.id ==> r.lessons[k] == s.lessons[k])
            && Render(r).screen.DetailScreen?
            && Render(r).screen.lesson.mcqs == mcqs
  {
  }

  /** The wiring of the detail screen's update callback: a lesson handed on
      goes through the update handler, no lesson changes nothing. */
  function ApplyUpdate(s: AppState, update: Option<Lesson>): AppState
  {
    match update
    case Some(l) => UpdateLesson(s, l)
    case None => s
  }

  /** A generation refused for empty notes or answered by a failure leaves the
      application state untouched: collection, selection, modal and splash. */
  lemma FailedGenerationChangesNothing(s: AppState, lesson: Lesson, st: MCQGenerator.QuizState, outcome: MCQGenerator.ServiceOutcome)
    requires lesson.notes == [] || outcome.Failure?
    ensures ApplyUpdate(s, MCQGenerator.HandleGenerate(lesson, st, outcome).update) == s
  {
  }

  /** Two events in a row. */
  lemma RunTwo(s: AppState, e1: Event, e2: Event)
    ensures Run(s, [e1, e2]) == Step(Step(s, e1), e2)
    ensures AllEnabled(s, [e1, e2]) <==> Enabled(s, e1) && Enabled(Step(s, e1), e2)
  {
    var events := [e1, e2];
    assert events[0] == e1 && events[1..] == [e2];
    assert Run(s, events) == Run(Step(s, e1), [e2]);
    RunOne(Step(s, e1), e2);
    assert AllEnabled(Step(s, e1), [e2]) <==> Enabled(Step(s, e1), e2) by {
      assert [e2][1..] == [];
    }
  }

  /** An update whose id no entry carries leaves the collection as it is
      but still shows the updated lesson's detail screen. */
  lemma UpdateOfAbsentLesson(d: AppState, a: Lesson)
    requires !d.isLoading && !Lessons.HasId(d.lessons, a.id)
    ensures Enabled(d, Updated(a))
    ensures Step(d, Updated(a)).lessons == d.lessons
    ensures Render(Step(d, Updated(a))) == Page(DetailScreen(a), d.isModalOpen)
  {
    Lessons.UpdateAbsentIsIdentity(d.lessons, a);
  }

  /** A confirmed delete on the detail screen of `a` removes `a`'s id and
      keeps the page and its modal. */
  lemma ConfirmedDeleteOfShown(s: AppState, a: Lesson)
    requires !s.isLoading && s.selectedLesson == Some(a)
    ensures Enabled(s, DeleteClicked(true))
    ensures var d := Step(s, DeleteClicked(true));
            !d.isLoading && !Lessons.HasId(d.lessons, a.id) && d.isModalOpen == s.isModalOpen
  {
  }

  /** An update that arrives after its lesson was deleted (a generation still
      running when the user confirmed the delete) matches no entry of the
      collection, yet the update handler selects it: the detail screen of the
      deleted lesson comes back. */
  lemma UpdateAfterDeleteShowsDeletedLesson(s: AppState, a: Lesson)
    requires !s.isLoading && s.selectedLesson == Some(a)
    ensures AllEnabled(s, [DeleteClicked(true), Updated(a)])
    ensures var r := Run(s, [DeleteClicked(true), Updated(a)]);
            && !Lessons.HasId(r.lessons, a.id)
            && Render(r) == Page(DetailScreen(a), s.isModalOpen)
  {
    RunTwo(s, DeleteClicked(true), Updated(a));
    ConfirmedDeleteOfShown(s, a);
    UpdateOfAbsentLesson(Step(s, DeleteClicked(true)), a);
  }
}
