# my-lessons: lesson collection and quiz panel, modelled in Dafny

my-lessons is a browser study-notes manager. Users create lessons (title,
notes, optional course and images). For a lesson they can generate
multiple-choice questions through a generative-AI service. This project
models the client-side logic of the application:

- `Types` (`types.dfy`): the `MCQ` and `Lesson` records. A `Draft` is what the
  creation form hands over. `course` and `feedback` are `Option<string>`, and
  `createdAt` is an integer timestamp, the value `getTime()` yields.
- `Lessons` (`lessons.dfy`): the collection transitions of the root component.
  `Add` appends a fresh lesson, `Update` replaces by id (a `map`) and `Delete`
  removes by id (a `filter`). Ids are not assumed to be unique.
- `App` (`app.dfy`): the root component's view state. This is `isLoading`,
  `selectedLesson` and `isModalOpen`, with one function per handler. `Render`
  decides between the splash, the list screen, the detail screen and the modal
  overlay. `Step`/`Run` drive a session as a sequence of events.
- `LessonList` (`lesson_list.dfy`): the list screen. It has an empty state,
  sorts a copy by creation time with the most recent first (a stable sort, as
  `Array.prototype.sort` is), shows a 100-character notes preview with a
  placeholder, and shows the course badge.
- `MCQGenerator` (`mcq_generator.dfy`): the quiz panel. It covers the
  empty-notes guard, the two outcomes of the service call, the
  revealed-answer toggle, the button's enabled state and labels, and the
  answer highlight.

Inputs the program takes from outside become parameters:
- The clock: `id` and `createdAt` of a new lesson. They come from two separate
  clock readings, so the model imposes no relation between them.
- The generation service's answer: `ServiceOutcome`, either `Success(mcqs)` or
  `Failure`.
- The user's answer to the delete confirmation dialog: `confirmed`.
- The collection read from local storage at start-up.

The list screen sorts a copy (`slice()`), so the collection itself is never
reordered. In the model this holds by construction, because sequences are
values: `LessonList.Render` takes the collection and returns cards.

The notes preview falls back to `No notes yet.` when the first 100
characters of the notes are empty (components/LessonList.tsx:36), which
happens exactly for empty notes. Notes whose text is literally
`No notes yet.` therefore show the same string as empty notes.
`LessonList.Preview` states when the fallback is taken.
`LessonList.PreviewShowsPlaceholderIff` states exactly which notes show that
string.

`App.Step` is total: it gives every event a result in every state. Which
events the program can actually deliver in a state is stated separately by
`App.Enabled`. While the splash shows, only the timer is mounted. The
modal's actions need the modal open. A card click needs the list screen and
a lesson of the collection. Back and delete need the detail screen. An update
can arrive whenever the splash is gone, because a generation still running
calls the update handler even after the user went back. The session lemmas
about start-up take `App.AllEnabled` as a premise. The unique-id lemmas hold
for every event sequence, so they do not need it.

Over a whole session, the collection holds the lessons added minus those
removed, each entry showing its latest update. `App.NoIdFromNowhere`,
`App.SubmittedLessonSurvives`, `App.LatestUpdateShows` and
`App.DeletedIdStaysGone` state this for every event sequence. They need
neither unique ids nor deliverable events. An event "touches" an id when
it is a submission or an update carrying the id, or a confirmed delete
while a lesson with that id is selected.

The update handler selects the lesson it receives even when no entry of
the collection carries its id (App.tsx:33-36). The quiz panel's generation
calls that handler when the service answers (components/MCQGenerator.tsx:26),
and nothing cancels the call when the lesson is deleted in the meantime.
So an answer that arrives after a confirmed delete brings back the detail
screen of the deleted lesson, which is no longer in the collection.
`App.UpdateAfterDeleteShowsDeletedLesson` states this sequence.

## Model

| member | source | states |
|---|---|---|
| Lessons.NewLesson | App.tsx:21-28 | The created lesson carries exactly the draft's title, notes, images and course. It gets the given id and creation time, no questions and no feedback, whatever the draft held. |
| Lessons.Add | App.tsx:29 | Adding grows the collection by exactly one. The earlier lessons stay unchanged and in order, and the new lesson is last. |
| Lessons.Update | App.tsx:34 | Length is preserved. Every entry carrying the updated id becomes the updated lesson, and every other entry stays unchanged at its position. |
| Lessons.UpdateAbsentIsIdentity | App.tsx:34 | When no entry carries the id, an update leaves the collection unchanged. |
| Lessons.UpdateKeepsIds | App.tsx:34 | An update keeps every position's id, so the set of ids present is unchanged. |
| Lessons.UpdateKeepsOtherEntries | App.tsx:34 | A lesson with another id is in the collection after an update iff it was before. |
| Lessons.UpdateLeavesOnlyUpdated | App.tsx:34 | When the id is present, the updated lesson is the only lesson carrying it after the update. |
| Lessons.UpdateIdempotent | App.tsx:34 | Applying the same update twice equals applying it once. |
| Lessons.UpdateUniqueTouchesOne | App.tsx:34 | With unique ids, an update replaces exactly the one position holding the id. |
| Lessons.UpdateKeepsUniqueIds | App.tsx:34 | Updates preserve the invariant that ids are unique. |
| Lessons.Delete | App.tsx:39 | No survivor carries the deleted id. A lesson survives iff it was present with a different id. The length drops by the number of entries carrying the id. |
| Lessons.DeleteKeepsLengthIffAbsent | App.tsx:39 | Deletion leaves the length unchanged iff no entry carries the id. |
| Lessons.CountIdZero | App.tsx:39 | No entry is counted for an id iff no entry carries it. |
| Lessons.DeleteAbsentIsIdentity | App.tsx:39 | Deleting an id no entry carries leaves the collection unchanged. |
| Lessons.DeleteConcat | App.tsx:39 | Deletion distributes over concatenation. With `DeleteSingleton` this fixes the survivors as the non-matching entries in their original order. |
| Lessons.DeleteSingleton | App.tsx:39 | A single lesson survives deletion iff its id differs. |
| Lessons.DeleteIdempotent | App.tsx:39 | Deleting the same id twice equals deleting it once. |
| Lessons.DeleteKeepsUniqueIds | App.tsx:39 | Deletions preserve the invariant that ids are unique. |
| Lessons.DeleteAfterUpdate | App.tsx:34-39 | Updating a lesson and then deleting its id equals deleting the id alone. |
| Lessons.DeleteUndoesAdd | App.tsx:21-39 | Deleting the id of a lesson just added under an unused id restores the collection: delete is the inverse of add. |
| Lessons.AddKeepsUniqueIds | App.tsx:21-29 | Adding under an unused id keeps the ids unique. |
| Lessons.UpdateAfterAdd | App.tsx:21-34 | An update right after adding under a fresh id rewrites only the new, last lesson. |
| App.Init | App.tsx:11-14 | The start-up state shows only the splash, holds the stored collection, has nothing selected and the modal closed. |
| App.Render | App.tsx:43-67 | While loading, only the splash shows. Otherwise the detail screen of the selected lesson shows iff one is selected, else the list screen of the collection. The modal overlay shows iff the modal is open, independently of the screen. |
| App.FinishLoading | App.tsx:16-19 | When the splash timer fires, the splash goes and nothing else changes. |
| App.OpenModal | App.tsx:49 | The header's "New Lesson" opens the overlay and leaves the screen unchanged. |
| App.CloseModal | App.tsx:64 | Closing the modal hides the overlay and leaves the screen unchanged. |
| App.SelectLesson | App.tsx:59 | Selecting a card shows that lesson's detail screen. The collection and the modal are unchanged. |
| App.Back | App.tsx:54 | Going back clears the selection and shows the list screen of the unchanged collection. |
| App.AddLesson | App.tsx:21-31 | The collection changes as in `Lessons.Add`. Adding appends exactly one fresh lesson after the unchanged earlier ones, closes the modal and keeps the selection and the kind of screen shown. |
| App.UpdateLesson | App.tsx:33-36 | The collection changes as in `Lessons.Update`. The selected lesson becomes exactly the updated one, even when no entry matched, and the detail screen shows it. |
| App.DeleteLesson | App.tsx:38-41 | The collection changes as in `Lessons.Delete`: no lesson with the id remains, and the others all survive. The selection is cleared, so the list screen shows. |
| App.ConfirmDelete | components/LessonView.tsx:16-20 | The detail screen's delete changes nothing unless the user confirmed. On confirmation it deletes the shown lesson's id. |
| App.Step | App.tsx:21-67 | Only the splash timer changes `isLoading`. Only submit, update and delete change the collection. |
| App.StepKeepsUniqueIds | App.tsx:21-41 | Every handler keeps ids unique, provided a submitted lesson's id is not already in use. |
| App.RunKeepsUniqueIds | App.tsx:21-41 | Any session whose submissions bring unused ids keeps the ids unique. |
| App.SplashOnlyEndsByTimer | App.tsx:16-19 | In the start-up state only the timer can fire (`Enabled`), and it leads to the list screen of the stored collection with no modal. |
| App.RunNeverReturnsToSplash | App.tsx:16-19 | Once the splash is gone, no sequence of events brings it back. |
| App.SessionFromInit | App.tsx:11-19 | A session from start-up made of deliverable events either is still on the splash with nothing happened, or begins with the timer. Its first page is then the list screen of the stored collection with nothing selected and the modal closed, and the splash never returns. |
| App.StepNoIdFromNowhere | App.tsx:21-41 | After one event, every id of the collection was already there or is the id the event submitted. |
| App.NoIdFromNowhere | App.tsx:21-41 | At the end of a session, every id of the collection was there at the start or was brought by a submission of the session. |
| App.StepKeepsUntouched | App.tsx:21-41 | An event that does not touch an id keeps exactly the lessons carrying it. |
| App.RunKeepsUntouched | App.tsx:21-41 | A run that never touches an id keeps exactly the lessons carrying it. |
| App.SubmittedLessonSurvives | App.tsx:21-31 | A lesson submitted during a session is in the final collection unless a later event touches its id. |
| App.LatestUpdateShows | App.tsx:33-36 | An update of an id present in the collection leaves the updated lesson as the only entry with that id at the end, unless a later event touches the id. |
| App.DeletedIdStaysGone | App.tsx:38-41 | After a confirmed delete of the shown lesson, its id is absent from the final collection unless a later submission brings it again. |
| App.UpdateOfAbsentLesson | App.tsx:33-36 | An update whose id no entry carries is deliverable on a page, leaves the collection unchanged and shows the updated lesson's detail screen. |
| App.ConfirmedDeleteOfShown | components/LessonView.tsx:16-20 | A confirmed delete on a lesson's detail screen is deliverable, removes every entry with that id and keeps the page and its modal. |
| App.UpdateAfterDeleteShowsDeletedLesson | App.tsx:33-41 | A confirmed delete followed by an update of the deleted lesson is a deliverable sequence. It ends with no entry carrying the id, yet on the deleted lesson's detail screen. |
| App.GeneratedQuestionsReachCollection | components/MCQGenerator.tsx:24-27 | A successful generation for the shown lesson, passed through the update handler, gives every entry with that id the new questions and the shown lesson's other fields. All other entries are unchanged, and the detail screen shows the new questions. |
| App.FailedGenerationChangesNothing | components/MCQGenerator.tsx:18-29 | A refused or failed generation, wired to the update handler through `ApplyUpdate`, leaves the application state unchanged: collection, selection, modal and splash. |
| LessonList.Preview | components/LessonList.tsx:36 | Empty notes show the placeholder. Otherwise the preview is the prefix of the notes of length min(100, notes length). |
| LessonList.PreviewShowsPlaceholderIff | components/LessonList.tsx:36 | The shown text is the placeholder iff the notes are empty or are the placeholder text itself. |
| LessonList.ShortNotesShownWhole | components/LessonList.tsx:36 | Non-empty notes of at most 100 characters are shown whole. |
| LessonList.CourseBadge | components/LessonList.tsx:40-44 | The course badge shows iff a non-empty course is present, and then shows that course. |
| LessonList.Insert | components/LessonList.tsx:25 | Insertion adds exactly that lesson (multiset) and puts either it or the former first lesson at the front. |
| LessonList.InsertSorted | components/LessonList.tsx:25 | Inserting into a most-recent-first sequence keeps it sorted. |
| LessonList.SortByCreatedDesc | components/LessonList.tsx:23-26 | The shown order is sorted by creation time, most recent first, and is a permutation of the collection (same multiset, same length). |
| LessonList.InsertStable | components/LessonList.tsx:25 | Insertion puts the new lesson before every lesson created at the same time. |
| LessonList.SortIsStable | components/LessonList.tsx:25 | Lessons created at the same time keep their collection order. |
| LessonList.SortKeepsSorted | components/LessonList.tsx:25 | A sequence already in order is left as it is, so sorting is idempotent. |
| LessonList.Render | components/LessonList.tsx:10-50 | An empty collection gives the empty state and no cards. Otherwise there is one card per lesson, most recent first, and the cards hold a permutation of the collection. The cards' lessons are exactly `SortByCreatedDesc` of the collection. Each card is `CardFor` its lesson (components/LessonList.tsx:27-44): it opens that lesson and shows its preview and badge. |
| MCQGenerator.RemoveAll | components/MCQGenerator.tsx:38 | The filtered list has no occurrence of the index. Every other index keeps its membership, no duplicates are introduced, and an absent index leaves the list unchanged. |
| MCQGenerator.Toggle | components/MCQGenerator.tsx:36-40 | Toggling flips whether the index is revealed, leaves every other index's membership unchanged and keeps the list free of duplicates. |
| MCQGenerator.ToggleTwiceRestoresMembership | components/MCQGenerator.tsx:36-40 | Toggling the same index twice restores which questions are revealed. |
| MCQGenerator.ToggleTwiceFromHidden | components/MCQGenerator.tsx:36-40 | Revealing a hidden question and hiding it again restores the list exactly. |
| MCQGenerator.RemoveAllConcat | components/MCQGenerator.tsx:38 | Filtering distributes over concatenation. |
| MCQGenerator.AnswerLabel | components/MCQGenerator.tsx:94 | The toggle reads "Hide Answer" iff the question is revealed, and "Show Answer" iff it is not. |
| MCQGenerator.GenerateLabel | components/MCQGenerator.tsx:51-62 | The button reads "Generating..." iff a request is in flight. Otherwise it reads "Regenerate Questions" iff the lesson has questions, else "Generate Questions". |
| MCQGenerator.EnabledButtonIssuesRequest | components/MCQGenerator.tsx:48 | The button is enabled iff no request is in flight and a click would pass the empty-notes guard, so `ButtonDisabled` holds iff loading or the notes are empty. |
| MCQGenerator.OptionHighlights | components/MCQGenerator.tsx:81 | One flag per option, in order, each equal to `Highlighted`: an option is highlighted iff its question is revealed and it equals the recorded correct answer. A revealed question highlights something iff its correct answer is among its options. |
| MCQGenerator.ToggleFlipsHighlight | components/MCQGenerator.tsx:81 | Toggling a question flips the highlight of its correct option only. Other questions' highlights are unchanged. |
| MCQGenerator.ToggleFlipsLabel | components/MCQGenerator.tsx:94 | Toggling always changes the toggled question's label. |
| MCQGenerator.FreshPanel | components/MCQGenerator.tsx:13-15 | A freshly mounted panel shows no error, highlights nothing and labels every toggle "Show Answer". Its button is enabled iff the lesson has notes, and it offers to regenerate iff the lesson already has questions. |
| MCQGenerator.BeginGenerate | components/MCQGenerator.tsx:17-23 | Empty notes set the "Cannot generate questions without lesson notes." error, issue no request and leave loading and the revealed list unchanged. Otherwise a request for exactly the notes is issued with loading on and the error cleared, and the button is disabled. |
| MCQGenerator.CompleteGenerate | components/MCQGenerator.tsx:24-33 | Loading ends either way. On success the lesson handed on differs from the input only in its questions, which are the returned ones, and the revealed list is emptied. On failure no lesson is handed on, the error is "Failed to generate questions. Please try again." and the revealed list is kept. |
| MCQGenerator.HandleGenerate | components/MCQGenerator.tsx:17-34 | A whole click: the service is called iff the notes are non-empty. The guarded, successful and failed outcomes are as above, and loading is off after every attempt that passed the guard. |
| MCQGenerator.RegenerateSameAnswer | components/MCQGenerator.tsx:17-34 | After a successful generation the button is enabled again. Regenerating with the same answer hands on the same lesson. |
| MCQGenerator.SuccessHidesAllAnswers | components/MCQGenerator.tsx:27 | After a successful generation no option of any question is highlighted. |

## Left out

- services/geminiService.ts: the calls to the external AI SDK, the prompt
  text and the JSON parsing are foreign code. The generation result is the
  input `ServiceOutcome`. The service does not check that `correctAnswer` is
  one of the options or that there are four options, so the model states
  neither. `OptionHighlights` shows the consequence: a revealed question may
  highlight nothing.
- Lesson-notes and feedback generation (geminiService.ts) and the feedback
  panel are not part of this model. components/FeedbackGenerator.tsx and
  components/AddLessonModal.tsx are not part of this model either.
  FeedbackGenerator changes the collection through the update handler, and
  AddLessonModal through the add and close handlers (App.tsx:63-66). All of
  these handlers are modelled.
- The `useLocalStorage` hook (hooks/useLocalStorage is not part of this
  model): persistence is not modelled. The collection is plain state, and
  the stored collection is an input to `App.Init`. No store/reload round
  trip is stated.
- The 2500 ms splash delay: only the boolean `isLoading` and the timer event
  are modelled, not time.
- Asynchrony and React re-rendering: each handler is one atomic transition.
  A generation is modelled as its synchronous start (`BeginGenerate`) and its
  completion (`CompleteGenerate`). Interleavings of other events between
  the two are not modelled.
- Clock and date handling: ISO-8601 strings, their parsing by `new Date`
  and locale formatting are replaced by integer timestamps and an opaque id
  string. Unparseable timestamps (which compare as NaN) are not modelled.
- LessonList.Preview: counts Unicode scalar values, whereas `substring`
  counts UTF-16 code units. For text outside the Basic Multilingual Plane
  the source's 100-unit prefix can be shorter or split a surrogate pair.
- Id uniqueness is not assumed. The unique-id lemmas take fresh ids as a
  premise, because the source draws ids from the clock and they can collide.
- Rendering details (styles, icons, animation, `line-clamp`) and the header
  are not modelled. Only the decisions behind them are.
