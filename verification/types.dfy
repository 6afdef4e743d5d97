/** The entities of the lessons application: a lesson and the multiple-choice
    questions generated for it. Timestamps are integers (milliseconds since the
    epoch), the value `getTime()` yields for the ISO-8601 strings the
    application stores. */
module Types {

  /** An optional value; stands for the optional (`?`) fields and for `null`. */
  datatype Option<+T> = None | Some(value: T)

  /** One quiz question. Nothing ties `correctAnswer` to `options` or fixes
      the number of options: the answers of the generation service are stored
      as they come. */
  datatype MCQ = MCQ(question: string, options: seq<string>, correctAnswer: string)

  /** A study lesson. `id` is the only lookup key; it is not guaranteed to be
      unique. */
  datatype Lesson = Lesson(
    id: string,
    title: string,
    notes: string,
    imageUrls: seq<string>,
    mcqs: seq<MCQ>,
    createdAt: int,
    course: Option<string>,
    feedback: Option<string>)

  /** What the creation form hands over: a lesson without id, creation time,
      questions or feedback. */
  datatype Draft = Draft(title: string, notes: string, imageUrls: seq<string>, course: Option<string>)

  /** The draft part of a lesson: the fields the creation form supplies. */
  function DraftOf(l: Lesson): Draft
  {
    Draft(l.title, l.notes, l.imageUrls, l.course)
  }

  /** `a` and `b` agree on every field except possibly `mcqs`. */
  predicate SameExceptMcqs(a: Lesson, b: Lesson)
  {
    && a.id == b.id
    && a.title == b.title
    && a.notes == b.notes
    && a.imageUrls == b.imageUrls
    && a.createdAt == b.createdAt
    && a.course == b.course
    && a.feedback == b.feedback
  }
}
