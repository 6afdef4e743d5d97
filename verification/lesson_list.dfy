/** The list screen: an empty-state message for an empty collection,
    otherwise one card per lesson, most recently created first. The
    collection is sorted as a copy; the caller's sequence is never
    reordered (here by construction: sequences are values). */
module LessonList {
  import opened Types

  /** Number of characters of the notes a card shows. */
  const PreviewLength: nat := 100

  /** What a card shows when a lesson has no notes. */
  const NoNotesPlaceholder: string := "No notes yet."

  function Min(a: nat, b: nat): nat
  {
    if a <= b then a else b
  }

  /** The card text for `notes`: the first `PreviewLength` characters, or the
      placeholder when that prefix is empty (the `||` fallback on a falsy
      string). */
  function Preview(notes: string): (p: string)
    ensures notes == [] ==> p == NoNotesPlaceholder
    ensures notes != [] ==> |p| == Min(PreviewLength, |notes|) && p <= notes
  {
    var excerpt := notes[..Min(PreviewLength, |notes|)];
    if excerpt == [] then NoNotesPlaceholder else excerpt
  }

  /** The placeholder text appears exactly for empty notes and for notes that
      are themselves the placeholder text: the rendered string alone does not
      tell an empty lesson from one whose notes read "No notes yet.". */
  lemma PreviewShowsPlaceholderIff(notes: string)
    ensures Preview(notes) == NoNotesPlaceholder <==> notes == [] || notes == NoNotesPlaceholder
  {
    if notes != [] && Preview(notes) == NoNotesPlaceholder {
      assert |notes| <= PreviewLength;
      assert notes[..|notes|] == notes;
    }
  }

  /** Notes of at most `PreviewLength` characters are shown whole. */
  lemma ShortNotesShownWhole(notes: string)
    requires 0 < |notes| <= PreviewLength
    ensures Preview(notes) == notes
  {
    assert notes[..|notes|] == notes;
  }

  /** The course badge: shown only for a present, non-empty course. */
  function CourseBadge(course: Option<string>): (b: Option<string>)
    ensures b.Some? <==> course.Some? && course.value != []
    ensures b.Some? ==> b.value == course.value
  {
    match course
    case Some(c) => if c != [] then Some(c) else None
    case None => None
  }

  // ---- ordering ----

  /** Most recent first: creation times never increase along the sequence. */
  predicate SortedByCreatedDesc(s: seq<Lesson>)
  {
    forall i, j :: 0 <= i < j < |s| ==> s[i].createdAt >= s[j].createdAt
  }

  /** Places `l` in front of the first lesson not created strictly later, so
      lessons with equal times keep `l` first. */
  function Insert(l: Lesson, s: seq<Lesson>): (r: seq<Lesson>)
    ensures multiset(r) == multiset(s) + multiset{l}
    ensures |r| == |s| + 1
    ensures r[0] == l || (s != [] && r[0] == s[0])
  {
    if s == [] || s[0].createdAt <= l.createdAt then [l] + s
    else
      assert s == [s[0]] + s[1..];
      [s[0]] + Insert(l, s[1..])
  }

  /** Insertion keeps a most-recent-first sequence in order. */
  lemma {:induction false} InsertSorted(l: Lesson, s: seq<Lesson>)
    requires SortedByCreatedDesc(s)
    ensures SortedByCreatedDesc(Insert(l, s))
  {
    if s != [] && s[0].createdAt > l.createdAt {
      var rest := Insert(l, s[1..]);
      InsertSorted(l, s[1..]);
      assert rest[0].createdAt <= s[0].createdAt;
      assert Insert(l, s) == [s[0]] + rest;
    }
  }

  /** The order the list screen shows: a stable sort by creation time,
      most recent first (the comparator `b - a` on `getTime()`). */
  function SortByCreatedDesc(s: seq<Lesson>): (r: seq<Lesson>)
    ensures SortedByCreatedDesc(r)
    ensures multiset(r) == multiset(s)
    ensures |r| == |s|
  {
    if s == [] then []
    else
      assert s == [s[0]] + s[1..];
      var sortedTail := SortByCreatedDesc(s[1..]);
      InsertSorted(s[0], sortedTail);
      Insert(s[0], sortedTail)
  }

  /** The lessons created at time `t`, in their order in `s`. */
  function CreatedAt(s: seq<Lesson>, t: int): seq<Lesson>
  {
    if s == [] then []
    else (if s[0].createdAt == t then [s[0]] else []) + CreatedAt(s[1..], t)
  }

  lemma CreatedAtCons(x: Lesson, s: seq<Lesson>, t: int)
    ensures x.createdAt == t ==> CreatedAt([x] + s, t) == [x] + CreatedAt(s, t)
    ensures x.createdAt != t ==> CreatedAt([x] + s, t) == CreatedAt(s, t)
  {
    assert ([x] + s)[1..] == s;
  }

  /** Inserting `l` puts it in front of every lesson created at the same time. */
  lemma {:induction false} InsertStable(l: Lesson, s: seq<Lesson>, t: int)
    ensures l.createdAt == t ==> CreatedAt(Insert(l, s), t) == [l] + CreatedAt(s, t)
    ensures l.createdAt != t ==> CreatedAt(Insert(l, s), t) == CreatedAt(s, t)
  {
    if s == [] || s[0].createdAt <= l.createdAt {
      assert Insert(l, s) == [l] + s;
      CreatedAtCons(l, s, t);
    } else {
      var tail := s[1..];
      var rest := Insert(l, tail);
      assert Insert(l, s) == [s[0]] + rest;
      assert s == [s[0]] + tail;
      InsertStable(l, tail, t);
      CreatedAtCons(s[0], rest, t);
      CreatedAtCons(s[0], tail, t);
    }
  }

  /** The sort is stable: lessons created at the same time appear in their
      original relative order. */
  lemma {:induction false} SortIsStable(s: seq<Lesson>, t: int)
    ensures CreatedAt(SortByCreatedDesc(s), t) == CreatedAt(s, t)
  {
    if s != [] {
      SortIsStable(s[1..], t);
      InsertStable(s[0], SortByCreatedDesc(s[1..]), t);
    }
  }

  /** Sorting a sequence that is already in order changes nothing; in
      particular sorting is idempotent. */
  lemma {:induction false} SortKeepsSorted(s: seq<Lesson>)
    requires SortedByCreatedDesc(s)
    ensures SortByCreatedDesc(s) == s
  {
    if s != [] {
      assert SortedByCreatedDesc(s[1..]);
      SortKeepsSorted(s[1..]);
      assert s == [s[0]] + s[1..];
    }
  }

  // ---- the screen ----

  /** One card: the lesson it opens when clicked, its notes preview and its
      course badge. */
  datatype Card = Card(lesson: Lesson, preview: string, badge: Option<string>)

  datatype ListView = EmptyState | Grid(cards: seq<Card>)

  function CardFor(l: Lesson): Card
  {
    Card(l, Preview(l.notes), CourseBadge(l.course))
  }

  /** What the list screen shows for the collection `lessons`. */
  function Render(lessons: seq<Lesson>): (v: ListView)
    ensures v.EmptyState? <==> |lessons| == 0
    ensures v.Grid? ==> CardLessons(v.cards) == SortByCreatedDesc(lessons)
    ensures v.Grid? ==> |v.cards| == |lessons|
    ensures v.Grid? ==> forall i, j :: 0 <= i < j < |v.cards| ==> v.cards[i].lesson.createdAt >= v.cards[j].lesson.createdAt
    ensures v.Grid? ==> multiset(CardLessons(v.cards)) == multiset(lessons)
    ensures v.Grid? ==> forall k :: 0 <= k < |v.cards| ==> v.cards[k] == CardFor(v.cards[k].lesson)
  {
    if |lessons| == 0 then EmptyState
    else
      var sorted := SortByCreatedDesc(lessons);
      var cards := seq(|sorted|, k requires 0 <= k < |sorted| => CardFor(sorted[k]));
      assert CardLessons(cards) == sorted;
      Grid(cards)
  }

  /** The lessons behind a row of cards, in card order. */
  function CardLessons(cards: seq<Card>): (ls: seq<Lesson>)
    ensures |ls| == |cards|
    ensures forall k :: 0 <= k < |cards| ==> ls[k] == cards[k].lesson
  {
    seq(|cards|, k requires 0 <= k < |cards| => cards[k].lesson)
  }
}
