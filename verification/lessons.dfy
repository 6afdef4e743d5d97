/** The lesson collection and its three transitions: add (append a fresh
    lesson), update (replace by id) and delete (remove by id). Each returns a
    new collection; none assumes that ids are unique. */
module Lessons {
  import opened Types

  /** Some lesson of the collection carries `id`. */
  predicate HasId(lessons: seq<Lesson>, id: string)
  {
    exists k :: 0 <= k < |lessons| && lessons[k].id == id
  }

  /** No two lessons of the collection share an id. */
  predicate UniqueIds(lessons: seq<Lesson>)
  {
    forall i, j :: 0 <= i < j < |lessons| ==> lessons[i].id != lessons[j].id
  }

  /** The number of lessons carrying `id`. */
  function CountId(lessons: seq<Lesson>, id: string): nat
  {
    if lessons == [] then 0
    else (if lessons[0].id == id then 1 else 0) + CountId(lessons[1..], id)
  }

  /** No lesson carries `id` exactly when none is counted. */
  lemma {:induction false} CountIdZero(lessons: seq<Lesson>, id: string)
    ensures CountId(lessons, id) == 0 <==> !HasId(lessons, id)
  {
    if lessons != [] {
      CountIdZero(lessons[1..], id);
      if HasId(lessons[1..], id) {
        var k :| 0 <= k < |lessons[1..]| && lessons[1..][k].id == id;
        assert lessons[k + 1].id == id;
      }
      if HasId(lessons, id) && lessons[0].id != id {
        var k :| 0 <= k < |lessons| && lessons[k].id == id;
        assert lessons[1..][k - 1].id == id;
      }
    }
  }

  /** The lesson the creation handler builds: the draft's fields, the given id
      and creation time, no questions and no feedback. */
  function NewLesson(draft: Draft, id: string, createdAt: int): (l: Lesson)
    ensures DraftOf(l) == draft
    ensures l.mcqs == [] && l.feedback == None
    ensures l.id == id && l.createdAt == createdAt
  {
    Lesson(id, draft.title, draft.notes, draft.imageUrls, [], createdAt, draft.course, None)
  }

  /** Appends the lesson built from `draft` to the collection. */
  function Add(lessons: seq<Lesson>, draft: Draft, id: string, createdAt: int): (r: seq<Lesson>)
    ensures |r| == |lessons| + 1
    ensures r[..|lessons|] == lessons
    ensures DraftOf(r[|lessons|]) == draft
    ensures r[|lessons|].mcqs == [] && r[|lessons|].feedback == None
    ensures r[|lessons|].id == id && r[|lessons|].createdAt == createdAt
  {
    lessons + [NewLesson(draft, id, createdAt)]
  }

  /** Replaces every lesson whose id is `updated.id` by `updated`. */
  function Update(lessons: seq<Lesson>, updated: Lesson): (r: seq<Lesson>)
    ensures |r| == |lessons|
    ensures forall k :: 0 <= k < |lessons| && lessons[k].id == updated.id ==> r[k] == updated
    ensures forall k :: 0 <= k < |lessons| && lessons[k].id != updated.id ==> r[k] == lessons[k]
  {
    if lessons == [] then []
    else [if lessons[0].id == updated.id then updated else lessons[0]] + Update(lessons[1..], updated)
  }

  /** Removes every lesson whose id is `id`, keeping the others in order. */
  function Delete(lessons: seq<Lesson>, id: string): (r: seq<Lesson>)
    ensures |r| == |lessons| - CountId(lessons, id)
    ensures forall k :: 0 <= k < |r| ==> r[k].id != id
    ensures forall l :: l in r <==> l in lessons && l.id != id
  {
    if lessons == [] then []
    else (if lessons[0].id == id then [] else [lessons[0]]) + Delete(lessons[1..], id)
  }

  // ---- update ----

  /** With no lesson carrying the id, an update leaves the collection as it is. */
  lemma UpdateAbsentIsIdentity(lessons: seq<Lesson>, updated: Lesson)
    requires !HasId(lessons, updated.id)
    ensures Update(lessons, updated) == lessons
  {
  }

  /** An update keeps every position's id: the collection's key sequence is unchanged. */
  lemma UpdateKeepsIds(lessons: seq<Lesson>, updated: Lesson)
    ensures forall k :: 0 <= k < |lessons| ==> Update(lessons, updated)[k].id == lessons[k].id
    ensures forall id :: HasId(Update(lessons, updated), id) <==> HasId(lessons, id)
  {
    var r := Update(lessons, updated);
    forall id
      ensures HasId(r, id) <==> HasId(lessons, id)
    {
      if HasId(r, id) {
        var k :| 0 <= k < |r| && r[k].id == id;
        assert lessons[k].id == id;
      }
      if HasId(lessons, id) {
        var k :| 0 <= k < |lessons| && lessons[k].id == id;
        assert r[k].id == id;
      }
    }
  }

  /** An update leaves the lessons carrying any other id where they were. */
  lemma UpdateKeepsOtherEntries(lessons: seq<Lesson>, updated: Lesson, l: Lesson)
    requires l.id != updated.id
    ensures l in Update(lessons, updated) <==> l in lessons
  {
    var r := Update(lessons, updated);
    if l in r {
      var k :| 0 <= k < |r| && r[k] == l;
      assert r[k] == lessons[k];
    }
    if l in lessons {
      var k :| 0 <= k < |lessons| && lessons[k] == l;
      assert r[k] == l;
    }
  }

  /** After an update whose id is present, the updated lesson is the only
      lesson left carrying that id. */
  lemma UpdateLeavesOnlyUpdated(lessons: seq<Lesson>, updated: Lesson, l: Lesson)
    requires HasId(lessons, updated.id)
    requires l.id == updated.id
    ensures l in Update(lessons, updated) <==> l == updated
  {
    var r := Update(lessons, updated);
    var m :| 0 <= m < |lessons| && lessons[m].id == updated.id;
    assert r[m] == updated;
    if l in r {
      var k :| 0 <= k < |r| && r[k] == l;
      assert lessons[k].id == updated.id;
    }
  }

  /** Applying the same update twice is the same as applying it once. */
  lemma UpdateIdempotent(lessons: seq<Lesson>, updated: Lesson)
    ensures Update(Update(lessons, updated), updated) == Update(lessons, updated)
  {
  }

  /** When ids are unique, an update changes exactly the one position holding the id. */
  lemma UpdateUniqueTouchesOne(lessons: seq<Lesson>, updated: Lesson, k: nat)
    requires UniqueIds(lessons)
    requires k < |lessons| && lessons[k].id == updated.id
    ensures Update(lessons, updated) == lessons[k := updated]
  {
  }

  /** An update that keeps the id keeps the ids unique. */
  lemma UpdateKeepsUniqueIds(lessons: seq<Lesson>, updated: Lesson)
    requires UniqueIds(lessons)
    ensures UniqueIds(Update(lessons, updated))
  {
    UpdateKeepsIds(lessons, updated);
  }

  // ---- delete ----

  /** Deletion keeps the length exactly when no lesson carries the id. */
  lemma DeleteKeepsLengthIffAbsent(lessons: seq<Lesson>, id: string)
    ensures |Delete(lessons, id)| == |lessons| <==> !HasId(lessons, id)
  {
    CountIdZero(lessons, id);
  }

  /** Deleting an id no lesson carries leaves the collection as it is. */
  lemma {:induction false} DeleteAbsentIsIdentity(lessons: seq<Lesson>, id: string)
    requires !HasId(lessons, id)
    ensures Delete(lessons, id) == lessons
  {
    if lessons != [] {
      forall k | 0 <= k < |lessons[1..]|
        ensures lessons[1..][k].id != id
      {
        assert lessons[1..][k] == lessons[k + 1];
      }
      DeleteAbsentIsIdentity(lessons[1..], id);
      assert lessons[0].id != id;
      assert Delete(lessons, id) == [lessons[0]] + Delete(lessons[1..], id);
      assert lessons == [lessons[0]] + lessons[1..];
    }
  }

  /** Deletion distributes over concatenation: together with the one-lesson
      case this fixes the survivors and their order. */
  lemma {:induction false} DeleteConcat(a: seq<Lesson>, b: seq<Lesson>, id: string)
    ensures Delete(a + b, id) == Delete(a, id) + Delete(b, id)
  {
    if a == [] {
      assert a + b == b;
    } else {
      assert (a + b)[1..] == a[1..] + b;
      DeleteConcat(a[1..], b, id);
    }
  }

  /** Deleting one lesson keeps it exactly when its id differs. */
  lemma DeleteSingleton(l: Lesson, id: string)
    ensures Delete([l], id) == if l.id == id then [] else [l]
  {
    assert [l][1..] == [];
  }

  /** Deleting the same id twice is the same as deleting it once. */
  lemma DeleteIdempotent(lessons: seq<Lesson>, id: string)
    ensures Delete(Delete(lessons, id), id) == Delete(lessons, id)
  {
    DeleteAbsentIsIdentity(Delete(lessons, id), id);
  }

  /** Deletion keeps the ids unique. */
  lemma {:induction false} DeleteKeepsUniqueIds(lessons: seq<Lesson>, id: string)
    requires UniqueIds(lessons)
    ensures UniqueIds(Delete(lessons, id))
  {
    if lessons != [] {
      var rest := Delete(lessons[1..], id);
      DeleteKeepsUniqueIds(lessons[1..], id);
      if lessons[0].id != id {
        forall k | 0 <= k < |rest|
          ensures rest[k].id != lessons[0].id
        {
          assert rest[k] in lessons[1..];
          var m :| 0 <= m < |lessons[1..]| && lessons[1..][m] == rest[k];
          assert lessons[m + 1] == rest[k];
        }
      }
    }
  }

  /** Updating and then deleting the same id is the same as deleting it:
      whatever the update wrote is gone again. */
  lemma {:induction false} DeleteAfterUpdate(lessons: seq<Lesson>, updated: Lesson)
    ensures Delete(Update(lessons, updated), updated.id) == Delete(lessons, updated.id)
  {
    if lessons != [] {
      DeleteAfterUpdate(lessons[1..], updated);
      assert Update(lessons, updated)[1..] == Update(lessons[1..], updated);
    }
  }

  // ---- add ----

  /** Deleting the id of a freshly added lesson undoes the addition, provided
      the id was not in use before. */
  lemma DeleteUndoesAdd(lessons: seq<Lesson>, draft: Draft, id: string, createdAt: int)
    requires !HasId(lessons, id)
    ensures Delete(Add(lessons, draft, id, createdAt), id) == lessons
  {
    var l := NewLesson(draft, id, createdAt);
    DeleteConcat(lessons, [l], id);
    DeleteSingleton(l, id);
    DeleteAbsentIsIdentity(lessons, id);
  }

  /** Adding a lesson under an unused id keeps the ids unique. */
  lemma AddKeepsUniqueIds(lessons: seq<Lesson>, draft: Draft, id: string, createdAt: int)
    requires UniqueIds(lessons)
    requires !HasId(lessons, id)
    ensures UniqueIds(Add(lessons, draft, id, createdAt))
  {
  }

  /** An update right after an addition under a fresh id rewrites only the new lesson. */
  lemma UpdateAfterAdd(lessons: seq<Lesson>, draft: Draft, id: string, createdAt: int, updated: Lesson)
    requires !HasId(lessons, id)
    requires updated.id == id
    ensures Update(Add(lessons, draft, id, createdAt), updated) == lessons + [updated]
  {
  }
}
