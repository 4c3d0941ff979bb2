/**
 * The rows of the backend's tables (backend/app/Models, the notes migration)
 * and the database that holds them. Each table is a sequence in creation
 * order with auto-increment ids, so "oldest first" is sequence order.
 */
module Database {
  import opened Wrappers
  import opened Document

  /**
   * A `notes` row; `content` is the value the `array` cast yields. The
   * migration declares `unit_number` and `lesson_title` NOT NULL, so every
   * row has both.
   */
  datatype Note = Note(
    id: nat,
    studentId: int,
    courseId: int,
    unitNumber: int,
    lessonTitle: string,
    title: Option<string>,
    content: Value,
    folderId: Option<nat>,
    updatedAt: int
  )

  /** A `folders` row, with the `created_at` and `updated_at` stamps Eloquent keeps. */
  datatype Folder = Folder(id: nat, studentId: int, courseId: int, name: string, createdAt: int, updatedAt: int)

  /** A row that belongs to a note: a flashcard or a quiz question. */
  datatype Owned<T> = Owned(id: nat, noteId: nat, data: T)

  datatype Card = Card(question: string, answer: string)

  datatype Question = Question(question: string, options: seq<string>, correctIndex: int)

  /** Ids in strictly increasing order, all below the next auto-increment value. */
  predicate Increasing(ids: seq<nat>, next: nat) {
    && (forall i, j :: 0 <= i < j < |ids| ==> ids[i] < ids[j])
    && (forall i :: 0 <= i < |ids| ==> ids[i] < next)
  }

  function NoteIds(ns: seq<Note>): (r: seq<nat>)
    ensures |r| == |ns| && forall i :: 0 <= i < |ns| ==> r[i] == ns[i].id
  {
    seq(|ns|, i requires 0 <= i < |ns| => ns[i].id)
  }

  function FolderIds(fs: seq<Folder>): (r: seq<nat>)
    ensures |r| == |fs| && forall i :: 0 <= i < |fs| ==> r[i] == fs[i].id
  {
    seq(|fs|, i requires 0 <= i < |fs| => fs[i].id)
  }

  function OwnedIds<T(!new)>(rows: seq<Owned<T>>): (r: seq<nat>)
    ensures |r| == |rows| && forall i :: 0 <= i < |rows| ==> r[i] == rows[i].id
  {
    seq(|rows|, i requires 0 <= i < |rows| => rows[i].id)
  }

  /** `findOrFail` on a table: the position of the last row whose id is `id`. */
  function FindId(ids: seq<nat>, id: nat): (r: Option<nat>)
    ensures r.None? <==> forall k :: 0 <= k < |ids| ==> ids[k] != id
    ensures r.Some? ==> r.value < |ids| && ids[r.value] == id
    decreases |ids|
  {
    if ids == [] then None
    else if ids[|ids| - 1] == id then Some(|ids| - 1)
    else FindId(ids[..|ids| - 1], id)
  }

  /** The rows of note `nid`, in creation order. */
  function OfNote<T(!new)>(rows: seq<Owned<T>>, nid: nat): (r: seq<Owned<T>>)
    ensures |r| <= |rows|
    ensures forall x :: x in r <==> x in rows && x.noteId == nid
    decreases |rows|
  {
    if rows == [] then []
    else OfNote(rows[..|rows| - 1], nid) + (if rows[|rows| - 1].noteId == nid then [rows[|rows| - 1]] else [])
  }

  lemma SeqAssoc<T>(x: seq<T>, y: seq<T>, z: seq<T>)
    ensures x + y + z == x + (y + z)
  {
  }

  lemma RightUnit<T>(x: seq<T>)
    ensures x + [] == x
  {
  }

  lemma {:induction false} OfNoteConcat<T(!new)>(a: seq<Owned<T>>, b: seq<Owned<T>>, nid: nat)
    ensures OfNote(a + b, nid) == OfNote(a, nid) + OfNote(b, nid)
    decreases |b|
  {
    if b == [] {
      assert a + b == a;
      assert OfNote(b, nid) == [];
      RightUnit(OfNote(a, nid));
    } else {
      var init, last := b[..|b| - 1], b[|b| - 1];
      var l := if last.noteId == nid then [last] else [];
      assert (a + b)[..|a + b| - 1] == a + init;
      assert (a + b)[|a + b| - 1] == last;
      assert OfNote(a + b, nid) == OfNote(a + init, nid) + l;
      assert OfNote(b, nid) == OfNote(init, nid) + l;
      OfNoteConcat(a, init, nid);
      SeqAssoc(OfNote(a, nid), OfNote(init, nid), l);
    }
  }

  /**
   * Deletes the `k` oldest rows of note `nid` (all of them when it has
   * fewer): `where note_id ... orderBy created_at limit k`, then delete.
   */
  function DropOldest<T(!new)>(rows: seq<Owned<T>>, nid: nat, k: nat): (r: seq<Owned<T>>)
    ensures forall x :: x in r ==> x in rows
    decreases |rows|
  {
    if rows == [] then []
    else if rows[0].noteId == nid && k > 0 then DropOldest(rows[1..], nid, k - 1)
    else [rows[0]] + DropOldest(rows[1..], nid, k)
  }

  function Min(a: nat, b: nat): nat {
    if a <= b then a else b
  }

  lemma OfNoteCons<T(!new)>(r0: Owned<T>, tail: seq<Owned<T>>, m: nat)
    ensures OfNote([r0] + tail, m) == (if r0.noteId == m then [r0] else []) + OfNote(tail, m)
  {
    OfNoteConcat([r0], tail, m);
    assert [r0][..0] == [];
  }

  /** Only the note's oldest rows go: what remains of it is a suffix, and every other note keeps all its rows. */
  lemma {:induction false} DropOldestOfNote<T(!new)>(rows: seq<Owned<T>>, nid: nat, k: nat, m: nat)
    ensures var before := OfNote(rows, m);
      OfNote(DropOldest(rows, nid, k), m) == if m == nid then before[Min(k, |before|)..] else before
    decreases |rows|
  {
    if rows != [] {
      var r0, tail := rows[0], rows[1..];
      assert rows == [r0] + tail;
      OfNoteCons(r0, tail, m);
      if r0.noteId == nid && k > 0 {
        assert DropOldest(rows, nid, k) == DropOldest(tail, nid, k - 1);
        DropOldestOfNote(tail, nid, k - 1, m);
        DroppedHead(r0, OfNote(tail, m), nid, k, m);
      } else {
        var d := DropOldest(tail, nid, k);
        assert DropOldest(rows, nid, k) == [r0] + d;
        DropOldestOfNote(tail, nid, k, m);
        OfNoteCons(r0, d, m);
        KeptHead(r0, OfNote(tail, m), nid, k, m);
      }
    }
  }

  /** The first row is one of the `k` dropped: note `nid` loses it and `k - 1` more. */
  lemma DroppedHead<T>(r0: Owned<T>, t: seq<Owned<T>>, nid: nat, k: nat, m: nat)
    requires r0.noteId == nid && k > 0
    ensures var head: seq<Owned<T>> := if r0.noteId == m then [r0] else [];
      (if m == nid then (head + t)[Min(k, |head + t|)..] else head + t)
      == (if m == nid then t[Min(k - 1, |t|)..] else t)
  {
    if m == nid {
      var x := [r0] + t;
      assert Min(k, |x|) == Min(k - 1, |t|) + 1;
      assert x[1..] == t;
      assert x[Min(k, |x|)..] == x[1..][Min(k - 1, |t|)..];
    } else {
      assert [] + t == t;
    }
  }

  /** The first row stays: it heads what remains of its note. */
  lemma KeptHead<T>(r0: Owned<T>, t: seq<Owned<T>>, nid: nat, k: nat, m: nat)
    requires !(r0.noteId == nid && k > 0)
    ensures var head: seq<Owned<T>> := if r0.noteId == m then [r0] else [];
      head + (if m == nid then t[Min(k, |t|)..] else t)
      == (if m == nid then (head + t)[Min(k, |head + t|)..] else head + t)
  {
    if m == nid && k > 0 {
      assert r0.noteId != m;
      assert [] + t[Min(k, |t|)..] == t[Min(k, |t|)..];
      assert [] + t == t;
    } else if m == nid {
      assert t[0..] == t;
      var head: seq<Owned<T>> := if r0.noteId == m then [r0] else [];
      assert (head + t)[0..] == head + t;
    }
  }

  /** Deleting rows keeps the ids in creation order. */
  lemma {:induction false} DropOldestIncreasing<T(!new)>(rows: seq<Owned<T>>, nid: nat, k: nat, next: nat)
    requires Increasing(OwnedIds(rows), next)
    ensures Increasing(OwnedIds(DropOldest(rows, nid, k)), next)
    decreases |rows|
  {
    if rows != [] {
      var tail := rows[1..];
      TailIncreasing(rows, next);
      var k' := if rows[0].noteId == nid && k > 0 then k - 1 else k;
      DropOldestIncreasing(tail, nid, k', next);
      if !(rows[0].noteId == nid && k > 0) {
        var rest := DropOldest(tail, nid, k);
        forall x | x in rest ensures rows[0].id < x.id {
          var i :| 0 <= i < |tail| && tail[i] == x;
          assert rows[i + 1] == x;
        }
        ConsIncreasing(rows[0], rest, next);
      }
    }
  }

  lemma TailIncreasing<T(!new)>(rows: seq<Owned<T>>, next: nat)
    requires rows != [] && Increasing(OwnedIds(rows), next)
    ensures Increasing(OwnedIds(rows[1..]), next)
    ensures forall x :: x in rows[1..] ==> rows[0].id < x.id
  {
    var tail := rows[1..];
    forall i | 0 <= i < |tail| ensures tail[i] == rows[i + 1] { }
  }

  /** A row older than every row of an id-ordered table can head it. */
  lemma ConsIncreasing<T(!new)>(r0: Owned<T>, rest: seq<Owned<T>>, next: nat)
    requires Increasing(OwnedIds(rest), next) && r0.id < next
    requires forall x :: x in rest ==> r0.id < x.id
    ensures Increasing(OwnedIds([r0] + rest), next)
  {
    var r := [r0] + rest;
    forall i, j | 0 <= i < j < |r| ensures r[i].id < r[j].id {
      assert r[j] == rest[j - 1];
      if i > 0 {
        assert r[i] == rest[i - 1];
      } else {
        assert rest[j - 1] in rest;
      }
    }
    forall i | 0 <= i < |r| ensures r[i].id < next {
      if i > 0 {
        assert r[i] == rest[i - 1];
      }
    }
  }

  /** Rows created for note `nid` from `data`, in order, with consecutive ids from `first`. */
  function NewRows<T(!new)>(nid: nat, data: seq<T>, first: nat): (r: seq<Owned<T>>)
    ensures |r| == |data|
    ensures forall i :: 0 <= i < |r| ==> r[i] == Owned(first + i, nid, data[i])
    decreases |data|
  {
    if data == [] then [] else NewRows(nid, data[..|data| - 1], first) + [Owned(first + |data| - 1, nid, data[|data| - 1])]
  }

  lemma {:induction false} NewRowsOfNote<T(!new)>(nid: nat, data: seq<T>, first: nat, m: nat)
    ensures OfNote(NewRows(nid, data, first), m) == if m == nid then NewRows(nid, data, first) else []
    decreases |data|
  {
    if data != [] {
      var rows := NewRows(nid, data, first);
      var init := NewRows(nid, data[..|data| - 1], first);
      assert rows[..|rows| - 1] == init;
      NewRowsOfNote(nid, data[..|data| - 1], first, m);
    }
  }

  /** Rows appended one at a time get the next consecutive ids. */
  lemma NewRowsSnoc<T(!new)>(nid: nat, data: seq<T>, x: T, first: nat)
    ensures NewRows(nid, data + [x], first) == NewRows(nid, data, first) + [Owned(first + |data|, nid, x)]
  {
    assert (data + [x])[..|data|] == data;
  }

  /** Deleting none of a note's rows leaves the table as it is. */
  lemma {:induction false} DropNothing<T(!new)>(rows: seq<Owned<T>>, nid: nat)
    ensures DropOldest(rows, nid, 0) == rows
    decreases |rows|
  {
    if rows != [] {
      DropNothing(rows[1..], nid);
      assert rows == [rows[0]] + rows[1..];
    }
  }

  /** Appending rows with fresh consecutive ids keeps the ids in creation order. */
  lemma AppendIncreasing<T(!new)>(rows: seq<Owned<T>>, nid: nat, data: seq<T>, next: nat)
    requires Increasing(OwnedIds(rows), next)
    ensures Increasing(OwnedIds(rows + NewRows(nid, data, next)), next + |data|)
  {
    var r := rows + NewRows(nid, data, next);
    forall i, j | 0 <= i < j < |r| ensures r[i].id < r[j].id {
      if j >= |rows| {
        assert r[j] == NewRows(nid, data, next)[j - |rows|];
        if i >= |rows| {
          assert r[i] == NewRows(nid, data, next)[i - |rows|];
        } else {
          assert r[i] == rows[i];
        }
      } else {
        assert r[i] == rows[i] && r[j] == rows[j];
      }
    }
    forall i | 0 <= i < |r| ensures r[i].id < next + |data| {
      if i >= |rows| {
        assert r[i] == NewRows(nid, data, next)[i - |rows|];
      } else {
        assert r[i] == rows[i];
      }
    }
  }

  /** The application's database: the tables the core services read and write. */
  class Db {
    var notes: seq<Note>
    var nextNoteId: nat
    var folders: seq<Folder>
    var nextFolderId: nat
    var flashcards: seq<Owned<Card>>
    var nextFlashcardId: nat
    var quizzes: seq<Owned<Question>>
    var nextQuizId: nat
    /** `exam_results`, keyed by `note_id`. */
    var examScores: map<nat, int>

    /** Every table's ids are auto-increment values in creation order. */
    ghost predicate Valid()
      reads this
    {
      && Increasing(NoteIds(notes), nextNoteId)
      && Increasing(FolderIds(folders), nextFolderId)
      && Increasing(OwnedIds(flashcards), nextFlashcardId)
      && Increasing(OwnedIds(quizzes), nextQuizId)
    }

    constructor ()
      ensures Valid()
      ensures notes == [] && folders == [] && flashcards == [] && quizzes == [] && examScores == map[]
    {
      notes, folders, flashcards, quizzes := [], [], [], [];
      nextNoteId, nextFolderId, nextFlashcardId, nextQuizId := 1, 1, 1, 1;
      examScores := map[];
    }
  }

  /** Ids in strictly increasing order are distinct. */
  lemma IncreasingDistinct(ids: seq<nat>, next: nat, i: nat, j: nat)
    requires Increasing(ids, next) && i < |ids| && j < |ids| && ids[i] == ids[j]
    ensures i == j
  {
  }
}
