/**
 * backend/app/Services/FolderService.php: the folder listing, and the three
 * writes that touch one record each (`renameFolder`, `moveNoteToFolder`,
 * `deleteFolder`) plus `createFolder`. `findOrFail` failing is `None`.
 */
module FolderService {
  import opened Wrappers
  import opened Database

  // ---------------------------------------------------------------------------
  // Lookups

  /** `Folder::findOrFail($id)`: the position of the folder with that id. */
  function FindFolder(folders: seq<Folder>, id: nat): (r: Option<nat>)
    ensures r.None? <==> forall k :: 0 <= k < |folders| ==> folders[k].id != id
    ensures r.Some? ==> r.value < |folders| && folders[r.value].id == id
  {
    FindId(FolderIds(folders), id)
  }

  /** `Note::findOrFail($id)`: the position of the note with that id. */
  function FindNote(notes: seq<Note>, id: nat): (r: Option<nat>)
    ensures r.None? <==> forall k :: 0 <= k < |notes| ==> notes[k].id != id
    ensures r.Some? ==> r.value < |notes| && notes[r.value].id == id
  {
    FindId(NoteIds(notes), id)
  }

  /** `$folder->notes()->count()`: the notes whose `folder_id` is the folder's id, of any student. */
  function NoteCount(notes: seq<Note>, fid: nat): nat
    decreases |notes|
  {
    if notes == [] then 0
    else NoteCount(notes[..|notes| - 1], fid) + (if notes[|notes| - 1].folderId == Some(fid) then 1 else 0)
  }

  /** The count is zero exactly when no note points at the folder. */
  lemma {:induction false} NoteCountZero(notes: seq<Note>, fid: nat)
    ensures NoteCount(notes, fid) == 0 <==> forall k :: 0 <= k < |notes| ==> notes[k].folderId != Some(fid)
    decreases |notes|
  {
    if notes != [] {
      var init := notes[..|notes| - 1];
      NoteCountZero(init, fid);
      assert forall k :: 0 <= k < |init| ==> init[k] == notes[k];
    }
  }

  // ---------------------------------------------------------------------------
  // getFoldersForStudentCourse

  /** The eager-loaded `notes` of folder `f`: its notes of the same student and course, in table order. */
  function FolderNotes(notes: seq<Note>, fid: nat, studentId: int, courseId: int): (r: seq<Note>)
    ensures forall x :: x in r <==> x in notes && x.folderId == Some(fid) && x.studentId == studentId && x.courseId == courseId
    decreases |notes|
  {
    if notes == [] then []
    else
      var last := notes[|notes| - 1];
      FolderNotes(notes[..|notes| - 1], fid, studentId, courseId)
        + (if last.folderId == Some(fid) && last.studentId == studentId && last.courseId == courseId then [last] else [])
  }

  /** One element of the listing: the folder and its loaded notes. */
  datatype Listed = Listed(folder: Folder, notes: seq<Note>)

  /** `getFoldersForStudentCourse`: the student's folders of the course, in table order, each with its notes. */
  function FoldersForStudentCourse(folders: seq<Folder>, notes: seq<Note>, studentId: int, courseId: int): (r: seq<Listed>)
    ensures |r| <= |folders|
    ensures forall k :: 0 <= k < |r| ==>
      && r[k].folder in folders && r[k].folder.studentId == studentId && r[k].folder.courseId == courseId
      && r[k].notes == FolderNotes(notes, r[k].folder.id, studentId, courseId)
    decreases |folders|
  {
    if folders == [] then []
    else
      var f := folders[|folders| - 1];
      FoldersForStudentCourse(folders[..|folders| - 1], notes, studentId, courseId)
        + (if f.studentId == studentId && f.courseId == courseId then [Listed(f, FolderNotes(notes, f.id, studentId, courseId))] else [])
  }

  /** The listing misses none of the student's folders of the course. */
  lemma {:induction false} ListingIsComplete(folders: seq<Folder>, notes: seq<Note>, studentId: int, courseId: int, f: Folder)
    requires f in folders && f.studentId == studentId && f.courseId == courseId
    ensures Listed(f, FolderNotes(notes, f.id, studentId, courseId)) in FoldersForStudentCourse(folders, notes, studentId, courseId)
    decreases |folders|
  {
    var init := folders[..|folders| - 1];
    if f != folders[|folders| - 1] {
      assert folders == init + [folders[|folders| - 1]];
      assert f in init;
      ListingIsComplete(init, notes, studentId, courseId, f);
    }
  }

  /** Every folder the listing holds is listed with notes of the requested student and course only. */
  lemma ListedNotesBelong(folders: seq<Folder>, notes: seq<Note>, studentId: int, courseId: int, k: nat, x: Note)
    requires k < |FoldersForStudentCourse(folders, notes, studentId, courseId)|
    requires x in FoldersForStudentCourse(folders, notes, studentId, courseId)[k].notes
    ensures var e := FoldersForStudentCourse(folders, notes, studentId, courseId)[k];
      x in notes && x.folderId == Some(e.folder.id) && x.studentId == studentId && x.courseId == courseId
  {
  }

  // ---------------------------------------------------------------------------
  // The writes

  /** `createFolder`: inserts one row with the next id, stamped with the request time `now`. */
  method CreateFolder(db: Db, studentId: int, courseId: int, name: string, now: int) returns (f: Folder)
    requires db.Valid()
    modifies db
    ensures db.Valid()
    ensures f == Folder(old(db.nextFolderId), studentId, courseId, name, now, now)
    ensures db.folders == old(db.folders) + [f] && db.nextFolderId == old(db.nextFolderId) + 1
    ensures db.notes == old(db.notes) && db.nextNoteId == old(db.nextNoteId)
    ensures db.flashcards == old(db.flashcards) && db.quizzes == old(db.quizzes) && db.examScores == old(db.examScores)
    ensures db.nextFlashcardId == old(db.nextFlashcardId) && db.nextQuizId == old(db.nextQuizId)
  {
    f := Folder(db.nextFolderId, studentId, courseId, name, now, now);
    db.folders := db.folders + [f];
    db.nextFolderId := db.nextFolderId + 1;
    assert forall i :: 0 <= i < |old(db.folders)| ==> db.folders[i] == old(db.folders)[i];
  }

  /**
   * `renameFolder`: only the folder with that id changes; None when there is
   * none. `save()` writes only a changed name, and then bumps `updated_at`.
   */
  method RenameFolder(db: Db, id: nat, name: string, now: int) returns (r: Option<Folder>)
    requires db.Valid()
    modifies db
    ensures db.Valid()
    ensures match FindFolder(old(db.folders), id)
      case None => r.None? && db.folders == old(db.folders)
      case Some(i) =>
        && r == Some(Renamed(old(db.folders)[i], name, now))
        && db.folders == old(db.folders)[i := r.value]
    ensures db.notes == old(db.notes) && db.nextNoteId == old(db.nextNoteId) && db.nextFolderId == old(db.nextFolderId)
    ensures db.flashcards == old(db.flashcards) && db.quizzes == old(db.quizzes) && db.examScores == old(db.examScores)
    ensures db.nextFlashcardId == old(db.nextFlashcardId) && db.nextQuizId == old(db.nextQuizId)
  {
    var found := FindFolder(db.folders, id);
    if found.None? {
      return None;
    }
    var i := found.value;
    var folder := db.folders[i];
    if folder.name != name {
      folder := folder.(name := name, updatedAt := now);
    }
    db.folders := db.folders[i := folder];
    assert FolderIds(db.folders) == FolderIds(old(db.folders));
    r := Some(folder);
  }

  /**
   * The folder once it is saved with `name`: a new name also stamps `now`;
   * the same name leaves the row as it was.
   */
  function Renamed(f: Folder, name: string, now: int): (r: Folder)
    ensures r.name == name && r.(name := f.name, updatedAt := f.updatedAt) == f
    ensures name != f.name ==> r.updatedAt == now
    ensures name == f.name ==> r == f
  {
    if name == f.name then f else f.(name := name, updatedAt := now)
  }

  /**
   * `moveNoteToFolder`: only the note with that id changes; None when there
   * is none. `save()` writes only a changed `folder_id`, and then bumps
   * `updated_at` to the request time `now`.
   */
  method MoveNoteToFolder(db: Db, noteId: nat, folderId: Option<nat>, now: int) returns (r: Option<Note>)
    requires db.Valid()
    modifies db
    ensures db.Valid()
    ensures match FindNote(old(db.notes), noteId)
      case None => r.None? && db.notes == old(db.notes)
      case Some(i) =>
        && db.notes == Moved(old(db.notes), i, folderId, now)
        && r == Some(db.notes[i])
    ensures db.folders == old(db.folders) && db.nextNoteId == old(db.nextNoteId) && db.nextFolderId == old(db.nextFolderId)
    ensures db.flashcards == old(db.flashcards) && db.quizzes == old(db.quizzes) && db.examScores == old(db.examScores)
    ensures db.nextFlashcardId == old(db.nextFlashcardId) && db.nextQuizId == old(db.nextQuizId)
  {
    var found := FindNote(db.notes, noteId);
    if found.None? {
      return None;
    }
    var i := found.value;
    var note := db.notes[i];
    if note.folderId != folderId {
      note := note.(folderId := folderId, updatedAt := now);
    }
    db.notes := db.notes[i := note];
    assert NoteIds(db.notes) == NoteIds(old(db.notes));
    r := Some(note);
  }

  /**
   * The notes table once the note at `i` is saved with `folderId`: a new
   * folder id also stamps `now`; the same one leaves the row as it was.
   */
  function Moved(notes: seq<Note>, i: nat, folderId: Option<nat>, now: int): (r: seq<Note>)
    requires i < |notes|
    ensures |r| == |notes| && r[i].folderId == folderId
    ensures forall k :: 0 <= k < |notes| && k != i ==> r[k] == notes[k]
    ensures r[i].(folderId := notes[i].folderId, updatedAt := notes[i].updatedAt) == notes[i]
    ensures folderId != notes[i].folderId ==> r[i].updatedAt == now
    ensures folderId == notes[i].folderId ==> r == notes
  {
    if folderId == notes[i].folderId then notes
    else notes[i := notes[i].(folderId := folderId, updatedAt := now)]
  }

  /** The folders table without the rows that have id `id`, in order. */
  function Without(folders: seq<Folder>, id: nat): (r: seq<Folder>)
    ensures |r| <= |folders|
    decreases |folders|
  {
    if folders == [] then []
    else Without(folders[..|folders| - 1], id) + (if folders[|folders| - 1].id == id then [] else [folders[|folders| - 1]])
  }

  /** Exactly the folders with another id remain. */
  lemma {:induction false} WithoutMembers(folders: seq<Folder>, id: nat)
    ensures forall x :: x in Without(folders, id) <==> x in folders && x.id != id
    decreases |folders|
  {
    if folders != [] {
      var init, last := folders[..|folders| - 1], folders[|folders| - 1];
      WithoutMembers(init, id);
      assert folders == init + [last];
    }
  }

  /** Removing rows keeps the ids increasing. */
  lemma {:induction false} WithoutIncreasing(folders: seq<Folder>, id: nat, next: nat)
    requires Increasing(FolderIds(folders), next)
    ensures Increasing(FolderIds(Without(folders, id)), next)
    decreases |folders|
  {
    if folders != [] {
      var n := |folders|;
      var init, last := folders[..n - 1], folders[n - 1];
      assert FolderIds(init) == FolderIds(folders)[..n - 1];
      InitIncreasing(FolderIds(folders), next);
      WithoutIncreasing(init, id, last.id);
      var w := Without(init, id);
      if last.id != id {
        assert Without(folders, id) == w + [last];
        assert FolderIds(w + [last]) == FolderIds(w) + [last.id];
        SnocIncreasing(FolderIds(w), last.id, next);
      } else {
        assert Without(folders, id) == w + [];
        RightUnit(w);
      }
    }
  }

  lemma InitIncreasing(ids: seq<nat>, next: nat)
    requires ids != [] && Increasing(ids, next)
    ensures Increasing(ids[..|ids| - 1], ids[|ids| - 1]) && ids[|ids| - 1] < next
  {
  }

  lemma SnocIncreasing(ids: seq<nat>, x: nat, next: nat)
    requires Increasing(ids, x) && x < next
    ensures Increasing(ids + [x], next)
  {
  }

  /** `deleteFolder`: refuses while any note points at the folder; otherwise deletes it and reports true. */
  method DeleteFolder(db: Db, id: nat) returns (deleted: bool)
    requires db.Valid()
    modifies db
    ensures db.Valid()
    ensures deleted <==> NoteCount(old(db.notes), id) == 0
    ensures db.folders == if deleted then Without(old(db.folders), id) else old(db.folders)
    ensures db.notes == old(db.notes) && db.nextNoteId == old(db.nextNoteId) && db.nextFolderId == old(db.nextFolderId)
    ensures db.flashcards == old(db.flashcards) && db.quizzes == old(db.quizzes) && db.examScores == old(db.examScores)
    ensures db.nextFlashcardId == old(db.nextFlashcardId) && db.nextQuizId == old(db.nextQuizId)
  {
    if NoteCount(db.notes, id) > 0 {
      return false;
    }
    WithoutIncreasing(db.folders, id, db.nextFolderId);
    db.folders := Without(db.folders, id);
    deleted := true;
  }

  // ---------------------------------------------------------------------------
  // How the writes interact

  /** A folder that has been deleted is gone; every other folder is still there. */
  lemma DeleteRemovesOnlyTarget(folders: seq<Folder>, id: nat, f: Folder)
    requires f in folders
    ensures f in Without(folders, id) <==> f.id != id
  {
    WithoutMembers(folders, id);
  }

  /** Moving a note into folder `f` makes `deleteFolder(f)` refuse. */
  lemma MoveInBlocksDelete(notes: seq<Note>, i: nat, f: nat, now: int)
    requires i < |notes|
    ensures NoteCount(Moved(notes, i, Some(f), now), f) > 0
  {
    var m := Moved(notes, i, Some(f), now);
    NoteCountZero(m, f);
    assert m[i].folderId == Some(f);
  }

  /** Moving the folder's only note elsewhere (or out of every folder) makes `deleteFolder(f)` succeed again. */
  lemma MoveOutUnblocksDelete(notes: seq<Note>, i: nat, f: nat, target: Option<nat>, now: int)
    requires i < |notes| && target != Some(f)
    requires forall k :: 0 <= k < |notes| && k != i ==> notes[k].folderId != Some(f)
    ensures NoteCount(Moved(notes, i, target, now), f) == 0
  {
    NoteCountZero(Moved(notes, i, target, now), f);
  }

  /** Moving a note changes no folder's count but the two it leaves and joins. */
  lemma {:induction false} MoveKeepsOtherCounts(notes: seq<Note>, i: nat, target: Option<nat>, g: nat, now: int)
    requires i < |notes| && notes[i].folderId != Some(g) && target != Some(g)
    ensures NoteCount(Moved(notes, i, target, now), g) == NoteCount(notes, g)
    decreases |notes|
  {
    var m := Moved(notes, i, target, now);
    var n := |notes|;
    if i < n - 1 {
      assert m[..n - 1] == Moved(notes[..n - 1], i, target, now);
      MoveKeepsOtherCounts(notes[..n - 1], i, target, g, now);
    } else {
      assert m[..n - 1] == notes[..n - 1];
    }
  }
}
