/**
 * backend/app/Services/NoteService.php: the note queries, `createNote`, and
 * `getOrCreateNote`, which reuses the newest note of an identity only while
 * it still holds the blank editor document. The request time is a parameter.
 */
module NoteService {
  import opened Wrappers
  import opened Document
  import opened Database
  import JsonToText
  import JsonToHtml

  /** The identity a note is looked up by (`$criteria`); an omitted unit or lesson is null. */
  datatype Criteria = Criteria(studentId: int, courseId: int, unitNumber: Option<int>, lessonTitle: Option<string>)

  /** A validated note request: the identity, and the optional `title` and `content`. */
  datatype Request = Request(
    studentId: int,
    courseId: int,
    unitNumber: Option<int>,
    lessonTitle: Option<string>,
    title: Option<string>,
    content: Option<Value>
  )

  datatype Outcome = Outcome(note: Note, message: string, status: int)

  const ReusedMessage := "Reused empty note and updated timestamp & title."
  const HadContentMessage := "Previous note had content. Created new note."
  const NoPreviousMessage := "No previous note. Created new note."

  function CriteriaOf(req: Request): Criteria {
    Criteria(req.studentId, req.courseId, req.unitNumber, req.lessonTitle)
  }

  /**
   * Exact match on all four identity columns. A null criterion becomes
   * `whereNull`, which no row meets: both columns are NOT NULL.
   */
  predicate Matches(n: Note, c: Criteria) {
    n.studentId == c.studentId && n.courseId == c.courseId && c.unitNumber == Some(n.unitNumber) && c.lessonTitle == Some(n.lessonTitle)
  }

  /** Both NOT NULL identity columns are given. */
  predicate Complete(c: Criteria) {
    c.unitNumber.Some? && c.lessonTitle.Some?
  }

  /** `filterNotes`: the notes matching the identity, in table order. */
  function FilterNotes(notes: seq<Note>, c: Criteria): (r: seq<Note>)
    ensures |r| <= |notes|
    ensures forall x :: x in r <==> x in notes && Matches(x, c)
    decreases |notes|
  {
    if notes == [] then []
    else FilterNotes(notes[..|notes| - 1], c) + (if Matches(notes[|notes| - 1], c) then [notes[|notes| - 1]] else [])
  }

  /** A null unit or lesson filter selects no note at all. */
  lemma {:induction false} NullCriterionMatchesNothing(notes: seq<Note>, c: Criteria)
    requires !Complete(c)
    ensures FilterNotes(notes, c) == [] && LatestMatch(notes, c).None?
    decreases |notes|
  {
    if notes != [] {
      NullCriterionMatchesNothing(notes[..|notes| - 1], c);
    }
  }

  /** The query inside `getNotesByStudentCourse`'s cache: the notes of one student in one course, read from the table. */
  function NotesOfStudentCourse(notes: seq<Note>, studentId: int, courseId: int): (r: seq<Note>)
    ensures |r| <= |notes|
    ensures forall x :: x in r <==> x in notes && x.studentId == studentId && x.courseId == courseId
    decreases |notes|
  {
    if notes == [] then []
    else
      var last := notes[|notes| - 1];
      NotesOfStudentCourse(notes[..|notes| - 1], studentId, courseId)
        + (if last.studentId == studentId && last.courseId == courseId then [last] else [])
  }

  /** The cache key `notes_by_student_{student}_course_{course}`, as the pair of ids it is built from. */
  type CacheKey = (int, int)

  /** A `Cache::remember` entry: the stored list and the time it was stored. */
  datatype CacheEntry = CacheEntry(notes: seq<Note>, storedAt: int)

  /** The lifetime `getNotesByStudentCourse` gives its entries, in seconds. */
  const Ttl := 300

  /** An entry is served until its lifetime has run out. */
  predicate Live(e: CacheEntry, now: int) {
    now < e.storedAt + Ttl
  }

  /** The application cache, as far as the note lists go. */
  class NoteCache {
    var entries: map<CacheKey, CacheEntry>

    constructor ()
      ensures entries == map[]
    {
      entries := map[];
    }
  }

  /**
   * `getNotesByStudentCourse`: a live entry is served as stored, whatever
   * the table now holds; otherwise the query runs and its result is stored
   * at `now`.
   */
  method NotesByStudentCourse(db: Db, cache: NoteCache, studentId: int, courseId: int, now: int) returns (r: seq<Note>)
    modifies cache
    ensures var k := (studentId, courseId);
      if k in old(cache.entries) && Live(old(cache.entries)[k], now) then
        r == old(cache.entries)[k].notes && cache.entries == old(cache.entries)
      else
        r == NotesOfStudentCourse(db.notes, studentId, courseId) && cache.entries == old(cache.entries)[k := CacheEntry(r, now)]
  {
    var k := (studentId, courseId);
    if k in cache.entries && Live(cache.entries[k], now) {
      return cache.entries[k].notes;
    }
    r := NotesOfStudentCourse(db.notes, studentId, courseId);
    cache.entries := cache.entries[k := CacheEntry(r, now)];
  }

  /** The position of the last-created matching note, if any. */
  function LatestMatch(notes: seq<Note>, c: Criteria): (r: Option<nat>)
    ensures r.None? ==> forall k :: 0 <= k < |notes| ==> !Matches(notes[k], c)
    ensures r.Some? ==> r.value < |notes| && Matches(notes[r.value], c)
    ensures r.Some? ==> forall k :: r.value < k < |notes| ==> !Matches(notes[k], c)
    decreases |notes|
  {
    if notes == [] then None
    else if Matches(notes[|notes| - 1], c) then Some(|notes| - 1)
    else LatestMatch(notes[..|notes| - 1], c)
  }

  /** With ids in creation order, the last-created match is the one `orderByDesc('id')->first()` picks. */
  lemma LatestHasHighestId(notes: seq<Note>, next: nat, c: Criteria)
    requires Increasing(NoteIds(notes), next)
    requires LatestMatch(notes, c).Some?
    ensures var i := LatestMatch(notes, c).value;
      forall k :: 0 <= k < |notes| && Matches(notes[k], c) ==> notes[k].id <= notes[i].id
  {
    var i := LatestMatch(notes, c).value;
    forall k | 0 <= k < |notes| && Matches(notes[k], c) ensures notes[k].id <= notes[i].id {
      if k > i {
        assert false;
      } else if k < i {
        assert NoteIds(notes)[k] < NoteIds(notes)[i];
      }
    }
  }

  /**
   * The "single empty paragraph" test: an already-decoded `doc` whose
   * content is exactly one `paragraph` with no content. A stored value that
   * is not an array (null, a JSON string) is never empty.
   */
  predicate IsEmptyContent(v: Value) {
    match v
    case Tree(d) =>
      && d.kind == "doc"
      && d.content.Some?
      && |d.content.value| == 1
      && d.content.value[0].kind == "paragraph"
      && d.content.value[0].content == []
    case Raw(_) => false
    case Scalar => false
  }

  /** The fresh editor's document is what the test calls empty. */
  lemma BlankDocumentIsEmpty()
    ensures IsEmptyContent(Tree(BlankDocument))
  {
  }

  /**
   * An "empty" note has nothing to say: its plain text is "" and its export
   * is one empty paragraph, whatever attributes and marks it carries.
   */
  lemma EmptyContentIsBlank(v: Value, decode: Decoder, asset: JsonToHtml.AssetResolver)
    requires IsEmptyContent(v)
    ensures JsonToText.TextOf(v, decode) == ""
    ensures JsonToHtml.DocumentHtml(v, decode, asset)
         == JsonToHtml.Open("p style='" + JsonToHtml.ParagraphStyle(v.doc.content.value[0].attrs.textAlign) + "'") + JsonToHtml.Close("p")
  {
    var p := v.doc.content.value[0];
    assert v.doc.content.value == [p];
    assert TopContent(v, decode) == Some([p]);
    EmptyParagraphText(p);
    EmptyParagraphHtml(p, asset);
  }

  lemma EmptyParagraphText(p: Node)
    requires p.kind == "paragraph" && p.content == []
    ensures JsonToText.ContentText([p]) == ""
  {
    JsonToText.EmptyContentText();
    assert [p][..0] == [];
    assert JsonToText.NodeText(p) == "" + "";
    assert JsonToText.Accumulated([p]) == "" + "";
  }

  lemma EmptyParagraphHtml(p: Node, asset: JsonToHtml.AssetResolver)
    requires p.kind == "paragraph" && p.content == []
    ensures JsonToHtml.NodesHtml([p], asset)
         == JsonToHtml.Open("p style='" + JsonToHtml.ParagraphStyle(p.attrs.textAlign) + "'") + JsonToHtml.Close("p")
  {
    var o := JsonToHtml.Open("p style='" + JsonToHtml.ParagraphStyle(p.attrs.textAlign) + "'");
    assert [p][..0] == [];
    assert JsonToHtml.NodesHtml(p.content, asset) == "";
    assert JsonToHtml.NodeHtml(p, asset) == o + "" + JsonToHtml.Close("p");
    assert JsonToHtml.NodesHtml([p], asset) == "" + JsonToHtml.NodeHtml(p, asset);
    assert o + "" == o;
  }

  /**
   * The test does not decode: a note whose column holds the blank document
   * as a JSON string flattens to "" but is not reused.
   */
  lemma EncodedBlankIsNotReused(s: string, decode: Decoder)
    requires decode(s) == Some(BlankDocument)
    ensures !IsEmptyContent(Raw(s))
    ensures JsonToText.TextOf(Raw(s), decode) == JsonToText.TextOf(Tree(BlankDocument), decode) == ""
  {
    assert Decoded(Raw(s), decode) == Decoded(Tree(BlankDocument), decode);
    assert TopContent(Raw(s), decode) == TopContent(Tree(BlankDocument), decode);
    JsonToText.BlankDocumentIsSilent(decode);
  }

  /** The row `Note::create(array_merge($criteria, $data))` inserts. */
  function NewNote(id: nat, req: Request, now: int): (n: Note)
    requires Complete(CriteriaOf(req))
    ensures Matches(n, CriteriaOf(req)) && n.id == id && n.folderId.None?
    ensures n.title == req.title && n.content == req.content.GetOr(Scalar) && n.updatedAt == now
  {
    Note(id, req.studentId, req.courseId, req.unitNumber.value, req.lessonTitle.value, req.title, req.content.GetOr(Scalar), None, now)
  }

  /**
   * `createNote`: inserts one row with the next id. Without a unit or a
   * lesson the NOT NULL insert throws (`None`) and nothing is written.
   */
  method CreateNote(db: Db, req: Request, now: int) returns (note: Option<Note>)
    requires db.Valid()
    modifies db
    ensures db.Valid()
    ensures Complete(CriteriaOf(req)) ==>
      && note == Some(NewNote(old(db.nextNoteId), req, now))
      && db.notes == old(db.notes) + [note.value] && db.nextNoteId == old(db.nextNoteId) + 1
    ensures !Complete(CriteriaOf(req)) ==>
      note.None? && db.notes == old(db.notes) && db.nextNoteId == old(db.nextNoteId)
    ensures db.folders == old(db.folders) && db.flashcards == old(db.flashcards)
    ensures db.quizzes == old(db.quizzes) && db.examScores == old(db.examScores)
    ensures db.nextFolderId == old(db.nextFolderId) && db.nextFlashcardId == old(db.nextFlashcardId)
    ensures db.nextQuizId == old(db.nextQuizId)
  {
    if !Complete(CriteriaOf(req)) {
      return None;
    }
    var n := NewNote(db.nextNoteId, req, now);
    db.notes := db.notes + [n];
    db.nextNoteId := db.nextNoteId + 1;
    assert forall i :: 0 <= i < |old(db.notes)| ==> db.notes[i] == old(db.notes)[i];
    note := Some(n);
  }

  /** The row a reused note becomes: the request's title if it has one, and the new timestamp. */
  function Reused(n: Note, req: Request, now: int): Note {
    n.(title := if req.title.Some? then req.title else n.title, updatedAt := now)
  }

  /**
   * `getOrCreateNote`; `None` is the insert that throws when a new note is
   * needed but the unit or the lesson is null. Only the branch that creates
   * a note after one with content forgets the cached list.
   */
  method GetOrCreateNote(db: Db, cache: NoteCache, req: Request, now: int) returns (out: Option<Outcome>)
    requires db.Valid()
    modifies db, cache
    ensures db.Valid()
    ensures db.folders == old(db.folders) && db.flashcards == old(db.flashcards)
    ensures db.quizzes == old(db.quizzes) && db.examScores == old(db.examScores)
    ensures db.nextFolderId == old(db.nextFolderId) && db.nextFlashcardId == old(db.nextFlashcardId)
    ensures db.nextQuizId == old(db.nextQuizId)
    ensures var i := LatestMatch(old(db.notes), CriteriaOf(req));
      if i.Some? && IsEmptyContent(old(db.notes)[i.value].content) then
        && out == Some(Outcome(Reused(old(db.notes)[i.value], req, now), ReusedMessage, 200))
        && db.notes == old(db.notes)[i.value := out.value.note]
        && db.nextNoteId == old(db.nextNoteId)
      else if Complete(CriteriaOf(req)) then
        && out == Some(Outcome(NewNote(old(db.nextNoteId), req, now), if i.Some? then HadContentMessage else NoPreviousMessage, 201))
        && db.notes == old(db.notes) + [out.value.note]
        && db.nextNoteId == old(db.nextNoteId) + 1
      else
        out.None? && db.notes == old(db.notes) && db.nextNoteId == old(db.nextNoteId)
    ensures !Complete(CriteriaOf(req)) ==> out.None? && db.notes == old(db.notes)
    ensures var i := LatestMatch(old(db.notes), CriteriaOf(req));
      cache.entries ==
        if i.Some? && !IsEmptyContent(old(db.notes)[i.value].content) && Complete(CriteriaOf(req))
        then old(cache.entries) - {(req.studentId, req.courseId)}
        else old(cache.entries)
  {
    var c := CriteriaOf(req);
    var idx := LatestMatch(db.notes, c);
    if idx.Some? {
      var i := idx.value;
      var existing := db.notes[i];
      if IsEmptyContent(existing.content) {
        var updated := existing;
        if req.title.Some? {
          updated := updated.(title := req.title);
        }
        updated := updated.(updatedAt := now);
        db.notes := db.notes[i := updated];
        assert NoteIds(db.notes) == NoteIds(old(db.notes));
        return Some(Outcome(updated, ReusedMessage, 200));
      } else {
        var n := CreateNote(db, req, now);
        if n.None? {
          return None;
        }
        cache.entries := cache.entries - {(req.studentId, req.courseId)};
        return Some(Outcome(n.value, HadContentMessage, 201));
      }
    }
    var n := CreateNote(db, req, now);
    if n.None? {
      return None;
    }
    out := Some(Outcome(n.value, NoPreviousMessage, 201));
  }

  /** Reuse keeps the note's identity and content: only the title (when given) and the timestamp change. */
  lemma ReuseKeepsIdentity(n: Note, req: Request, now: int)
    ensures var r := Reused(n, req, now);
      && r.id == n.id && r.content == n.content && r.folderId == n.folderId
      && r.studentId == n.studentId && r.courseId == n.courseId
      && r.unitNumber == n.unitNumber && r.lessonTitle == n.lessonTitle
      && (req.title.None? ==> r.title == n.title) && (req.title.Some? ==> r.title == req.title)
      && r.updatedAt == now
  {
  }

  /** A created note has the request's identity, so it is the one the same request finds next time. */
  lemma CreatedNoteIsFoundNext(notes: seq<Note>, req: Request, id: nat, now: int)
    requires Complete(CriteriaOf(req))
    ensures LatestMatch(notes + [NewNote(id, req, now)], CriteriaOf(req)) == Some(|notes|)
  {
  }

  /** Every row of a valid table has an id below the next auto-increment value. */
  lemma IdsBelowNext(notes: seq<Note>, next: nat, x: Note)
    requires Increasing(NoteIds(notes), next) && x in notes
    ensures x.id < next
  {
    var j :| 0 <= j < |notes| && notes[j] == x;
    assert NoteIds(notes)[j] == x.id;
  }

  /** Ids are unique: a row carrying the id of row `i` is row `i`. */
  lemma SameIdIsSameRow(notes: seq<Note>, next: nat, i: nat, x: Note)
    requires Increasing(NoteIds(notes), next) && i < |notes| && x in notes && x.id == notes[i].id
    ensures x == notes[i]
  {
    var j :| 0 <= j < |notes| && notes[j] == x;
    IncreasingDistinct(NoteIds(notes), next, i, j);
  }

  /**
   * `createNote` never forgets the cached list (its `Cache::forget` follows
   * the `return`): a list read before the insert is served again, without
   * the new note, for as long as it lives.
   */
  method CreateWhileCached(db: Db, cache: NoteCache, req: Request, now: int, later: int)
    returns (before: seq<Note>, note: Option<Note>, after: seq<Note>)
    requires db.Valid() && Complete(CriteriaOf(req))
    requires (req.studentId, req.courseId) !in cache.entries
    requires now <= later < now + Ttl
    modifies db, cache
    ensures note.Some? && note.value in NotesOfStudentCourse(db.notes, req.studentId, req.courseId)
    ensures after == before && note.value !in after
  {
    var notes0, next0 := db.notes, db.nextNoteId;
    before := NotesByStudentCourse(db, cache, req.studentId, req.courseId, now);
    note := CreateNote(db, req, now);
    after := NotesByStudentCourse(db, cache, req.studentId, req.courseId, later);
    assert db.notes[|notes0|] == note.value;
    if note.value in after {
      IdsBelowNext(notes0, next0, note.value);
    }
  }

  /**
   * Reusing an empty note does not forget the cached list either: a list
   * read before the reuse is served again with the note's old row, and the
   * saved row is missing from it unless nothing changed.
   */
  method ReuseWhileCached(db: Db, cache: NoteCache, req: Request, now: int, later: int)
    returns (before: seq<Note>, out: Option<Outcome>, after: seq<Note>)
    requires db.Valid()
    requires var i := LatestMatch(db.notes, CriteriaOf(req));
      i.Some? && IsEmptyContent(db.notes[i.value].content)
    requires (req.studentId, req.courseId) !in cache.entries
    requires now <= later < now + Ttl
    modifies db, cache
    ensures var prior := old(db.notes)[LatestMatch(old(db.notes), CriteriaOf(req)).value];
      && out.Some? && out.value.note in NotesOfStudentCourse(db.notes, req.studentId, req.courseId)
      && after == before && prior in after
      && (out.value.note != prior ==> out.value.note !in after)
  {
    var notes0, next0 := db.notes, db.nextNoteId;
    var i := LatestMatch(db.notes, CriteriaOf(req)).value;
    before := NotesByStudentCourse(db, cache, req.studentId, req.courseId, now);
    out := GetOrCreateNote(db, cache, req, now);
    var row := Reused(notes0[i], req, now);
    assert out == Some(Outcome(row, ReusedMessage, 200)) && db.notes == notes0[i := row];
    assert cache.entries == old(cache.entries)[(req.studentId, req.courseId) := CacheEntry(before, now)];
    after := NotesByStudentCourse(db, cache, req.studentId, req.courseId, later);
    assert db.notes[i] == row;
    if row in after {
      SameIdIsSameRow(notes0, next0, i, row);
    }
  }
}
