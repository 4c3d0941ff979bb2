/**
 * backend/app/Services/QuizService.php: `generateQuizFromNote` (without its
 * HTTP call), `getQuizzesByNoteId` and `submitExamResult`. Before inserting,
 * the generator deletes just enough of the note's oldest questions for the
 * total to come back to 20.
 */
module QuizService {
  import opened Wrappers
  import opened Strings
  import opened Document
  import opened Database
  import opened AiReply
  import JsonToText

  const Cap: nat := 20

  const TooShortMessage := "Note content is too short or empty"
  const InvalidResponseMessage := "Invalid AI response format"
  const DecodeFailedMessage := "Failed to decode questions"

  /** An element the loop stores: it has a `question`, `options` and a `correct_index`. */
  predicate IsQuestion(it: Item) {
    it.question.Some? && it.options.Some? && it.correctIndex.Some?
  }

  function QuestionOf(it: Item): Question
    requires IsQuestion(it)
  {
    Question(it.question.value, it.options.value, it.correctIndex.value)
  }

  /** The questions the insert loop creates, in order. */
  function QuestionsOf(items: seq<Item>): (r: seq<Question>)
    ensures |r| <= |items|
    decreases |items|
  {
    if items == [] then []
    else
      var it := items[|items| - 1];
      QuestionsOf(items[..|items| - 1]) + (if IsQuestion(it) then [QuestionOf(it)] else [])
  }

  /** Every stored question comes from an element that had all three keys, and every such element is stored. */
  lemma {:induction false} QuestionsOfComplete(items: seq<Item>)
    ensures forall q :: q in QuestionsOf(items) <==> exists i :: 0 <= i < |items| && IsQuestion(items[i]) && q == QuestionOf(items[i])
    decreases |items|
  {
    if items != [] {
      var init, it := items[..|items| - 1], items[|items| - 1];
      QuestionsOfComplete(init);
      forall q ensures q in QuestionsOf(items) <==> exists i :: 0 <= i < |items| && IsQuestion(items[i]) && q == QuestionOf(items[i]) {
        if q in QuestionsOf(items) && q !in QuestionsOf(init) {
          assert IsQuestion(it) && q == QuestionOf(items[|items| - 1]);
        }
        if exists i :: 0 <= i < |items| && IsQuestion(items[i]) && q == QuestionOf(items[i]) {
          var i :| 0 <= i < |items| && IsQuestion(items[i]) && q == QuestionOf(items[i]);
          if i < |items| - 1 {
            assert init[i] == items[i];
          }
        }
      }
    }
  }

  /** How many of the note's oldest questions go before inserting `n` more. */
  function ToDelete(current: nat, n: nat): nat {
    if current + n > Cap then current + n - Cap else 0
  }

  /** The question table after a successful generation for note `nid`. */
  function StoreAfter(rows: seq<Owned<Question>>, nid: nat, items: seq<Item>, next: nat): seq<Owned<Question>> {
    DropOldest(rows, nid, ToDelete(|OfNote(rows, nid)|, |items|)) + NewRows(nid, QuestionsOf(items), next)
  }

  /** The reply's elements, or the exception the generator throws before touching the table. */
  function Parse(text: string, reply: Option<string>, decodeItems: ItemDecoder): Result<seq<Item>, string> {
    if TooShort(text) then Err(TooShortMessage)
    else match JsonSlice(ReplyText(reply))
      case None => Err(InvalidResponseMessage)
      case Some(slice) =>
        match decodeItems(slice)
        case None => Err(DecodeFailedMessage)
        case Some(items) => Ok(items)
  }

  lemma WholeItems(items: seq<Item>)
    ensures QuestionsOf(items[..|items|]) == QuestionsOf(items)
  {
    assert items[..|items|] == items;
  }

  lemma QuestionsOfStep(items: seq<Item>, i: nat)
    requires i < |items|
    ensures QuestionsOf(items[..i + 1]) == QuestionsOf(items[..i]) + (if IsQuestion(items[i]) then [QuestionOf(items[i])] else [])
  {
    assert items[..i + 1][..i] == items[..i];
  }

  /** Everything in the database but the question table and its counter. */
  function NotQuizzes(db: Db): (seq<Note>, seq<Folder>, seq<Owned<Card>>, map<nat, int>, nat, nat, nat)
    reads db
  {
    (db.notes, db.folders, db.flashcards, db.examScores, db.nextNoteId, db.nextFolderId, db.nextFlashcardId)
  }

  /** One pass of the insert loop: the table grows by the element's question, if it has one. */
  lemma InsertStep(rows0: seq<Owned<Question>>, next0: nat, nid: nat, items: seq<Item>, i: nat)
    requires i < |items|
    ensures var pre := QuestionsOf(items[..i]);
      && |QuestionsOf(items[..i + 1])| == |pre| + (if IsQuestion(items[i]) then 1 else 0)
      && rows0 + NewRows(nid, QuestionsOf(items[..i + 1]), next0)
         == rows0 + NewRows(nid, pre, next0)
            + (if IsQuestion(items[i]) then [Owned(next0 + |pre|, nid, QuestionOf(items[i]))] else [])
  {
    var pre := QuestionsOf(items[..i]);
    QuestionsOfStep(items, i);
    if IsQuestion(items[i]) {
      NewRowsSnoc(nid, pre, QuestionOf(items[i]), next0);
      assert rows0 + NewRows(nid, pre, next0) + [Owned(next0 + |pre|, nid, QuestionOf(items[i]))]
        == rows0 + NewRows(nid, pre + [QuestionOf(items[i])], next0);
    } else {
      assert rows0 + NewRows(nid, pre, next0) + [] == rows0 + NewRows(nid, pre, next0);
    }
  }

  /** The insert loop: every element with all three keys becomes a question row with the next id. */
  method InsertQuestions(db: Db, nid: nat, items: seq<Item>)
    modifies db
    ensures db.quizzes == old(db.quizzes) + NewRows(nid, QuestionsOf(items), old(db.nextQuizId))
    ensures db.nextQuizId == old(db.nextQuizId) + |QuestionsOf(items)|
    ensures NotQuizzes(db) == old(NotQuizzes(db))
  {
    ghost var rows0, next0, rest0 := db.quizzes, db.nextQuizId, NotQuizzes(db);
    var i := 0;
    ghost var count := 0;
    while i < |items|
      invariant 0 <= i <= |items|
      invariant count == |QuestionsOf(items[..i])|
      invariant db.quizzes == rows0 + NewRows(nid, QuestionsOf(items[..i]), next0)
      invariant db.nextQuizId == next0 + count
      invariant NotQuizzes(db) == rest0
    {
      var q := items[i];
      InsertStep(rows0, next0, nid, items, i);
      if IsQuestion(q) {
        db.quizzes := db.quizzes + [Owned(db.nextQuizId, nid, QuestionOf(q))];
        db.nextQuizId := db.nextQuizId + 1;
        count := count + 1;
      }
      i := i + 1;
    }
    WholeItems(items);
  }

  /** Deletes the note's `k` oldest questions (all of them when it has fewer). */
  method DeleteOldest(db: Db, nid: nat, k: nat)
    requires db.Valid()
    modifies db
    ensures db.Valid()
    ensures db.quizzes == DropOldest(old(db.quizzes), nid, k)
    ensures db.nextQuizId == old(db.nextQuizId) && NotQuizzes(db) == old(NotQuizzes(db))
  {
    DropOldestIncreasing(db.quizzes, nid, k, db.nextQuizId);
    db.quizzes := DropOldest(db.quizzes, nid, k);
  }

  /** The second half of `generateQuizFromNote`: trims the note's oldest questions, then runs the insert loop. */
  method StoreQuestions(db: Db, nid: nat, items: seq<Item>)
    requires db.Valid()
    modifies db
    ensures db.Valid()
    ensures NotQuizzes(db) == old(NotQuizzes(db))
    ensures db.quizzes == StoreAfter(old(db.quizzes), nid, items, old(db.nextQuizId))
    ensures db.nextQuizId == old(db.nextQuizId) + |QuestionsOf(items)|
  {
    ghost var rows0, next0 := db.quizzes, db.nextQuizId;
    var currentQuizzes := OfNote(db.quizzes, nid);
    var totalAfterInsert := |currentQuizzes| + |items|;
    if totalAfterInsert > Cap {
      var toDelete := totalAfterInsert - Cap;
      DeleteOldest(db, nid, toDelete);
    } else {
      DropNothing(db.quizzes, nid);
    }
    ghost var kept := db.quizzes;
    assert kept == DropOldest(rows0, nid, ToDelete(|OfNote(rows0, nid)|, |items|));
    InsertQuestions(db, nid, items);
    AppendIncreasing(kept, nid, QuestionsOf(items), next0);
  }

  /**
   * `generateQuizFromNote`, with the chat completion's message content
   * (None when the reply has none) and `json_decode` as parameters. An
   * exception leaves the table alone; otherwise it returns the decoded
   * array whole, stored or not.
   */
  method GenerateQuiz(db: Db, note: Note, decode: Decoder, reply: Option<string>, decodeItems: ItemDecoder)
    returns (r: Result<seq<Item>, string>)
    requires db.Valid()
    modifies db
    ensures db.Valid()
    ensures NotQuizzes(db) == old(NotQuizzes(db))
    ensures match Parse(JsonToText.TextOf(note.content, decode), reply, decodeItems)
      case Err(e) => r == Err(e) && db.quizzes == old(db.quizzes) && db.nextQuizId == old(db.nextQuizId)
      case Ok(items) =>
        && r == Ok(items)
        && db.quizzes == StoreAfter(old(db.quizzes), note.id, items, old(db.nextQuizId))
        && db.nextQuizId == old(db.nextQuizId) + |QuestionsOf(items)|
  {
    var content := JsonToText.ExtractText(note.content, decode);
    var parsed := Parse(content, reply, decodeItems);
    if parsed.Err? {
      return Err(parsed.error);
    }
    StoreQuestions(db, note.id, parsed.value);
    r := Ok(parsed.value);
  }

  /** `getQuizzesByNoteId`: exactly the note's questions, oldest first. */
  function QuizzesByNoteId(rows: seq<Owned<Question>>, nid: nat): (r: seq<Owned<Question>>)
    ensures forall x :: x in r <==> x in rows && x.noteId == nid
  {
    OfNote(rows, nid)
  }

  /** What `submitExamResult` answers: the score stored before, if any, and the one stored now. */
  datatype Submission = Submission(previousScore: Option<int>, currentScore: int)

  /** `submitExamResult`: reads the note's old score, then updates or creates its row. */
  method SubmitExamResult(db: Db, noteId: nat, score: int) returns (s: Submission)
    modifies db
    ensures s.previousScore == (if noteId in old(db.examScores) then Some(old(db.examScores)[noteId]) else None)
    ensures s.currentScore == score
    ensures db.examScores == old(db.examScores)[noteId := score]
    ensures db.notes == old(db.notes) && db.folders == old(db.folders)
    ensures db.flashcards == old(db.flashcards) && db.quizzes == old(db.quizzes)
    ensures db.nextNoteId == old(db.nextNoteId) && db.nextFolderId == old(db.nextFolderId)
    ensures db.nextFlashcardId == old(db.nextFlashcardId) && db.nextQuizId == old(db.nextQuizId)
  {
    var previousScore := if noteId in db.examScores then Some(db.examScores[noteId]) else None;
    db.examScores := db.examScores[noteId := score];
    s := Submission(previousScore, db.examScores[noteId]);
  }

  /**
   * Two submissions for the same note: the second reports the first score
   * as the previous one, and only the second score is kept.
   */
  method ResubmitReportsPrevious(db: Db, noteId: nat, first: int, second: int) returns (a: Submission, b: Submission)
    modifies db
    ensures a == Submission(if noteId in old(db.examScores) then Some(old(db.examScores)[noteId]) else None, first)
    ensures b == Submission(Some(first), second)
    ensures db.examScores == old(db.examScores)[noteId := second] && db.examScores[noteId] == second
    ensures db.notes == old(db.notes) && db.quizzes == old(db.quizzes)
  {
    a := SubmitExamResult(db, noteId, first);
    b := SubmitExamResult(db, noteId, second);
  }

  // ---------------------------------------------------------------------------
  // What the deletion does to the note's questions.

  /** The note's questions after a generation: the newest survivors, then the new rows; other notes untouched. */
  lemma StoreAfterOfNote(rows: seq<Owned<Question>>, nid: nat, items: seq<Item>, next: nat, m: nat)
    ensures var c := |OfNote(rows, nid)|;
      && (m != nid ==> OfNote(StoreAfter(rows, nid, items, next), m) == OfNote(rows, m))
      && (m == nid ==> OfNote(StoreAfter(rows, nid, items, next), m)
                       == OfNote(rows, nid)[Min(ToDelete(c, |items|), c)..] + NewRows(nid, QuestionsOf(items), next))
  {
    var k := ToDelete(|OfNote(rows, nid)|, |items|);
    var d := DropOldest(rows, nid, k);
    var added := NewRows(nid, QuestionsOf(items), next);
    OfNoteConcat(d, added, m);
    DropOldestOfNote(rows, nid, k, m);
    NewRowsOfNote(nid, QuestionsOf(items), next, m);
    if m != nid {
      assert OfNote(d, m) + [] == OfNote(d, m);
    }
  }

  /** The count the note ends with. */
  function CountAfter(current: nat, items: seq<Item>): nat {
    current - Min(ToDelete(current, |items|), current) + |QuestionsOf(items)|
  }

  lemma CountAfterIsStored(rows: seq<Owned<Question>>, nid: nat, items: seq<Item>, next: nat)
    ensures |OfNote(StoreAfter(rows, nid, items, next), nid)| == CountAfter(|OfNote(rows, nid)|, items)
  {
    StoreAfterOfNote(rows, nid, items, next, nid);
  }

  /** With a reply of at most 20 elements the note never holds more than 20 questions, whatever it held before. */
  lemma CapHolds(current: nat, items: seq<Item>)
    requires |items| <= Cap
    ensures CountAfter(current, items) <= Cap
  {
  }

  /** A reply of more than 20 storable elements leaves the note with all of them and nothing older. */
  lemma LongReplyOverflows(current: nat, items: seq<Item>)
    requires |items| > Cap && |QuestionsOf(items)| == |items|
    ensures CountAfter(current, items) == |items| > Cap
  {
  }

  /** A note whose plain text is that of the blank document is rejected before any reply is read. */
  lemma BlankNoteIsRejected(decode: Decoder, reply: Option<string>, decodeItems: ItemDecoder)
    ensures Parse(JsonToText.TextOf(Tree(BlankDocument), decode), reply, decodeItems) == Err(TooShortMessage)
  {
    JsonToText.BlankDocumentIsSilent(decode);
  }
}
