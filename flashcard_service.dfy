/**
 * backend/app/Services/FlashcardService.php: `generateFlashcardsFromNote`
 * (without its HTTP call) and `getFlashcardsByNoteId`. A note's cards are
 * kept near a cap of 20 by deleting its oldest cards, in one of three
 * branches chosen from the current count and the reply's length.
 */
module FlashcardService {
  import opened Wrappers
  import opened Strings
  import opened Document
  import opened Database
  import opened AiReply
  import JsonToText

  const Cap: nat := 20

  const TooShortMessage := "Note content is too short or empty"
  const NoJsonMessage := "No JSON detected in response"
  const InvalidJsonMessage := "Invalid JSON format from AI"

  /** An element the loops store: it has both a `question` and an `answer`. */
  predicate IsCard(it: Item) {
    it.question.Some? && it.answer.Some?
  }

  function CardOf(it: Item): Card
    requires IsCard(it)
  {
    Card(it.question.value, it.answer.value)
  }

  /** Reference reading: the card of every storable element, in order. */
  function AllCards(items: seq<Item>): (r: seq<Card>)
    ensures |r| <= |items|
    decreases |items|
  {
    if items == [] then []
    else
      var it := items[|items| - 1];
      AllCards(items[..|items| - 1]) + (if IsCard(it) then [CardOf(it)] else [])
  }

  /** The cards an insert loop creates when it stops once `limit` cards are in (`$added >= $toAdd`). */
  function CardsOf(items: seq<Item>, limit: nat): (r: seq<Card>)
    ensures |r| <= limit
    decreases |items|
  {
    if items == [] then []
    else
      var pre := CardsOf(items[..|items| - 1], limit);
      var it := items[|items| - 1];
      if |pre| < limit && IsCard(it) then pre + [CardOf(it)] else pre
  }

  /** The bounded loop stores the first `limit` storable elements, in order; unbounded, all of them. */
  lemma {:induction false} CardsOfIsPrefix(items: seq<Item>, limit: nat)
    ensures var all := AllCards(items); CardsOf(items, limit) == all[..Min(limit, |all|)]
    decreases |items|
  {
    if items != [] {
      var init, it := items[..|items| - 1], items[|items| - 1];
      CardsOfIsPrefix(init, limit);
      var a := AllCards(init);
      if IsCard(it) && |CardsOf(init, limit)| < limit {
        assert (a + [CardOf(it)])[..Min(limit, |a| + 1)] == a + [CardOf(it)];
      } else if IsCard(it) {
        assert (a + [CardOf(it)])[..Min(limit, |a| + 1)] == a[..Min(limit, |a|)];
      } else {
        assert AllCards(items) == a + [];
      }
    }
  }

  lemma WholeItems(items: seq<Item>, limit: nat)
    ensures CardsOf(items[..|items|], limit) == CardsOf(items, limit)
  {
    assert items[..|items|] == items;
  }

  /** One step of the insert loop below the limit. */
  lemma CardsOfStep(items: seq<Item>, i: nat, limit: nat)
    requires i < |items| && |CardsOf(items[..i], limit)| < limit
    ensures CardsOf(items[..i + 1], limit)
      == CardsOf(items[..i], limit) + (if IsCard(items[i]) then [CardOf(items[i])] else [])
  {
    assert items[..i + 1][..i] == items[..i];
  }

  /** Once the loop has `limit` cards, the remaining elements add nothing (the `break`). */
  lemma {:induction false} CardsOfSaturated(items: seq<Item>, i: nat, limit: nat)
    requires i <= |items| && |CardsOf(items[..i], limit)| >= limit
    ensures CardsOf(items, limit) == CardsOf(items[..i], limit)
    decreases |items|
  {
    if i < |items| {
      var init := items[..|items| - 1];
      assert init[..i] == items[..i];
      CardsOfSaturated(init, i, limit);
    } else {
      assert items[..i] == items;
    }
  }

  /** The three branches' decisions: how many oldest cards to delete, how many to insert at most, how many elements to return. */
  datatype Plan = Plan(toDelete: nat, limit: nat, returned: nat)

  /** The branch for a note holding `current` cards and a reply of `n` elements. */
  function PlanFor(current: nat, n: nat): (p: Plan)
    ensures p.returned <= n
  {
    if current + n <= Cap then Plan(0, n, n)
    else if Cap - current > 0 then
      var toAdd := Cap - current;
      var toDelete := n - toAdd;
      Plan(if toDelete > 0 then toDelete else 0, toAdd, toAdd)
    else Plan(n, n, n)
  }

  /** The card table after a successful generation for note `nid`. */
  function StoreAfter(rows: seq<Owned<Card>>, nid: nat, items: seq<Item>, next: nat): seq<Owned<Card>> {
    var p := PlanFor(|OfNote(rows, nid)|, |items|);
    DropOldest(rows, nid, p.toDelete) + NewRows(nid, CardsOf(items, p.limit), next)
  }

  /**
   * A generation for note `nid` took the card table from `rows0` (next id
   * `next0`) to `rows` (next id `next`) and returned `returned`: the branch's
   * deletion and insertions, and the branch's prefix of the reply.
   */
  predicate Stored(rows0: seq<Owned<Card>>, next0: nat, nid: nat, items: seq<Item>,
                   rows: seq<Owned<Card>>, next: nat, returned: seq<Item>)
  {
    var p := PlanFor(|OfNote(rows0, nid)|, |items|);
    && returned == items[..p.returned]
    && rows == StoreAfter(rows0, nid, items, next0)
    && next == next0 + |CardsOf(items, p.limit)|
  }

  /** The reply's elements, or the exception the generator throws before touching the table. */
  function Parse(text: string, reply: Option<string>, decodeItems: ItemDecoder): Result<seq<Item>, string> {
    if TooShort(text) then Err(TooShortMessage)
    else match JsonSlice(ReplyText(reply))
      case None => Err(NoJsonMessage)
      case Some(slice) =>
        match decodeItems(slice)
        case None => Err(InvalidJsonMessage)
        case Some(items) => Ok(items)
  }

  /** Everything in the database but the flashcard table and its counter. */
  function NotCards(db: Db): (seq<Note>, seq<Folder>, seq<Owned<Question>>, map<nat, int>, nat, nat, nat)
    reads db
  {
    (db.notes, db.folders, db.quizzes, db.examScores, db.nextNoteId, db.nextFolderId, db.nextQuizId)
  }

  /** One pass of the insert loop below the limit: the table grows by the element's card, if it has one. */
  lemma InsertStep(rows0: seq<Owned<Card>>, next0: nat, nid: nat, items: seq<Item>, i: nat, limit: nat)
    requires i < |items| && |CardsOf(items[..i], limit)| < limit
    ensures var pre := CardsOf(items[..i], limit);
      && |CardsOf(items[..i + 1], limit)| == |pre| + (if IsCard(items[i]) then 1 else 0)
      && rows0 + NewRows(nid, CardsOf(items[..i + 1], limit), next0)
         == rows0 + NewRows(nid, pre, next0)
            + (if IsCard(items[i]) then [Owned(next0 + |pre|, nid, CardOf(items[i]))] else [])
  {
    var pre := CardsOf(items[..i], limit);
    CardsOfStep(items, i, limit);
    if IsCard(items[i]) {
      NewRowsSnoc(nid, pre, CardOf(items[i]), next0);
      assert rows0 + NewRows(nid, pre, next0) + [Owned(next0 + |pre|, nid, CardOf(items[i]))]
        == rows0 + NewRows(nid, pre + [CardOf(items[i])], next0);
    } else {
      assert rows0 + NewRows(nid, pre, next0) + [] == rows0 + NewRows(nid, pre, next0);
    }
  }

  /** The insert loop: stores the storable elements with the next ids, stopping once `limit` are in. */
  method InsertCards(db: Db, nid: nat, items: seq<Item>, limit: nat)
    modifies db
    ensures db.flashcards == old(db.flashcards) + NewRows(nid, CardsOf(items, limit), old(db.nextFlashcardId))
    ensures db.nextFlashcardId == old(db.nextFlashcardId) + |CardsOf(items, limit)|
    ensures NotCards(db) == old(NotCards(db))
  {
    ghost var rows0, next0, rest0 := db.flashcards, db.nextFlashcardId, NotCards(db);
    var added := 0;
    var i := 0;
    while i < |items|
      invariant 0 <= i <= |items|
      invariant added == |CardsOf(items[..i], limit)|
      invariant db.flashcards == rows0 + NewRows(nid, CardsOf(items[..i], limit), next0)
      invariant db.nextFlashcardId == next0 + added
      invariant NotCards(db) == rest0
    {
      if added >= limit {
        CardsOfSaturated(items, i, limit);
        break;
      }
      var fc := items[i];
      InsertStep(rows0, next0, nid, items, i, limit);
      if IsCard(fc) {
        db.flashcards := db.flashcards + [Owned(db.nextFlashcardId, nid, CardOf(fc))];
        db.nextFlashcardId := db.nextFlashcardId + 1;
        added := added + 1;
      }
      i := i + 1;
    }
    if i == |items| {
      WholeItems(items, limit);
    }
  }

  /** Deletes the note's `k` oldest cards (all of them when it has fewer). */
  method DeleteOldest(db: Db, nid: nat, k: nat)
    requires db.Valid()
    modifies db
    ensures db.Valid()
    ensures db.flashcards == DropOldest(old(db.flashcards), nid, k)
    ensures db.nextFlashcardId == old(db.nextFlashcardId) && NotCards(db) == old(NotCards(db))
  {
    DropOldestIncreasing(db.flashcards, nid, k, db.nextFlashcardId);
    db.flashcards := DropOldest(db.flashcards, nid, k);
  }

  /**
   * The second half of `generateFlashcardsFromNote`: picks the branch from
   * the note's current count, deletes its oldest cards, runs the insert
   * loop, and gives back the elements the generator returns.
   */
  method StoreCards(db: Db, nid: nat, items: seq<Item>) returns (returned: seq<Item>)
    requires db.Valid()
    modifies db
    ensures db.Valid()
    ensures NotCards(db) == old(NotCards(db))
    ensures Stored(old(db.flashcards), old(db.nextFlashcardId), nid, items, db.flashcards, db.nextFlashcardId, returned)
  {
    var currentCount := |OfNote(db.flashcards, nid)|;
    ghost var rows0, next0 := db.flashcards, db.nextFlashcardId;
    if currentCount + |items| <= Cap {
      StoredByPlan(rows0, next0, nid, items, 0, |items|, |items|);
      DropNothing(rows0, nid);
      InsertCards(db, nid, items, |items|);
      AppendIncreasing(rows0, nid, CardsOf(items, |items|), next0);
      assert items[..|items|] == items;
      return items;
    }
    var toAdd := if Cap - currentCount > 0 then Cap - currentCount else 0;
    if toAdd > 0 {
      var toDelete := |items| - toAdd;
      StoredByPlan(rows0, next0, nid, items, toDelete, toAdd, toAdd);
      if toDelete > 0 {
        DeleteOldest(db, nid, toDelete);
      }
      ghost var kept := db.flashcards;
      InsertCards(db, nid, items, toAdd);
      AppendIncreasing(kept, nid, CardsOf(items, toAdd), next0);
      return items[..toAdd];
    }
    StoredByPlan(rows0, next0, nid, items, |items|, |items|, |items|);
    DeleteOldest(db, nid, |items|);
    ghost var kept := db.flashcards;
    InsertCards(db, nid, items, |items|);
    AppendIncreasing(kept, nid, CardsOf(items, |items|), next0);
    assert items[..|items|] == items;
    returned := items;
  }

  /** A branch that deletes `k` oldest rows and runs the loop with `limit` carries out the plan `PlanFor` picks. */
  lemma StoredByPlan(rows0: seq<Owned<Card>>, next0: nat, nid: nat, items: seq<Item>, k: nat, limit: nat, ret: nat)
    requires PlanFor(|OfNote(rows0, nid)|, |items|) == Plan(k, limit, ret)
    ensures Stored(rows0, next0, nid, items,
                   DropOldest(rows0, nid, k) + NewRows(nid, CardsOf(items, limit), next0),
                   next0 + |CardsOf(items, limit)|, items[..ret])
  {
  }

  /**
   * `generateFlashcardsFromNote`, with the chat completion's message content
   * (None when the reply has none) and `json_decode` as parameters: an
   * exception leaves the table alone; otherwise the branch runs.
   */
  method GenerateFlashcards(db: Db, note: Note, decode: Decoder, reply: Option<string>, decodeItems: ItemDecoder)
    returns (r: Result<seq<Item>, string>)
    requires db.Valid()
    modifies db
    ensures db.Valid()
    ensures NotCards(db) == old(NotCards(db))
    ensures match Parse(JsonToText.TextOf(note.content, decode), reply, decodeItems)
      case Err(e) => r == Err(e) && db.flashcards == old(db.flashcards) && db.nextFlashcardId == old(db.nextFlashcardId)
      case Ok(items) =>
        r.Ok? && Stored(old(db.flashcards), old(db.nextFlashcardId), note.id, items, db.flashcards, db.nextFlashcardId, r.value)
  {
    var content := JsonToText.ExtractText(note.content, decode);
    var parsed := Parse(content, reply, decodeItems);
    if parsed.Err? {
      return Err(parsed.error);
    }
    var returned := StoreCards(db, note.id, parsed.value);
    r := Ok(returned);
  }

  /** `getFlashcardsByNoteId`: exactly the note's cards, oldest first. */
  function FlashcardsByNoteId(rows: seq<Owned<Card>>, nid: nat): (r: seq<Owned<Card>>)
    ensures forall x :: x in r <==> x in rows && x.noteId == nid
  {
    OfNote(rows, nid)
  }

  // ---------------------------------------------------------------------------
  // What the branches do to the note's cards.

  /** How many cards note `nid` holds after a generation, and that no other note is touched. */
  lemma StoreAfterOfNote(rows: seq<Owned<Card>>, nid: nat, items: seq<Item>, next: nat, m: nat)
    ensures var c := |OfNote(rows, nid)|;
      var p := PlanFor(c, |items|);
      && (m != nid ==> OfNote(StoreAfter(rows, nid, items, next), m) == OfNote(rows, m))
      && (m == nid ==> OfNote(StoreAfter(rows, nid, items, next), m)
                       == OfNote(rows, nid)[Min(p.toDelete, c)..] + NewRows(nid, CardsOf(items, p.limit), next))
  {
    var p := PlanFor(|OfNote(rows, nid)|, |items|);
    var d := DropOldest(rows, nid, p.toDelete);
    var added := NewRows(nid, CardsOf(items, p.limit), next);
    OfNoteConcat(d, added, m);
    DropOldestOfNote(rows, nid, p.toDelete, m);
    NewRowsOfNote(nid, CardsOf(items, p.limit), next, m);
    if m != nid {
      assert OfNote(d, m) + [] == OfNote(d, m);
    }
  }

  /** The count the note ends with: what survives the deletion plus what the loop stores. */
  function CountAfter(current: nat, items: seq<Item>): nat {
    var p := PlanFor(current, |items|);
    current - Min(p.toDelete, current) + |CardsOf(items, p.limit)|
  }

  lemma CountAfterIsStored(rows: seq<Owned<Card>>, nid: nat, items: seq<Item>, next: nat)
    ensures |OfNote(StoreAfter(rows, nid, items, next), nid)| == CountAfter(|OfNote(rows, nid)|, items)
  {
    StoreAfterOfNote(rows, nid, items, next, nid);
  }

  /** Starting at or under the cap with at most 20 elements, the note ends with at most 20 cards. */
  lemma CapHolds(current: nat, items: seq<Item>)
    requires current <= Cap && |items| <= Cap
    ensures CountAfter(current, items) <= Cap
  {
    var n := |items|;
    var p := PlanFor(current, n);
    CardsOfIsPrefix(items, p.limit);
    assert |CardsOf(items, p.limit)| <= n;
  }

  /** Within the cap nothing is deleted and every storable element is stored. */
  lemma UnderCapStoresAll(current: nat, items: seq<Item>)
    requires current + |items| <= Cap
    ensures PlanFor(current, |items|) == Plan(0, |items|, |items|)
    ensures CardsOf(items, |items|) == AllCards(items)
  {
    CardsOfIsPrefix(items, |items|);
    assert AllCards(items)[..|AllCards(items)|] == AllCards(items);
  }

  /**
   * Below the cap but overflowing, room = 20 - current: the branch deletes
   * (elements - room) oldest cards yet stores at most `room`. With 18 cards
   * and five storable elements, the note ends with 17.
   */
  lemma EighteenPlusFiveLeavesSeventeen(items: seq<Item>)
    requires |items| == 5 && forall i :: 0 <= i < 5 ==> IsCard(items[i])
    ensures CountAfter(18, items) == 17
  {
    var p := PlanFor(18, 5);
    assert p == Plan(3, 2, 2);
    CardsOfIsPrefix(items, 2);
    AllStorable(items);
  }

  lemma {:induction false} AllStorable(items: seq<Item>)
    requires forall i :: 0 <= i < |items| ==> IsCard(items[i])
    ensures |AllCards(items)| == |items|
    decreases |items|
  {
    if items != [] {
      AllStorable(items[..|items| - 1]);
    }
  }

  /**
   * At or over the cap, as many oldest cards go as elements came (all when
   * fewer exist); an empty reply, whichever branch takes it, deletes and
   * inserts nothing.
   */
  lemma OverCapReplaces(current: nat, items: seq<Item>)
    requires current >= Cap
    ensures PlanFor(current, |items|) == Plan(|items|, |items|, |items|)
  {
  }

  /** A note whose plain text is that of the blank document is rejected before any reply is read. */
  lemma BlankNoteIsRejected(decode: Decoder, reply: Option<string>, decodeItems: ItemDecoder)
    ensures Parse(JsonToText.TextOf(Tree(BlankDocument), decode), reply, decodeItems) == Err(TooShortMessage)
  {
    JsonToText.BlankDocumentIsSilent(decode);
  }
}
