# Smart Note: a verified model of the note backend and the study client

This project models the rules at the heart of Smart Note, a note-taking
service with AI-generated flashcards and quizzes. There are two halves: the
PHP backend (Laravel services and helpers) and the React client (the sidebar,
the editor page, the quiz and flashcard views, the chart dialog and the
session-token scheduler). Each core source file becomes one Dafny module and
takes the source's own form. Recursive helpers become functions and lemmas.
Services that write rows become methods on a `Db` class. React components
become classes whose fields are the `useState` values and whose methods are
the handlers and effects.

- `Wrappers`, `Strings` and `Seqs` hold shared helpers:
  - `Option`/`Result`;
  - PHP `trim`, `strpos`, `strrpos` and `strlen` (as the UTF-8 byte length);
  - JavaScript `trim`, `padStart` and `String(n)`;
  - `Array.prototype.filter`.
- `Document` is the editor's ProseMirror/Tiptap JSON tree: nodes with `type`, `content`, `text`, `marks` and `attrs`.
  - A node's `type`, `textAlign`, `src`, `alt` and `latex` read as `""` when absent or null, as PHP's `?? ''` does. A mark's `fontSize` and `fontFamily` are tested with `empty()`, so an absent one adds nothing.
  - The root value is a decoded tree, a raw JSON string (decoded by a `json_decode` parameter) or a scalar.
- `JsonToHtml` renders the tree as an HTML fragment.
  - Every text literal goes through `htmlspecialchars` with `ENT_QUOTES` before its marks wrap it, in list order.
  - Its lemmas show that renderer markup cannot come from a text node. Removing the markup gives back the visible text.
- `JsonToText` is the plain-text flattening used for AI prompts. Its results are trimmed at every level.
- `Database` holds the `notes`, `folders`, `flashcards` and `quizzes` tables and the exam results.
  - Each table is a sequence in creation order with increasing auto-increment ids, so "oldest by `created_at`" is sequence order.
- `NoteService` covers the note queries, `createNote` and `getOrCreateNote`. The latter reuses the newest note of an identity only while it holds the blank editor document.
- `AiReply`, `FlashcardService` and `QuizService` cover the generators, minus the chat-completion call.
  - The length guard and the slice from the first `[` to the last `]` are shared.
  - Each store keeps a note's rows near a cap of 20 by evicting the oldest rows.
  - There is also the exam-score upsert.
- `FolderService` covers the folder listing, create, rename, move, and the delete that is refused while a note is in the folder.
- `NoteSidebar`, `NoteEditorPage`, `QuizView`, `QuizResult`, `FlashcardView`, `ChartInsertModal` and `TokenManager` cover the client-side state transitions.
  - Every awaited request is a parameter that carries its outcome. `None` means the request threw.
  - Clock readings are parameters too.

## Model

| member | source | states |
|---|---|---|
| Database.OfNote | backend/app/Services/FlashcardService.php:69 | `where('note_id', …)`: exactly the note's rows, in creation order |
| Database.OfNoteConcat | backend/app/Services/FlashcardService.php:69 | selecting a note's rows distributes over appending tables |
| Database.DropOldest | backend/app/Services/FlashcardService.php:89-93 | deleting the oldest rows of a note keeps only rows that were there |
| Database.DropOldestOfNote | backend/app/Services/FlashcardService.php:89-93 | the note loses its `k` oldest rows (all when it has fewer) and every other note keeps all of its rows |
| Database.DropOldestIncreasing | backend/app/Services/FlashcardService.php:89-93 | a deletion keeps the table's ids increasing in creation order |
| Database.NewRows | backend/app/Services/FlashcardService.php:75-79 | `create` in a loop: one row per item, in order, owned by the note, with consecutive auto-increment ids |
| Database.NewRowsOfNote | backend/app/Services/FlashcardService.php:75-79 | created rows belong to their note only |
| Database.AppendIncreasing | backend/app/Services/FlashcardService.php:75-79 | appending rows with fresh consecutive ids keeps the ids increasing |
| Database.DropNothing | backend/app/Services/FlashcardService.php:72-82 | deleting none of a note's rows leaves the table as it is |
| Database.FindId | backend/app/Services/FolderService.php:40 | `findOrFail` on a table's ids: None iff no row has the id; otherwise a position holding it |
| Database.Db.constructor | backend/database/migrations/2025_04_18_195421_create_notes_table.php:14-31 | a fresh database has empty tables whose ids are in creation order |
| AiReply.TooShortIsLength | backend/app/Services/FlashcardService.php:24 | the guard `!$content \|\| strlen($content) < 10` rejects exactly the texts shorter than 10 bytes of UTF-8, since both falsy strings are that short |
| AiReply.Substr | backend/app/Services/FlashcardService.php:61 | PHP `substr` with a start inside the string (negative lengths counted from the end) yields the substring at that start, no longer than the rest |
| AiReply.JsonSlice | backend/app/Services/FlashcardService.php:56-61 | no slice exactly when the reply has no `[` or no `]` |
| AiReply.SliceIsBracketed | backend/app/Services/FlashcardService.php:56-61 | when the first `[` comes before the last `]`, the slice is the text from the first `[` through the last `]` |
| AiReply.InvertedSliceIsNotAnArray | backend/app/Services/FlashcardService.php:56-66 | when the last `]` precedes the first `[`, the slice is empty or starts with `[` and holds no `]`, so it never decodes to an array |
| AiReply.MissingReplyIsEmptyArray | backend/app/Services/FlashcardService.php:53-61 | a reply without message content reads as `'[]'`, whose slice is `[]` itself |
| FlashcardService.CardsOfIsPrefix | backend/app/Services/FlashcardService.php:96-106 | the insert loop that stops after `$toAdd` creations stores the first `$toAdd` elements having both `question` and `answer`, in reply order |
| FlashcardService.PlanFor | backend/app/Services/FlashcardService.php:72-117 | the branch chosen from the current count and the reply length returns at most the reply's elements |
| FlashcardService.InsertCards | backend/app/Services/FlashcardService.php:73-80 | the insert loop appends one row per storable element, with consecutive ids, stopping at the limit, and touches no other table |
| FlashcardService.DeleteOldest | backend/app/Services/FlashcardService.php:89-93 | deleting the note's `k` oldest cards (by creation order) leaves the table well formed and other tables untouched |
| FlashcardService.StoreCards | backend/app/Services/FlashcardService.php:69-127 | the three branches carry out `PlanFor`: the deletion, the bounded insert loop and the returned prefix of the reply |
| FlashcardService.GenerateFlashcards | backend/app/Services/FlashcardService.php:20-128 | the too-short, no-JSON and invalid-JSON exceptions leave the card table unchanged; otherwise the table and result are those the branch plan prescribes |
| FlashcardService.FlashcardsByNoteId | backend/app/Services/FlashcardService.php:137-140 | returns exactly the rows of the note |
| FlashcardService.StoreAfterOfNote | backend/app/Services/FlashcardService.php:69-127 | a generation leaves every other note's cards as they were; the note keeps its cards after the deleted oldest ones, followed by the new ones |
| FlashcardService.CountAfterIsStored | backend/app/Services/FlashcardService.php:69-127 | the note's final count is what survives the deletion plus what the loop stores |
| FlashcardService.CapHolds | backend/app/Services/FlashcardService.php:13-127 | a note at or under 20 cards given at most 20 elements ends with at most 20 cards |
| FlashcardService.UnderCapStoresAll | backend/app/Services/FlashcardService.php:72-82 | within the cap nothing is deleted and every storable element is stored |
| FlashcardService.EighteenPlusFiveLeavesSeventeen | backend/app/Services/FlashcardService.php:85-107 | with 18 cards and five storable elements the middle branch deletes three and adds two, leaving 17 |
| FlashcardService.OverCapReplaces | backend/app/Services/FlashcardService.php:112-126 | at or over the cap, as many oldest cards are deleted as elements arrived, and all elements are considered, an empty reply included |
| FlashcardService.BlankNoteIsRejected | backend/app/Services/FlashcardService.php:22-26 | a note holding the blank editor document is rejected as too short before the reply is read |
| FlashcardService.Parse | backend/app/Services/FlashcardService.php:20-66 | the flashcard generator's exceptions in order: too-short text, no `[`…`]` slice, JSON that does not decode to an array; otherwise the decoded elements |
| FlashcardService.CardsOf | backend/app/Services/FlashcardService.php:96-106 | the bounded insert loop: at most `limit` cards, from the elements that have both keys, in order (see CardsOfIsPrefix) |
| QuizService.QuestionsOfComplete | backend/app/Services/QuizService.php:102-111 | the stored questions are exactly the reply elements that have `question`, `options` and `correct_index` |
| QuizService.InsertQuestions | backend/app/Services/QuizService.php:102-111 | the insert loop appends one row per complete element, in order, with consecutive ids, and touches no other table |
| QuizService.DeleteOldest | backend/app/Services/QuizService.php:97-98 | deleting the note's `k` oldest questions keeps the table well formed and every other table unchanged |
| QuizService.StoreQuestions | backend/app/Services/QuizService.php:88-111 | deletes `current + n - 20` oldest questions when the total would pass 20, then inserts every complete element |
| QuizService.GenerateQuiz | backend/app/Services/QuizService.php:20-114 | the too-short, invalid-response and decode-failure exceptions leave the table unchanged; otherwise the whole decoded array is returned, stored or not |
| QuizService.QuizzesByNoteId | backend/app/Services/QuizService.php:122-127 | returns exactly the rows of the note |
| QuizService.SubmitExamResult | backend/app/Services/QuizService.php:137-154 | reports the score stored before (None when none) and the new score; the note's result now holds the new score and nothing else changes |
| QuizService.ResubmitReportsPrevious | backend/app/Services/QuizService.php:137-154 | two `submitExamResult` calls for one note: the second reports the first score as the previous one, and only the second score is kept |
| QuizService.StoreAfterOfNote | backend/app/Services/QuizService.php:88-111 | other notes keep their questions; the note keeps its newest survivors followed by the new rows |
| QuizService.CountAfterIsStored | backend/app/Services/QuizService.php:88-111 | the note's final count is what survives the deletion plus the complete elements |
| QuizService.CapHolds | backend/app/Services/QuizService.php:85-111 | with a reply of at most 20 elements, the note never ends with more than 20 questions, whatever it held before |
| QuizService.LongReplyOverflows | backend/app/Services/QuizService.php:92-111 | a reply of more than 20 complete elements leaves the note with all of them, above the cap |
| QuizService.BlankNoteIsRejected | backend/app/Services/QuizService.php:23-28 | a note holding the blank editor document is rejected as too short |
| QuizService.Parse | backend/app/Services/QuizService.php:20-83 | the quiz generator's exceptions in order: too-short text, no `[`…`]` slice, a failed decode; otherwise the decoded elements |
| QuizService.QuestionsOf | backend/app/Services/QuizService.php:102-111 | the insert loop: one question per element that has all three keys, in order, and no more than there are elements (see QuestionsOfComplete) |
| QuizService.ToDelete | backend/app/Services/QuizService.php:92-99 | how many of the note's oldest questions go: the excess over the cap of 20 once the new elements are counted in, else none |
| NoteService.FilterNotes | backend/app/Services/NoteService.php:12-19 | exactly the notes matching the student, course, unit and lesson, a null criterion matching nothing, because both columns are NOT NULL |
| NoteService.NotesOfStudentCourse | backend/app/Services/NoteService.php:115-117 | the query whose result the cache stores: exactly the table's notes of the student in the course |
| NoteService.NotesByStudentCourse | backend/app/Services/NoteService.php:110-119 | `getNotesByStudentCourse`: an entry stored less than 300 s ago is returned as stored, whatever the table now holds, and the cache is unchanged; otherwise the query's result over the current table is returned and stored under the key at the request time |
| NoteService.Live | backend/app/Services/NoteService.php:114 | an entry is served while fewer than 300 seconds have passed since it was stored |
| NoteService.NoteCache.constructor | backend/app/Services/NoteService.php:8 | the cache starts with no entries |
| NoteService.CreateWhileCached | backend/app/Services/NoteService.php:21-28 | `createNote` never reaches its `Cache::forget`: a list read just before the insert is served again within 300 s, equal to the first read and without the new note, which the table's own query does contain |
| NoteService.ReuseWhileCached | backend/app/Services/NoteService.php:81-91 | the reuse branch forgets nothing: a list read just before the reuse is served again within 300 s with the note's old row, and the saved row is missing from it whenever it differs from the old one, while the table's own query contains it |
| NoteService.Matches | backend/app/Services/NoteService.php:48-55 | exact match on student, course, unit and lesson; a null unit or lesson matches no row |
| NoteService.LatestMatch | backend/app/Services/NoteService.php:48-55 | None iff no note matches the criteria; otherwise a matching note with no later match |
| NoteService.LatestHasHighestId | backend/app/Services/NoteService.php:55 | with ids in creation order, the last-created match has the highest id, the one `orderByDesc('id')->first()` picks |
| NoteService.BlankDocumentIsEmpty | backend/app/Services/NoteService.php:64-79 | the fresh editor's document passes the single-empty-paragraph test |
| NoteService.EmptyContentIsBlank | backend/app/Services/NoteService.php:64-79 | a note passing the test has empty plain text and exports as one empty paragraph |
| NoteService.EncodedBlankIsNotReused | backend/app/Services/NoteService.php:58-62 | a content column holding the blank document as a JSON string is never decoded for the emptiness check, so that note is not reused although its text is empty |
| NoteService.NullCriterionMatchesNothing | backend/app/Services/NoteService.php:12-19 | a null unit or lesson criterion selects no note, and `getOrCreateNote` finds no previous note for it |
| NoteService.NewNote | backend/app/Services/NoteService.php:92-99 | the inserted row matches the request's identity, has the next id, no folder, the request's title and content and the request time |
| NoteService.CreateNote | backend/app/Services/NoteService.php:21-23 | with unit and lesson given, one row is inserted with the next id and the request's fields; without either the NOT NULL insert fails and nothing changes; the other tables and id counters are unchanged |
| NoteService.GetOrCreateNote | backend/app/Services/NoteService.php:46-109 | the newest match with the single empty paragraph is reused (title if given, new timestamp, status 200); otherwise a new note is created with the next id, status 201 and a message telling whether a previous note existed; when the unit or the lesson is null the insert fails and nothing changes; the other tables and id counters are unchanged; the cached list of the request's student and course is forgotten only in the branch that creates a note after one with content |
| NoteService.ReuseKeepsIdentity | backend/app/Services/NoteService.php:81-85 | reuse keeps the note's id, identity, content and folder; only the title (when given) and the timestamp change |
| NoteService.CreatedNoteIsFoundNext | backend/app/Services/NoteService.php:55-103 | a created note carries the request's identity, so the same request finds it next |
| NoteService.IsEmptyContent | backend/app/Services/NoteService.php:64-79 | the reuse test: an already-decoded `doc` whose content is exactly one `paragraph` with no content; a JSON string or a scalar column never passes (see BlankDocumentIsEmpty, EmptyContentIsBlank, EncodedBlankIsNotReused) |
| NoteService.Complete | backend/app/Services/NoteService.php:51-52 | both NOT NULL identity columns are given, the condition under which `Note::create` can succeed |
| FolderService.FindFolder | backend/app/Services/FolderService.php:40 | `findOrFail`: None iff no folder has the id; otherwise the position of a folder with that id |
| FolderService.FindNote | backend/app/Services/FolderService.php:63 | `findOrFail`: None iff no note has the id; otherwise the position of a note with that id |
| FolderService.NoteCountZero | backend/app/Services/FolderService.php:51 | the folder's note count is zero exactly when no note points at it |
| FolderService.FolderNotes | backend/app/Services/FolderService.php:15-18 | a folder's loaded notes are exactly those in it of the requested student and course |
| FolderService.FoldersForStudentCourse | backend/app/Services/FolderService.php:13-24 | lists only the student's folders of the course, each with its constrained notes |
| FolderService.ListingIsComplete | backend/app/Services/FolderService.php:19-21 | every folder of the student in the course is listed, with its notes |
| FolderService.ListedNotesBelong | backend/app/Services/FolderService.php:15-18 | a listed folder carries only its own notes of the requested student and course |
| FolderService.CreateFolder | backend/app/Services/FolderService.php:29-32 | inserts one folder with the next id, its `created_at` and `updated_at` both the request time; the other tables are unchanged |
| FolderService.RenameFolder | backend/app/Services/FolderService.php:38-44 | a missing id fails with nothing changed; otherwise only that folder is saved, and the saved row is returned |
| FolderService.Renamed | backend/app/Services/FolderService.php:41-42 | the folder takes the new name; a changed name also stamps `updated_at` with the request time, and the same name leaves the row as it was; no other column changes |
| FolderService.MoveNoteToFolder | backend/app/Services/FolderService.php:61-67 | a missing note fails with nothing changed; otherwise only that note is saved, and the saved row is returned |
| FolderService.Moved | backend/app/Services/FolderService.php:64-65 | the note at the position takes the new folder id (null takes it out of every folder); a changed folder id also stamps `updated_at` with the request time, and the same one leaves the table as it was; no other column or note changes |
| FolderService.WithoutMembers | backend/app/Services/FolderService.php:54 | after the deletion exactly the folders with another id remain |
| FolderService.WithoutIncreasing | backend/app/Services/FolderService.php:54 | a deletion keeps the folder ids increasing |
| FolderService.DeleteFolder | backend/app/Services/FolderService.php:49-56 | reports true and deletes the folder iff no note points at it; otherwise changes nothing |
| FolderService.DeleteRemovesOnlyTarget | backend/app/Services/FolderService.php:49-56 | a deleted folder is gone and every other folder is still there |
| FolderService.MoveInBlocksDelete | backend/app/Services/FolderService.php:49-67 | moving a note into a folder makes deleting that folder refuse |
| FolderService.MoveOutUnblocksDelete | backend/app/Services/FolderService.php:49-67 | moving a folder's only note elsewhere or out of every folder lets the deletion succeed |
| FolderService.MoveKeepsOtherCounts | backend/app/Services/FolderService.php:49-67 | a move changes no folder's count besides the folder the note leaves and the one it joins |
| FolderService.NoteCount | backend/app/Services/FolderService.php:51 | `$folder->notes()->count()`: the notes of any student whose `folder_id` is the folder's id (see NoteCountZero) |
| FolderService.Without | backend/app/Services/FolderService.php:54 | `$folder->delete()`: the folders table without the rows that have the id; no longer than before (see WithoutMembers, WithoutIncreasing) |
| JsonToText.ContentText | backend/app/Helpers/JsonToText.php:16-30 | the flattening of a content array never starts or ends with whitespace |
| JsonToText.ExtractContent | backend/app/Helpers/JsonToText.php:16-30 | the loop over a content array (own text plus a space, then the children's trimmed flattening, then a final trim) computes `ContentText` |
| JsonToText.AccumulatedStep | backend/app/Helpers/JsonToText.php:18-28 | one pass appends the node's own text, then its children's flattening |
| JsonToText.ExtractText | backend/app/Helpers/JsonToText.php:6-31 | "" when the decoded root has no array `content`; otherwise the flattening of that content |
| JsonToText.TextIsTrimmed | backend/app/Helpers/JsonToText.php:30 | the result never has leading or trailing whitespace |
| JsonToText.NodeTextLiterals | backend/app/Helpers/JsonToText.php:18-28 | up to whitespace, a node flattens to its literals in document order; marks and attributes add nothing and nothing is escaped |
| JsonToText.AccumulatedLiterals | backend/app/Helpers/JsonToText.php:18-28 | up to whitespace, the accumulator holds the literals of the nodes so far, in order |
| JsonToText.ContentTextLiterals | backend/app/Helpers/JsonToText.php:16-30 | up to whitespace, a content array flattens to its literals in order |
| JsonToText.BlankDocumentIsSilent | backend/app/Helpers/JsonToText.php:18-30 | the blank editor document flattens to "" |
| JsonToText.SiblingParagraphsRunTogether | backend/app/Helpers/JsonToText.php:25-30 | sibling paragraphs are trimmed separately and joined with nothing between them: `[p["a"], p["b"]]` gives "ab" |
| JsonToText.OwnText | backend/app/Helpers/JsonToText.php:20-22 | a `text` node with a `text` contributes that text and one space; any other node contributes nothing by itself |
| JsonToText.NodeText | backend/app/Helpers/JsonToText.php:18-28 | one loop step: the node's own text, then its array-valued children flattened and trimmed (see NodeTextLiterals) |
| JsonToText.Accumulated | backend/app/Helpers/JsonToText.php:16-28 | the accumulator after the loop, before the final trim (see AccumulatedStep) |
| JsonToText.TextOf | backend/app/Helpers/JsonToText.php:6-31 | `extractText`: "" when the root content is missing or not an array, else the trimmed flattening (see TextIsTrimmed, ContentTextLiterals) |
| JsonToHtml.EscapeConcat | backend/app/Helpers/JsonToHtml.php:40 | escaping works character by character, so it distributes over concatenation |
| JsonToHtml.EscapeHasNoMarkup | backend/app/Helpers/JsonToHtml.php:40 | an escaped literal (`htmlspecialchars`, ENT_QUOTES) holds no raw `<`, `>`, `"` or `'` |
| JsonToHtml.UnescapeEscape | backend/app/Helpers/JsonToHtml.php:40 | decoding the five entities gives the literal back, so escaping loses nothing |
| JsonToHtml.ApplyMarkParts | backend/app/Helpers/JsonToHtml.php:44-71 | one pass of the mark loop either wraps the text in its element or extends the style, never both |
| JsonToHtml.MarksNest | backend/app/Helpers/JsonToHtml.php:43-72 | the mark loop nests the wrapping marks around the escaped text, later marks outside earlier ones, and builds the style from `color` and `textStyle` in list order; any other mark changes nothing |
| JsonToHtml.ContainerTagsHaveNoGt | backend/app/Helpers/JsonToHtml.php:76-95 | with an alignment free of `>`, no container's tags hold a `>` inside them |
| JsonToHtml.RenderNode | backend/app/Helpers/JsonToHtml.php:26-120 | `renderNode` renders the children in order, then the node's own wrapper, computing `NodeHtml` |
| JsonToHtml.Render | backend/app/Helpers/JsonToHtml.php:7-24 | "" when the decoded root has no array `content`; otherwise the in-order concatenation of the top-level renderings |
| JsonToHtml.StripOpenTags | backend/app/Helpers/JsonToHtml.php:43-72 | the opening tags of the wrapping marks carry no character data |
| JsonToHtml.StripCloseTags | backend/app/Helpers/JsonToHtml.php:43-72 | the closing tags of the wrapping marks carry no character data |
| JsonToHtml.StyleHasNoGt | backend/app/Helpers/JsonToHtml.php:54-64 | marks whose values hold no `>` give a style without `>` |
| JsonToHtml.TextStrip | backend/app/Helpers/JsonToHtml.php:39-74 | a text node's rendering shows exactly its escaped literal |
| JsonToHtml.TaskItemShape | backend/app/Helpers/JsonToHtml.php:97-99 | a task item renders as a list item with a disabled checkbox (`checked` iff `attrs.checked` is non-empty), a space, and its children |
| JsonToHtml.TaskItemStrip | backend/app/Helpers/JsonToHtml.php:97-99 | a task item shows a space followed by its children's text |
| JsonToHtml.ImageShape | backend/app/Helpers/JsonToHtml.php:101-107 | an image renders as one `img` tag whose `src` is the resolved asset only when it is non-empty and does not start with `http` |
| JsonToHtml.ImageStrip | backend/app/Helpers/JsonToHtml.php:101-107 | an image shows no text |
| JsonToHtml.MathShape | backend/app/Helpers/JsonToHtml.php:109-111 | a math block renders `attrs.latex` between `\[` and `\]` in a `div` |
| JsonToHtml.MathStrip | backend/app/Helpers/JsonToHtml.php:109-111 | a math block shows its delimited LaTeX source |
| JsonToHtml.PlaceholderStrip | backend/app/Helpers/JsonToHtml.php:113-115 | the chart placeholder shows the chart icon and its label |
| JsonToHtml.ChartShape | backend/app/Helpers/JsonToHtml.php:113-115 | a chart block renders the fixed placeholder, whatever it holds |
| JsonToHtml.ChartStrip | backend/app/Helpers/JsonToHtml.php:113-115 | a chart block shows the placeholder's text |
| JsonToHtml.ContainerShape | backend/app/Helpers/JsonToHtml.php:76-95 | a container renders as its element around its children's HTML (headings default to `h2`; a paragraph's style is `text-align` only for a truthy alignment) |
| JsonToHtml.NodeStrip | backend/app/Helpers/JsonToHtml.php:26-120 | for a node with safe attribute values, removing the tags of its rendering leaves exactly its visible text |
| JsonToHtml.NodesStrip | backend/app/Helpers/JsonToHtml.php:32-36 | the same holds for a sequence of siblings, in order |
| JsonToHtml.ExportShowsVisibleText | backend/app/Helpers/JsonToHtml.php:7-24 | the exported fragment's character data is the tree's visible text |
| JsonToHtml.ProseVisible | backend/app/Helpers/JsonToHtml.php:39-95 | for prose (text inside headings, paragraphs and lists) the visible text is the escaped literals in order |
| JsonToHtml.ProseVisibleAll | backend/app/Helpers/JsonToHtml.php:32-36 | the same for a sequence of prose nodes |
| JsonToHtml.ExportKeepsProse | backend/app/Helpers/JsonToHtml.php:7-95 | the export loses no prose: removing the tags and decoding the entities gives back the document's literals in order |
| JsonToHtml.TextNodeShape | backend/app/Helpers/JsonToHtml.php:39-74 | a text node renders as a `span` with the styling marks' style, the wrapping marks nested around the escaped literal, and none of its own children |
| JsonToHtml.BoldThenItalic | backend/app/Helpers/JsonToHtml.php:43-50 | `[bold, italic]` gives `<em><strong>t</strong></em>` inside the span |
| JsonToHtml.HeadingDefaultsToH2 | backend/app/Helpers/JsonToHtml.php:76-78 | a heading without a level renders as `h2` |
| JsonToHtml.MathBlockIgnoresFormula | backend/app/Helpers/JsonToHtml.php:109-111 | only `attrs.latex` is read: a math block holding the editor's `attrs.formula` exports as an empty display |
| JsonToHtml.UnknownTypeIsTransparent | backend/app/Helpers/JsonToHtml.php:117-118 | an unknown node type renders only its children |
| JsonToHtml.EscapeChar | backend/app/Helpers/JsonToHtml.php:40 | `htmlspecialchars` with ENT_QUOTES on one character (see EscapeCharEntities) |
| JsonToHtml.EscapeCharEntities | backend/app/Helpers/JsonToHtml.php:40 | `&`, `<`, `>`, `"` and `'` become an entity from `&` to `;`; every other character, and only those, is kept as it is |
| JsonToHtml.Escape | backend/app/Helpers/JsonToHtml.php:40 | `htmlspecialchars` on a text literal, character by character (its properties: EscapeConcat, EscapeHasNoMarkup, UnescapeEscape) |
| JsonToHtml.MarkTag | backend/app/Helpers/JsonToHtml.php:44-71 | the element of each wrapping mark: bold `strong`, italic `em`, underline `u`, subscript `sub`, superscript `sup`; none for every other mark type |
| JsonToHtml.MarkStyle | backend/app/Helpers/JsonToHtml.php:54-64 | a `color` mark appends `color:…;`; a `textStyle` mark appends `font-size` and `font-family` only when they are non-empty; other marks append nothing |
| JsonToHtml.ApplyMark | backend/app/Helpers/JsonToHtml.php:44-71 | one pass of the mark loop: a wrapping mark wraps the running text in its element, a styling mark extends the span style (see ApplyMarkParts) |
| JsonToHtml.ApplyMarks | backend/app/Helpers/JsonToHtml.php:41-72 | the mark loop in list order, the later marks outermost (see MarksNest) |
| JsonToHtml.ImageSrc | backend/app/Helpers/JsonToHtml.php:102-105 | a non-empty `src` not starting with `http` goes through `asset()`; otherwise it is kept as it is |
| JsonToHtml.TextHtml | backend/app/Helpers/JsonToHtml.php:39-74 | a text node: the escaped literal inside its marks, in a `span` carrying the collected style (see TextNodeShape) |
| JsonToHtml.Wrapped | backend/app/Helpers/JsonToHtml.php:38-119 | the `switch` on the node type once the children are rendered: each listed type gets its element, and an unknown type yields just its children |
| JsonToHtml.NodeHtml | backend/app/Helpers/JsonToHtml.php:26-36 | `renderNode`: the node rendered around its children's HTML (see NodeStrip) |
| JsonToHtml.NodesHtml | backend/app/Helpers/JsonToHtml.php:32-36 | the children's renderings concatenated in order (see NodesStrip) |
| JsonToHtml.DocumentHtml | backend/app/Helpers/JsonToHtml.php:7-24 | `render`: "" when the root content is missing or not an array, else the top-level nodes' HTML in order (see ExportShowsVisibleText, ExportKeepsProse) |
| Strings.TrimLeft | backend/app/Helpers/JsonToText.php:30 | a suffix of the input whose dropped prefix is all whitespace, starting with a non-space |
| Strings.TrimRight | backend/app/Helpers/JsonToText.php:30 | a prefix of the input whose dropped suffix is all whitespace, ending with a non-space |
| Strings.Trim | backend/app/Helpers/JsonToText.php:30 | a slice of the input between whitespace-only ends, starting and ending with a non-space |
| Strings.UnspacedTrim | backend/app/Helpers/JsonToText.php:30 | trimming removes only whitespace |
| Strings.JsTrim | frontend/src/components/NoteSidebar.tsx:294 | empty exactly when the input is all whitespace; otherwise starts and ends with a non-space |
| Strings.IndexOf | backend/app/Services/FlashcardService.php:56 | None iff the character is absent; otherwise the index of its first occurrence |
| Strings.LastIndexOf | backend/app/Services/FlashcardService.php:57 | None iff the character is absent; otherwise the index of its last occurrence |
| Strings.NatToString | frontend/src/modules/quizzes/component/QuizView.tsx:86 | at least one decimal digit, with no leading zero unless the number is 0 |
| Strings.ParseNatToString | frontend/src/modules/quizzes/component/QuizView.tsx:86-87 | the printed digits read back as the number |
| Strings.NatToStringInjective | frontend/src/modules/quizzes/component/QuizView.tsx:86-87 | distinct numbers print differently |
| Strings.IntToString | frontend/src/modules/quizzes/component/QuizResult.tsx:25-31 | a leading minus sign exactly for a negative number, then digits |
| Strings.PadStart2 | frontend/src/modules/quizzes/component/QuizView.tsx:86-87 | at least two characters, the input at the end and zeros before it |
| Strings.Utf8Length | backend/app/Services/FlashcardService.php:24 | `strlen` of the UTF-8 bytes: between one and four bytes per character |
| Seqs.FilterSatisfies | frontend/src/components/NoteSidebar.tsx:106 | every element kept satisfies the predicate |
| Seqs.FilterMembers | frontend/src/components/NoteSidebar.tsx:106 | the elements kept are exactly those satisfying the predicate |
| Seqs.FilterConcat | frontend/src/components/NoteSidebar.tsx:106 | filtering distributes over concatenation, so the kept elements keep their order |
| Seqs.FilterKeepsAll | frontend/src/components/NoteSidebar.tsx:106 | when every element satisfies the predicate, nothing is dropped |
| NoteSidebar.Collapsed | frontend/src/components/NoteSidebar.tsx:56 | the loaded folders, in order, each collapsed and otherwise as fetched |
| NoteSidebar.FindFolder | frontend/src/components/NoteSidebar.tsx:147 | None iff no folder has the id; otherwise a listed folder with that id |
| NoteSidebar.FindFolderIsFirst | frontend/src/components/NoteSidebar.tsx:147 | the folder found is the first with that id |
| NoteSidebar.WithoutNoteFacts | frontend/src/components/NoteSidebar.tsx:106 | taking a note out leaves no note with its id and keeps every other note |
| NoteSidebar.DropPlacesNoteOnce | frontend/src/components/NoteSidebar.tsx:100-115 | a drop keeps each folder's id, name and open flag; the target folder ends with the note, exactly once; no other folder holds it; other notes stay where they were |
| NoteSidebar.WithoutAppended | frontend/src/components/NoteSidebar.tsx:106-107 | taking a note out of a list it was just appended to gives the list without it |
| NoteSidebar.DropIsIdempotent | frontend/src/components/NoteSidebar.tsx:100-115 | dropping the same note on the same folder twice equals dropping it once |
| NoteSidebar.DropThenRemove | frontend/src/components/NoteSidebar.tsx:100-132 | a drop followed by a drop outside every folder equals the drop outside alone |
| NoteSidebar.RemoveEverywhereFacts | frontend/src/components/NoteSidebar.tsx:118-132 | after the drop outside no folder holds the note, and each folder keeps its id, name, open flag and other notes |
| NoteSidebar.ToggleFlipsOnlyTarget | frontend/src/components/NoteSidebar.tsx:135-141 | the open flag flips exactly for folders with that id, and nothing else changes |
| NoteSidebar.ToggleTwice | frontend/src/components/NoteSidebar.tsx:135-141 | toggling twice restores the list |
| NoteSidebar.RemoveFolderMembers | frontend/src/components/NoteSidebar.tsx:155 | after deletion exactly the folders with another id remain |
| NoteSidebar.OutsideNotesMembers | frontend/src/components/NoteSidebar.tsx:179-181 | a note is listed outside the folders iff no folder holds a note with its id |
| NoteSidebar.DroppedNoteLeavesOutside | frontend/src/components/NoteSidebar.tsx:100-115 | after a drop on a listed folder the note is no longer listed outside |
| NoteSidebar.RemovedNoteIsOutside | frontend/src/components/NoteSidebar.tsx:118-132 | after the drop outside, a listed note again shows outside the folders |
| NoteSidebar.Sidebar.constructor | frontend/src/components/NoteSidebar.tsx:38-39 | starts with no folders and nothing dragged |
| NoteSidebar.Sidebar.LoadFolders | frontend/src/components/NoteSidebar.tsx:49-62 | requests only with both session ids set; a fetched list replaces the folders, all collapsed; a failed fetch changes nothing |
| NoteSidebar.Sidebar.StartDrag | frontend/src/components/NoteSidebar.tsx:39 | remembers the dragged note and leaves the folders alone |
| NoteSidebar.Sidebar.AddFolder | frontend/src/components/NoteSidebar.tsx:65-81 | refuses without both session ids; otherwise appends the created folder, empty and open, unless creation failed |
| NoteSidebar.Sidebar.Drop | frontend/src/components/NoteSidebar.tsx:100-115 | sends the move iff a note is dragged; on success the note is dropped into the folder and the drag cleared; otherwise nothing changes |
| NoteSidebar.Sidebar.DropToNoFolder | frontend/src/components/NoteSidebar.tsx:118-132 | sends the move iff a note is dragged; on success the note leaves every folder and the drag is cleared; otherwise nothing changes |
| NoteSidebar.Sidebar.ToggleFolder | frontend/src/components/NoteSidebar.tsx:135-141 | the folder list becomes its toggle |
| NoteSidebar.Sidebar.DeleteFolder | frontend/src/components/NoteSidebar.tsx:145-159 | refuses, sending nothing, iff the first folder with the id has notes; otherwise sends the delete and on success removes the folder |
| NoteSidebar.Sidebar.DeleteNote | frontend/src/components/NoteSidebar.tsx:163-176 | on success the note leaves every folder; otherwise nothing changes |
| NoteSidebar.Sidebar.EditName | frontend/src/components/NoteSidebar.tsx:286-291 | any text, empty included, becomes the folder's name in the list |
| NoteSidebar.Sidebar.Blur | frontend/src/components/NoteSidebar.tsx:293-309 | a blank name becomes "Untitled Folder" with nothing sent; otherwise the trimmed, non-empty name is sent and the list is unchanged |
| NoteSidebar.WithoutNote | frontend/src/components/NoteSidebar.tsx:106 | `notes.filter((n) => n.id !== id)` (see WithoutNoteFacts) |
| NoteSidebar.DropInto | frontend/src/components/NoteSidebar.tsx:104-110 | the `setFolders` updater of a drop: every folder loses the note and the target folder gets it appended; as many folders as before (see DropPlacesNoteOnce, DropIsIdempotent) |
| NoteSidebar.RemoveNoteEverywhere | frontend/src/components/NoteSidebar.tsx:122-127 | the `setFolders` updater of a drop on no folder and of a note deletion: every folder loses the note; as many folders as before (see RemoveEverywhereFacts) |
| NoteSidebar.Toggle | frontend/src/components/NoteSidebar.tsx:135-141 | the `toggleFolder` updater: the folders with the id flip `open`; as many folders as before (see ToggleFlipsOnlyTarget, ToggleTwice) |
| NoteSidebar.SetName | frontend/src/components/NoteSidebar.tsx:87 | the `updateFolderName` updater: the folders with the id take the name; as many folders as before |
| NoteSidebar.RemoveFolder | frontend/src/components/NoteSidebar.tsx:155 | `prev.filter((f) => f.id !== folderId)` (see RemoveFolderMembers) |
| NoteSidebar.InSomeFolder | frontend/src/components/NoteSidebar.tsx:180 | `folders.some((f) => f.notes.find((n) => n.id === id))` |
| NoteSidebar.OutsideNotes | frontend/src/components/NoteSidebar.tsx:178-181 | `outsideNotes`: the notes listed in no folder, in order (see OutsideNotesMembers) |
| NoteEditorPage.GetSessionData | frontend/src/pages/NoteEditorPage.tsx:13-24 | keeps exactly the six id and token keys as stored, absent ones absent, and gives the stored title or "My Note" when it is absent or falsy |
| NoteEditorPage.UpdateSession | frontend/src/pages/NoteEditorPage.tsx:26-29 | the session as read, with exactly the given keys overridden |
| NoteEditorPage.ReadIsIdempotent | frontend/src/pages/NoteEditorPage.tsx:13-24 | reading a session that was already read gives it back unchanged |
| NoteEditorPage.UpdateThenRead | frontend/src/pages/NoteEditorPage.tsx:13-29 | after an update, reading gives each updated key's value (a falsy title reads as "My Note") and every other key as before |
| NoteEditorPage.NewNoteReadsDefaultTitle | frontend/src/pages/NoteEditorPage.tsx:86 | after a new note the session reads back with its id and the title "My Note" |
| NoteEditorPage.RetitleOnlyTarget | frontend/src/pages/NoteEditorPage.tsx:61-65 | retitling keeps every id in place, gives the matching notes the new title and leaves the others alone |
| NoteEditorPage.RetitleLastWins | frontend/src/pages/NoteEditorPage.tsx:59-67 | retitling twice keeps only the last title |
| NoteEditorPage.DeleteNoteMembers | frontend/src/pages/NoteEditorPage.tsx:102 | deleting keeps exactly the notes with another id |
| NoteEditorPage.EditorPage.constructor | frontend/src/pages/NoteEditorPage.tsx:33-36 | no notes, nothing selected, the title "My Note" and the sidebar closed |
| NoteEditorPage.EditorPage.Mount | frontend/src/pages/NoteEditorPage.tsx:38-42 | the selection and the title come from the session as read |
| NoteEditorPage.EditorPage.LoadNotes | frontend/src/pages/NoteEditorPage.tsx:44-57 | requests iff the session has a truthy student and course id; the fetched list replaces the notes; a failure leaves them |
| NoteEditorPage.EditorPage.LocalTitleChange | frontend/src/pages/NoteEditorPage.tsx:59-67 | the title, the matching notes of the list and the session title all take the new title |
| NoteEditorPage.EditorPage.NewNote | frontend/src/pages/NoteEditorPage.tsx:76-94 | on success appends and selects the new note, empties the title, records its id and empty title in the session and closes the sidebar; a failure changes nothing |
| NoteEditorPage.EditorPage.SelectNote | frontend/src/pages/NoteEditorPage.tsx:95-100 | selects the note, takes its title, records both in the session and closes the sidebar |
| NoteEditorPage.EditorPage.DeleteNote | frontend/src/pages/NoteEditorPage.tsx:101-107 | the note leaves the list; the selection clears and the title resets to "My Note" only when it was the selected note |
| NoteEditorPage.Retitle | frontend/src/pages/NoteEditorPage.tsx:61-65 | the `setNotes` updater of a title change: the notes with the id take the title; as many notes as before (see RetitleOnlyTarget, RetitleLastWins) |
| QuizView.Shuffle | frontend/src/modules/quizzes/component/QuizView.tsx:21-28 | the result is a permutation of the questions, of the same length |
| QuizView.SwapPermutes | frontend/src/modules/quizzes/component/QuizView.tsx:25 | one swap permutes the array |
| QuizView.PadKeepsValue | frontend/src/modules/quizzes/component/QuizView.tsx:86-87 | zero-padding keeps the digits and the value they denote |
| QuizView.FormatTimeReadsBack | frontend/src/modules/quizzes/component/QuizView.tsx:85-89 | the timer text is digits around one colon; the field before it reads as `sec / 60` and the two digits after it as `sec % 60`, which is below 60 |
| QuizView.TotalTime | frontend/src/modules/quizzes/component/QuizView.tsx:53 | a positive multiple of 60 seconds: one minute per question, or one minute for an empty quiz |
| QuizView.Tick | frontend/src/modules/quizzes/component/QuizView.tsx:72-79 | never negative; calls for the submit iff at most one second is left, then shows 0; otherwise one second less |
| QuizView.CountdownLength | frontend/src/modules/quizzes/component/QuizView.tsx:69-82 | a countdown from t seconds submits on its t-th tick, or on the first when t is not positive |
| QuizView.PercentBounds | frontend/src/modules/quizzes/component/QuizView.tsx:98-100 | the score lies in 0..100, is 0 with no correct answer and 100 with all correct |
| QuizView.PercentMonotone | frontend/src/modules/quizzes/component/QuizView.tsx:98-100 | more correct answers never score less |
| QuizView.Quiz.constructor | frontend/src/modules/quizzes/component/QuizView.tsx:34-42 | no questions, no answers, no score, unsubmitted, no time budget |
| QuizView.Quiz.Load | frontend/src/modules/quizzes/component/QuizView.tsx:45-66 | fetched questions are stored, their shuffle shown, the clock set to the budget and the rest reset; a failed fetch changes nothing |
| QuizView.Quiz.TickSecond | frontend/src/modules/quizzes/component/QuizView.tsx:69-82 | while unsubmitted with a budget, one tick of the countdown; otherwise nothing |
| QuizView.Quiz.Select | frontend/src/modules/quizzes/component/QuizView.tsx:170 | records the option for the question shown and nothing else |
| QuizView.Quiz.Previous | frontend/src/modules/quizzes/component/QuizView.tsx:175-185 | one question back and the activity time recorded, or nothing on the first question |
| QuizView.Quiz.Next | frontend/src/modules/quizzes/component/QuizView.tsx:187-198 | one question on with the activity time recorded iff there is a later question and the question shown is answered |
| QuizView.Quiz.Submit | frontend/src/modules/quizzes/component/QuizView.tsx:92-121 | nothing is sent for an empty quiz; otherwise sends the percentage correct, in 0..100; on success stores the previous score and the reply's score or the percentage and marks the quiz submitted; on failure nothing changes |
| QuizView.Quiz.Retry | frontend/src/modules/quizzes/component/QuizView.tsx:124-132 | a fresh permutation of the loaded questions, no answers or score, the first question and a full clock; the previous score stays |
| QuizView.FormatTime | frontend/src/modules/quizzes/component/QuizView.tsx:85-89 | `formatTime`: whole minutes and the remaining seconds, each padded to two digits, joined by a colon (see FormatTimeReadsBack) |
| QuizView.IsCorrect | frontend/src/modules/quizzes/component/QuizView.tsx:99 | `answers[q.id] === q.correct_index`: answered, with the correct option |
| QuizView.CorrectCount | frontend/src/modules/quizzes/component/QuizView.tsx:99 | the number of correctly answered questions, at most the number of questions |
| QuizView.Percent | frontend/src/modules/quizzes/component/QuizView.tsx:100 | `Math.round((correct / total) * 100)` on exact arithmetic, halves rounding up (see PercentBounds, PercentMonotone) |
| QuizResult.ReducedCountIsCorrectCount | frontend/src/modules/quizzes/component/QuizResult.tsx:12 | the result screen's count equals the count the quiz scored with |
| QuizResult.Diff | frontend/src/modules/quizzes/component/QuizResult.tsx:14-15 | present iff a previous score is, and then previous + diff is the score |
| QuizResult.Compare | frontend/src/modules/quizzes/component/QuizResult.tsx:17-33 | the badge goes up, with the congratulation, iff the score rose, and goes down iff it fell |
| QuizResult.CompareText | frontend/src/modules/quizzes/component/QuizResult.tsx:17-33 | "No Change" exactly when neither up nor down; otherwise the sign, the digits of the change's size and a percent sign |
| QuizResult.Bucket | frontend/src/modules/quizzes/component/QuizResult.tsx:39-44 | the colour bucket: red at most 25, orange-yellow above 25 up to 50, green above 75 |
| QuizResult.BucketMonotone | frontend/src/modules/quizzes/component/QuizResult.tsx:39-44 | a higher score never gets a lower bucket |
| QuizResult.Threshold | frontend/src/modules/quizzes/component/QuizResult.tsx:36 | star i lights from 25 * i |
| QuizResult.LitFrom | frontend/src/modules/quizzes/component/QuizResult.tsx:118-135 | at most one star per remaining position |
| QuizResult.LitFromMonotone | frontend/src/modules/quizzes/component/QuizResult.tsx:118-135 | a higher score lights at least as many of the remaining stars |
| QuizResult.LitStarsMonotone | frontend/src/modules/quizzes/component/QuizResult.tsx:118-135 | a higher score lights at least as many stars |
| QuizResult.LitStarsCount | frontend/src/modules/quizzes/component/QuizResult.tsx:36-135 | a score in 0..100 lights one star per full 25 points plus the star at 0 |
| QuizResult.RowOf | frontend/src/modules/quizzes/component/QuizResult.tsx:154-158 | marked correct iff the answer is the correct option; an unanswered question shows "Not answered"; an answered one shows the chosen option |
| QuizResult.Rows | frontend/src/modules/quizzes/component/QuizResult.tsx:154-158 | one row per question, in order |
| QuizResult.RowsAgreeWithCount | frontend/src/modules/quizzes/component/QuizResult.tsx:12-158 | the table marks as many rows correct as the count says |
| QuizResult.ReducedCount | frontend/src/modules/quizzes/component/QuizResult.tsx:12 | the `reduce` over the questions from the left, adding one per correct answer; at most the number of questions (see ReducedCountIsCorrectCount) |
| QuizResult.Gradient | frontend/src/modules/quizzes/component/QuizResult.tsx:39-44 | `getBarGradient`: the classes of the bucket the score falls in, up to 25, 50, 75 and above (see BucketMonotone) |
| QuizResult.LitStars | frontend/src/modules/quizzes/component/QuizResult.tsx:118-137 | how many of the five stars `score >= pct` lights (see LitStarsMonotone, LitStarsCount) |
| FlashcardView.ButtonsMatchGuards | frontend/src/modules/flashcards/component/FlashcardView.tsx:59-116 | with cards shown, each button is disabled exactly when its handler would refuse to move, and the counter's first number lies in 1..count |
| FlashcardView.CounterReadsBack | frontend/src/modules/flashcards/component/FlashcardView.tsx:121-123 | the counter is the position's digits, " / " and the count's digits |
| FlashcardView.Viewer.constructor | frontend/src/modules/flashcards/component/FlashcardView.tsx:22-25 | no cards, the first position, face up, loading |
| FlashcardView.Viewer.Load | frontend/src/modules/flashcards/component/FlashcardView.tsx:30-54 | an unset note id starts nothing; otherwise loading ends, and a fetched list, given a token, replaces the cards and resets to the first card face up; without a token or after a failure the cards and position stay |
| FlashcardView.Viewer.SetCards | frontend/src/modules/flashcards/component/FlashcardView.tsx:51-54 | a new card list resets the position to the first card, face up |
| FlashcardView.Viewer.SetFlipped | frontend/src/modules/flashcards/component/FlashcardView.tsx:96-101 | only the face shown changes |
| FlashcardView.Viewer.Next | frontend/src/modules/flashcards/component/FlashcardView.tsx:59-65 | one card on, face up, with the activity time recorded iff a later card exists; otherwise nothing changes |
| FlashcardView.Viewer.Prev | frontend/src/modules/flashcards/component/FlashcardView.tsx:70-76 | one card back, face up, with the activity time recorded iff an earlier card exists; otherwise nothing changes |
| ChartInsertModal.SetField | frontend/src/components/models/ChartInsertModal.tsx:35 | the named field takes the value and the other two keep theirs |
| ChartInsertModal.WithoutIndex | frontend/src/components/models/ChartInsertModal.tsx:29 | an index in range loses exactly that row and keeps the others in order; any other index keeps the list |
| ChartInsertModal.ChartDataOf | frontend/src/components/models/ChartInsertModal.tsx:43-52 | one label, value and colour per filled row |
| ChartInsertModal.FilteredRowsMembers | frontend/src/components/models/ChartInsertModal.tsx:40 | the chart takes exactly the rows with a label and a value |
| ChartInsertModal.BlankRowIsIgnored | frontend/src/components/models/ChartInsertModal.tsx:24-52 | an appended blank row changes neither the filled rows nor the chart data |
| ChartInsertModal.ColorsCycle | frontend/src/components/models/ChartInsertModal.tsx:49 | every filled row gets a non-empty colour: its own, else the default for its position, cycling every ten rows |
| ChartInsertModal.ChartRow.constructor | frontend/src/components/models/ChartInsertModal.tsx:20-24 | a row object holding the given label, value and colour |
| ChartInsertModal.ContentsOf | frontend/src/components/models/ChartInsertModal.tsx:20 | one row value per row object |
| ChartInsertModal.Modal.Contents | frontend/src/components/models/ChartInsertModal.tsx:20 | one row value per row |
| ChartInsertModal.Modal.constructor | frontend/src/components/models/ChartInsertModal.tsx:19-21 | a bar chart with one blank row and no validation message |
| ChartInsertModal.Modal.AddRow | frontend/src/components/models/ChartInsertModal.tsx:24 | one blank row more at the end, nothing else changes |
| ChartInsertModal.Modal.RemoveRow | frontend/src/components/models/ChartInsertModal.tsx:27-30 | refused when one row is left; otherwise exactly that row goes |
| ChartInsertModal.Modal.UpdateRow | frontend/src/components/models/ChartInsertModal.tsx:33-37 | only the named field of that row object changes; the list keeps the same objects |
| ChartInsertModal.Modal.SetType | frontend/src/components/models/ChartInsertModal.tsx:19 | only the chart type changes |
| ChartInsertModal.Modal.HandleInsert | frontend/src/components/models/ChartInsertModal.tsx:55-69 | with fewer than two filled rows shows the validation message and stays open; otherwise inserts the chart type and data and closes |
| ChartInsertModal.Filled | frontend/src/components/models/ChartInsertModal.tsx:40 | `r.label && r.value`: both fields non-empty |
| ChartInsertModal.FilteredRows | frontend/src/components/models/ChartInsertModal.tsx:40 | `filteredRows`: the filled rows, in order (see FilteredRowsMembers, BlankRowIsIgnored) |
| ChartInsertModal.ColorAt | frontend/src/components/models/ChartInsertModal.tsx:49 | `r.color || defaultColors[i % defaultColors.length]`: the row's own colour, else the palette entry for its position (see ColorsCycle) |
| TokenManager.ExpiryMs | frontend/src/utils/tokenManager.ts:18 | a whole number of milliseconds, which is the issue instant plus the lifetime in seconds |
| TokenManager.ExpiryAfterIssue | frontend/src/utils/tokenManager.ts:16-20 | the stored expiry lies the lifetime after the issue instant, and after it for a positive lifetime |
| TokenManager.PlanByDelays | frontend/src/utils/tokenManager.ts:99-117 | each refresh timer is set exactly when its delay is positive, with that delay; the five-minute timer whenever the ten-minute one is, five minutes later; no warning timer or handler |
| TokenManager.PlanFiresBeforeExpiry | frontend/src/utils/tokenManager.ts:83-121 | the timers set fire ten and five minutes before the expiry instant, after a positive delay |
| TokenManager.NoTimersNearExpiry | frontend/src/utils/tokenManager.ts:79-107 | an expired token, one within five minutes of expiry, or a missing stored expiry sets no timer |
| TokenManager.FreshTokenPlan | frontend/src/utils/tokenManager.ts:63-107 | scheduled at issue: a lifetime over ten minutes sets both timers, one over five minutes only the five-minute timer, and a shorter one none |
| TokenManager.ActivityRule | frontend/src/utils/tokenManager.ts:112-124 | later activity only helps, and a missing activity time never refreshes once five minutes have passed |
| TokenManager.TokenState.constructor | frontend/src/utils/tokenManager.ts:5-8 | no timers set; storage as found |
| TokenManager.TokenState.ClearTimers | frontend/src/utils/tokenManager.ts:186-198 | all four references null; storage untouched |
| TokenManager.TokenState.SetTokenInSession | frontend/src/utils/tokenManager.ts:16-20 | the token and its expiry in milliseconds are stored; nothing else changes |
| TokenManager.TokenState.SetupTimers | frontend/src/utils/tokenManager.ts:75-107 | the timers become the plan for the stored expiry, a missing one read as 0 |
| TokenManager.TokenState.HandleInitialToken | frontend/src/utils/tokenManager.ts:63-69 | the token and its expiry are stored and the timers planned for it |
| TokenManager.TokenState.RefreshToken | frontend/src/utils/tokenManager.ts:36-57 | without a student id nothing is sent or changed; otherwise the student info is sent, and a reply is stored with fresh timers while a failure clears every timer and shows the error |
| TokenManager.TokenState.FireTen | frontend/src/utils/tokenManager.ts:110-117 | refreshes only under the activity rule, and then with `refreshToken`'s full outcome: the stored session is sent, a reply stores the token and expiry and replans the timers, no reply alerts and clears them; otherwise nothing changes |
| TokenManager.TokenState.FireFive | frontend/src/utils/tokenManager.ts:119-178 | under the activity rule refreshes with `refreshToken`'s full outcome, as the ten-minute timer does; otherwise warns, installs the activity handler and sets the five-minute expiry timer, sending nothing |
| TokenManager.Delay10 | frontend/src/utils/tokenManager.ts:83 | `t10`: the time left until ten minutes before expiry |
| TokenManager.Delay5 | frontend/src/utils/tokenManager.ts:84 | `t5`: the time left until five minutes before expiry |
| TokenManager.Plan | frontend/src/utils/tokenManager.ts:99-121 | the timers `setupTokenRefreshTimers` leaves: none when the token has expired or both delays are non-positive, otherwise each refresh timer whose delay is positive (see PlanByDelays, PlanFiresBeforeExpiry) |
| TokenManager.Active | frontend/src/utils/tokenManager.ts:112-113 | the activity rule of a firing timer: the last activity lies less than five minutes back (see ActivityRule) |
| TokenManager.HasStudent | frontend/src/utils/tokenManager.ts:37-38 | `studentInfo?.student_id` is truthy, missing student info parsing as `{}` |

## Left out

- HTTP plumbing is not part of this model: controllers, routes, form requests, resources, the JWT middleware and `JwtService`. JWT signing is done by a foreign library.
- The chat-completion request is left out, and so is `json_decode` both in the generators and on a raw note content string. The reply text and the decoded items are inputs.
- NoteService.NotesOfStudentCourse: is the table's own query, fresh on every call. What `getNotesByStudentCourse` returns is the cached list of `NoteService.NotesByStudentCourse`, which can lag the table by up to 300 s. Two paths leave a stale entry behind: `createNote`, whose `Cache::forget` follows its `return`, and the `getOrCreateNote` branches that reuse a note or create one with no previous note. So the list can lack a just-created note or show a reused note's old title and timestamp (`NoteService.CreateWhileCached`, `NoteService.ReuseWhileCached`). The cache store itself, its serialization and the forget in `deleteNote` are not part of this model.
- Concurrency is left out. `getOrCreateNote` reads and then writes without a lock, so two concurrent requests can both create a note.
- Eloquent, migrations and foreign keys are modelled as the record shapes they imply. The NOT NULL `unit_number` and `lesson_title` columns are always present in a row. An insert without them throws, which the model reports as `None` with the table unchanged. `findOrFail` failing is also `None`. Route-model binding is not modelled, nor are column lengths and foreign-key checks on insert.
- `filterNotes` reads `unit_number` and `lesson_title` from the validated data without a default. A request that omits them, rather than sending null, hits an undefined key and throws. The model's null criterion is the null that was sent.
- Deleting a folder is allowed only while no note points at it, so the foreign key's set-null action never fires and is not modelled. Soft deletes are not used.
- Rows with equal `created_at` timestamps are ordered by insertion, because each table is a sequence in creation order.
- A nested node's `content` that is present but is not a JSON array is treated as absent. `JsonToText` does the same. In `JsonToHtml`, `foreach` over a scalar raises a PHP warning, which Laravel turns into an exception; that case is not modelled.
- A mark with no `type`, or a `color` mark with no `attrs.color`, makes `JsonToHtml` read an undefined key (`backend/app/Helpers/JsonToHtml.php`, lines 44 and 55). PHP warns and Laravel turns the warning into an exception. In the model every mark has both fields, so that failure is not modelled.
- Strings are sequences of Unicode characters. Invalid UTF-8 is not modelled.
- `AiReply.Substr`: PHP's `substr` counts bytes, while the model's slice counts characters. The two agree on the ASCII brackets it cuts at, but not on byte offsets inside multi-byte text.
- Word import and the PDF and Word exports are outside the core: a LibreOffice process, file writes and regex clean-up.
- Floating point is left out. Chart values stay the strings typed, because `parseFloat` is not modelled.
- `QuizView.Quiz.Submit`: sends the exact round-half-up percentage `(200c + t) / 2t`. `Math.round` of the floating-point product may differ from it by one where the exact value ends in .5 but the floating-point quotient falls just below it. Only the bounds and the monotonicity are claimed about the percentage.
- Real time is not modelled. Timers never fire by themselves, and `setInterval`, `setTimeout`, the autosave debounce and `Date.now()` become explicit steps and clock parameters.
- The quiz's auto-submit is modelled as the flag that `QuizView.Quiz.TickSecond` returns, after which `Submit` scores the current answers. The interval's stale closure over `handleSubmit` is not modelled. On the page, the interval calls the `handleSubmit` of the render in which the `[submitted, totalTime]` effect last ran, right after loading, when `answers` was still `{}`. So a quiz submitted by the timer most likely scores no correct answers, whatever was chosen.
- `Math.random` in `shuffleArray` is an arbitrary choice of swap index in `[0, i]`.
- `updateFolderName` (frontend/src/components/NoteSidebar.tsx:85-97) is never called, so it is not modelled.
- `NoteSidebar.NoteRef` and the note list of `NoteEditorPage` carry a title string, while the API's note title is nullable. A note whose title is null is not modelled on the frontend.
- `JSON.parse` and `JSON.stringify` of the session objects are left out. sessionStorage holds the decoded object, and JSON numbers are integers.
- `NoteEditorPage.EditorPage.Mount`: a truthy stored title that is not a string, such as a number, shows as "My Note" in the model. The page would show the value itself. Likewise a stored `note_id` that is not a number, such as a string, selects nothing in the model. The page would store that value as the selected id.
- `TokenManager`: a reply missing `issued_at` or `expires_in` would give a `NaN` expiry in JavaScript. The model's reply fields are integers.
- The expiry warning's activity handler and its five-minute expiry callback are left out. That covers the refresh on activity, `sessionStorage.clear()` and the page reload. Only the references that `TokenManager.TokenState.FireFive` assigns are modelled.
- The flashcard flip animation, the chart preview, and the Enter key the chart dialog sends to the editor are left out.
- Rendering, toasts, `alert` and SweetAlert dialogs are left out; only the alert kind the token scheduler shows is modelled. Also left out: the confetti threshold, the bar width and the `NoteSidebar` `onDeleteNote` callback into the page. The page side of that callback is modelled as `NoteEditorPage.EditorPage.DeleteNote`.
