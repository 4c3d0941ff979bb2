/**
 * The note editor page (frontend/src/pages/NoteEditorPage.tsx): the
 * `note_session` object in sessionStorage as read by `getSessionData` and
 * rewritten by `updateSession`, and the page's note list, selection and
 * title as updated by the sidebar callbacks. sessionStorage holds the
 * decoded session object; `JSON.parse`/`JSON.stringify` are left out.
 */
module NoteEditorPage {
  import opened Wrappers
  import opened Seqs
  import NoteSidebar

  type NoteRef = NoteSidebar.NoteRef

  /** A JSON value as stored in the session (numbers are integers here). */
  datatype JsValue = JNull | JBool(b: bool) | JNum(n: int) | JStr(s: string) | JObject

  /** JavaScript truthiness of a JSON value. */
  predicate Truthy(v: JsValue) {
    match v
    case JNull => false
    case JBool(b) => b
    case JNum(n) => n != 0
    case JStr(s) => s != ""
    case JObject => true
  }

  /** A session object: its keys and their values; an absent key reads as undefined. */
  type Session = map<string, JsValue>

  /** The keys `getSessionData` returns. */
  const SessionKeys: set<string> := {"student_id", "course_id", "unit_number", "lesson_title", "note_id", "token", "title"}

  const DefaultTitle: string := "My Note"

  /**
   * `getSessionData`: the stored session's six id and token keys as they
   * are (absent ones stay absent, since `JSON.stringify` drops undefined
   * values) and its title, or "My Note" when the title is absent or falsy.
   */
  function GetSessionData(stored: Session): (r: Session)
    ensures r.Keys <= SessionKeys && "title" in r
    ensures forall k :: k in SessionKeys && k != "title" ==> (k in r <==> k in stored) && (k in r ==> r[k] == stored[k])
    ensures r["title"] == if "title" in stored && Truthy(stored["title"]) then stored["title"] else JStr(DefaultTitle)
  {
    var ids := map k | k in stored.Keys && k in SessionKeys && k != "title" :: stored[k];
    ids["title" := if "title" in stored && Truthy(stored["title"]) then stored["title"] else JStr(DefaultTitle)]
  }

  /** `updateSession(updates)`: the session as `getSessionData` reads it, with the given keys overridden. */
  function UpdateSession(stored: Session, updates: Session): (r: Session)
    requires updates.Keys <= SessionKeys
    ensures r.Keys <= SessionKeys
    ensures forall k :: k in updates ==> k in r && r[k] == updates[k]
    ensures forall k :: k !in updates ==> (k in r <==> k in GetSessionData(stored)) && (k in r ==> r[k] == GetSessionData(stored)[k])
  {
    GetSessionData(stored) + updates
  }

  /** Reading a session that `getSessionData` produced gives it back unchanged. */
  lemma ReadIsIdempotent(stored: Session)
    ensures GetSessionData(GetSessionData(stored)) == GetSessionData(stored)
  {
    var once := GetSessionData(stored);
    assert Truthy(once["title"]) by {
      if !("title" in stored && Truthy(stored["title"])) {
        assert once["title"] == JStr(DefaultTitle);
      }
    }
  }

  /**
   * After `updateSession`, reading the session gives the updated keys'
   * values (an updated falsy title reads as "My Note") and every other
   * key as it read before.
   */
  lemma UpdateThenRead(stored: Session, updates: Session, k: string)
    requires updates.Keys <= SessionKeys && k in SessionKeys
    ensures var before, after := GetSessionData(stored), GetSessionData(UpdateSession(stored, updates));
      && (k in after <==> k in before || k in updates)
      && (k in updates && (k != "title" || Truthy(updates[k])) ==> after[k] == updates[k])
      && (k == "title" && k in updates && !Truthy(updates[k]) ==> after[k] == JStr(DefaultTitle))
      && (k !in updates ==> (k in after ==> after[k] == before[k]))
  {
    var before := GetSessionData(stored);
    if k == "title" && k !in updates {
      ReadIsIdempotent(stored);
    }
  }

  /** The session `onNewNote` writes reads back with the new note's id and the title "My Note". */
  lemma NewNoteReadsDefaultTitle(stored: Session, id: int)
    ensures var after := GetSessionData(UpdateSession(stored, map["note_id" := JNum(id), "title" := JStr("")]));
      after["note_id"] == JNum(id) && after["title"] == JStr(DefaultTitle)
  {
    UpdateThenRead(stored, map["note_id" := JNum(id), "title" := JStr("")], "note_id");
    UpdateThenRead(stored, map["note_id" := JNum(id), "title" := JStr("")], "title");
  }

  /** The note list with note `id` retitled. */
  function Retitle(notes: seq<NoteRef>, id: int, title: string): (r: seq<NoteRef>)
    ensures |r| == |notes|
  {
    seq(|notes|, i requires 0 <= i < |notes| => if notes[i].id == id then notes[i].(title := title) else notes[i])
  }

  /** Retitling keeps every id in place, gives the matching notes the new title and leaves the other notes alone. */
  lemma RetitleOnlyTarget(notes: seq<NoteRef>, id: int, title: string, i: int)
    requires 0 <= i < |notes|
    ensures Retitle(notes, id, title)[i].id == notes[i].id
    ensures notes[i].id == id ==> Retitle(notes, id, title)[i].title == title
    ensures notes[i].id != id ==> Retitle(notes, id, title)[i] == notes[i]
  {
  }

  /** Retitling twice keeps only the last title. */
  lemma RetitleLastWins(notes: seq<NoteRef>, id: int, a: string, b: string)
    ensures Retitle(Retitle(notes, id, a), id, b) == Retitle(notes, id, b)
  {
    var l, r := Retitle(Retitle(notes, id, a), id, b), Retitle(notes, id, b);
    forall i | 0 <= i < |notes| ensures l[i] == r[i] {
      RetitleOnlyTarget(notes, id, a, i);
      RetitleOnlyTarget(Retitle(notes, id, a), id, b, i);
      RetitleOnlyTarget(notes, id, b, i);
    }
  }

  /** The page's note list, selection and title, and the session it keeps in sessionStorage. */
  class EditorPage {
    var notes: seq<NoteRef>
    var selected: Option<int>
    var title: string
    var session: Session
    var sidebarOpen: bool

    /** A page on a stored session, before its effects run. */
    constructor (stored: Session)
      ensures notes == [] && selected == None && title == DefaultTitle && session == stored && !sidebarOpen
    {
      notes := [];
      selected := None;
      title := DefaultTitle;
      session := stored;
      sidebarOpen := false;
    }

    /**
     * The first mount effect: the selection and the title come from the
     * session as `getSessionData` reads it. A note id that is not a number
     * selects nothing, and a title that is not a string shows "My Note".
     */
    method Mount()
      modifies this
      ensures var read := GetSessionData(old(session));
        && (selected.Some? <==> "note_id" in read && read["note_id"].JNum?)
        && (selected.Some? ==> read["note_id"] == JNum(selected.value))
        && (read["title"].JStr? ==> read["title"] == JStr(title))
        && (!read["title"].JStr? ==> title == DefaultTitle)
      ensures notes == old(notes) && session == old(session) && sidebarOpen == old(sidebarOpen)
    {
      var read := GetSessionData(session);
      selected := if "note_id" in read && read["note_id"].JNum? then Some(read["note_id"].n) else None;
      title := if read["title"].JStr? then read["title"].s else DefaultTitle;
    }

    /**
     * The second mount effect: without a truthy student and course id in
     * the session nothing is requested; otherwise the fetched list (an
     * empty one for a null reply) replaces the notes, and a failed
     * request (None) leaves them.
     */
    method LoadNotes(fetched: Option<seq<NoteRef>>) returns (requested: bool)
      modifies this
      ensures var read := GetSessionData(old(session));
        requested <==> "student_id" in read && Truthy(read["student_id"]) && "course_id" in read && Truthy(read["course_id"])
      ensures notes == if requested && fetched.Some? then fetched.value else old(notes)
      ensures selected == old(selected) && title == old(title) && session == old(session)
      ensures sidebarOpen == old(sidebarOpen)
    {
      var read := GetSessionData(session);
      requested := "student_id" in read && Truthy(read["student_id"]) && "course_id" in read && Truthy(read["course_id"]);
      if requested && fetched.Some? {
        notes := fetched.value;
      }
    }

    /** `handleLocalTitleChange`: the title, the matching note in the list and the stored session title change. */
    method LocalTitleChange(noteId: int, newTitle: string)
      modifies this
      ensures title == newTitle && notes == Retitle(old(notes), noteId, newTitle)
      ensures session == UpdateSession(old(session), map["title" := JStr(newTitle)])
      ensures selected == old(selected) && sidebarOpen == old(sidebarOpen)
    {
      title := newTitle;
      notes := Retitle(notes, noteId, newTitle);
      session := UpdateSession(session, map["title" := JStr(newTitle)]);
    }

    /**
     * `onNewNote`: once `createNote` resolves to `created`, the note is
     * appended and selected with an empty title, the session records its
     * id and the empty title, and the sidebar closes; a failed request
     * (None) changes nothing.
     */
    method NewNote(created: Option<NoteRef>)
      modifies this
      ensures created.None? ==> (notes == old(notes) && selected == old(selected) && title == old(title)
        && session == old(session) && sidebarOpen == old(sidebarOpen))
      ensures created.Some? ==> (notes == old(notes) + [created.value] && selected == Some(created.value.id)
        && title == "" && !sidebarOpen
        && session == UpdateSession(old(session), map["note_id" := JNum(created.value.id), "title" := JStr("")]))
    {
      if created.None? {
        return;
      }
      var n := created.value;
      session := UpdateSession(session, map["note_id" := JNum(n.id), "title" := JStr("")]);
      title := "";
      notes := notes + [n];
      selected := Some(n.id);
      sidebarOpen := false;
    }

    /** `onSelectNote`: the note becomes the selection, its title the page's and the session's, and the sidebar closes. */
    method SelectNote(note: NoteRef)
      modifies this
      ensures selected == Some(note.id) && title == note.title && !sidebarOpen && notes == old(notes)
      ensures session == UpdateSession(old(session), map["note_id" := JNum(note.id), "title" := JStr(note.title)])
    {
      session := UpdateSession(session, map["note_id" := JNum(note.id), "title" := JStr(note.title)]);
      selected := Some(note.id);
      title := note.title;
      sidebarOpen := false;
    }

    /**
     * `onDeleteNote`: the note leaves the list; only when it was the
     * selected one does the selection clear and the title reset to
     * "My Note". The session is not touched.
     */
    method DeleteNote(noteId: int)
      modifies this
      ensures notes == NoteSidebar.WithoutNote(old(notes), noteId)
      ensures old(selected) == Some(noteId) ==> selected == None && title == DefaultTitle
      ensures old(selected) != Some(noteId) ==> selected == old(selected) && title == old(title)
      ensures session == old(session) && sidebarOpen == old(sidebarOpen)
    {
      notes := NoteSidebar.WithoutNote(notes, noteId);
      if selected == Some(noteId) {
        selected := None;
        title := DefaultTitle;
      }
    }
  }

  /** Deleting a note removes exactly the notes with its id and keeps the others. */
  lemma DeleteNoteMembers(notes: seq<NoteRef>, id: int, n: NoteRef)
    ensures n in NoteSidebar.WithoutNote(notes, id) <==> n in notes && n.id != id
  {
    FilterMembers(notes, (m: NoteRef) => m.id != id, n);
  }
}
