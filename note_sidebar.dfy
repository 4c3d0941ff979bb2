/**
 * The note sidebar's folder list (frontend/src/components/NoteSidebar.tsx):
 * the pure `map`/`filter` transforms its handlers apply to the `folders`
 * state, and the handlers themselves as methods of a class holding the
 * `folders` and `draggedNote` state. Each awaited API call is a parameter
 * saying whether it succeeded; toasts and rendering are left out.
 */
module NoteSidebar {
  import opened Wrappers
  import opened Strings
  import opened Seqs

  /** A note as the sidebar lists it. */
  datatype NoteRef = NoteRef(id: int, title: string)

  /** A folder with its notes and whether it is expanded. */
  datatype FolderItem = FolderItem(id: int, name: string, notes: seq<NoteRef>, open: bool)

  /** What `createFolder` resolves to: the stored folder's id and name. */
  datatype CreatedFolder = CreatedFolder(id: int, name: string)

  /** A session id read from JSON: JavaScript treats an absent id and 0 as false. */
  predicate Present(id: Option<int>) {
    id.Some? && id.value != 0
  }

  /** `notes.filter((n) => n.id !== id)`. */
  function WithoutNote(notes: seq<NoteRef>, id: int): seq<NoteRef> {
    Filter(notes, (n: NoteRef) => n.id != id)
  }

  /** The folder list after `note` is dropped on folder `fid`. */
  function DropInto(folders: seq<FolderItem>, note: NoteRef, fid: int): (r: seq<FolderItem>)
    ensures |r| == |folders|
  {
    seq(|folders|, i requires 0 <= i < |folders| =>
      var rest := WithoutNote(folders[i].notes, note.id);
      folders[i].(notes := if folders[i].id == fid then rest + [note] else rest))
  }

  /** The folder list with note `id` taken out of every folder. */
  function RemoveNoteEverywhere(folders: seq<FolderItem>, id: int): (r: seq<FolderItem>)
    ensures |r| == |folders|
  {
    seq(|folders|, i requires 0 <= i < |folders| => folders[i].(notes := WithoutNote(folders[i].notes, id)))
  }

  /** The folder list with folder `id` expanded or collapsed. */
  function Toggle(folders: seq<FolderItem>, id: int): (r: seq<FolderItem>)
    ensures |r| == |folders|
  {
    seq(|folders|, i requires 0 <= i < |folders| =>
      if folders[i].id == id then folders[i].(open := !folders[i].open) else folders[i])
  }

  /** The folder list with folder `id` renamed to `name`. */
  function SetName(folders: seq<FolderItem>, id: int, name: string): (r: seq<FolderItem>)
    ensures |r| == |folders|
  {
    seq(|folders|, i requires 0 <= i < |folders| =>
      if folders[i].id == id then folders[i].(name := name) else folders[i])
  }

  /** The loaded folders, each collapsed: `data.map((f) => ({ ...f, open: false }))`. */
  function Collapsed(folders: seq<FolderItem>): (r: seq<FolderItem>)
    ensures |r| == |folders|
    ensures forall i :: 0 <= i < |r| ==> !r[i].open && r[i].(open := folders[i].open) == folders[i]
  {
    seq(|folders|, i requires 0 <= i < |folders| => folders[i].(open := false))
  }

  /** `folders.filter((f) => f.id !== id)`. */
  function RemoveFolder(folders: seq<FolderItem>, id: int): seq<FolderItem> {
    Filter(folders, (f: FolderItem) => f.id != id)
  }

  /** `folders.find((f) => f.id === id)`. */
  function FindFolder(folders: seq<FolderItem>, id: int): (r: Option<FolderItem>)
    ensures r.None? <==> forall i :: 0 <= i < |folders| ==> folders[i].id != id
    ensures r.Some? ==> r.value in folders && r.value.id == id
  {
    if folders == [] then None
    else if folders[0].id == id then Some(folders[0])
    else FindFolder(folders[1..], id)
  }

  /** The folder found is the first with that id. */
  lemma {:induction false} FindFolderIsFirst(folders: seq<FolderItem>, id: int, i: int)
    requires 0 <= i < |folders| && folders[i].id == id
    requires forall j :: 0 <= j < i ==> folders[j].id != id
    ensures FindFolder(folders, id) == Some(folders[i])
    decreases i
  {
    if i > 0 {
      FindFolderIsFirst(folders[1..], id, i - 1);
    }
  }

  /** `folders.some((f) => f.notes.find((n) => n.id === id))`. */
  predicate InSomeFolder(folders: seq<FolderItem>, id: int) {
    exists i, k :: 0 <= i < |folders| && 0 <= k < |folders[i].notes| && folders[i].notes[k].id == id
  }

  /** The notes listed outside every folder. */
  function OutsideNotes(notes: seq<NoteRef>, folders: seq<FolderItem>): seq<NoteRef> {
    Filter(notes, (n: NoteRef) => !InSomeFolder(folders, n.id))
  }

  /** Taking a note out keeps every other note of the list and leaves none with that id. */
  lemma WithoutNoteFacts(notes: seq<NoteRef>, id: int)
    ensures forall k :: 0 <= k < |WithoutNote(notes, id)| ==> WithoutNote(notes, id)[k].id != id
    ensures forall n: NoteRef :: n.id != id ==> (n in WithoutNote(notes, id) <==> n in notes)
  {
    FilterSatisfies(notes, (n: NoteRef) => n.id != id);
    forall n: NoteRef | n.id != id ensures n in WithoutNote(notes, id) <==> n in notes {
      FilterMembers(notes, (n: NoteRef) => n.id != id, n);
    }
  }

  /**
   * A drop on `fid` leaves the folder's id, name and open flag alone; the
   * target folder ends with the note, holding it exactly once, and every
   * other folder does not hold it; all other notes stay where they were.
   */
  lemma DropPlacesNoteOnce(folders: seq<FolderItem>, note: NoteRef, fid: int, i: int)
    requires 0 <= i < |folders|
    ensures var f, g := folders[i], DropInto(folders, note, fid)[i];
      && g.id == f.id && g.name == f.name && g.open == f.open
      && (f.id == fid ==> |g.notes| > 0 && g.notes[|g.notes| - 1] == note
                          && forall k :: 0 <= k < |g.notes| - 1 ==> g.notes[k].id != note.id)
      && (f.id != fid ==> forall k :: 0 <= k < |g.notes| ==> g.notes[k].id != note.id)
      && forall n: NoteRef :: n.id != note.id ==> (n in g.notes <==> n in f.notes)
  {
    var f, g := folders[i], DropInto(folders, note, fid)[i];
    var rest := WithoutNote(f.notes, note.id);
    WithoutNoteFacts(f.notes, note.id);
    if f.id == fid {
      assert g.notes == rest + [note];
      assert forall k :: 0 <= k < |g.notes| - 1 ==> g.notes[k] == rest[k];
      forall n: NoteRef | n.id != note.id ensures n in g.notes <==> n in rest {
        assert n in g.notes <==> n in rest || n == note;
      }
    } else {
      assert g.notes == rest;
    }
  }

  /** Taking out a note that is not in the list, or was just appended to the list with it taken out, gives the list without it. */
  lemma WithoutAppended(notes: seq<NoteRef>, note: NoteRef)
    ensures WithoutNote(WithoutNote(notes, note.id) + [note], note.id) == WithoutNote(notes, note.id)
  {
    var p := (n: NoteRef) => n.id != note.id;
    var rest := WithoutNote(notes, note.id);
    FilterConcat(rest, [note], p);
    assert Filter([note], p) == [];
    FilterSatisfies(notes, p);
    FilterKeepsAll(rest, p);
    assert rest + [] == rest;
  }

  /** Dropping the same note on the same folder twice is the same as dropping it once. */
  lemma DropIsIdempotent(folders: seq<FolderItem>, note: NoteRef, fid: int)
    ensures DropInto(DropInto(folders, note, fid), note, fid) == DropInto(folders, note, fid)
  {
    var once := DropInto(folders, note, fid);
    var twice := DropInto(once, note, fid);
    forall i | 0 <= i < |folders| ensures twice[i] == once[i] {
      WithoutAppended(folders[i].notes, note);
      if folders[i].id != fid {
        FilterSatisfies(folders[i].notes, (n: NoteRef) => n.id != note.id);
        FilterKeepsAll(WithoutNote(folders[i].notes, note.id), (n: NoteRef) => n.id != note.id);
      }
    }
  }

  /** Dropping a note on a folder and then out of all folders is the same as dropping it out straight away. */
  lemma DropThenRemove(folders: seq<FolderItem>, note: NoteRef, fid: int)
    ensures RemoveNoteEverywhere(DropInto(folders, note, fid), note.id) == RemoveNoteEverywhere(folders, note.id)
  {
    var l := RemoveNoteEverywhere(DropInto(folders, note, fid), note.id);
    var r := RemoveNoteEverywhere(folders, note.id);
    forall i | 0 <= i < |folders| ensures l[i] == r[i] {
      WithoutAppended(folders[i].notes, note);
      if folders[i].id != fid {
        FilterSatisfies(folders[i].notes, (n: NoteRef) => n.id != note.id);
        FilterKeepsAll(WithoutNote(folders[i].notes, note.id), (n: NoteRef) => n.id != note.id);
      }
    }
  }

  /** Removing a note everywhere keeps each folder's id, name and open flag and its other notes, and no folder holds the note. */
  lemma RemoveEverywhereFacts(folders: seq<FolderItem>, id: int)
    ensures !InSomeFolder(RemoveNoteEverywhere(folders, id), id)
    ensures forall i :: 0 <= i < |folders| ==>
      RemoveNoteEverywhere(folders, id)[i].(notes := folders[i].notes) == folders[i]
    ensures forall i, n: NoteRef :: 0 <= i < |folders| && n.id != id ==>
      (n in RemoveNoteEverywhere(folders, id)[i].notes <==> n in folders[i].notes)
  {
    var r := RemoveNoteEverywhere(folders, id);
    forall i | 0 <= i < |folders| ensures forall k :: 0 <= k < |r[i].notes| ==> r[i].notes[k].id != id
      ensures forall n: NoteRef :: n.id != id ==> (n in r[i].notes <==> n in folders[i].notes) {
      WithoutNoteFacts(folders[i].notes, id);
    }
  }

  /** Toggling flips the open flag of exactly the folders with that id and changes nothing else. */
  lemma ToggleFlipsOnlyTarget(folders: seq<FolderItem>, id: int, i: int)
    requires 0 <= i < |folders|
    ensures Toggle(folders, id)[i].open != folders[i].open <==> folders[i].id == id
    ensures Toggle(folders, id)[i].(open := folders[i].open) == folders[i]
  {
  }

  /** Toggling the same folder twice restores the list. */
  lemma ToggleTwice(folders: seq<FolderItem>, id: int)
    ensures Toggle(Toggle(folders, id), id) == folders
  {
    var t := Toggle(Toggle(folders, id), id);
    forall i | 0 <= i < |folders| ensures t[i] == folders[i] {
      ToggleFlipsOnlyTarget(folders, id, i);
      ToggleFlipsOnlyTarget(Toggle(folders, id), id, i);
    }
  }

  /** Deleting a folder removes exactly the folders with that id, keeping the others in order. */
  lemma RemoveFolderMembers(folders: seq<FolderItem>, id: int, f: FolderItem)
    ensures f in RemoveFolder(folders, id) <==> f in folders && f.id != id
  {
    FilterMembers(folders, (g: FolderItem) => g.id != id, f);
  }

  /** A note is listed outside the folders exactly when no folder holds a note with its id. */
  lemma OutsideNotesMembers(notes: seq<NoteRef>, folders: seq<FolderItem>, n: NoteRef)
    ensures n in OutsideNotes(notes, folders) <==> n in notes && !InSomeFolder(folders, n.id)
  {
    FilterMembers(notes, (m: NoteRef) => !InSomeFolder(folders, m.id), n);
  }

  /** After a drop on an existing folder the note is no longer listed outside the folders. */
  lemma DroppedNoteLeavesOutside(notes: seq<NoteRef>, folders: seq<FolderItem>, note: NoteRef, i: int)
    requires 0 <= i < |folders|
    ensures note !in OutsideNotes(notes, DropInto(folders, note, folders[i].id))
  {
    var d := DropInto(folders, note, folders[i].id);
    DropPlacesNoteOnce(folders, note, folders[i].id, i);
    assert d[i].notes[|d[i].notes| - 1].id == note.id;
    assert InSomeFolder(d, note.id);
    OutsideNotesMembers(notes, d, note);
  }

  /** After a note is taken out of every folder, it is listed outside them if it is in the note list. */
  lemma RemovedNoteIsOutside(notes: seq<NoteRef>, folders: seq<FolderItem>, note: NoteRef)
    requires note in notes
    ensures note in OutsideNotes(notes, RemoveNoteEverywhere(folders, note.id))
  {
    RemoveEverywhereFacts(folders, note.id);
    OutsideNotesMembers(notes, RemoveNoteEverywhere(folders, note.id), note);
  }

  /** The sidebar's `folders` and `draggedNote` state. */
  class Sidebar {
    var folders: seq<FolderItem>
    var dragged: Option<NoteRef>

    /** The initial state: no folders loaded and nothing dragged. */
    constructor ()
      ensures folders == [] && dragged == None
    {
      folders := [];
      dragged := None;
    }

    /**
     * The loading effect: without a student and a course id nothing is
     * requested; otherwise the folders fetched replace the list, all
     * collapsed, unless the request threw (`fetched` is None).
     */
    method LoadFolders(studentId: Option<int>, courseId: Option<int>, fetched: Option<seq<FolderItem>>) returns (requested: bool)
      modifies this
      ensures requested <==> Present(studentId) && Present(courseId)
      ensures folders == if requested && fetched.Some? then Collapsed(fetched.value) else old(folders)
      ensures dragged == old(dragged)
    {
      requested := Present(studentId) && Present(courseId);
      if requested && fetched.Some? {
        folders := Collapsed(fetched.value);
      }
    }

    /** Starting to drag a note remembers it. */
    method StartDrag(note: NoteRef)
      modifies this
      ensures dragged == Some(note) && folders == old(folders)
    {
      dragged := Some(note);
    }

    /**
     * `addFolder`: refused without a student and a course id; otherwise
     * the created folder is appended, empty and open, unless `created` is
     * None (the request threw).
     */
    method AddFolder(studentId: Option<int>, courseId: Option<int>, created: Option<CreatedFolder>) returns (added: bool)
      modifies this
      ensures added <==> Present(studentId) && Present(courseId) && created.Some?
      ensures folders == if added then old(folders) + [FolderItem(created.value.id, created.value.name, [], true)] else old(folders)
      ensures dragged == old(dragged)
    {
      added := false;
      if !Present(studentId) || !Present(courseId) {
        return;
      }
      if created.Some? {
        folders := folders + [FolderItem(created.value.id, created.value.name, [], true)];
        added := true;
      }
    }

    /**
     * `handleDrop(fid)`: with no dragged note nothing is sent and nothing
     * changes; otherwise the move is sent and, if it succeeds (`ok`), the
     * note is dropped into folder `fid` and the drag is cleared.
     */
    method Drop(fid: int, ok: bool) returns (sent: bool)
      modifies this
      ensures sent <==> old(dragged).Some?
      ensures sent && ok ==> folders == DropInto(old(folders), old(dragged).value, fid) && dragged == None
      ensures !(sent && ok) ==> folders == old(folders) && dragged == old(dragged)
    {
      sent := false;
      if dragged.None? {
        return;
      }
      sent := true;
      if ok {
        folders := DropInto(folders, dragged.value, fid);
        dragged := None;
      }
    }

    /** `handleDropToNoFolder`: as Drop, but the note is taken out of every folder. */
    method DropToNoFolder(ok: bool) returns (sent: bool)
      modifies this
      ensures sent <==> old(dragged).Some?
      ensures sent && ok ==> folders == RemoveNoteEverywhere(old(folders), old(dragged).value.id) && dragged == None
      ensures !(sent && ok) ==> folders == old(folders) && dragged == old(dragged)
    {
      sent := false;
      if dragged.None? {
        return;
      }
      sent := true;
      if ok {
        folders := RemoveNoteEverywhere(folders, dragged.value.id);
        dragged := None;
      }
    }

    /** `toggleFolder`. */
    method ToggleFolder(id: int)
      modifies this
      ensures folders == Toggle(old(folders), id) && dragged == old(dragged)
    {
      folders := Toggle(folders, id);
    }

    /**
     * `handleDeleteFolder`: refused, with nothing sent, when the first
     * folder with that id holds notes; otherwise the delete is sent (even
     * for an id not in the list) and, if it succeeds, the folder is removed.
     */
    method DeleteFolder(id: int, ok: bool) returns (sent: bool)
      modifies this
      ensures sent <==> !(FindFolder(old(folders), id).Some? && |FindFolder(old(folders), id).value.notes| > 0)
      ensures folders == if sent && ok then RemoveFolder(old(folders), id) else old(folders)
      ensures dragged == old(dragged)
    {
      var folder := FindFolder(folders, id);
      if folder.Some? && |folder.value.notes| > 0 {
        return false;
      }
      sent := true;
      if ok {
        folders := RemoveFolder(folders, id);
      }
    }

    /** `handleDeleteNote`: once the delete succeeds, the note leaves every folder. */
    method DeleteNote(id: int, ok: bool)
      modifies this
      ensures folders == if ok then RemoveNoteEverywhere(old(folders), id) else old(folders)
      ensures dragged == old(dragged)
    {
      if ok {
        folders := RemoveNoteEverywhere(folders, id);
      }
    }

    /** The name field's `onChange`: any text, empty included, becomes the folder's name in the list only. */
    method EditName(id: int, name: string)
      modifies this
      ensures folders == SetName(old(folders), id, name) && dragged == old(dragged)
    {
      folders := SetName(folders, id, name);
    }

    /**
     * The name field's `onBlur` for folder `id`; `name` is the input's
     * value, the `folder.name` of the render, which `EditName` keeps equal
     * to that folder's name in `folders`. A name that trims to nothing
     * becomes "Untitled Folder" in the list and nothing is sent; otherwise
     * the trimmed name is sent as the rename and the list is left as it is
     * (a failed rename only shows an error).
     */
    method Blur(id: int, name: string) returns (rename: Option<string>)
      modifies this
      ensures rename.None? <==> AllJsSpace(name)
      ensures rename.Some? ==> rename.value == JsTrim(name) && rename.value != "" && folders == old(folders)
      ensures rename.None? ==> folders == SetName(old(folders), id, "Untitled Folder")
      ensures dragged == old(dragged)
    {
      var trimmed := JsTrim(name);
      if trimmed == "" {
        folders := SetName(folders, id, "Untitled Folder");
        return None;
      }
      rename := Some(trimmed);
    }
  }
}
