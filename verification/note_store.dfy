/** The `notes` table and the owner-scoped statements on it (the files under infra/src/db/note). */
module NoteStore {
  import opened Common
  import opened Primitives
  import opened Tables
  import opened Notes

  type NoteTable = seq<Note>

  /** `$2::uuid IS NULL OR user_id = $2`: without an owner every note is visible, with one only
      that owner's notes are. */
  predicate Visible(owner: Option<Uuid>, n: Note) {
    owner.None? || owner.value == n.userId
  }

  /** `id = $1 AND (owner filter)`. */
  predicate Targets(noteId: Uuid, owner: Option<Uuid>, n: Note) {
    n.id == noteId && Visible(owner, n)
  }

  function NoteMissing(noteId: Uuid): string {
    "Note (" + noteId + ") doesn't exist!"
  }

  /** `get_note`: the note with this id that passes the owner filter. A note of another owner is
      reported exactly like a missing one. Reads only. */
  function GetNote(t: NoteTable, noteId: Uuid, owner: Option<Uuid>, fault: Fault): (r: Result<Note>)
    ensures r.Ok? ==> fault.None? && r.value in t && r.value.id == noteId && Visible(owner, r.value)
    ensures fault.None? && (exists n :: n in t && Targets(noteId, owner, n)) ==> r.Ok?
    ensures fault.None? && (forall n :: n in t ==> !Targets(noteId, owner, n)) ==> r == Err(Plain(NotFoundKind, NoteMissing(noteId)))
    ensures fault.Some? ==> r == Err(WithPrivate(InternalKind, "Failed to retrieve note (" + noteId + ")!", fault.value))
  {
    if fault.Some? then Err(WithPrivate(InternalKind, "Failed to retrieve note (" + noteId + ")!", fault.value))
    else match FirstWhere(t, n => Targets(noteId, owner, n))
      case None => Err(Plain(NotFoundKind, NoteMissing(noteId)))
      case Some(n) => Ok(n)
  }

  /** A note someone else owns cannot be told apart from a note that does not exist. */
  lemma ForeignNoteLooksMissing(t: NoteTable, n: Note, intruder: Uuid)
    requires n in t && intruder != n.userId
    requires forall m :: m in t && m.id == n.id ==> m.userId == n.userId
    ensures GetNote(t, n.id, Some(intruder), None) == GetNote(Remove(t, (m: Note) => m.id == n.id), n.id, Some(intruder), None)
    ensures GetNote(t, n.id, Some(intruder), None) == Err(Plain(NotFoundKind, NoteMissing(n.id)))
  {
  }

  function CreatedAt(n: Note): int {
    n.createdAt
  }

  /** The notes the owner filter lets through, newest first. */
  function VisibleByRecency(t: NoteTable, owner: Option<Uuid>): (r: NoteTable)
    ensures SortedDesc(r, CreatedAt)
    ensures multiset(r) == multiset(Select(t, n => Visible(owner, n)))
    ensures forall n :: n in r <==> n in t && Visible(owner, n)
  {
    var visible := Select(t, n => Visible(owner, n));
    var sorted := SortDesc(visible, CreatedAt);
    assert forall n :: n in sorted <==> n in visible by {
      forall n
        ensures n in sorted <==> n in visible
      {
        assert n in sorted <==> n in multiset(sorted);
        assert n in visible <==> n in multiset(visible);
      }
    }
    sorted
  }

  /** `get_notes`: the visible notes, newest first, after dropping `skip` of them and keeping at
      most `limit`; `Internal` "Failed to retrieve notes!" on a database failure. */
  function GetNotes(t: NoteTable, skip: nat, limit: nat, owner: Option<Uuid>, fault: Fault): (r: Result<seq<Note>>)
    ensures r.Ok? <==> fault.None?
    ensures r.Err? ==> r.error == WithPrivate(InternalKind, "Failed to retrieve notes!", fault.value)
    ensures r.Ok? ==> |r.value| <= limit && SortedDesc(r.value, CreatedAt)
    ensures r.Ok? ==> forall n :: n in r.value ==> n in t && Visible(owner, n)
    ensures r.Ok? ==> r.value == Page(VisibleByRecency(t, owner), skip, limit)
    ensures r.Ok? && skip == 0 && limit >= |t| ==> multiset(r.value) == multiset(Select(t, n => Visible(owner, n)))
  {
    if fault.Some? then Err(WithPrivate(InternalKind, "Failed to retrieve notes!", fault.value))
    else
      var ordered := VisibleByRecency(t, owner);
      PageOfSorted(ordered, CreatedAt, skip, limit);
      assert |ordered| <= |t| by {
        assert |multiset(ordered)| == |Select(t, n => Visible(owner, n))|;
      }
      var page := Page(ordered, skip, limit);
      Ok(page)
  }

  /** `update_note`: every note with this id that passes the owner filter gets the new title and
      content, the first of them is returned; none is `NotFound`, a database failure `Internal`. */
  function UpdateNote(t: NoteTable, noteId: Uuid, data: UpdateNoteData, owner: Option<Uuid>, fault: Fault): (o: Outcome<NoteTable, Note>)
    ensures o.result.Ok? <==> fault.None? && exists n :: n in t && Targets(noteId, owner, n)
    ensures o.result.Err? ==> o.state == t
    ensures fault.Some? ==> o.result == Err(WithPrivate(InternalKind, "Failed to update note (" + noteId + ")!", fault.value))
    ensures fault.None? && (forall n :: n in t ==> !Targets(noteId, owner, n)) ==> o.result == Err(Plain(NotFoundKind, NoteMissing(noteId)))
    ensures o.result.Ok? ==> |o.state| == |t| && forall i :: 0 <= i < |t| ==>
      o.state[i] == (if Targets(noteId, owner, t[i]) then t[i].(title := data.title, content := data.content) else t[i])
    ensures o.result.Ok? ==> exists n :: n in t && Targets(noteId, owner, n) && o.result.value == n.(title := data.title, content := data.content)
  {
    if fault.Some? then Outcome(t, Err(WithPrivate(InternalKind, "Failed to update note (" + noteId + ")!", fault.value)))
    else match FirstWhere(t, n => Targets(noteId, owner, n))
      case None => Outcome(t, Err(Plain(NotFoundKind, NoteMissing(noteId))))
      case Some(first) =>
        var t' := UpdateWhere(t, n => Targets(noteId, owner, n), (n: Note) => n.(title := data.title, content := data.content));
        Outcome(t', Ok(first.(title := data.title, content := data.content)))
  }

  /** `delete_note`: delete every note with this id that passes the owner filter; none is
      `NotFound`, a database failure `Internal`. */
  function DeleteNote(t: NoteTable, noteId: Uuid, owner: Option<Uuid>, fault: Fault): (o: Outcome<NoteTable, Unit>)
    ensures o.result.Ok? <==> fault.None? && exists n :: n in t && Targets(noteId, owner, n)
    ensures o.result.Err? ==> o.state == t
    ensures fault.Some? ==> o.result == Err(WithPrivate(InternalKind, "Failed to delete note (" + noteId + ")!", fault.value))
    ensures fault.None? && (forall n :: n in t ==> !Targets(noteId, owner, n)) ==> o.result == Err(Plain(NotFoundKind, NoteMissing(noteId)))
    ensures o.result.Ok? ==> forall n :: n in o.state <==> n in t && !Targets(noteId, owner, n)
    ensures o.result.Ok? ==> |o.state| < |t|
  {
    if fault.Some? then Outcome(t, Err(WithPrivate(InternalKind, "Failed to delete note (" + noteId + ")!", fault.value)))
    else
      var hit := Select(t, n => Targets(noteId, owner, n));
      if |hit| == 0 then
        assert forall n :: n in t ==> !Targets(noteId, owner, n);
        Outcome(t, Err(Plain(NotFoundKind, NoteMissing(noteId))))
      else
        assert hit[0] in t;
        RemoveCountsAffected(t, n => Targets(noteId, owner, n));
        Outcome(Remove(t, n => Targets(noteId, owner, n)), Ok(Unit))
  }
}
