/** The `Note` entity and its field validators (dmn/src/entities/note/mod.rs and
    dmn/src/entities/note/validation/mod.rs). */
module Notes {
  import opened Common
  import opened Primitives
  import opened Text

  datatype Note = Note(id: Uuid, userId: Uuid, title: string, content: string, createdAt: Instant, updatedAt: Instant)

  /** The pre-validation record a `Note` is built from. */
  datatype NoteData = NoteData(id: Uuid, userId: Uuid, title: string, content: string, createdAt: Instant, updatedAt: Instant)

  datatype CreateNoteData = CreateNoteData(userId: Uuid, title: string, content: string)

  datatype UpdateNoteData = UpdateNoteData(title: string, content: string)

  const TitleEmpty: string := "Note title cannot be empty!"
  const ContentEmpty: string := "Note content cannot be empty!"

  /** The shared shape of both validators: trim, and reject what is left empty with a
      `BadRequest` carrying `message` and no private diagnostic. */
  function ValidateNonBlank(text: string, message: string): (r: Result<string>)
    ensures r.Ok? <==> !Blank(text)
    ensures r.Ok? ==> r.value == Trim(text) && |r.value| > 0
    ensures r.Err? ==> r.error == Plain(BadRequestKind, message)
  {
    TrimEmptyIffBlank(text);
    var trimmed := Trim(text);
    if trimmed == [] then Err(Plain(BadRequestKind, message)) else Ok(trimmed)
  }

  /** `validate_title`: the trimmed title, unless the title is empty or only white space. */
  function ValidateTitle(title: string): (r: Result<string>)
    ensures r.Ok? <==> !Blank(title)
    ensures r.Ok? ==> r.value == Trim(title)
    ensures r.Err? ==> r.error == BadRequest(BaseError(TitleEmpty, None))
  {
    ValidateNonBlank(title, TitleEmpty)
  }

  /** `validate_content`: the trimmed content, unless it is empty or only white space. */
  function ValidateContent(content: string): (r: Result<string>)
    ensures r.Ok? <==> !Blank(content)
    ensures r.Ok? ==> r.value == Trim(content)
    ensures r.Err? ==> r.error == BadRequest(BaseError(ContentEmpty, None))
  {
    ValidateNonBlank(content, ContentEmpty)
  }

  /** A validated field passes validation again unchanged. */
  lemma ValidatedFieldIsStable(text: string, message: string)
    requires ValidateNonBlank(text, message).Ok?
    ensures ValidateNonBlank(ValidateNonBlank(text, message).value, message) == ValidateNonBlank(text, message)
  {
    TrimIdempotent(text);
  }

  /** Title first, then content; on success the input comes back as it was, untrimmed. */
  function ValidateFields(title: string, content: string): (r: Result<Unit>)
    ensures r.Ok? <==> !Blank(title) && !Blank(content)
    ensures Blank(title) ==> r == Err(BadRequest(BaseError(TitleEmpty, None)))
    ensures !Blank(title) && Blank(content) ==> r == Err(BadRequest(BaseError(ContentEmpty, None)))
  {
    match ValidateTitle(title)
    case Err(e) => Err(e)
    case Ok(_) =>
      match ValidateContent(content)
      case Err(e) => Err(e)
      case Ok(_) => Ok(Unit)
  }

  /** `CreateNoteData::validate`: the same data, untrimmed, when both fields are non-blank. */
  function ValidateCreate(d: CreateNoteData): (r: Result<CreateNoteData>)
    ensures r.Ok? <==> !Blank(d.title) && !Blank(d.content)
    ensures r.Ok? ==> r.value == d
    ensures r.Err? ==> r.error == ValidateFields(d.title, d.content).error
  {
    match ValidateFields(d.title, d.content)
    case Err(e) => Err(e)
    case Ok(_) => Ok(d)
  }

  /** `UpdateNoteData::validate`: as for creation. */
  function ValidateUpdate(d: UpdateNoteData): (r: Result<UpdateNoteData>)
    ensures r.Ok? <==> !Blank(d.title) && !Blank(d.content)
    ensures r.Ok? ==> r.value == d
    ensures r.Err? ==> r.error == ValidateFields(d.title, d.content).error
  {
    match ValidateFields(d.title, d.content)
    case Err(e) => Err(e)
    case Ok(_) => Ok(d)
  }

  function Fields(n: Note): NoteData {
    NoteData(n.id, n.userId, n.title, n.content, n.createdAt, n.updatedAt)
  }

  /** `Note::try_from`: stores the trimmed title and content and keeps every other field;
      a blank title is reported before a blank content. */
  function FromData(d: NoteData): (r: Result<Note>)
    ensures r.Ok? <==> !Blank(d.title) && !Blank(d.content)
    ensures r.Ok? ==> Fields(r.value) == d.(title := Trim(d.title), content := Trim(d.content))
    ensures r.Err? ==> r.error == ValidateFields(d.title, d.content).error
  {
    match ValidateTitle(d.title)
    case Err(e) => Err(e)
    case Ok(title) =>
      match ValidateContent(d.content)
      case Err(e) => Err(e)
      case Ok(content) => Ok(Note(d.id, d.userId, title, content, d.createdAt, d.updatedAt))
  }

  /** `set_title`: a valid title is stored trimmed and `updated_at` moves to `now`; an invalid
      one leaves the note exactly as it was. */
  function SetTitle(n: Note, title: string, now: Instant): (r: (Note, Result<Unit>))
    ensures r.1.Ok? <==> !Blank(title)
    ensures r.1.Ok? ==> r.0 == n.(title := Trim(title), updatedAt := now)
    ensures r.1.Err? ==> r.0 == n && r.1.error == BadRequest(BaseError(TitleEmpty, None))
    ensures IsTrimmed(n) ==> IsTrimmed(r.0)
  {
    match ValidateTitle(title)
    case Err(e) => (n, Err(e))
    case Ok(t) => (n.(title := t, updatedAt := now), Ok(Unit))
  }

  /** `set_content`: as `set_title`, for the content. */
  function SetContent(n: Note, content: string, now: Instant): (r: (Note, Result<Unit>))
    ensures r.1.Ok? <==> !Blank(content)
    ensures r.1.Ok? ==> r.0 == n.(content := Trim(content), updatedAt := now)
    ensures r.1.Err? ==> r.0 == n && r.1.error == BadRequest(BaseError(ContentEmpty, None))
    ensures IsTrimmed(n) ==> IsTrimmed(r.0)
  {
    match ValidateContent(content)
    case Err(e) => (n, Err(e))
    case Ok(c) => (n.(content := c, updatedAt := now), Ok(Unit))
  }

  /** A note as `FromData` leaves it: both fields non-empty with no white space at either end. */
  predicate IsTrimmed(n: Note) {
    |n.title| > 0 && Tidy(n.title) && |n.content| > 0 && Tidy(n.content)
  }

  /** A non-empty text with no white space at either end is accepted by validation as it is. */
  lemma TidyTextValidates(s: string, message: string)
    requires |s| > 0 && Tidy(s)
    ensures ValidateNonBlank(s, message) == Ok(s)
  {
    TrimFixesExactlyTidy(s);
    TrimEmptyIffBlank(s);
  }

  /** The notes `FromData` rebuilds unchanged from their own fields are exactly the trimmed ones. */
  lemma RebuildsIffTrimmed(n: Note)
    ensures FromData(Fields(n)) == Ok(n) <==> IsTrimmed(n)
  {
    if IsTrimmed(n) {
      TidyTextValidates(n.title, TitleEmpty);
      TidyTextValidates(n.content, ContentEmpty);
    }
  }

  /** A note built by `FromData` is rebuilt unchanged from its own fields. */
  lemma FromDataIsStable(d: NoteData)
    requires FromData(d).Ok?
    ensures IsTrimmed(FromData(d).value)
    ensures FromData(Fields(FromData(d).value)) == FromData(d)
  {
    RebuildsIffTrimmed(FromData(d).value);
  }
}
