/** The note handlers: each checks the token first and only then reads or
    changes the notes directory. The directory and the token file are the
    fields of one service object; the current time is passed in as `now`. */
module NoteService {
  import opened Results
  import opened FileNames
  import opened Tokens
  import opened NoteStore

  /** Body of the answer to GET /notes/{id}. */
  datatype NoteText = NoteText(id: int, text: string)

  /** Body of the answer to GET /notes/{id}/info. */
  datatype NoteInfo = NoteInfo(createdAt: string, updatedAt: string)

  const UpdatedMessage := "Note updated successfully"
  const DeletedMessage := "Note deleted successfully"

  class Service {
    /** The notes directory, one entry per `note_<id>.json`. */
    var notes: Directory
    /** The lines of `tokens.txt`, or None when the file does not exist. */
    var tokens: Option<seq<string>>

    ghost predicate Valid()
      reads this
    {
      WellFormed(notes)
    }

    /** A service over an existing notes directory (`os.makedirs(..., exist_ok=True)`
        keeps what is there; a new directory is the empty map). */
    constructor (directory: Directory, tokenFile: Option<seq<string>>)
      requires WellFormed(directory)
      ensures Valid()
      ensures notes == directory && tokens == tokenFile
    {
      notes := directory;
      tokens := tokenFile;
    }

    /** POST /notes/: store the text under id "entry count + 1" with both
        timestamps set to now, replacing any file of that name. */
    method CreateNote(token: string, text: string, now: string) returns (r: Result<int>)
      requires Valid()
      modifies this`notes
      ensures Valid()
      ensures VerifyToken(tokens, token).Fail? ==> r == Err(Unauthorized) && notes == old(notes)
      ensures VerifyToken(tokens, token).Pass? ==>
        && r == Ok(|old(notes)| + 1)
        && notes == ApplyCreate(old(notes), text, now)
        && Lookup(notes, r.value) == Ok(Note(text, now, now))
        && Ids(notes) == Ids(old(notes)) + {r.value}
    {
      var auth := VerifyToken(tokens, token);
      if auth.Fail? {
        return Err(auth.error);
      }
      var noteId := |notes| + 1;
      var createdAt := now;
      var noteData := Note(text, createdAt, createdAt);
      CreateThenRead(notes, text, now);
      CreateKeepsWellFormed(notes, text, now);
      notes := notes[FileName(noteId) := noteData];
      return Ok(noteId);
    }

    /** GET /notes/{id}: the stored text of the note, or NotFound. */
    function GetNoteText(token: string, noteId: int): (r: Result<NoteText>)
      requires Valid()
      reads this
      ensures r == Err(Unauthorized) <==> VerifyToken(tokens, token).Fail?
      ensures r == Err(NotFound) <==> VerifyToken(tokens, token).Pass? && noteId !in Ids(notes)
      ensures r.Ok? ==> r.value.id == noteId && r.value.text == notes[FileName(noteId)].text
    {
      match VerifyToken(tokens, token)
      case Fail(e) => Err(e)
      case Pass =>
        match Lookup(notes, noteId)
        case Err(e) => Err(e)
        case Ok(noteData) => Ok(NoteText(noteId, noteData.text))
    }

    /** GET /notes/{id}/info: the stored creation and update times, or NotFound. */
    function GetNoteInfo(token: string, noteId: int): (r: Result<NoteInfo>)
      requires Valid()
      reads this
      ensures r == Err(Unauthorized) <==> VerifyToken(tokens, token).Fail?
      ensures r == Err(NotFound) <==> VerifyToken(tokens, token).Pass? && noteId !in Ids(notes)
      ensures r.Ok? ==>
        && r.value.createdAt == notes[FileName(noteId)].createdAt
        && r.value.updatedAt == notes[FileName(noteId)].updatedAt
    {
      match VerifyToken(tokens, token)
      case Fail(e) => Err(e)
      case Pass =>
        match Lookup(notes, noteId)
        case Err(e) => Err(e)
        case Ok(noteData) => Ok(NoteInfo(noteData.createdAt, noteData.updatedAt))
    }

    /** PATCH /notes/{id}: read the record, replace its text, stamp its update
        time and write it back; NotFound leaves the directory as it was. */
    method UpdateNote(token: string, noteId: int, text: string, now: string) returns (r: Result<string>)
      requires Valid()
      modifies this`notes
      ensures Valid()
      ensures VerifyToken(tokens, token).Fail? ==> r == Err(Unauthorized) && notes == old(notes)
      ensures VerifyToken(tokens, token).Pass? && noteId !in Ids(old(notes)) ==>
        r == Err(NotFound) && notes == old(notes)
      ensures VerifyToken(tokens, token).Pass? && noteId in Ids(old(notes)) ==>
        && r == Ok(UpdatedMessage)
        && notes == ApplyUpdate(old(notes), noteId, text, now)
        && Lookup(notes, noteId)
             == Ok(Note(text, old(notes)[FileName(noteId)].createdAt, now))
        && Ids(notes) == Ids(old(notes))
    {
      var auth := VerifyToken(tokens, token);
      if auth.Fail? {
        return Err(auth.error);
      }
      var noteFile := FileName(noteId);
      if noteFile !in notes {
        return Err(NotFound);
      }
      var noteData := notes[noteFile];
      noteData := noteData.(text := text);
      noteData := noteData.(updatedAt := now);
      UpdateThenRead(notes, noteId, text, now);
      UpdateKeepsWellFormed(notes, noteId, text, now);
      notes := notes[noteFile := noteData];
      return Ok(UpdatedMessage);
    }

    /** DELETE /notes/{id}: remove the note's file; NotFound leaves the directory as it was. */
    method DeleteNote(token: string, noteId: int) returns (r: Result<string>)
      requires Valid()
      modifies this`notes
      ensures Valid()
      ensures VerifyToken(tokens, token).Fail? ==> r == Err(Unauthorized) && notes == old(notes)
      ensures VerifyToken(tokens, token).Pass? && noteId !in Ids(old(notes)) ==>
        r == Err(NotFound) && notes == old(notes)
      ensures VerifyToken(tokens, token).Pass? && noteId in Ids(old(notes)) ==>
        && r == Ok(DeletedMessage)
        && notes == ApplyDelete(old(notes), noteId)
        && Lookup(notes, noteId) == Err(NotFound)
        && Ids(notes) == Ids(old(notes)) - {noteId}
    {
      var auth := VerifyToken(tokens, token);
      if auth.Fail? {
        return Err(auth.error);
      }
      var noteFile := FileName(noteId);
      if noteFile !in notes {
        return Err(NotFound);
      }
      DeleteThenRead(notes, noteId);
      DeleteKeepsWellFormed(notes, noteId);
      notes := notes - {noteFile};
      return Ok(DeletedMessage);
    }

    /** GET /notes/: the ids read back out of the directory's file names,
        which are exactly the ids whose notes can be read. */
    function ListNotes(token: string): (r: Result<set<int>>)
      requires Valid()
      reads this
      ensures r.Err? <==> VerifyToken(tokens, token).Fail?
      ensures r.Err? ==> r.error == Unauthorized
      ensures r.Ok? ==> forall id :: id in r.value <==> Lookup(notes, id).Ok?
    {
      match VerifyToken(tokens, token)
      case Fail(e) => Err(e)
      case Pass => Ok(Ids(notes))
    }
  }

  /** A typical session: create "hello" (id 1), read it, update it to
      "bye", read again, delete it, and read NotFound. */
  method ExampleSession(token: string, t1: string, t2: string)
  {
    var service := new Service(map[], Some([token]));
    assert VerifyToken(service.tokens, token) == Pass by {
      assert [token][0] == token;
    }
    var created := service.CreateNote(token, "hello", t1);
    assert created == Ok(1);
    assert service.GetNoteText(token, 1) == Ok(NoteText(1, "hello"));
    var updated := service.UpdateNote(token, 1, "bye", t2);
    assert service.GetNoteText(token, 1) == Ok(NoteText(1, "bye"));
    assert service.GetNoteInfo(token, 1) == Ok(NoteInfo(t1, t2));
    ghost var listed := Ids(service.notes);
    assert listed == {1};
    var deleted := service.DeleteNote(token, 1);
    assert deleted == Ok(DeletedMessage);
    assert service.GetNoteText(token, 1) == Err(NotFound);
    assert Ids(service.notes) == listed - {1} == {};
    assert service.ListNotes(token) == Ok({});
  }

  /** A token that is not a line of the token file is refused by every
      handler, and the directory keeps its note. */
  method RefusedTokenSession(token: string, now: string)
  {
    var service := new Service(map[], Some([token]));
    assert VerifyToken(service.tokens, token) == Pass by {
      assert [token][0] == token;
    }
    var created := service.CreateNote(token, "hello", now);
    var intruder := token + "!";
    assert intruder != token by {
      assert |intruder| != |token|;
    }
    assert VerifyToken(service.tokens, intruder) == Fail(Unauthorized);
    var before := service.notes;
    var spam := service.CreateNote(intruder, "spam", now);
    var overwrite := service.UpdateNote(intruder, 1, "spam", now);
    var removal := service.DeleteNote(intruder, 1);
    assert spam == Err(Unauthorized) && overwrite == Err(Unauthorized) && removal == Err(Unauthorized);
    assert service.notes == before;
    assert service.GetNoteText(intruder, 1) == Err(Unauthorized);
    assert service.ListNotes(intruder) == Err(Unauthorized);
    assert service.GetNoteText(token, 1) == Ok(NoteText(1, "hello"));
  }
}
