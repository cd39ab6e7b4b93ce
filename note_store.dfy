/** The notes directory as a value: a table from file name to the record
    stored in that file, and what each handler of the note service does to it. */
module NoteStore {
  import opened Results
  import opened FileNames

  /** The JSON object stored in `note_<id>.json`. Timestamps are ISO-8601
      strings produced outside the model. */
  datatype Note = Note(text: string, createdAt: string, updatedAt: string)

  /** The notes directory: file name to file contents. */
  type Directory = map<string, Note>

  /** A name the service itself writes: it parses back to a positive id
      that formats to the same name. */
  predicate IsNoteFileName(name: string) {
    var id := ParseId(name);
    id.Some? && id.value >= 1 && FileName(id.value) == name
  }

  /** The directory holds note files only. */
  predicate WellFormed(dir: Directory) {
    forall name :: name in dir ==> IsNoteFileName(name)
  }

  lemma AllFileNamesParse()
    ensures forall id :: ParseId(FileName(id)) == Some(id)
  {
    forall id ensures ParseId(FileName(id)) == Some(id) {
      ParseIdOfFileName(id);
    }
  }

  lemma AllFileNamesDistinct()
    ensures forall i, j :: FileName(i) == FileName(j) ==> i == j
  {
    forall i, j ensures FileName(i) == FileName(j) ==> i == j {
      FileNameInjective(i, j);
    }
  }

  /** `os.path.exists` then `json.load` on the file of note `id`: the only
      failure is NotFound, and on a directory of note files a lookup succeeds
      exactly for the listed ids. */
  function Lookup(dir: Directory, id: int): (r: Result<Note>)
    ensures r.Err? ==> r.error == NotFound
    ensures r.Ok? ==> r.value in dir.Values
    ensures WellFormed(dir) ==> (r.Ok? <==> id in Ids(dir))
  {
    var name := FileName(id);
    if name in dir then Ok(dir[name]) else Err(NotFound)
  }

  /** The id `create_note` assigns: the number of directory entries plus one,
      which on a directory of note files is the number of listed ids plus one. */
  function NewId(dir: Directory): (id: int)
    ensures id >= 1
    ensures WellFormed(dir) ==> id == |Ids(dir)| + 1
  {
    IdsCount(dir);
    |dir| + 1
  }

  /** `create_note`: write a fresh record under the new id, replacing any
      file of that name. This function is the specification of Service.CreateNote;
      the directory grows by one entry only when the new id's file is not there yet. */
  function ApplyCreate(dir: Directory, text: string, now: string): (r: Directory)
    ensures r.Keys == dir.Keys + {FileName(NewId(dir))}
    ensures |r| == if FileName(NewId(dir)) in dir then |dir| else |dir| + 1
  {
    dir[FileName(NewId(dir)) := Note(text, now, now)]
  }

  /** `update_note`: read the record, set its text and its update time, write
      it back. This function is the specification of Service.UpdateNote; no
      file is added or removed, and no other file changes. */
  function ApplyUpdate(dir: Directory, id: int, text: string, now: string): (r: Directory)
    ensures r.Keys == dir.Keys
    ensures forall name :: name in dir && name != FileName(id) ==> r[name] == dir[name]
  {
    var name := FileName(id);
    if name !in dir then dir
    else dir[name := dir[name].(text := text).(updatedAt := now)]
  }

  /** `delete_note`: remove the file of note `id`. This function is the
      specification of Service.DeleteNote; the directory loses one entry
      exactly when the note existed. */
  function ApplyDelete(dir: Directory, id: int): (r: Directory)
    ensures r.Keys == dir.Keys - {FileName(id)}
    ensures |r| == if FileName(id) in dir then |dir| - 1 else |dir|
  {
    dir - {FileName(id)}
  }

  /** `list_notes`: the id read back out of every directory entry. */
  function Ids(dir: Directory): (ids: set<int>)
    requires WellFormed(dir)
    ensures forall id :: id in ids <==> FileName(id) in dir
    ensures forall id :: id in ids ==> id >= 1
  {
    AllFileNamesParse();
    set name | name in dir :: ParseId(name).value
  }

  /** The listing has one id per directory entry: no id is listed twice. */
  lemma IdsCount(dir: Directory)
    ensures WellFormed(dir) ==> |Ids(dir)| == |dir|
  {
    if WellFormed(dir) {
      IdsCountOfNoteFiles(dir);
    }
  }

  lemma {:induction false} IdsCountOfNoteFiles(dir: Directory)
    requires WellFormed(dir)
    ensures |Ids(dir)| == |dir|
    decreases |dir|
  {
    if |dir| == 0 {
      assert Ids(dir) == {};
    } else {
      var name :| name in dir;
      var id := ParseId(name).value;
      DeleteOneNoteFile(dir, id);
      IdsCountOfNoteFiles(ApplyDelete(dir, id));
    }
  }

  /** Deleting a stored note takes one entry out of the directory and one id out of the listing. */
  lemma DeleteOneNoteFile(dir: Directory, id: int)
    requires WellFormed(dir)
    requires FileName(id) in dir
    ensures WellFormed(ApplyDelete(dir, id))
    ensures |ApplyDelete(dir, id)| == |dir| - 1
    ensures |Ids(ApplyDelete(dir, id))| == |Ids(dir)| - 1
  {
    DeleteKeepsWellFormed(dir, id);
    assert id in Ids(dir);
  }

  /** Reading the note just created gives the created text, with both
      timestamps equal to the creation time; no other id reads differently. */
  lemma CreateThenRead(dir: Directory, text: string, now: string)
    ensures Lookup(ApplyCreate(dir, text, now), NewId(dir)) == Ok(Note(text, now, now))
    ensures forall id :: id != NewId(dir) ==>
      Lookup(ApplyCreate(dir, text, now), id) == Lookup(dir, id)
  {
    AllFileNamesDistinct();
  }

  /** Creating keeps the directory to note files and adds the new id to the listing. */
  lemma CreateKeepsWellFormed(dir: Directory, text: string, now: string)
    requires WellFormed(dir)
    ensures WellFormed(ApplyCreate(dir, text, now))
    ensures Ids(ApplyCreate(dir, text, now)) == Ids(dir) + {NewId(dir)}
  {
    NewIdIsNoteFileName(dir);
    ListingGainsId(dir, ApplyCreate(dir, text, now), NewId(dir));
  }

  lemma NewIdIsNoteFileName(dir: Directory)
    ensures IsNoteFileName(FileName(NewId(dir)))
  {
    ParseIdOfFileName(NewId(dir));
  }

  /** Adding the file of note `id` adds `id` to the listing. */
  lemma ListingGainsId(dir: Directory, grown: Directory, id: int)
    requires WellFormed(dir) && WellFormed(grown)
    requires grown.Keys == dir.Keys + {FileName(id)}
    ensures Ids(grown) == Ids(dir) + {id}
  {
    assert forall other :: other in Ids(grown) <==> other in Ids(dir) + {id} by {
      AllFileNamesDistinct();
    }
  }

  /** Updating an absent note changes nothing; updating a present one sets
      its text and update time, keeps its creation time and leaves every other id alone. */
  lemma UpdateThenRead(dir: Directory, id: int, text: string, now: string)
    ensures Lookup(dir, id).Err? ==> ApplyUpdate(dir, id, text, now) == dir
    ensures Lookup(dir, id).Ok? ==>
      Lookup(ApplyUpdate(dir, id, text, now), id)
        == Ok(Note(text, Lookup(dir, id).value.createdAt, now))
    ensures forall other :: other != id ==>
      Lookup(ApplyUpdate(dir, id, text, now), other) == Lookup(dir, other)
  {
    AllFileNamesDistinct();
  }

  /** Updating keeps the directory to note files and keeps the listing. */
  lemma UpdateKeepsWellFormed(dir: Directory, id: int, text: string, now: string)
    requires WellFormed(dir)
    ensures WellFormed(ApplyUpdate(dir, id, text, now))
    ensures Ids(ApplyUpdate(dir, id, text, now)) == Ids(dir)
  {
    var updated := ApplyUpdate(dir, id, text, now);
    assert updated.Keys == dir.Keys;
  }

  /** After a delete the note reads as NotFound; every other id reads as before. */
  lemma DeleteThenRead(dir: Directory, id: int)
    ensures Lookup(ApplyDelete(dir, id), id) == Err(NotFound)
    ensures forall other :: other != id ==>
      Lookup(ApplyDelete(dir, id), other) == Lookup(dir, other)
  {
    AllFileNamesDistinct();
  }

  /** Deleting keeps the directory to note files and drops exactly that id from the listing. */
  lemma DeleteKeepsWellFormed(dir: Directory, id: int)
    requires WellFormed(dir)
    ensures WellFormed(ApplyDelete(dir, id))
    ensures Ids(ApplyDelete(dir, id)) == Ids(dir) - {id}
  {
    AllFileNamesDistinct();
  }

  // ---------------------------------------------------------------------
  // count-based ids
  // ---------------------------------------------------------------------

  /** The names of notes 1 to n: from an empty directory, the directory after n creates and no delete. */
  function FileNamesUpTo(n: nat): (names: set<string>)
    ensures |names| == n
    ensures forall id :: FileName(id) in names <==> 1 <= id <= n
    decreases n
  {
    if n == 0 then {}
    else
      AllFileNamesDistinct();
      FileNamesUpTo(n - 1) + {FileName(n)}
  }

  /** While the directory holds exactly notes 1 to n, create never overwrites:
      the new id is free and the directory holds notes 1 to n + 1 afterwards. */
  lemma CreateWithoutDeleteIsFresh(dir: Directory, n: nat, text: string, now: string)
    requires dir.Keys == FileNamesUpTo(n)
    ensures NewId(dir) == n + 1
    ensures Lookup(dir, n + 1) == Err(NotFound)
    ensures ApplyCreate(dir, text, now).Keys == FileNamesUpTo(n + 1)
  {
    assert |dir| == |dir.Keys|;
    ParseIdOfFileName(n + 1);
  }

  /** Deleting note k from notes 1 to n leaves n - 1 entries, note n among them. */
  lemma DeleteFromDense(dir: Directory, n: nat, k: int)
    requires dir.Keys == FileNamesUpTo(n)
    requires 1 <= k < n
    ensures |ApplyDelete(dir, k)| == n - 1
    ensures FileName(n) in ApplyDelete(dir, k)
    ensures FileName(n) in dir && ApplyDelete(dir, k)[FileName(n)] == dir[FileName(n)]
  {
    var kName := FileName(k);
    assert kName in dir.Keys;
    FileNameInjective(k, n);
    assert ApplyDelete(dir, k).Keys == dir.Keys - {kName};
  }

  /** The flaw of count-based ids: with notes 1 to n stored, deleting a note
      k < n and then creating assigns id n, which is still live; the create
      replaces note n, and the directory ends with n - 1 notes instead of n. */
  lemma DeleteThenCreateOverwrites(dir: Directory, n: nat, k: int, text: string, now: string)
    requires dir.Keys == FileNamesUpTo(n)
    requires 1 <= k < n
    ensures var afterDelete := ApplyDelete(dir, k);
      && NewId(afterDelete) == n
      && Lookup(dir, n).Ok?
      && Lookup(afterDelete, n) == Lookup(dir, n)
      && Lookup(ApplyCreate(afterDelete, text, now), n) == Ok(Note(text, now, now))
      && |ApplyCreate(afterDelete, text, now)| == n - 1
  {
    DeleteFromDense(dir, n, k);
    var afterDelete := ApplyDelete(dir, k);
    assert ApplyCreate(afterDelete, text, now).Keys == afterDelete.Keys;
  }

  /** Notes 1, 2 and 3 are created; note 2 is deleted; the next create gets
      id 3 and replaces note 3, leaving two notes where four were created. */
  lemma CollisionExample()
    ensures var three := ApplyCreate(ApplyCreate(ApplyCreate(map[], "first", "t1"), "second", "t2"), "third", "t3");
      var afterDelete := ApplyDelete(three, 2);
      var afterCreate := ApplyCreate(afterDelete, "fourth", "t4");
      && Lookup(three, 3) == Ok(Note("third", "t3", "t3"))
      && NewId(afterDelete) == 3
      && Lookup(afterCreate, 1) == Ok(Note("first", "t1", "t1"))
      && Lookup(afterCreate, 2) == Err(NotFound)
      && Lookup(afterCreate, 3) == Ok(Note("fourth", "t4", "t4"))
      && |afterCreate| == 2
  {
    var empty: Directory := map[];
    assert empty.Keys == FileNamesUpTo(0);
    CreateWithoutDeleteIsFresh(empty, 0, "first", "t1");
    var one := ApplyCreate(empty, "first", "t1");
    CreateThenRead(empty, "first", "t1");
    CreateWithoutDeleteIsFresh(one, 1, "second", "t2");
    var two := ApplyCreate(one, "second", "t2");
    CreateThenRead(one, "second", "t2");
    CreateWithoutDeleteIsFresh(two, 2, "third", "t3");
    var three := ApplyCreate(two, "third", "t3");
    CreateThenRead(two, "third", "t3");
    DeleteThenCreateOverwrites(three, 3, 2, "fourth", "t4");
    var afterDelete := ApplyDelete(three, 2);
    DeleteThenRead(three, 2);
    CreateThenRead(afterDelete, "fourth", "t4");
  }
}
