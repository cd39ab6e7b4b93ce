# Token-gated note store

A Dafny model of the note service in `w.py`. The service keeps one JSON file per
note, named `note_<id>.json`, in a notes directory. Each file holds the record
`{text, created_at, updated_at}`. Every handler first checks a bearer token
against the lines of `tokens.txt`. After that check:

- create assigns the id "number of directory entries + 1";
- read, info, update and delete look the note up by its file name;
- list reads the ids back out of the file names.

The model has five modules:

- `Results`: `Option`, and the two failures a handler can answer with.
  `Unauthorized` stands for HTTP 401 and `NotFound` for HTTP 404.
- `FileNames`: how names are formatted (`f"note_{id}.json"`, with Python's
  `str(int)`). Also how `list_notes` parses them back
  (`int(name.split("_")[1].split(".")[0])`). `Split` models Python's
  `str.split`, `ParseInt` models `int()`, and `None` stands for the
  exceptions. The lemmas prove the format/parse round trip, so different ids
  get different file names.
- `Tokens`: `verify_token`. A missing token file is `None`; an existing file
  is the sequence of its lines.
- `NoteStore`: the directory as a value, a `map` from file name to `Note`,
  and the effect of each handler on it (`Lookup`, `ApplyCreate`,
  `ApplyUpdate`, `ApplyDelete`, `Ids`). Its lemmas cover:
  - create/read, update/read and delete/read;
  - that every operation leaves the other notes alone;
  - what each operation does to the listing;
  - the flaw of count-based ids.
- `NoteService`: a class `Service` with two fields. The notes directory
  (`notes`) is reassigned by the create, update and delete methods. The token
  file (`tokens`) is never written. The read-only handlers (text, info, list)
  are functions that read the object. Every handler answers `Unauthorized`
  and leaves `notes` untouched when the token check fails. The methods
  follow the handlers step by step. The `ApplyCreate`, `ApplyUpdate` and
  `ApplyDelete` functions of `NoteStore` are their specifications.
  `ExampleSession` walks through a typical session: create "hello" as id 1,
  read it, update it to "bye", read again, delete it, and read NotFound.
  `RefusedTokenSession` shows that a refused token changes nothing.

`Service.Valid()` (that is, `NoteStore.WellFormed`) says that every
directory entry is the name of a note file with a positive id. The service
writes only such names. The source silently assumes this. For other entries:

- an entry with no `_`, or whose piece is not an integer, makes `list_notes` raise;
- an entry such as `a_1.txt` or `note_007.json` is listed under an id whose
  file may not exist. `note_007.json` is listed as 7, but a read of 7 looks
  for `note_7.json`;
- both kinds inflate the count that `create_note` uses for the new id.

The current time (`datetime.datetime.now().isoformat()`) is the parameter
`now`, an opaque string.

Id collisions: the model proves that count-based ids are not collision-free.
Suppose the directory holds notes 1..n and a note k < n is deleted. The next
create then gets id n, which is still live. That create replaces note n, and
the directory ends with n - 1 notes (`NoteStore.DeleteThenCreateOverwrites`;
the concrete case of notes 1, 2, 3 with note 2 deleted is
`NoteStore.CollisionExample`). While the directory holds exactly notes 1..n,
create never overwrites (`NoteStore.CreateWithoutDeleteIsFresh`). This is
the state after creates and updates alone, starting from an empty directory:
a create adds note n + 1, and an update keeps the file names
(`NoteStore.ApplyUpdate`). A service started on any other directory of note
files can collide without a delete. For example, starting from `note_5.json`
alone, the fourth create gets id 5. This is modelled
as the code behaves. Nothing in the code says which id policy was intended, so
no corrected allocator is proposed.

Details the model takes from the code:

- ids are integers in the read, update and delete handlers. A zero or
  negative id reaches the lookup and answers NotFound;
- the new id counts directory entries, not notes;
- the listing is built from the file names, not from stored records.

## Model

| member | source | states |
|---|---|---|
| `Tokens.ContainsLine` | w.py:41 | true exactly when some line of the token file equals the token |
| `Tokens.VerifyToken` | w.py:36-42 | Unauthorized when the token file is absent; when it exists, passes if and only if the token equals one whole line, otherwise Unauthorized |
| `FileNames.Split` | w.py:107 | `str.split` yields at least one piece and no piece contains the separator |
| `FileNames.JoinSplit` | w.py:107 | joining the pieces of a split with the separator gives back the original string |
| `FileNames.SplitWithoutSeparator` | w.py:107 | a string without the separator splits into itself alone |
| `FileNames.SplitAtFirst` | w.py:107 | the first piece of a split is everything before the first separator |
| `FileNames.DecimalDigits` | w.py:54 | the decimal form of a natural number is a non-empty string of digits, starting with 0 only for zero, with no leading zero |
| `FileNames.FormatInt` | w.py:54 | `str(i)` is digits with a leading minus sign exactly for negative i, and has no leading zero |
| `FileNames.ParseInt` | w.py:107 | `int()` succeeds exactly on a non-empty digit string, or on `-` or `+` followed by a non-empty digit string, and raises (None) on anything else; a leading minus gives a value <= 0, otherwise >= 0 |
| `FileNames.FileName` | w.py:54 | the name of note id is ten characters longer than the formatted id; its `note_<id>.json` layout is what `IdPieceOfFileName` and `ParseIdOfFileName` prove about it, not part of this contract |
| `FileNames.ParseId` | w.py:107 | the expression at w.py:107 fails with None (Python raises) on a name with no `_` |
| `FileNames.DigitsValueOfDecimal` | w.py:107 | reading the decimal digits of n gives n |
| `FileNames.FormatThenParse` | w.py:107 | `int(str(i)) == i` for every integer, negative ones included |
| `FileNames.IdPieceOfFileName` | w.py:107 | on `note_<id>.json`, the piece handed to `int()` is exactly the formatted id |
| `FileNames.ParseIdOfFileName` | w.py:107 | the id parsed out of `note_<id>.json` is `id` |
| `FileNames.FileNameInjective` | w.py:54 | two ids share a file name only if they are equal |
| `NoteStore.Lookup` | w.py:61-65 | the only failure is NotFound; a found record is one stored in the directory; on a directory of note files a lookup succeeds exactly for the listed ids |
| `NoteStore.NewId` | w.py:47 | the new id is positive, and on a directory of note files it is the number of listed ids plus one |
| `NoteStore.ApplyCreate` | w.py:47-55 | the file names become the old ones plus the new id's name; the directory grows by one entry unless that name already existed |
| `NoteStore.ApplyUpdate` | w.py:84-92 | no file is added or removed, and every file other than the note's is unchanged |
| `NoteStore.ApplyDelete` | w.py:98-101 | exactly the note's file is removed; the directory shrinks by one entry exactly when the note existed |
| `NoteStore.Ids` | w.py:107 | the listed ids are exactly those whose file is in the directory, and all are positive |
| `NoteStore.IdsCount` | w.py:107 | on a directory of note files the listing has exactly one id per entry, so no id is listed twice |
| `NoteStore.ListingGainsId` | w.py:107 | adding the file of note id to a directory of note files adds id to the listing and nothing else |
| `NoteStore.CreateThenRead` | w.py:47-55 | reading the new id gives the created text with created_at == updated_at == now; every other id reads as before |
| `NoteStore.CreateKeepsWellFormed` | w.py:47-55 | after a create the directory holds only note files and the listing gains exactly the new id |
| `NoteStore.UpdateThenRead` | w.py:84-92 | an absent id leaves the directory unchanged; otherwise the note reads with the new text, the old created_at and updated_at == now, and every other id reads as before |
| `NoteStore.UpdateKeepsWellFormed` | w.py:89-92 | an update keeps the directory to note files and leaves the listing unchanged |
| `NoteStore.DeleteThenRead` | w.py:98-101 | after a delete the id reads NotFound and every other id reads as before |
| `NoteStore.DeleteKeepsWellFormed` | w.py:98-101 | a delete keeps the directory to note files and removes exactly that id from the listing |
| `NoteStore.FileNamesUpTo` | w.py:47 | the names of notes 1..n are n distinct names, holding `FileName(id)` exactly for 1 <= id <= n |
| `NoteStore.CreateWithoutDeleteIsFresh` | w.py:47-55 | while the directory holds exactly notes 1..n, the new id is n + 1, no such note exists, and afterwards the directory holds notes 1..n + 1 |
| `NoteStore.DeleteFromDense` | w.py:98-101 | deleting note k < n from notes 1..n leaves n - 1 entries with note n unchanged among them |
| `NoteStore.DeleteThenCreateOverwrites` | w.py:47-55 | after notes 1..n and the deletion of note k < n, the new id is n, note n is live, the create replaces it, and n - 1 notes remain |
| `NoteStore.CollisionExample` | w.py:47-55 | notes 1, 2, 3 created, note 2 deleted: the next create gets id 3, overwrites note 3, and leaves two notes (1 and 3), with note 2 reading NotFound |
| `NoteService.Service.constructor` | w.py:29-33 | the service starts on a directory of note files, with the given token file |
| `NoteService.Service.CreateNote` | w.py:45-56 | a refused token gives Unauthorized and no change; otherwise the answer is id == entry count + 1, the directory becomes the old one with that file (re)written as {text, now, now}, and the listing gains the id |
| `NoteService.Service.GetNoteText` | w.py:59-66 | Unauthorized exactly when the token is refused; NotFound exactly when the token passes and the id is not listed; otherwise the requested id and the stored text |
| `NoteService.Service.GetNoteInfo` | w.py:69-79 | Unauthorized exactly when the token is refused; NotFound exactly when the token passes and the id is not listed; otherwise the stored created_at and updated_at |
| `NoteService.Service.UpdateNote` | w.py:82-93 | a refused token gives Unauthorized and no change; an unlisted id gives NotFound and no change; otherwise only that note changes, to the new text and updated_at == now with its created_at kept, and the listing is unchanged |
| `NoteService.Service.DeleteNote` | w.py:96-102 | a refused token gives Unauthorized and no change; an unlisted id gives NotFound and no change; otherwise exactly that file is removed, the id reads NotFound and leaves the listing |
| `NoteService.Service.ListNotes` | w.py:105-108 | Unauthorized exactly when the token is refused; otherwise exactly the ids whose note can be read |

## Left out

- main.py: its two handlers return fixed payloads and the rest starts the server. It has no logic to model.
- FastAPI routing, `Depends` injection, pydantic response models and status codes: `Unauthorized` and `NotFound` stand for the 401 and 404 answers. The detail strings "Unauthorized" and "Note not found" are not modelled. Neither is FastAPI's conversion of the path parameter to `int`: handlers take an `int`.
- Filesystem and JSON I/O (`os.listdir`, `open`, `json.load`, `json.dump`, `os.remove`, `os.makedirs`): the directory is an in-memory map, and a stored record reads back exactly as written.
- Tokens.VerifyToken: takes the lines of `tokens.txt` directly. The line splitting done by `str.splitlines` is not modelled.
- NoteService.Service.ListNotes: returns the set of ids, not a list in `os.listdir` order. Under `WellFormed` the set has one id per entry (`NoteStore.IdsCount`), so no id can appear twice in that list.
- FileNames.ParseInt: accepts an optional sign followed by ASCII digits. Python's `int()` also accepts surrounding whitespace and non-ASCII digits. The service never writes a name that contains either.
- Directory entries that are not note files: `Service.Valid()` excludes them. In the source, an entry that cannot be split or parsed makes `list_notes` raise. Any other such entry is listed under an id that may not be readable. Both kinds inflate the id count in `create_note`.
- The clock: `now` is a parameter.
- Concurrent requests racing on id assignment or on one note, and partial writes after a crash: these depend on concurrency and the operating system, which this sequential model does not cover.
