# Notes manager: the note store, modelled in Dafny

The repository is a small personal notes manager. It has two server-side
copies of the same create / list / edit / delete flow:

- `db.js` is the file-backed store behind the JSON API. It keeps a
  module-level list `notesList` and a counter `maxId`. It loads the list
  once from `notes.json` and rewrites the whole file after every successful
  mutation. New ids come from `++maxId`, so within one run of the process
  an id is never handed out twice (as long as ids stay below 2^53, see
  "## Left out"). After a restart `maxId` is recomputed from the file, so a
  deleted top id can come back.
- `server.js` is the form-based server. It keeps a global `notes` list.
  Its index page filters the list by section and by a case-insensitive
  search. Its POST handler creates (`max(ids) + 1`, or 1 on an empty list),
  edits (`PUT`) or deletes (`DELETE`) a note found by id.

The model has four modules:

- `Wrappers` (wrappers.dfy): `Option`.
- `Notes` (notes.dfy): the shared `Note` record, the first-match lookup
  `FindIndex` (`findIndex`), and `RemoveAt` (`splice(i, 1)`), with the
  predicates `HasId` and `DistinctIds`. One record type serves both
  files. server.js's `section` field is the record's `tag` field.
- `Db` (db.dfy): the class `NoteStore` with fields `notesList` and `maxId`.
  It also has a ghost snapshot `disk` of the file and a ghost set `issued`
  of every id ever held. The load-time `getMaxId` loop is the method `GetMaxId`.
- `Server` (server.dfy): the seed list, the filter as pure functions, the
  edit-page lookup, and the next-id rule. The class `FormServer` holds the
  global `notes` list and a ghost snapshot `file`. Its methods are the
  POST handler's create / update / delete branches.

I/O is abstracted. A loaded file is an `Option<seq<Note>>` parameter,
where `None` means no (readable) file. A save assigns the ghost snapshot.
How db.js's write ends is a ghost parameter of type `WriteOutcome`. The
write either completes, or fails before the file is opened (the file is
untouched), or fails after opening has emptied the file (no readable list). The current
date, the id parsed from the URL, and the decoded form fields are plain
parameters.

Points where the model deliberately follows what the code does:

- db.js does not roll back the in-memory change when the file write fails.
  It logs the error and carries on, so after a failed write memory and disk
  differ. `CreateNote`, `UpdateNote` and `DeleteNote` state this.
- `getMaxId` starts from 0. It returns the largest id only when some id is
  positive. Otherwise it returns 0, which need not be an id of the list.
- server.js does not keep ids from being reused even within one run. Its
  next id is recomputed from the current list on every create, so deleting
  the newest note and creating again hands out the same id
  (`DeleteNewestReusesId`, `ReusedIdScenario`). db.js reuses ids only
  across a restart: its counter is computed from the file once, at load,
  so a top id deleted before the restart is handed out again after it
  (`RestartReusesIdScenario`).
- server.js starts from one seed note when the file is absent. db.js
  starts from an empty list.

## Model

| member | source | states |
|---|---|---|
| `Notes.FindIndex` | db.js:65 | the result is -1 exactly when no note has the id; otherwise it is the index of a note with that id and no earlier note has it |
| `Notes.RemoveAt` | db.js:85 | splicing one element shortens the list by one, keeps the elements before the index and shifts those after it down by one |
| `Notes.RemoveAtMultiset` | db.js:85 | splicing removes exactly one copy of the removed note and keeps every other note |
| `Db.StoredContent` | db.js:58 | an absent content is stored as ""; a given one is stored as given |
| `Db.GetMaxId` | db.js:36-44 | the result is at least 0 and at least every id; it is 0 or the id of some note |
| `Db.NoteStore.Load` | db.js:12-22 | a missing or unreadable file gives the empty list, otherwise the parsed list; the counter starts at getMaxId of that list; `issued` is the set of loaded ids |
| `Db.NoteStore.SaveNotesToFile` | db.js:25-31 | a completed write makes the file hold the list; a write that fails before the file is opened leaves it as it was; one that fails after the 'w' open has emptied it leaves no readable list; the failure is swallowed |
| `Db.NoteStore.AllNotes` | db.js:48-50 | returns the current list and changes nothing |
| `Db.NoteStore.CreateNote` | db.js:52-62 | the counter goes up by one; exactly one note is appended with the new counter value as its id, the dto's fields and content defaulting to ""; that id was never held before and is above every present id; distinct ids stay distinct; the file holds the new list when the write completes, is unchanged when the open fails and holds no readable list when the write fails midway; memory changes in every case |
| `Db.NoteStore.UpdateNote` | db.js:64-78 | returns true iff some note has `dto.id`; if none has it, list, counter and file are unchanged; otherwise the first such note is overwritten by the whole dto (content defaulting to "") and every other position is unchanged; length, ids and counter are unchanged |
| `Db.NoteStore.DeleteNote` | db.js:80-88 | returns true iff some note has the id; if none has it, nothing changes; otherwise exactly the first such note is spliced out, the others keep their order, the length drops by one and the counter is unchanged; with distinct ids the id is then gone |
| `Db.EmptyStoreScenario` | db.js:52-88 | from an empty store: create, create, update note 1, delete note 2 leaves exactly one note, id 1, with the updated title |
| `Db.RestartReusesIdScenario` | db.js:34-88 | a store holding note 1 creates id 2 and deletes it; a store loaded again from the saved file hands out id 2 again on its next create |
| `Server.LoadNotes` | server.js:11-17 | an existing file gives its parsed list; with no file the list is one note with id 1 and empty content |
| `Server.LowerChar` | server.js:49 | `toLowerCase` on one character leaves no upper-case letter, keeps every character that is not one, and changes every one that is |
| `Server.Lower` | server.js:49 | `toLowerCase` keeps the length, leaves no upper-case letter and keeps every other character in place |
| `Server.Contains` | server.js:49 | `includes`, as a left-to-right search, is true exactly when the search string occurs at some position |
| `Server.Matches` | server.js:48-50 | with an empty search only the tag test decides; with the tag 'Все' only the search test decides; a note whose section differs from a non-empty, non-'Все' tag is never selected |
| `Server.SearchIsCaseInsensitive` | server.js:49 | a search and its lower-cased form select the same notes |
| `Server.TitlePieceMatches` | server.js:47-50 | any piece of a note's title, used as the search, selects that note when its section passes the tag test |
| `Server.Filter` | server.js:47-51 | every note kept satisfies the tag and search test, and every note of the input that satisfies it is kept |
| `Server.FilterIsSubsequence` | server.js:47-51 | the filtered list is an order-preserving subsequence of the input |
| `Server.FilterCounts` | server.js:47-51 | each note occurs in the result as often as in the input when it matches, and not at all otherwise |
| `Server.FilterAllTagsKeepsAll` | server.js:47-51 | with an empty search and the tag 'Все' (or an empty tag) the filter returns the whole list |
| `Server.QueryOr` | server.js:57-58 | a missing or empty query parameter takes its default; a non-empty one is used as given |
| `Server.IndexNotes` | server.js:56-59 | the index page with no tag and no search shows every note; it shows exactly the notes that match the defaulted query: every shown note matches, and every matching note is shown |
| `Server.FindNote` | server.js:182 | the edit page finds the first note with the id, or nothing when no note has it |
| `Server.MaxId` | server.js:204 | `Math.max` over the ids is an id of the list and at least every id |
| `Server.NextId` | server.js:204 | the new id is 1 on an empty list; it is above every present id; on a non-empty list it is one more than a present id |
| `Server.CreatedNote` | server.js:203-209 | the created note's id is above every id in the list, so no note has it yet; title, content and section come from the form and the date is today's |
| `Server.Edited` | server.js:220 | the edited note keeps its id and date and takes title, content and section from the form |
| `Server.DeleteNewestReusesId` | server.js:203-226 | deleting the note just created restores the list, and the next create hands out the deleted id again |
| `Server.FormServer.Start` | server.js:25 | the server's list is `loadNotes()` and the file is untouched |
| `Server.FormServer.SaveNotes` | server.js:20-22 | after a save the file holds the whole list |
| `Server.FormServer.CreateFromForm` | server.js:201-213 | exactly one note is appended with id NextId of the old list, the form's fields and today's date; it is above every earlier id; distinct ids stay distinct; the file holds the new list |
| `Server.FormServer.PostToNote` | server.js:214-237 | 404 iff no note has the id; 400 iff a note has it and `_method` is neither PUT nor DELETE; 404 and 400 change and save nothing; PUT overwrites title, content and section of the first match only; DELETE splices out the first match only; both save; distinct ids stay distinct |
| `Server.ReusedIdScenario` | server.js:203-226 | create, create, delete id 2, create: the list's ids are 1 and 2, so id 2 was handed out twice |

## Left out

- HTML output: `renderNote`, `renderIndex`'s template filling, `renderCreateForm`, `renderEditForm` (string output with no stated behaviour). `IndexNotes` models only which notes the index page passes to the renderer.
- HTTP plumbing: request routing, URL and body parsing, status codes and headers, static CSS serving, `server.listen`. The URL's id is an `int` parameter. A non-numeric id segment gives `NaN` in the source, which matches no note and so takes the same 404 branch as an absent id.
- JSON and the file system: serialisation format, whitespace, `existsSync`/`readFileSync`/`writeFileSync`. A loaded file is an `Option<seq<Note>>`; a save is a ghost snapshot. A parsed file that is not an array of notes is not modelled.
- `Server.FormServer.SaveNotes`: server.js does not catch a failed write or an unparseable file. The exception is thrown inside the request's `end` callback (or at start-up), nothing catches it, and it ends the whole server process. A failed write does so after the in-memory change. The model treats every server.js write and read as successful.
- `Db.NoteStore.CreateNote`, `Server.NextId`, `Server.FormServer.CreateFromForm`: ids are modelled as unbounded integers. The source's ids are JavaScript numbers, which are doubles. Once the largest id reaches 2^53, `++maxId` and `Math.max(...) + 1` round back to that same id, and a create hands out an id that is already in use. The freshness these members prove holds in the source only while every id is below 2^53. The spread in `Math.max(...)` also passes every id as a separate argument: past the JavaScript engine's limit on the number of arguments it throws a `RangeError` before the note is pushed, and since nothing catches it inside the request's `end` callback, the whole server process ends. The model does not capture this: its create always appends.
- `Server.LowerChar`: `toLowerCase` is modelled for the Latin and the basic Cyrillic alphabets (А–Я, Ё) only. Other scripts and special cases of full Unicode case mapping are not.
- Missing form or dto fields (`undefined` title, tag, date or section) are not modelled. They are strings in the model. Only db.js's `content` is optional, because the source gives it a default.
- `allNotes` returns the module's own array, so a caller could mutate the store through it. The model returns a value; that aliasing is not captured.
- The current date (`new Date().toISOString()`) is the parameter `today`.
- script.js, the browser client, is not part of this model. Its filter only hides DOM elements and mirrors the server filter's tag and title test.
- Concurrency: the source handles one request at a time, and there is nothing to model.
