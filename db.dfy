/**
  The file-backed note store behind the JSON API. The module keeps one
  mutable list of notes and a counter `maxId`; every successful mutation
  rewrites the whole file. The file itself is a ghost snapshot `disk`.
 */
module Db {
  import opened Wrappers
  import opened Notes

  /** The body of a create request: a note without its id. */
  datatype Draft = Draft(title: string, tag: string, date: string, content: Option<string>)

  /** The body of an update request: a whole note, `content` optional. */
  datatype NoteDto = NoteDto(id: int, title: string, tag: string, date: string, content: Option<string>)

  /**
    How `fs.writeFileSync` ends. It opens the file with flag 'w', which
    empties it, then writes the text: the write completes, fails before
    the file is opened (the file is untouched), or fails after the file
    was emptied (no readable list is left).
   */
  datatype WriteOutcome = Written | OpenFailed | WriteFailed

  /** What the file holds after a save of `notesList` that ended with `outcome`. */
  ghost function DiskAfterSave(before: Option<seq<Note>>, notesList: seq<Note>, outcome: WriteOutcome): Option<seq<Note>> {
    match outcome
    case Written => Some(notesList)
    case OpenFailed => before
    case WriteFailed => None
  }

  /** `dto.content || ""`: an absent content is stored as the empty string. */
  function StoredContent(content: Option<string>): (r: string)
    ensures content.Some? ==> r == content.value
    ensures content.None? ==> r == ""
  {
    content.GetOr("")
  }

  /**
    `getMaxId`: the largest id in `notesList`, but never below the
    starting value 0 (with only negative ids, or none, the result is 0).
   */
  method GetMaxId(notesList: seq<Note>) returns (max: int)
    ensures 0 <= max
    ensures forall i | 0 <= i < |notesList| :: notesList[i].id <= max
    ensures max == 0 || exists i | 0 <= i < |notesList| :: notesList[i].id == max
  {
    max := 0;
    for k := 0 to |notesList|
      invariant 0 <= max
      invariant forall i | 0 <= i < k :: notesList[i].id <= max
      invariant max == 0 || exists i | 0 <= i < k :: notesList[i].id == max
    {
      if notesList[k].id > max {
        max := notesList[k].id;
      }
    }
  }

  class NoteStore {
    var notesList: seq<Note>
    var maxId: int
    /** The list the file holds; None when there is no readable list. */
    ghost var disk: Option<seq<Note>>
    /** Every id that has been in the list since load. */
    ghost var issued: set<int>

    /** The counter is at least every id ever held, so `++maxId` is fresh. */
    ghost predicate Valid()
      reads this
    {
      && 0 <= maxId
      && (forall id | id in issued :: id <= maxId)
      && (forall i | 0 <= i < |notesList| :: notesList[i].id in issued)
    }

    /**
      Module load: `loadNotesFromFile` then `maxId = getMaxId()`. `stored`
      is the parsed file; None stands for a missing file and for a read or
      parse failure, both of which leave the list empty.
     */
    constructor Load(stored: Option<seq<Note>>)
      ensures Valid()
      ensures notesList == stored.GetOr([])
      ensures disk == stored
      ensures forall i | 0 <= i < |notesList| :: notesList[i].id <= maxId
      ensures maxId == 0 || exists i | 0 <= i < |notesList| :: notesList[i].id == maxId
      ensures issued == set i | 0 <= i < |notesList| :: notesList[i].id
    {
      var loaded := stored.GetOr([]);
      var max := GetMaxId(loaded);
      notesList := loaded;
      maxId := max;
      disk := stored;
      issued := set i | 0 <= i < |loaded| :: loaded[i].id;
    }

    /**
      `saveNotesToFile`: a successful write makes the file hold the list;
      a failed write is swallowed, and the list stays changed in memory.
     */
    method SaveNotesToFile(ghost outcome: WriteOutcome)
      modifies this`disk
      ensures outcome == Written ==> disk == Some(notesList)
      ensures outcome == OpenFailed ==> disk == old(disk)
      ensures outcome == WriteFailed ==> disk == None
    {
      disk := DiskAfterSave(disk, notesList, outcome);
    }

    /** `allNotes`: the current list; nothing changes. */
    method AllNotes() returns (r: seq<Note>)
      ensures r == notesList
    {
      r := notesList;
    }

    /**
      `createNote`: appends one note whose id is `++maxId`, an id never
      held before, then saves. The new note is in memory however the
      write ends.
     */
    method CreateNote(dto: Draft, ghost outcome: WriteOutcome)
      requires Valid()
      modifies this
      ensures Valid()
      ensures maxId == old(maxId) + 1
      ensures maxId !in old(issued) && issued == old(issued) + {maxId}
      ensures notesList == old(notesList) + [Note(maxId, dto.title, dto.tag, dto.date, StoredContent(dto.content))]
      ensures forall i | 0 <= i < |old(notesList)| :: old(notesList)[i].id < maxId
      ensures DistinctIds(old(notesList)) ==> DistinctIds(notesList)
      ensures disk == DiskAfterSave(old(disk), notesList, outcome)
    {
      maxId := maxId + 1;
      var newNote := Note(maxId, dto.title, dto.tag, dto.date, StoredContent(dto.content));
      notesList := notesList + [newNote];
      issued := issued + {maxId};
      SaveNotesToFile(outcome);
    }

    /**
      `updateNote`: when no note has `dto.id`, returns false and changes
      nothing. Otherwise overwrites the first note with that id by the
      whole dto (content defaulting to ""), saves, and returns true.
     */
    method UpdateNote(dto: NoteDto, ghost outcome: WriteOutcome) returns (ok: bool)
      requires Valid()
      modifies this
      ensures Valid()
      ensures ok <==> HasId(old(notesList), dto.id)
      ensures maxId == old(maxId) && issued == old(issued)
      ensures !ok ==> notesList == old(notesList) && disk == old(disk)
      ensures ok ==>
        var index := FindIndex(old(notesList), dto.id);
        notesList == old(notesList)[index := Note(dto.id, dto.title, dto.tag, dto.date, StoredContent(dto.content))]
      ensures ok ==> disk == DiskAfterSave(old(disk), notesList, outcome)
      ensures |notesList| == |old(notesList)|
      ensures forall i | 0 <= i < |notesList| :: notesList[i].id == old(notesList)[i].id
      ensures DistinctIds(old(notesList)) ==> DistinctIds(notesList)
    {
      var index := FindIndex(notesList, dto.id);
      ok := index != -1;
      if ok {
        var updated := Note(dto.id, dto.title, dto.tag, dto.date, StoredContent(dto.content));
        notesList := notesList[index := updated];
        SaveNotesToFile(outcome);
      }
    }

    /**
      `deleteNote`: when no note has `id`, returns false and changes
      nothing. Otherwise splices out the first note with that id, saves,
      and returns true.
     */
    method DeleteNote(id: int, ghost outcome: WriteOutcome) returns (ok: bool)
      requires Valid()
      modifies this
      ensures Valid()
      ensures ok <==> HasId(old(notesList), id)
      ensures maxId == old(maxId) && issued == old(issued)
      ensures !ok ==> notesList == old(notesList) && disk == old(disk)
      ensures ok ==> notesList == RemoveAt(old(notesList), FindIndex(old(notesList), id))
      ensures ok ==> |notesList| == |old(notesList)| - 1
      ensures ok ==> disk == DiskAfterSave(old(disk), notesList, outcome)
      ensures DistinctIds(old(notesList)) ==> DistinctIds(notesList) && !HasId(notesList, id)
    {
      var index := FindIndex(notesList, id);
      ok := index != -1;
      if ok {
        if DistinctIds(notesList) {
          RemoveAtKeepsDistinct(notesList, index);
        }
        ghost var before := notesList;
        notesList := RemoveAt(notesList, index);
        forall k | 0 <= k < |notesList| ensures notesList[k].id in issued {
          assert notesList[k] == before[if k < index then k else k + 1];
        }
        SaveNotesToFile(outcome);
      }
    }
  }

  /**
    The scenario of an empty store: create "Milk" and "Gym" (ids 1 and 2),
    update note 1's title, delete note 2; one note is left, id 1, carrying
    the new title.
   */
  method EmptyStoreScenario() returns (final: seq<Note>)
    ensures final == [Note(1, "Milk 2L", "Shopping", "2024-06-01", "")]
  {
    var store := new NoteStore.Load(None);
    store.CreateNote(Draft("Milk", "Shopping", "2024-06-01", Some("")), Written);
    store.CreateNote(Draft("Gym", "Personal", "2024-06-02", None), Written);
    assert store.notesList[0].id == 1 && store.notesList[1].id == 2;
    var updated := store.UpdateNote(NoteDto(1, "Milk 2L", "Shopping", "2024-06-01", Some("")), Written);
    assert updated;
    var deleted := store.DeleteNote(2, Written);
    assert deleted;
    final := store.AllNotes();
  }

  /**
    The scenario of a restart: a store loaded with note 1 creates note 2
    and deletes it; the file then holds only note 1. A store loaded again
    from that file recomputes its counter from the notes, so its next
    create hands out id 2 a second time.
   */
  method RestartReusesIdScenario() returns (first: int, second: int)
    ensures first == 2 && second == 2
  {
    var milk := Note(1, "Milk", "Shopping", "2024-06-01", "");
    var store := new NoteStore.Load(Some([milk]));
    assert store.notesList[0].id == 1;
    store.CreateNote(Draft("Gym", "Personal", "2024-06-02", None), Written);
    first := store.maxId;
    assert store.notesList[1].id == 2;
    var deleted := store.DeleteNote(2, Written);
    assert deleted && store.notesList == [milk] && store.disk == Some([milk]);
    var restarted := new NoteStore.Load(Some([milk]));
    assert restarted.notesList[0].id == 1;
    restarted.CreateNote(Draft("Call", "Personal", "2024-06-03", None), Written);
    second := restarted.maxId;
  }
}
