/**
  The note rules of the form-based server: the seed used when there is no
  notes file, the list filter of the index page, the lookup of the edit
  page, and the create / update / delete branches of the POST handler.
  The server keeps one mutable list `notes` and rewrites the file after
  each mutation; the file is a ghost snapshot.
 */
module Server {
  import opened Wrappers
  import opened Notes

  /** The tag value that selects every section. */
  const AllTags: string := "Все"

  /** The one note the server starts with when there is no notes file. */
  const SeedNote: Note := Note(1, "Первая заметка", "Идеи", "2024-06-01", "")

  /**
    `loadNotes`: the parsed file when it exists, otherwise the one seed
    note (which is not written to disk until the first mutation).
   */
  function LoadNotes(stored: Option<seq<Note>>): (r: seq<Note>)
    ensures stored.Some? ==> r == stored.value
    ensures stored.None? ==> |r| == 1 && r[0].id == 1 && r[0].content == "" && DistinctIds(r)
  {
    match stored
    case Some(parsed) => parsed
    case None => [SeedNote]
  }

  // ---------------------------------------------------------------------
  // The index-page filter

  /** A character that `toLowerCase` changes, in the alphabets modelled here. */
  predicate IsUpper(c: char) {
    'A' <= c <= 'Z' || 'А' <= c <= 'Я' || c == 'Ё'
  }

  /**
    `toLowerCase` on one character, for the Latin and the basic Cyrillic
    alphabets: an upper-case letter becomes its lower-case partner, and
    every other character is kept.
   */
  function LowerChar(c: char): (r: char)
    ensures !IsUpper(r)
    ensures !IsUpper(c) ==> r == c
    ensures IsUpper(c) ==> r != c
  {
    if 'A' <= c <= 'Z' then (c as int + 32) as char
    else if 'А' <= c <= 'Я' then (c as int + 32) as char
    else if c == 'Ё' then 'ё'
    else c
  }

  /**
    `s.toLowerCase()`: same length, no upper-case letter left, and every
    character that is not an upper-case letter kept in place.
   */
  function Lower(s: string): (r: string)
    ensures |r| == |s|
    ensures forall i | 0 <= i < |r| :: !IsUpper(r[i])
    ensures forall i | 0 <= i < |s| && !IsUpper(s[i]) :: r[i] == s[i]
  {
    seq(|s|, i requires 0 <= i < |s| => LowerChar(s[i]))
  }

  /** `sub` occurs in `s` starting at position `k`. */
  predicate OccursAt(s: string, sub: string, k: nat) {
    k + |sub| <= |s| && s[k..k + |sub|] == sub
  }

  /**
    `s.includes(sub)`, as a left-to-right search: true exactly when `sub`
    occurs in `s` at some position.
   */
  predicate Contains(s: string, sub: string): (r: bool)
    ensures r <==> exists k: nat | k <= |s| :: OccursAt(s, sub, k)
  {
    if |sub| > |s| then false
    else if s[..|sub|] == sub then (assert OccursAt(s, sub, 0); true)
    else
      var rest := Contains(s[1..], sub);
      assert !OccursAt(s, sub, 0);
      assert forall k: nat | 1 <= k <= |s| :: OccursAt(s, sub, k) == OccursAt(s[1..], sub, k - 1);
      assert rest ==> var k: nat :| k <= |s[1..]| && OccursAt(s[1..], sub, k); OccursAt(s, sub, k + 1);
      rest
  }

  /**
    The filter callback of `renderNotesList`: the tag is empty, selects
    every section or names the note's section; and the search is empty or
    occurs, case-insensitively, in the title or the content.
   */
  predicate Matches(note: Note, tag: string, search: string): (r: bool)
    ensures search == "" ==> (r <==> tag == "" || tag == AllTags || note.tag == tag)
    ensures tag == AllTags ==> (r <==> search == "" || Contains(Lower(note.title), Lower(search)) || Contains(Lower(note.content), Lower(search)))
    ensures tag != "" && tag != AllTags && note.tag != tag ==> !r
  {
    && (tag == "" || tag == AllTags || note.tag == tag)
    && (search == "" || Contains(Lower(note.title), Lower(search)) || Contains(Lower(note.content), Lower(search)))
  }

  /** Lowering twice is lowering once. */
  lemma LowerIdempotent(s: string)
    ensures Lower(Lower(s)) == Lower(s)
  {
  }

  /** The search ignores case: a search and its lower-cased form select the same notes. */
  lemma SearchIsCaseInsensitive(note: Note, tag: string, search: string)
    ensures Matches(note, tag, search) == Matches(note, tag, Lower(search))
  {
    LowerIdempotent(search);
  }

  /** Any piece of a note's title, searched for, finds that note when its tag passes. */
  lemma TitlePieceMatches(note: Note, tag: string, i: nat, j: nat)
    requires tag == "" || tag == AllTags || note.tag == tag
    requires i <= j <= |note.title|
    ensures Matches(note, tag, note.title[i..j])
  {
    var piece := note.title[i..j];
    assert Lower(note.title)[i..j] == Lower(piece);
    assert OccursAt(Lower(note.title), Lower(piece), i);
  }

  /**
    `notes.filter(...)` in `renderNotesList`: the matching notes. Every
    note kept matches, and every matching note is kept.
   */
  function Filter(notes: seq<Note>, tag: string, search: string): (r: seq<Note>)
    ensures |r| <= |notes|
    ensures forall k | 0 <= k < |r| :: Matches(r[k], tag, search)
    ensures forall i | 0 <= i < |notes| && Matches(notes[i], tag, search) :: notes[i] in r
  {
    if |notes| == 0 then []
    else
      var rest := Filter(notes[1..], tag, search);
      assert forall i | 1 <= i < |notes| :: notes[i] == notes[1..][i - 1];
      if Matches(notes[0], tag, search) then [notes[0]] + rest else rest
  }

  /** `sub` is `s` with some elements dropped, the rest in their order. */
  ghost predicate IsSubsequence(sub: seq<Note>, s: seq<Note>)
    decreases |s|
  {
    if |sub| == 0 then true
    else if |s| == 0 then false
    else (sub[0] == s[0] && IsSubsequence(sub[1..], s[1..])) || IsSubsequence(sub, s[1..])
  }

  /** The filter keeps the order of the notes it keeps. */
  lemma {:induction false} FilterIsSubsequence(notes: seq<Note>, tag: string, search: string)
    ensures IsSubsequence(Filter(notes, tag, search), notes)
  {
    if |notes| > 0 {
      FilterIsSubsequence(notes[1..], tag, search);
      var rest := Filter(notes[1..], tag, search);
      if Matches(notes[0], tag, search) {
        assert ([notes[0]] + rest)[1..] == rest;
      }
    }
  }

  /**
    The filter keeps every copy of a matching note and no copy of any
    other: the count of each note in the result is its count in the input
    when it matches, and zero otherwise.
   */
  lemma {:induction false} FilterCounts(notes: seq<Note>, tag: string, search: string, x: Note)
    ensures multiset(Filter(notes, tag, search))[x] == if Matches(x, tag, search) then multiset(notes)[x] else 0
  {
    if |notes| > 0 {
      FilterCounts(notes[1..], tag, search, x);
      assert notes == [notes[0]] + notes[1..];
    }
  }

  /** With an empty search and the all-sections tag, every note is shown. */
  lemma {:induction false} FilterAllTagsKeepsAll(notes: seq<Note>)
    ensures Filter(notes, AllTags, "") == notes
    ensures Filter(notes, "", "") == notes
  {
    if |notes| > 0 {
      FilterAllTagsKeepsAll(notes[1..]);
      assert [notes[0]] + notes[1..] == notes;
    }
  }

  /** `query.tag || 'Все'` and `query.search || ''`: a missing or empty parameter takes its default. */
  function QueryOr(param: Option<string>, default: string): (r: string)
    ensures param.Some? && param.value != "" ==> r == param.value
    ensures param.None? || param.value == "" ==> r == default
  {
    if param.Some? && param.value != "" then param.value else default
  }

  /**
    The notes the index page shows for a query: `renderIndex` fills in the
    defaults and hands them to the filter. With neither parameter given,
    every note is shown.
   */
  function IndexNotes(notes: seq<Note>, tagParam: Option<string>, searchParam: Option<string>): (r: seq<Note>)
    ensures tagParam.None? && searchParam.None? ==> r == notes
    ensures forall k | 0 <= k < |r| :: Matches(r[k], QueryOr(tagParam, AllTags), QueryOr(searchParam, ""))
    ensures forall i | 0 <= i < |notes| && Matches(notes[i], QueryOr(tagParam, AllTags), QueryOr(searchParam, "")) :: notes[i] in r
  {
    FilterAllTagsKeepsAll(notes);
    Filter(notes, QueryOr(tagParam, AllTags), QueryOr(searchParam, ""))
  }

  // ---------------------------------------------------------------------
  // Lookup and id assignment

  /**
    `notes.find(n => n.id === id)` on the edit page: the first note with
    that id, or nothing.
   */
  function FindNote(notes: seq<Note>, id: int): (r: Option<Note>)
    ensures FindIndex(notes, id) == -1 ==> r == None
    ensures FindIndex(notes, id) >= 0 ==> r == Some(notes[FindIndex(notes, id)])
  {
    if |notes| == 0 then None
    else if notes[0].id == id then Some(notes[0])
    else FindNote(notes[1..], id)
  }

  /** `Math.max(...notes.map(n => n.id))`: an id of the list, at least every id. */
  function MaxId(notes: seq<Note>): (m: int)
    requires |notes| > 0
    ensures forall i | 0 <= i < |notes| :: notes[i].id <= m
    ensures HasId(notes, m)
  {
    if |notes| == 1 then notes[0].id
    else
      var rest := MaxId(notes[1..]);
      if notes[0].id > rest then notes[0].id else rest
  }

  /**
    The id a create assigns: 1 on an empty list, otherwise one more than
    the largest id. It is above every id now in the list; it is computed
    afresh each time, so a deleted top id comes back.
   */
  function NextId(notes: seq<Note>): (r: int)
    ensures |notes| == 0 ==> r == 1
    ensures forall i | 0 <= i < |notes| :: notes[i].id < r
    ensures |notes| > 0 ==> HasId(notes, r - 1)
  {
    if |notes| > 0 then MaxId(notes) + 1 else 1
  }

  // ---------------------------------------------------------------------
  // The POST handler

  /** The decoded form of a POST request. `methodOverride` is the hidden `_method` field. */
  datatype Form = Form(methodOverride: Option<string>, title: string, content: string, section: string)

  /** The handler's answers: 302 to the index, 400 "Invalid method", 404 "Note not found". */
  datatype Reply = Redirect | InvalidMethod | NoteNotFound

  /**
    The note a POST to /notes creates: an id above every id in the list,
    the form's title, content and section, and `today` (the date part of
    the current time) as its date.
   */
  function CreatedNote(notes: seq<Note>, form: Form, today: string): (r: Note)
    ensures forall i | 0 <= i < |notes| :: notes[i].id < r.id
    ensures !HasId(notes, r.id)
    ensures r.title == form.title && r.content == form.content && r.tag == form.section && r.date == today
  {
    Note(NextId(notes), form.title, form.section, today, form.content)
  }

  /**
    `{ ...note, title, content, section }`: the edited note keeps its id
    and date and takes title, content and section from the form.
   */
  function Edited(note: Note, form: Form): (r: Note)
    ensures r.id == note.id && r.date == note.date
    ensures r.title == form.title && r.content == form.content && r.tag == form.section
  {
    note.(title := form.title, content := form.content, tag := form.section)
  }

  /**
    Deleting the note just created gives back the list as it was, and the
    next create assigns the deleted id again.
   */
  lemma DeleteNewestReusesId(notes: seq<Note>, form: Form, today: string)
    ensures var created := notes + [CreatedNote(notes, form, today)];
      && FindIndex(created, NextId(notes)) == |notes|
      && RemoveAt(created, |notes|) == notes
      && NextId(RemoveAt(created, |notes|)) == NextId(notes)
  {
    var created := notes + [CreatedNote(notes, form, today)];
    assert created[|notes|].id == NextId(notes);
    assert forall k | 0 <= k < |notes| :: created[k].id != NextId(notes);
    assert RemoveAt(created, |notes|) == notes;
  }

  class FormServer {
    var notes: seq<Note>
    /** The list the notes file holds; None while there is no file. */
    ghost var file: Option<seq<Note>>

    /** Server start: `let notes = loadNotes()`. */
    constructor Start(stored: Option<seq<Note>>)
      ensures notes == LoadNotes(stored)
      ensures file == stored
    {
      notes := LoadNotes(stored);
      file := stored;
    }

    /** `saveNotes(notes)`: the file holds the whole list. */
    method SaveNotes()
      modifies this`file
      ensures file == Some(notes)
    {
      file := Some(notes);
    }

    /**
      POST /notes: appends one note with a fresh id, the form's fields and
      today's date, then saves.
     */
    method CreateFromForm(form: Form, today: string)
      modifies this
      ensures notes == old(notes) + [CreatedNote(old(notes), form, today)]
      ensures forall i | 0 <= i < |old(notes)| :: old(notes)[i].id < notes[|old(notes)|].id
      ensures DistinctIds(old(notes)) ==> DistinctIds(notes)
      ensures file == Some(notes)
    {
      var newNote := CreatedNote(notes, form, today);
      notes := notes + [newNote];
      SaveNotes();
    }

    /**
      POST /notes/:id. An id no note has gives 404; a found id with a
      `_method` other than PUT or DELETE gives 400; neither changes or
      saves anything. PUT edits the first note with the id in place,
      DELETE splices it out; both save and redirect.
     */
    method PostToNote(id: int, form: Form) returns (reply: Reply)
      modifies this
      ensures reply == NoteNotFound <==> !HasId(old(notes), id)
      ensures reply == InvalidMethod <==>
        HasId(old(notes), id) && form.methodOverride != Some("PUT") && form.methodOverride != Some("DELETE")
      ensures reply != Redirect ==> notes == old(notes) && file == old(file)
      ensures reply == Redirect ==> file == Some(notes)
      ensures reply == Redirect && form.methodOverride == Some("PUT") ==>
        var index := FindIndex(old(notes), id);
        notes == old(notes)[index := Edited(old(notes)[index], form)]
      ensures reply == Redirect && form.methodOverride == Some("DELETE") ==>
        notes == RemoveAt(old(notes), FindIndex(old(notes), id))
      ensures DistinctIds(old(notes)) ==> DistinctIds(notes)
    {
      var index := FindIndex(notes, id);
      if index >= 0 {
        if form.methodOverride == Some("PUT") {
          var edited := Edited(notes[index], form);
          notes := notes[index := edited];
          SaveNotes();
          reply := Redirect;
        } else if form.methodOverride == Some("DELETE") {
          notes := RemoveAt(notes, index);
          SaveNotes();
          reply := Redirect;
        } else {
          reply := InvalidMethod;
        }
      } else {
        reply := NoteNotFound;
      }
    }
  }

  /**
    Starting from an empty notes file: two creates get ids 1 and 2;
    deleting note 2 and creating again hands out id 2 a second time.
   */
  method ReusedIdScenario(today: string) returns (ids: seq<int>)
    ensures ids == [1, 2]
  {
    var server := new FormServer.Start(Some([]));
    var form := Form(None, "Note", "", "Идеи");
    server.CreateFromForm(form, today);
    server.CreateFromForm(form, today);
    assert server.notes[1].id == 2;
    var reply := server.PostToNote(2, Form(Some("DELETE"), "", "", ""));
    assert reply == Redirect;
    server.CreateFromForm(form, today);
    ids := [server.notes[0].id, server.notes[1].id];
  }
}
