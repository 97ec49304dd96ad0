/**
  The note record shared by both stores, and the two list operations both of
  them perform: find the first note with a given id (`Array.prototype.findIndex`)
  and remove one element at an index (`splice(index, 1)`).
 */
module Notes {

  /**
    One note. The JSON-API store calls the category field `tag`, the
    form-based server calls it `section`; both are this `tag` field.
   */
  datatype Note = Note(id: int, title: string, tag: string, date: string, content: string)

  /** Some note in `notes` carries `id`. */
  ghost predicate HasId(notes: seq<Note>, id: int) {
    exists i | 0 <= i < |notes| :: notes[i].id == id
  }

  /** No two positions of `notes` carry the same id. */
  ghost predicate DistinctIds(notes: seq<Note>) {
    forall i, j | 0 <= i < j < |notes| :: notes[i].id != notes[j].id
  }

  /**
    `notes.findIndex(n => n.id === id)`: the index of the first note whose
    id is `id`, or -1 when there is none.
   */
  function FindIndex(notes: seq<Note>, id: int): (r: int)
    ensures -1 <= r < |notes|
    ensures r == -1 <==> !HasId(notes, id)
    ensures r >= 0 ==> notes[r].id == id
    ensures r >= 0 ==> forall j | 0 <= j < r :: notes[j].id != id
  {
    if |notes| == 0 then -1
    else if notes[0].id == id then 0
    else
      var k := FindIndex(notes[1..], id);
      if k == -1 then -1 else k + 1
  }

  /**
    `list.splice(i, 1)`: the list without its element at `i`, the others
    kept in their order.
   */
  function RemoveAt(notes: seq<Note>, i: int): (r: seq<Note>)
    requires 0 <= i < |notes|
    ensures |r| == |notes| - 1
    ensures forall k | 0 <= k < i :: r[k] == notes[k]
    ensures forall k | i <= k < |r| :: r[k] == notes[k + 1]
  {
    notes[..i] + notes[i + 1..]
  }

  /** Splicing takes out exactly one copy of the removed note and keeps every other note. */
  lemma RemoveAtMultiset(notes: seq<Note>, i: int)
    requires 0 <= i < |notes|
    ensures multiset(RemoveAt(notes, i)) + multiset{notes[i]} == multiset(notes)
  {
    assert notes == notes[..i] + [notes[i]] + notes[i + 1..];
  }

  /**
    Removing one note keeps the remaining ids distinct, and when they were
    distinct the removed id is gone from the list.
   */
  lemma RemoveAtKeepsDistinct(notes: seq<Note>, i: int)
    requires 0 <= i < |notes| && DistinctIds(notes)
    ensures DistinctIds(RemoveAt(notes, i))
    ensures !HasId(RemoveAt(notes, i), notes[i].id)
  {
  }
}
