/**
 * The TimeboxList component's list operations (src/components/pozostale.js:212-240).
 * Each builds a new list from the previous one: addTimebox prepends,
 * removeTimebox keeps every entry whose position differs from the given
 * index (Array.prototype.filter), updateTimebox replaces the entry at the
 * given index (Array.prototype.map). An index outside the list matches no
 * position, so remove and update then return the list unchanged.
 */
module Timeboxes {

  datatype Timebox = Timebox(id: string, title: string, totalTimeInMinutes: nat)

  /** The list the component starts with. */
  function Seed(): seq<Timebox> {
    [ Timebox("a", "Uczę się CSS in JS", 25),
      Timebox("b", "Uczę się SASS", 15),
      Timebox("c", "Uczę się BEM", 5) ]
  }

  function Ids(s: seq<Timebox>): (r: seq<string>)
    ensures |r| == |s| && forall k :: 0 <= k < |s| ==> r[k] == s[k].id
  {
    seq(|s|, k requires 0 <= k < |s| => s[k].id)
  }

  /** No two entries share an id (the ids are React keys). */
  predicate UniqueIds(s: seq<Timebox>) {
    forall j, k :: 0 <= j < k < |s| ==> s[j].id != s[k].id
  }

  predicate InRange(s: seq<Timebox>, index: int) {
    0 <= index < |s|
  }

  // ---------------------------------------------------------------------
  // The traversals behind filter and map; `offset` is the position of s[0]
  // in the whole list.
  // ---------------------------------------------------------------------

  /** The entries of s whose position is not `skip`. */
  function FilterOutPosition(s: seq<Timebox>, skip: int, offset: int): (r: seq<Timebox>)
    ensures offset <= skip < offset + |s| ==> r == s[..skip - offset] + s[skip - offset + 1..]
    ensures !(offset <= skip < offset + |s|) ==> r == s
    decreases |s|
  {
    if s == [] then []
    else
      var rest := FilterOutPosition(s[1..], skip, offset + 1);
      if offset == skip then rest
      else
        assert offset < skip < offset + |s| ==> [s[0]] + s[1..][..skip - offset - 1] == s[..skip - offset];
        [s[0]] + rest
  }

  /** s with the entry at position `target` replaced by `updated`. */
  function MapPosition(s: seq<Timebox>, target: int, updated: Timebox, offset: int): (r: seq<Timebox>)
    ensures offset <= target < offset + |s| ==> r == s[target - offset := updated]
    ensures !(offset <= target < offset + |s|) ==> r == s
    decreases |s|
  {
    if s == [] then []
    else [if offset == target then updated else s[0]] + MapPosition(s[1..], target, updated, offset + 1)
  }

  // ---------------------------------------------------------------------
  // The three operations
  // ---------------------------------------------------------------------

  /** addTimebox: the new timebox first, the old list unchanged after it. */
  function AddTimebox(timeboxes: seq<Timebox>, timebox: Timebox): (r: seq<Timebox>)
    ensures |r| == |timeboxes| + 1
    ensures r[0] == timebox
    ensures forall k :: 0 <= k < |timeboxes| ==> r[k + 1] == timeboxes[k]
  {
    [timebox] + timeboxes
  }

  /** removeTimebox: drops exactly the entry at indexToRemove, keeping the others in order. */
  function RemoveTimebox(timeboxes: seq<Timebox>, indexToRemove: int): (r: seq<Timebox>)
    ensures InRange(timeboxes, indexToRemove) ==> |r| == |timeboxes| - 1
    ensures InRange(timeboxes, indexToRemove) ==>
      forall k :: 0 <= k < |r| ==> r[k] == timeboxes[if k < indexToRemove then k else k + 1]
    ensures !InRange(timeboxes, indexToRemove) ==> r == timeboxes
  {
    FilterOutPosition(timeboxes, indexToRemove, 0)
  }

  /** updateTimebox: same length, updatedTimebox at indexToUpdate, every other entry as it was. */
  function UpdateTimebox(timeboxes: seq<Timebox>, indexToUpdate: int, updatedTimebox: Timebox): (r: seq<Timebox>)
    ensures |r| == |timeboxes|
    ensures InRange(timeboxes, indexToUpdate) ==> r[indexToUpdate] == updatedTimebox
    ensures forall k :: 0 <= k < |r| && k != indexToUpdate ==> r[k] == timeboxes[k]
  {
    MapPosition(timeboxes, indexToUpdate, updatedTimebox, 0)
  }

  /** The list item's edit button: the same timebox, retitled. */
  function RetitleTimebox(timeboxes: seq<Timebox>, index: int): (r: seq<Timebox>)
    requires InRange(timeboxes, index)
    ensures Ids(r) == Ids(timeboxes)
    ensures r[index].title == "Updated timebox"
    ensures r[index].totalTimeInMinutes == timeboxes[index].totalTimeInMinutes
    ensures r == timeboxes[index := timeboxes[index].(title := "Updated timebox")]
  {
    UpdateTimebox(timeboxes, index, timeboxes[index].(title := "Updated timebox"))
  }

  // ---------------------------------------------------------------------
  // Properties
  // ---------------------------------------------------------------------

  /** Removing the first entry undoes adding one. */
  lemma RemoveUndoesAdd(timeboxes: seq<Timebox>, timebox: Timebox)
    ensures RemoveTimebox(AddTimebox(timeboxes, timebox), 0) == timeboxes
  {
  }

  /** Updating with the entry already there changes nothing; updating twice is updating once. */
  lemma UpdateLaws(timeboxes: seq<Timebox>, index: int, updated: Timebox)
    ensures InRange(timeboxes, index) ==> UpdateTimebox(timeboxes, index, timeboxes[index]) == timeboxes
    ensures UpdateTimebox(UpdateTimebox(timeboxes, index, updated), index, updated)
         == UpdateTimebox(timeboxes, index, updated)
  {
  }

  /** An entry that is updated and then removed leaves no trace. */
  lemma RemoveAfterUpdate(timeboxes: seq<Timebox>, index: int, updated: Timebox)
    ensures RemoveTimebox(UpdateTimebox(timeboxes, index, updated), index) == RemoveTimebox(timeboxes, index)
  {
  }

  /** Adding a timebox whose id is fresh keeps the ids unique. */
  lemma AddKeepsIdsUnique(timeboxes: seq<Timebox>, timebox: Timebox)
    requires UniqueIds(timeboxes) && timebox.id !in Ids(timeboxes)
    ensures UniqueIds(AddTimebox(timeboxes, timebox))
  {
    var added := AddTimebox(timeboxes, timebox);
    forall j, k | 0 <= j < k < |added| ensures added[j].id != added[k].id {
      if j == 0 {
        assert Ids(timeboxes)[k - 1] == added[k].id;
      }
    }
  }

  /** Removing an entry keeps the ids unique. */
  lemma RemoveKeepsIdsUnique(timeboxes: seq<Timebox>, index: int)
    requires UniqueIds(timeboxes)
    ensures UniqueIds(RemoveTimebox(timeboxes, index))
  {
    var removed := RemoveTimebox(timeboxes, index);
    if InRange(timeboxes, index) {
      forall j, k | 0 <= j < k < |removed| ensures removed[j].id != removed[k].id {
        var j', k' := if j < index then j else j + 1, if k < index then k else k + 1;
        assert removed[j] == timeboxes[j'] && removed[k] == timeboxes[k'] && j' < k';
      }
    }
  }

  /** Replacing an entry by one with the same id keeps the ids unique. */
  lemma UpdateKeepsIdsUnique(timeboxes: seq<Timebox>, index: int, timebox: Timebox)
    requires UniqueIds(timeboxes)
    requires InRange(timeboxes, index) && timebox.id == timeboxes[index].id
    ensures UniqueIds(UpdateTimebox(timeboxes, index, timebox))
  {
    var updated := UpdateTimebox(timeboxes, index, timebox);
    assert forall k :: 0 <= k < |updated| ==> updated[k].id == timeboxes[k].id;
  }

  /** The seeded list: add makes four entries with the new one first; remove(1) keeps "a" and "c"; update(0) changes only the first. */
  lemma SeedExamples(created: Timebox, updated: Timebox)
    ensures |AddTimebox(Seed(), created)| == 4 && AddTimebox(Seed(), created)[0] == created
    ensures Ids(RemoveTimebox(Seed(), 1)) == ["a", "c"]
    ensures UpdateTimebox(Seed(), 0, updated) == [updated] + Seed()[1..]
  {
    var removed := RemoveTimebox(Seed(), 1);
    assert removed[0] == Seed()[0] && removed[1] == Seed()[2];
  }
}
