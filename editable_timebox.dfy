/**
 * The EditableTimebox component (src/components/pozostale.js:131-170): the
 * active timebox's title and length plus the isEditable flag, which
 * handleConfirm clears and handleEdit sets.
 *
 * The CurrentTimebox it renders stays mounted whatever isEditable is, so
 * confirming or editing never touches the run state.
 */
module Editable {

  /** The component's state as a value. */
  datatype Draft = Draft(title: string, totalTimeInMinutes: nat, isEditable: bool)

  /** The initial state: an editable 20-minute timebox. */
  function Seed(): Draft {
    Draft("Uczę się CSS!", 20, true)
  }

  /** handleConfirm: locks the timebox for running. */
  function Confirm(d: Draft): (r: Draft)
    ensures !r.isEditable
    ensures r.title == d.title && r.totalTimeInMinutes == d.totalTimeInMinutes
  {
    d.(isEditable := false)
  }

  /** handleEdit: unlocks the timebox for editing. */
  function Edit(d: Draft): (r: Draft)
    ensures r.isEditable
    ensures r.title == d.title && r.totalTimeInMinutes == d.totalTimeInMinutes
  {
    d.(isEditable := true)
  }

  /** Confirming twice is confirming once; so is editing. */
  lemma Idempotent(d: Draft)
    ensures Confirm(Confirm(d)) == Confirm(d)
    ensures Edit(Edit(d)) == Edit(d)
  {
  }

  /** Edit undoes Confirm on an editable timebox, and Confirm undoes Edit on a locked one. */
  lemma ConfirmEditRoundTrip(d: Draft)
    ensures d.isEditable ==> Edit(Confirm(d)) == d
    ensures !d.isEditable ==> Confirm(Edit(d)) == d
  {
  }

  class EditableTimebox {
    var title: string
    var totalTimeInMinutes: nat
    var isEditable: bool

    function Snapshot(): Draft
      reads this
    {
      Draft(title, totalTimeInMinutes, isEditable)
    }

    constructor ()
      ensures Snapshot() == Seed()
    {
      title, totalTimeInMinutes, isEditable := "Uczę się CSS!", 20, true;
    }

    /** handleTitleChange; the title input is disabled while locked. */
    method HandleTitleChange(newTitle: string)
      requires isEditable
      modifies this
      ensures Snapshot() == old(Snapshot()).(title := newTitle)
    {
      title := newTitle;
    }

    /** handleTotalTimeInMinutesChange; the minutes input is disabled while locked. */
    method HandleTotalTimeInMinutesChange(minutes: nat)
      requires isEditable
      modifies this
      ensures Snapshot() == old(Snapshot()).(totalTimeInMinutes := minutes)
    {
      totalTimeInMinutes := minutes;
    }

    method HandleConfirm()
      modifies this
      ensures Snapshot() == Confirm(old(Snapshot()))
      ensures !isEditable && title == old(title) && totalTimeInMinutes == old(totalTimeInMinutes)
    {
      isEditable := false;
    }

    method HandleEdit()
      modifies this
      ensures Snapshot() == Edit(old(Snapshot()))
      ensures isEditable && title == old(title) && totalTimeInMinutes == old(totalTimeInMinutes)
    {
      isEditable := true;
    }
  }
}
