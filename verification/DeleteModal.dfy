/**
 * The two-step delete: the confirmation overlay and the id of the record
 * waiting to be deleted (`processToDeleteId`).
 */
module DeleteModal {
  import opened Wrappers

  /** The `DELETE /processes/{id}` the page sends, and what it does after the reply. */
  datatype DeleteEffect =
    | NothingSent
    | Sent(id: string, reload: bool, alerted: bool)

  /** `!processToDeleteId` in JavaScript: no id, or the empty string. */
  predicate IsFalsy(id: Option<string>) {
    id.None? || id.value == ""
  }

  /** The page's delete-confirmation state. */
  class DeleteConfirmation {
    /** `processToDeleteId`; `None` stands for null or undefined. */
    var pendingId: Option<string>
    /** Whether the confirmation overlay is displayed. */
    var shown: bool

    /** While the overlay is hidden no id is pending. */
    ghost predicate Valid()
      reads this
    {
      !shown ==> pendingId == None
    }

    /** The page starts with no pending id and the overlay hidden. */
    constructor ()
      ensures Valid()
      ensures pendingId == None && !shown
    {
      pendingId := None;
      shown := false;
    }

    /** `showDeleteModal(id)`: remembers the id of the row whose delete button was clicked and shows the overlay. */
    method ShowDeleteModal(id: Option<string>)
      modifies this
      ensures Valid()
      ensures pendingId == id && shown
    {
      pendingId := id;
      shown := true;
    }

    /**
     * `hideModal()`, run by the cancel button, by a click on the overlay's
     * backdrop and at the end of every delete: forgets the pending id and
     * hides the overlay.
     */
    method HideModal()
      modifies this
      ensures Valid()
      ensures pendingId == None && !shown
    {
      pendingId := None;
      shown := false;
    }

    /**
     * `deleteProcess()`, run by the confirm button. With no pending id it does
     * nothing at all. Otherwise it sends the delete for the pending id; when
     * the server accepts, the overlay closes and the table reloads; when the
     * request fails, the user is alerted and the overlay closes. Either way no
     * id is pending afterwards.
     */
    method DeleteProcess(deleteSucceeds: bool) returns (effect: DeleteEffect)
      requires Valid()
      modifies this
      ensures Valid()
      ensures IsFalsy(old(pendingId)) <==> effect.NothingSent?
      ensures effect.NothingSent? ==> pendingId == old(pendingId) && shown == old(shown)
      ensures effect.Sent? ==>
        && old(pendingId) == Some(effect.id)
        && effect.reload == deleteSucceeds
        && effect.alerted == !deleteSucceeds
        && pendingId == None && !shown
    {
      if IsFalsy(pendingId) {
        return NothingSent;
      }
      var id := pendingId.value;
      if deleteSucceeds {
        HideModal();
        effect := Sent(id, true, false);
      } else {
        HideModal();
        effect := Sent(id, false, true);
      }
    }
  }

  /**
   * A confirmation opened for a record with a real id sends exactly one delete,
   * for that id, and leaves nothing pending; cancelling instead sends nothing.
   */
  method ConfirmAfterShow(id: string, deleteSucceeds: bool) returns (effect: DeleteEffect, cancelled: DeleteEffect)
    requires id != ""
    ensures effect == Sent(id, deleteSucceeds, !deleteSucceeds)
    ensures cancelled == NothingSent
  {
    var modal := new DeleteConfirmation();
    modal.ShowDeleteModal(Some(id));
    effect := modal.DeleteProcess(deleteSucceeds);
    assert modal.pendingId == None && !modal.shown;
    modal.ShowDeleteModal(Some(id));
    modal.HideModal();
    cancelled := modal.DeleteProcess(deleteSucceeds);
  }
}
