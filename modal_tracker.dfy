/** `useTrackModalOpenState` (src/components/AppModal/utils/useTrackModalOpenState.ts):
    one effect run per change of a modal's visibility. The two refs are the
    fields of a tracker; the store it dispatches to is a `UiState`. */
module ModalTracker {
  import opened Wrappers
  import opened Seqs
  import opened UiStore

  class Tracker {
    var isVisibleRef: bool
    var modalIdRef: Option<int>

    constructor ()
      ensures !isVisibleRef && modalIdRef.None?
    {
      isVisibleRef := false;
      modalIdRef := None;
    }

    /** One run of the effect with the current `isVisible`. */
    method Run(isVisible: bool, ui: UiState)
      modifies this, ui
      ensures isVisibleRef == isVisible
      // rising edge: a new id one above the store's counter, opened
      ensures isVisible && !old(isVisibleRef) ==>
        && modalIdRef == Some(old(ui.modalIdCounter) + 1)
        && ui.openModalOrder == old(ui.openModalOrder) + [modalIdRef.value]
        && ui.openModals == old(ui.openModals) + 1
        && ui.modalIdCounter == modalIdRef.value
      // staying visible, or hidden with no id to close: nothing dispatched
      ensures (isVisible && old(isVisibleRef)) || (!isVisible && !(old(isVisibleRef) && old(modalIdRef).Some?)) ==>
        && modalIdRef == old(modalIdRef)
        && ui.openModalOrder == old(ui.openModalOrder)
        && ui.openModals == old(ui.openModals)
        && ui.modalIdCounter == old(ui.modalIdCounter)
      // falling edge with an assigned id: that id closed
      ensures !isVisible && old(isVisibleRef) && old(modalIdRef).Some? ==>
        && modalIdRef == old(modalIdRef)
        && ui.openModalOrder == Without(old(ui.openModalOrder), old(modalIdRef).value)
        && ui.openModals == old(ui.openModals) - 1
        && ui.modalIdCounter == old(ui.modalIdCounter)
      ensures ui.headerHeight == old(ui.headerHeight)
      // the newest modal is last in the order
      ensures old(ui.OrderInvariant()) ==> ui.OrderInvariant()
      ensures isVisible && !old(isVisibleRef) ==> ui.openModalOrder[|ui.openModalOrder| - 1] == modalIdRef.value
    {
      if isVisible {
        if !isVisibleRef {
          ghost var order, counter := ui.openModalOrder, ui.modalIdCounter;
          modalIdRef := Some(ui.modalIdCounter + 1);
          ui.SetOpenModal(modalIdRef.value);
          if OrderedBelow(order, counter) {
            OpenNextIsTopmost(order, counter);
          }
        }
      } else {
        if isVisibleRef && modalIdRef.Some? {
          ghost var order, counter := ui.openModalOrder, ui.modalIdCounter;
          ui.SetCloseModal(modalIdRef.value);
          if OrderedBelow(order, counter) {
            CloseKeepsOrder(order, counter, modalIdRef.value);
          }
        }
      }
      isVisibleRef := isVisible;
    }
  }
}
