/** The `ui` slice of the Redux store (src/store/ui.ts). Its reducers change
    the draft state in place, so the slice is a class whose methods are the
    reducers. */
module UiStore {
  import opened Wrappers
  import opened Seqs

  class UiState {
    var headerHeight: Option<real>
    var modalIdCounter: int
    var openModalOrder: seq<int>
    var openModals: int

    /** The initial state. */
    constructor ()
      ensures headerHeight.None? && modalIdCounter == 0
      ensures openModalOrder == [] && openModals == 0
    {
      headerHeight := None;
      modalIdCounter := 0;
      openModalOrder := [];
      openModals := 0;
    }

    /** `setHeaderHeight`: only the header height changes. */
    method SetHeaderHeight(height: real)
      modifies this
      ensures headerHeight == Some(height)
      ensures modalIdCounter == old(modalIdCounter)
      ensures openModalOrder == old(openModalOrder) && openModals == old(openModals)
    {
      headerHeight := Some(height);
    }

    /** `setOpenModal`: one more open modal, the id appended to the order and
        remembered as the latest id. */
    method SetOpenModal(id: int)
      modifies this
      ensures openModals == old(openModals) + 1
      ensures openModalOrder == old(openModalOrder) + [id]
      ensures modalIdCounter == id
      ensures headerHeight == old(headerHeight)
    {
      openModals := openModals + 1;
      openModalOrder := openModalOrder + [id];
      modalIdCounter := id;
    }

    /** `setCloseModal`: one open modal fewer, whether or not `id` was open,
        and every occurrence of `id` taken out of the order. */
    method SetCloseModal(id: int)
      modifies this
      ensures openModals == old(openModals) - 1
      ensures openModalOrder == Without(old(openModalOrder), id)
      ensures modalIdCounter == old(modalIdCounter) && headerHeight == old(headerHeight)
    {
      openModals := openModals - 1;
      openModalOrder := Without(openModalOrder, id);
    }

    /** `selectIsAnyModalOpen`: `!!openModals`, so a count below zero also
        reads as open. */
    predicate IsAnyModalOpen()
      reads this
    {
      openModals != 0
    }

    /** The order lists ids from oldest to newest, none above the counter:
        what the modal tracker keeps true. */
    predicate OrderInvariant()
      reads this
    {
      OrderedBelow(openModalOrder, modalIdCounter)
    }
  }

  /** `order` is strictly increasing and no id in it exceeds `counter`. */
  predicate OrderedBelow(order: seq<int>, counter: int) {
    StrictlyIncreasing(order) && forall i | 0 <= i < |order| :: order[i] <= counter
  }

  /** Opening an id that is not in the order and closing it again restores
      the order. */
  lemma OpenThenCloseRestores(order: seq<int>, id: int)
    requires id !in order
    ensures Without(order + [id], id) == order
  {
    WithoutAppend(order, [id], id);
    WithoutAbsent(order, id);
    assert Without([id], id) == [];
  }

  /** Dispatching `setOpenModal(id)` and then `setCloseModal(id)` on a slice
      whose order does not hold `id` leaves the order, the open count and the
      header height as they were; only the counter keeps `id`. */
  method OpenThenClose(ui: UiState, id: int)
    requires id !in ui.openModalOrder
    modifies ui
    ensures ui.openModalOrder == old(ui.openModalOrder)
    ensures ui.openModals == old(ui.openModals)
    ensures ui.headerHeight == old(ui.headerHeight) && ui.modalIdCounter == id
  {
    ui.SetOpenModal(id);
    ui.SetCloseModal(id);
    OpenThenCloseRestores(old(ui.openModalOrder), id);
  }

  /** Closing keeps the relative order of the remaining ids. */
  lemma CloseKeepsOrder(order: seq<int>, counter: int, id: int)
    requires OrderedBelow(order, counter)
    ensures OrderedBelow(Without(order, id), counter)
    ensures Subsequence(Without(order, id), order)
  {
    WithoutIsSubsequence(order, id);
    SubsequenceIncreasing(Without(order, id), order);
  }

  /** Opening the id one above the counter keeps the order sorted and puts the
      new id last, where AppModal looks for the topmost modal. */
  lemma OpenNextIsTopmost(order: seq<int>, counter: int)
    requires OrderedBelow(order, counter)
    ensures OrderedBelow(order + [counter + 1], counter + 1)
    ensures (order + [counter + 1])[|order|] == counter + 1
    ensures forall i | 0 <= i < |order| :: order[i] < counter + 1
  {
  }
}
