/** The host page of the inline-edit example: it owns the grid's rows, its
    scroll offset and its cell selection, and turns the grid's callbacks and
    the page's buttons into updates of that state. `setState` is taken as an
    immediate, synchronous assignment of the named parts of the state. */
module InlineEditExample {
  import opened Wrappers

  /** A row's date cell: a date string, or a date object created at run time
      (whose value depends on the clock and is not modelled). */
  datatype DateValue = DateText(text: string) | DateObject

  /** One record of the grid's data. `kind` is the row's `type` column. */
  datatype Row = Row(
    id: int,
    title: string,
    writer: string,
    date: DateValue,
    money: int,
    kind: string,
    check: bool)

  /** The row that "Add item" appends. */
  const NewItem := Row(999, "", "", DateText(""), 0, "B", true)

  /** The grid's selection: selected row and column indices and the focused
      cell, where -1 means "no focus". */
  datatype Selection = Selection(rows: seq<int>, cols: seq<int>, focusedRow: int, focusedCol: int)

  /** The parts of the React state the handlers replace and `render` reads. */
  datatype ViewState = ViewState(data: seq<Row>, scrollTop: int, selection: Selection)

  /** Everything the handlers read or write: the React state together with the
      three instance fields kept outside it, which never cause a re-render. */
  datatype Host = Host(
    view: ViewState,
    scrollContentHeight: int,
    bodyTrHeight: int,
    selectedIndexes: seq<int>)

  /** Payload of the grid's `onScroll` callback. */
  datatype ScrollParam = ScrollParam(scrollTop: int)

  /** Payload of `onChangeScrollSize`; either field may be missing. */
  datatype ScrollSizeParam = ScrollSizeParam(scrollContentHeight: Option<int>, bodyTrHeight: Option<int>)

  /** Payload of `onChangeSelected`; the index list may be missing. */
  datatype SelectedParam = SelectedParam(selectedIndexes: Option<seq<int>>)

  // ---------------------------------------------------------------------------
  // Removing rows by index

  /** The indices below `n` that `sel` does not list, in increasing order. */
  function KeptIndexes(n: nat, sel: seq<int>): (ks: seq<nat>)
    ensures forall k :: 0 <= k < |ks| ==> ks[k] < n && ks[k] !in sel
    ensures forall i :: 0 <= i < n && i !in sel ==> i in ks
    ensures forall k, l :: 0 <= k < l < |ks| ==> ks[k] < ks[l]
  {
    if n == 0 then []
    else KeptIndexes(n - 1, sel) + (if n - 1 in sel then [] else [n - 1])
  }

  /** The rows whose index `sel` does not list, in their original order. */
  function Keep(data: seq<Row>, sel: seq<int>): (r: seq<Row>)
    ensures |r| <= |data|
  {
    if |data| == 0 then []
    else
      var last := |data| - 1;
      Keep(data[..last], sel) + (if last in sel then [] else [data[last]])
  }

  /** `Keep` picks out exactly the rows at `KeptIndexes`, one for one and in order. */
  lemma {:induction false} KeepPicksKeptIndexes(data: seq<Row>, sel: seq<int>)
    ensures |Keep(data, sel)| == |KeptIndexes(|data|, sel)|
    ensures forall k :: 0 <= k < |Keep(data, sel)| ==>
              Keep(data, sel)[k] == data[KeptIndexes(|data|, sel)[k]]
  {
    if |data| > 0 {
      var last := |data| - 1;
      var init := data[..last];
      KeepPicksKeptIndexes(init, sel);
      assert KeptIndexes(|init|, sel) == KeptIndexes(last, sel);
      forall k | 0 <= k < |Keep(init, sel)|
        ensures Keep(data, sel)[k] == data[KeptIndexes(|data|, sel)[k]]
      {
        assert Keep(data, sel)[k] == Keep(init, sel)[k];
        assert KeptIndexes(|data|, sel)[k] == KeptIndexes(last, sel)[k];
      }
    }
  }

  /** Only which in-range indices `sel` lists matters: duplicates, their order and
      indices outside the rows have no effect. */
  lemma {:induction false} KeepDependsOnListedRowsOnly(data: seq<Row>, sel1: seq<int>, sel2: seq<int>)
    requires forall i :: 0 <= i < |data| ==> (i in sel1 <==> i in sel2)
    ensures Keep(data, sel1) == Keep(data, sel2)
  {
    if |data| > 0 {
      KeepDependsOnListedRowsOnly(data[..|data| - 1], sel1, sel2);
    }
  }

  /** When `sel` lists none of the rows, nothing is removed. */
  lemma {:induction false} KeepNoneListed(data: seq<Row>, sel: seq<int>)
    requires forall i :: 0 <= i < |data| ==> i !in sel
    ensures Keep(data, sel) == data
  {
    if |data| > 0 {
      var last := |data| - 1;
      KeepNoneListed(data[..last], sel);
      assert data[..last] + [data[last]] == data;
    }
  }

  /** The in-range indices `sel` lists, as a set. */
  function ListedRows(n: nat, sel: seq<int>): set<int>
  {
    set i | 0 <= i < n && i in sel
  }

  /** Exactly one row disappears per distinct in-range index listed. */
  lemma {:induction false} KeepRemovesOneRowPerListedIndex(data: seq<Row>, sel: seq<int>)
    ensures |Keep(data, sel)| + |ListedRows(|data|, sel)| == |data|
  {
    if |data| > 0 {
      var last := |data| - 1;
      KeepRemovesOneRowPerListedIndex(data[..last], sel);
      var before := ListedRows(last, sel);
      if last in sel {
        assert ListedRows(|data|, sel) == before + {last};
      } else {
        assert ListedRows(|data|, sel) == before;
      }
    } else {
      assert ListedRows(0, sel) == {};
    }
  }

  // ---------------------------------------------------------------------------
  // The handlers, as transitions of the host's state

  /** The state right after construction, with the sample rows `sample`. */
  function Initial(sample: seq<Row>): (h: Host)
    ensures h.view.data == sample && h.view.scrollTop == 0
    ensures h.view.selection.rows == [] && h.view.selection.cols == []
    ensures h.view.selection.focusedRow == -1 && h.view.selection.focusedCol == -1
    ensures h.scrollContentHeight == 0 && h.bodyTrHeight == 24 && h.selectedIndexes == []
  {
    Host(ViewState(sample, 0, Selection([], [], -1, -1)), 0, 24, [])
  }

  /** `addItem`: the new row goes last, the selection moves to column 1 of that
      row, and the scroll offset is set to minus the last reported content
      height; the instance fields are left as they were. */
  function AfterAddItem(h: Host): (h': Host)
    ensures |h'.view.data| == |h.view.data| + 1
    ensures h'.view.data[..|h.view.data|] == h.view.data
    ensures h'.view.data[|h.view.data|] == NewItem
    ensures h'.view.selection.focusedRow == |h.view.data|
    ensures h'.view.selection.rows == [h'.view.selection.focusedRow]
    ensures h'.view.selection.cols == [1] && h'.view.selection.focusedCol == 1
    ensures h'.view.scrollTop == -h.scrollContentHeight
    ensures h'.(view := h.view) == h
  {
    var n := |h.view.data|;
    h.(view := ViewState(h.view.data + [NewItem], -h.scrollContentHeight, Selection([n], [1], n, 1)))
  }

  /** After "Add item" the focused cell is a cell of the appended row. */
  lemma AddItemFocusesNewRow(h: Host)
    ensures var v := AfterAddItem(h).view;
            0 <= v.selection.focusedRow < |v.data| && v.data[v.selection.focusedRow] == NewItem
            && v.selection.focusedRow == |v.data| - 1
  {
  }

  /** `removeItem`: with no selected indices nothing happens; otherwise the rows
      at the selected indices are filtered out and nothing else changes. */
  function AfterRemoveItem(h: Host): (h': Host)
    ensures h.selectedIndexes == [] ==> h' == h
    ensures h' == h.(view := h.view.(data := h'.view.data))
    ensures |h'.view.data| <= |h.view.data|
  {
    if |h.selectedIndexes| == 0 then h
    else h.(view := h.view.(data := Keep(h.view.data, h.selectedIndexes)))
  }

  /** "Remove item" keeps exactly the rows whose index is not selected, in their
      original relative order, and drops one row per distinct selected index in
      range. */
  lemma {:induction false} RemoveItemKeepsUnselected(h: Host)
    ensures var data, data' := h.view.data, AfterRemoveItem(h).view.data;
            var ks := KeptIndexes(|data|, h.selectedIndexes);
            && |data'| == |ks|
            && |data'| == |data| - |ListedRows(|data|, h.selectedIndexes)|
            && forall k :: 0 <= k < |data'| ==> data'[k] == data[ks[k]]
  {
    var data := h.view.data;
    if h.selectedIndexes == [] {
      KeepNoneListed(data, []);
    }
    assert AfterRemoveItem(h).view.data == Keep(data, h.selectedIndexes);
    KeepPicksKeptIndexes(data, h.selectedIndexes);
    KeepRemovesOneRowPerListedIndex(data, h.selectedIndexes);
  }

  /** Removal depends only on the set of in-range selected indices: repeating an
      index or adding an out-of-range one changes nothing. */
  lemma {:induction false} RemoveItemIgnoresDuplicatesAndOutOfRange(h: Host, extra: seq<int>)
    requires forall i :: i in extra ==> i in h.selectedIndexes || i < 0 || i >= |h.view.data|
    ensures AfterRemoveItem(h.(selectedIndexes := h.selectedIndexes + extra)).view.data
         == AfterRemoveItem(h).view.data
  {
    var data, sel := h.view.data, h.selectedIndexes;
    if sel == [] {
      KeepNoneListed(data, sel + extra);
      KeepNoneListed(data, sel);
    } else {
      KeepDependsOnListedRowsOnly(data, sel + extra, sel);
    }
  }

  /** Selecting rows 1 and 3 of four and removing them leaves rows 0 and 2. */
  lemma RemoveSecondAndFourth(h: Host)
    requires |h.view.data| == 4 && h.selectedIndexes == [1, 3]
    ensures AfterRemoveItem(h).view.data == [h.view.data[0], h.view.data[2]]
  {
    var d, sel := h.view.data, h.selectedIndexes;
    assert d[..3][..2] == d[..2] && d[..2][..1] == d[..1] && d[..1][..0] == [];
    assert Keep(d[..1], sel) == [d[0]];
    assert Keep(d[..2], sel) == [d[0]];
    assert Keep(d[..3], sel) == [d[0], d[2]];
    assert Keep(d, sel) == [d[0], d[2]];
  }

  /** `onScroll`: only the scroll offset changes, to the reported one. */
  function AfterScroll(h: Host, param: ScrollParam): (h': Host)
    ensures h'.view.scrollTop == param.scrollTop
    ensures h'.(view := h'.view.(scrollTop := h.view.scrollTop)) == h
  {
    h.(view := h.view.(scrollTop := param.scrollTop))
  }

  /** The "scroll top (0)" button: only the scroll offset changes, to 0. */
  function AfterScrollToTop(h: Host): (h': Host)
    ensures h'.view.scrollTop == 0
    ensures h'.(view := h'.view.(scrollTop := h.view.scrollTop)) == h
  {
    h.(view := h.view.(scrollTop := 0))
  }

  /** `onChangeScrollSize`: the two cached sizes are overwritten, a missing one by
      0; the rendered state and the selected indices are untouched. */
  function AfterChangeScrollSize(h: Host, param: ScrollSizeParam): (h': Host)
    ensures h'.view == h.view && h'.selectedIndexes == h.selectedIndexes
    ensures param.scrollContentHeight.Some? ==> h'.scrollContentHeight == param.scrollContentHeight.value
    ensures param.scrollContentHeight.None? ==> h'.scrollContentHeight == 0
    ensures param.bodyTrHeight.Some? ==> h'.bodyTrHeight == param.bodyTrHeight.value
    ensures param.bodyTrHeight.None? ==> h'.bodyTrHeight == 0
  {
    h.(scrollContentHeight := param.scrollContentHeight.GetOr(0),
       bodyTrHeight := param.bodyTrHeight.GetOr(0))
  }

  /** `onChangeSelection`: the selection is replaced wholesale by the payload. */
  function AfterChangeSelection(h: Host, param: Selection): (h': Host)
    ensures h'.view.selection == param
    ensures h'.(view := h'.view.(selection := h.view.selection)) == h
  {
    h.(view := h.view.(selection := param))
  }

  /** Delivering the same selection twice is the same as delivering it once. */
  lemma ChangeSelectionIsIdempotent(h: Host, param: Selection)
    ensures AfterChangeSelection(AfterChangeSelection(h, param), param) == AfterChangeSelection(h, param)
  {
  }

  /** `onChangeSelected`: the selected row indices are stored, an absent list as
      the empty one; nothing else changes and nothing re-renders. */
  function AfterChangeSelected(h: Host, param: SelectedParam): (h': Host)
    ensures param.selectedIndexes.Some? ==> h'.selectedIndexes == param.selectedIndexes.value
    ensures param.selectedIndexes.None? ==> h'.selectedIndexes == []
    ensures h'.(selectedIndexes := h.selectedIndexes) == h
  {
    h.(selectedIndexes := param.selectedIndexes.GetOr([]))
  }

  /** Adding a row, selecting just that row and removing the selection gives back
      the rows there were before. */
  lemma {:induction false} AddSelectRemoveRestoresRows(h: Host)
    ensures var added := AfterAddItem(h);
            var selected := AfterChangeSelected(added, SelectedParam(Some([added.view.selection.focusedRow])));
            AfterRemoveItem(selected).view.data == h.view.data
  {
    var data := h.view.data;
    var n := |data|;
    var grown := data + [NewItem];
    assert grown[..n] == data;
    KeepNoneListed(data, [n]);
    assert Keep(grown, [n]) == Keep(data, [n]);
  }

  // ---------------------------------------------------------------------------
  // The component

  /** The example page's component. `view` is its React state; the other three
      fields are the instance fields the callbacks write without re-rendering. */
  class InlineEdit {
    var view: ViewState
    var scrollContentHeight: int
    var bodyTrHeight: int
    var selectedIndexes: seq<int>

    /** The component's current state as a value. */
    function Snapshot(): Host
      reads this
    {
      Host(view, scrollContentHeight, bodyTrHeight, selectedIndexes)
    }

    /** Construction, with the page's sample rows given as `sample`. */
    constructor (sample: seq<Row>)
      ensures Snapshot() == Initial(sample)
    {
      scrollContentHeight := 0;
      bodyTrHeight := 24;
      selectedIndexes := [];
      view := ViewState(sample, 0, Selection([], [], -1, -1));
    }

    method AddItem()
      modifies this
      ensures Snapshot() == AfterAddItem(old(Snapshot()))
    {
      var n := |view.data|;
      view := ViewState(view.data + [NewItem], -scrollContentHeight, Selection([n], [1], n, 1));
    }

    method RemoveItem()
      modifies this
      ensures Snapshot() == AfterRemoveItem(old(Snapshot()))
    {
      if |selectedIndexes| != 0 {
        var kept := Keep(view.data, selectedIndexes);
        view := view.(data := kept);
      }
    }

    method OnScroll(param: ScrollParam)
      modifies this
      ensures Snapshot() == AfterScroll(old(Snapshot()), param)
    {
      view := view.(scrollTop := param.scrollTop);
    }

    method ScrollToTop()
      modifies this
      ensures Snapshot() == AfterScrollToTop(old(Snapshot()))
    {
      view := view.(scrollTop := 0);
    }

    method OnChangeScrollSize(param: ScrollSizeParam)
      modifies this
      ensures Snapshot() == AfterChangeScrollSize(old(Snapshot()), param)
    {
      scrollContentHeight := param.scrollContentHeight.GetOr(0);
      bodyTrHeight := param.bodyTrHeight.GetOr(0);
    }

    method OnChangeSelection(param: Selection)
      modifies this
      ensures Snapshot() == AfterChangeSelection(old(Snapshot()), param)
    {
      view := view.(selection := param);
    }

    method OnChangeSelected(param: SelectedParam)
      modifies this
      ensures Snapshot() == AfterChangeSelected(old(Snapshot()), param)
    {
      selectedIndexes := param.selectedIndexes.GetOr([]);
    }
  }
}
