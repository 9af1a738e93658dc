# Inline-edit host and drag-selection overlay of ax-datagrid

This project models two pieces of the ax-datagrid repository in Dafny:

- **GridSelector** (`src/component/GridSelector.tsx`), the overlay that draws the
  drag-selection box. `render` is a total function from the props to either no
  output or a box `{left, top, width, height}` that starts at the start offset and
  reaches exactly to the end offset. Nothing is clamped, so a drag up or to the left
  gives a negative width or height. `shouldComponentUpdate` is a change predicate
  over three props: the selecting flag and the two offsets. `gridCSS` and the next
  state play no part in it.
- **InlineEdit** (`src/examples/InlineEdit.tsx`), the example page that hosts the
  grid. It has a React state of which the model keeps the rows (`data`), `scrollTop`
  and the cell `selection`. It also has three instance fields that the callbacks overwrite
  without re-rendering: `scrollContentHeight`, `bodyTrHeight` and
  `selectedIndexes`. Its handlers are "Add item", "Remove item", the grid's
  `onScroll`, `onChangeScrollSize` and `onChangeSelected` callbacks, its
  `onChangeSelection` handler and the "scroll top (0)" button. The page is a
  class `InlineEditExample.InlineEdit` whose methods update these fields in place.
  Each method is specified by a transition function on a value `Host` of the
  whole state (`AfterAddItem`, `AfterRemoveItem`, ...). The lemmas about the page's
  behaviour are stated over those functions. `setState` is read as an immediate,
  synchronous assignment of the parts of the state it names.

"Remove item" filters the rows by index. That filter is the pure function
`Keep`. `KeptIndexes` is an independent description of the same filter: the
increasing list of indices that are not selected. Lemmas connect the two.

The page adds one fixed row and focuses column 1 of it. Column 1 is hard-coded in
the source, and the model follows the source. Column 1 is `title`, but column 0
(`id`) has an editor too, so column 1 is not "the first editable column". The
page also declares `onChangeSelection`, but does not pass it to the grid (the
line is commented out). The handler is modelled as written.

Files: `wrappers.dfy` (an `Option` type), `grid_selector.dfy` (module
`GridSelector`), `inline_edit.dfy` (module `InlineEditExample`).

## Model

| member | source | states |
|---|---|---|
| GridSelector.Render | src/component/GridSelector.tsx:25-40 | no output exactly when not selecting; otherwise the box has the cell-selector class, its corner at the start offset, and `left + width` and `top + height` equal to the end offset |
| GridSelector.NotSelectingRendersNothing | src/component/GridSelector.tsx:33 | when not selecting, nothing is rendered, whatever the offsets |
| GridSelector.ReverseDragIsNegative | src/component/GridSelector.tsx:38-39 | a drag that ends above and left of its start gives a negative width and a negative height (no clamping) |
| GridSelector.ShouldComponentUpdate | src/component/GridSelector.tsx:11-22 | returns "unchanged" (false) exactly when the next props equal the current ones except possibly in `gridCSS` |
| GridSelector.GridCssIsIgnored | src/component/GridSelector.tsx:14-18 | changing only `gridCSS` never triggers a re-render |
| GridSelector.SkippedUpdateKeepsGeometry | src/component/GridSelector.tsx:11-40 | when the gate says "unchanged", rendering again would draw the same box, or again nothing |
| GridSelector.SkippedUpdateCanMissClassName | src/component/GridSelector.tsx:14-46 | there are props where the gate says "unchanged" and render would still emit a different class name |
| InlineEditExample.KeptIndexes | src/examples/InlineEdit.tsx:324-326 | every listed index is in range and not selected, every in-range unselected index is listed, and the list is strictly increasing |
| InlineEditExample.Keep | src/examples/InlineEdit.tsx:324-326 | the filtered rows are never more than the rows |
| InlineEditExample.KeepPicksKeptIndexes | src/examples/InlineEdit.tsx:324-326 | the k-th kept row is the row at the k-th unselected index, so the result holds exactly the unselected rows in original order |
| InlineEditExample.KeepDependsOnListedRowsOnly | src/examples/InlineEdit.tsx:325 | two index lists that agree on which in-range rows they name filter the same rows |
| InlineEditExample.KeepNoneListed | src/examples/InlineEdit.tsx:324-326 | a list naming no row keeps every row |
| InlineEditExample.KeepRemovesOneRowPerListedIndex | src/examples/InlineEdit.tsx:324-326 | kept rows plus distinct in-range listed indices equals the row count |
| InlineEditExample.Initial | src/examples/InlineEdit.tsx:161-229 | the rows are the sample rows; `scrollTop` is 0; the selection has empty rows and cols and focus -1/-1; `scrollContentHeight` is 0; `bodyTrHeight` is 24; `selectedIndexes` is empty |
| InlineEditExample.AfterAddItem | src/examples/InlineEdit.tsx:295-318 | N rows become N+1: the first N are unchanged and the last is the fixed new item; the selection is row N and column 1, focused at (N, 1); `scrollTop` is minus `scrollContentHeight`; the instance fields are unchanged |
| InlineEditExample.AddItemFocusesNewRow | src/examples/InlineEdit.tsx:311-316 | after adding, the focused row is a valid index of the rows, the last one, and holds the new item |
| InlineEditExample.AfterRemoveItem | src/examples/InlineEdit.tsx:320-329 | with no selected indices the state is unchanged; otherwise only the rows change, and they do not grow |
| InlineEditExample.RemoveItemKeepsUnselected | src/examples/InlineEdit.tsx:322-327 | the remaining rows are exactly the rows at unselected indices, in order, one fewer per distinct in-range selected index |
| InlineEditExample.RemoveItemIgnoresDuplicatesAndOutOfRange | src/examples/InlineEdit.tsx:324-326 | appending repeated or out-of-range indices to the selection does not change which rows remain |
| InlineEditExample.RemoveSecondAndFourth | src/examples/InlineEdit.tsx:320-329 | removing indices [1, 3] from four rows leaves rows 0 and 2 |
| InlineEditExample.AfterScroll | src/examples/InlineEdit.tsx:331-336 | only `scrollTop` changes, to the reported offset |
| InlineEditExample.AfterScrollToTop | src/examples/InlineEdit.tsx:415 | only `scrollTop` changes, to 0 |
| InlineEditExample.AfterChangeScrollSize | src/examples/InlineEdit.tsx:338-342 | the two cached sizes take the payload's values, 0 where a value is missing; the rendered state and `selectedIndexes` are unchanged |
| InlineEditExample.AfterChangeSelection | src/examples/InlineEdit.tsx:344-347 | the selection becomes the payload and nothing else changes |
| InlineEditExample.ChangeSelectionIsIdempotent | src/examples/InlineEdit.tsx:344-347 | applying the same selection payload twice equals applying it once |
| InlineEditExample.AfterChangeSelected | src/examples/InlineEdit.tsx:393-396 | `selectedIndexes` becomes the payload's list, or empty when it is missing; nothing else changes |
| InlineEditExample.AddSelectRemoveRestoresRows | src/examples/InlineEdit.tsx:295-329 | add a row, select only the new row, then remove: the rows are back to what they were |
| InlineEditExample.InlineEdit.constructor | src/examples/InlineEdit.tsx:161-229 | the new component's state is `Initial` of its sample rows |
| InlineEditExample.InlineEdit.AddItem | src/examples/InlineEdit.tsx:295-318 | the new state is `AfterAddItem` of the old one |
| InlineEditExample.InlineEdit.RemoveItem | src/examples/InlineEdit.tsx:320-329 | the new state is `AfterRemoveItem` of the old one |
| InlineEditExample.InlineEdit.OnScroll | src/examples/InlineEdit.tsx:331-336 | the new state is `AfterScroll` of the old one |
| InlineEditExample.InlineEdit.ScrollToTop | src/examples/InlineEdit.tsx:415 | the new state is `AfterScrollToTop` of the old one |
| InlineEditExample.InlineEdit.OnChangeScrollSize | src/examples/InlineEdit.tsx:338-342 | the new state is `AfterChangeScrollSize` of the old one |
| InlineEditExample.InlineEdit.OnChangeSelection | src/examples/InlineEdit.tsx:344-347 | the new state is `AfterChangeSelection` of the old one |
| InlineEditExample.InlineEdit.OnChangeSelected | src/examples/InlineEdit.tsx:393-396 | the new state is `AfterChangeSelected` of the old one |

## Left out

- Rendering: the JSX markup, the styled-components CSS, the buttons and the page text. This is presentation with no state to model.
- The five cell editors and the column definitions that use them (`src/examples/InlineEdit.tsx:42-156`, `169-217`). They wrap antd controls and `moment`, which are not part of this model. For the same reason, `columns` is not part of the modelled state.
- The `DataGrid` widget itself: its virtualization, its editing sessions, and how it reads a negative `scrollTop`. It is an external dependency and is not part of this model.
- Resize handling (`getDataGridContainerRect`, the window listener added on mount and removed on unmount) and the `width` state it writes; `height` keeps its initial 300 and is only passed to the grid, and `columns` is never changed. This is DOM measurement and event registration.
- The contents of the six sample rows. The constructor takes them as a parameter, because some rows hold `new Date()`, which reads the clock. A row's `date` is either a date string or such a date object; the model does not look inside a date object.
- The instance field `scrollTop` (`src/examples/InlineEdit.tsx:161`). It is initialised to 0 and never read or written again. The handlers use the state's `scrollTop`, which is modelled.
- `console.log` calls.
- React's batching and deferral of `setState`. Each handler is one atomic, synchronous update.
- JavaScript numbers. Offsets, sizes and indices are unbounded integers. Floating point, `NaN`, `-0` and `null` are not modelled. For `|| 0` and `|| []`, an absent value is `None`. A present value is used as it is: this matches the source for integers, because a present 0 becomes 0 either way.
- GridSelector.ShouldComponentUpdate: compares the two offsets by value. The source compares them with `!==`, which is reference identity, so a fresh offset object with the same coordinates re-renders there but not in the model. The `nextState` argument is not a parameter, because it is never read.
- GridSelector.Render: `gridCSS.cellSelector` is modelled as a string. `classNames` of such a string is the string itself, and other values of that property are not modelled.
