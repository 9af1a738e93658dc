/** The drag-selection overlay of the grid: a leaf component that draws one
    rectangle from the point where a drag started to the point it has reached,
    and re-renders only when one of those three inputs changes. */
module GridSelector {
  import opened Wrappers

  /** A pixel offset in the grid's local coordinates. */
  datatype Point = Point(x: int, y: int)

  /** The style-class mapping handed down by the grid; only the class of the
      selector box is used. */
  datatype GridCss = GridCss(cellSelector: string)

  /** The component's props. */
  datatype Props = Props(
    selecting: bool,
    gridCSS: GridCss,
    selectionStartOffset: Point,
    selectionEndOffset: Point)

  /** The inline style of the selector box. */
  datatype Rect = Rect(left: int, top: int, width: int, height: int)

  /** The one element `render` emits: a box with a class name and a style. */
  datatype Selector = Selector(className: string, style: Rect)

  /** `render`: nothing unless a drag is in progress; otherwise a box anchored at
      the start offset that reaches exactly to the end offset. Width and height
      are plain differences, so a drag up or to the left gives negative sizes. */
  function Render(props: Props): (out: Option<Selector>)
    ensures out.None? <==> !props.selecting
    ensures out.Some? ==> out.value.className == props.gridCSS.cellSelector
    ensures out.Some? ==>
      var r := out.value.style;
      && r.left == props.selectionStartOffset.x
      && r.top == props.selectionStartOffset.y
      && r.left + r.width == props.selectionEndOffset.x
      && r.top + r.height == props.selectionEndOffset.y
  {
    if !props.selecting then None
    else
      var start, end := props.selectionStartOffset, props.selectionEndOffset;
      Some(Selector(props.gridCSS.cellSelector,
                    Rect(start.x, start.y, end.x - start.x, end.y - start.y)))
  }

  /** `shouldComponentUpdate`: true means "the props changed". The next props are
      treated as unchanged exactly when they differ from the current ones at
      most in `gridCSS`. */
  function ShouldComponentUpdate(props: Props, nextProps: Props): (changed: bool)
    ensures !changed <==> nextProps == props.(gridCSS := nextProps.gridCSS)
  {
    props.selecting != nextProps.selecting
    || props.selectionStartOffset != nextProps.selectionStartOffset
    || props.selectionEndOffset != nextProps.selectionEndOffset
  }

  /** Geometry of what `render` draws, ignoring the class name. */
  function Geometry(out: Option<Selector>): Option<Rect>
  {
    match out
    case None => None
    case Some(s) => Some(s.style)
  }

  /** Whatever the offsets, a component that is not selecting draws nothing. */
  lemma NotSelectingRendersNothing(props: Props)
    requires !props.selecting
    ensures Render(props) == None
  {
  }

  /** A reverse drag is not clamped: its width and height are negative. */
  lemma ReverseDragIsNegative(props: Props)
    requires props.selecting
    requires props.selectionEndOffset.x < props.selectionStartOffset.x
    requires props.selectionEndOffset.y < props.selectionStartOffset.y
    ensures Render(props).Some?
    ensures Render(props).value.style.width < 0 && Render(props).value.style.height < 0
  {
  }

  /** The re-render gate is sound for the geometry: when it says "unchanged",
      rendering again would draw the same box (or again nothing). */
  lemma SkippedUpdateKeepsGeometry(props: Props, nextProps: Props)
    requires !ShouldComponentUpdate(props, nextProps)
    ensures Geometry(Render(nextProps)) == Geometry(Render(props))
  {
  }

  /** The gate looks at neither `gridCSS` nor the next state: replacing only the
      class mapping never triggers a re-render. */
  lemma GridCssIsIgnored(props: Props, css: GridCss)
    ensures !ShouldComponentUpdate(props, props.(gridCSS := css))
  {
  }

  /** Because of that, a skipped update can leave a stale class name on screen:
      with only `gridCSS` changed the gate says "unchanged" while `render`
      would produce a different element. */
  lemma SkippedUpdateCanMissClassName()
    ensures var before := Props(true, GridCss("a"), Point(0, 0), Point(1, 1));
            var after := before.(gridCSS := GridCss("b"));
            !ShouldComponentUpdate(before, after) && Render(before) != Render(after)
  {
  }
}
