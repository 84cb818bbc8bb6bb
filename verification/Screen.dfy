/**
 The screen: sidebar columns on the left, the status row at the bottom, and the panes of the
 visible layout in what remains.
 */
module Screen {
  import opened Common
  import opened Layout

  datatype Size = Size(cols: nat, rows: nat)

  const SIDEBAR_RAIL_WIDTH: nat := 3

  /** Columns taken by the sidebar: none when hidden, a rail when collapsed, else the configured width. */
  function SidebarWidth(visible: bool, collapsed: bool, configured: nat, cols: nat): (w: nat)
    ensures w <= cols - w
    ensures !visible ==> w == 0
  {
    if !visible then 0 else
    var desired := if collapsed then SIDEBAR_RAIL_WIDTH else Max(configured, SIDEBAR_RAIL_WIDTH);
    Min(desired, cols / 2)
  }

  function ContentViewport(sidebarWidth: nat, size: Size): Rect
  {
    var sidebar := Min(sidebarWidth, size.cols);
    Rect(sidebar, 0, size.cols - sidebar, SatSub(size.rows, 1))
  }

  /** A zoomed pane hides the split tree. */
  function VisibleLayout(layout: PaneNode, zoomed: Option<PaneId>): PaneNode
  {
    match zoomed
    case Some(pane) => Leaf(pane)
    case None => layout
  }

  datatype CellOwner = SidebarCell | StatusCell | Content(owner: Owner)

  /** What each part of the screen claims: sidebar frame, status row, and the layout in the viewport. */
  ghost predicate Claims(layout: PaneNode, sidebarWidth: nat, size: Size, o: CellOwner, x: nat, y: nat)
  {
    match o
    case SidebarCell => x < sidebarWidth && y < SatSub(size.rows, 1)
    case StatusCell => y == SatSub(size.rows, 1)
    case Content(owner) => Owns(layout, ContentViewport(sidebarWidth, size), owner, x, y)
  }

  function ScreenOwner(layout: PaneNode, sidebarWidth: nat, size: Size, x: nat, y: nat): CellOwner
  {
    if y == SatSub(size.rows, 1) then StatusCell
    else if x < sidebarWidth then SidebarCell
    else Content(OwnerOf(layout, ContentViewport(sidebarWidth, size), x, y))
  }

  /** With any sidebar width, a cell's one owner is the one who claims it. */
  lemma ScreenOwnerClaims(layout: PaneNode, sidebarWidth: nat, size: Size, o: CellOwner, x: nat, y: nat)
    requires Distinct(layout) && sidebarWidth <= size.cols && x < size.cols && y < size.rows
    ensures Claims(layout, sidebarWidth, size, o, x, y) <==> o == ScreenOwner(layout, sidebarWidth, size, x, y)
  {
    if o.Content? {
      Tiling(layout, ContentViewport(sidebarWidth, size), o.owner, x, y);
    }
  }

  /**
   Every screen cell has exactly one owner among sidebar, status row, panes and dividers, whatever
   the sidebar's settings and whether or not a pane is zoomed; and the sidebar never takes more than
   half of the columns, so the panes keep the rest.
   */
  lemma EveryScreenCellHasOneOwner(
    layout: PaneNode, zoomed: Option<PaneId>, shown: bool, collapsed: bool, configured: nat, size: Size,
    o: CellOwner, x: nat, y: nat)
    requires Distinct(layout) && x < size.cols && y < size.rows
    ensures var (visible, width) :=
      (VisibleLayout(layout, zoomed), SidebarWidth(shown, collapsed, configured, size.cols));
      && (Claims(visible, width, size, o, x, y) <==> o == ScreenOwner(visible, width, size, x, y))
      && (!shown || x >= size.cols - size.cols / 2 ==> ScreenOwner(visible, width, size, x, y) != SidebarCell)
  {
    var (visible, width) := (VisibleLayout(layout, zoomed), SidebarWidth(shown, collapsed, configured, size.cols));
    ScreenOwnerClaims(visible, width, size, o, x, y);
  }

  /**
   Where the sidebar ends, in columns: expanded, at the configured width; collapsed, after three;
   where that is more than half of the screen, in the middle; hidden, nowhere. It reaches down to the
   status row, which is the last one.
   */
  lemma SidebarTakesItsColumns(
    layout: PaneNode, shown: bool, collapsed: bool, configured: nat, size: Size, x: nat, y: nat)
    requires x < size.cols && y < size.rows
    ensures var o := ScreenOwner(layout, SidebarWidth(shown, collapsed, configured, size.cols), size, x, y);
      && (o == StatusCell <==> y == size.rows - 1)
      && (!shown ==> o != SidebarCell)
      && (y < size.rows - 1 && shown ==>
            && (!collapsed && 3 <= configured <= size.cols / 2 ==> (o == SidebarCell <==> x < configured))
            && (!collapsed && configured <= 3 <= size.cols / 2 ==> (o == SidebarCell <==> x < 3))
            && (collapsed && 6 <= size.cols ==> (o == SidebarCell <==> x < 3))
            && (size.cols / 2 < 3 || (!collapsed && size.cols / 2 < configured) ==>
                  (o == SidebarCell <==> x < size.cols / 2)))
  {
  }

  /** A zoomed pane, or one alone, takes every cell right of the sidebar and above the status row. */
  lemma ZoomedPaneTakesTheRest(layout: PaneNode, pane: PaneId, width: nat, size: Size, x: nat, y: nat)
    requires width <= size.cols && x < size.cols && y < size.rows
    ensures ScreenOwner(VisibleLayout(layout, Some(pane)), width, size, x, y) == Content(Pane(pane))
       <==> width <= x && y < size.rows - 1
    ensures layout == Leaf(pane) ==> VisibleLayout(layout, None) == VisibleLayout(layout, Some(pane))
    ensures Compute(VisibleLayout(layout, Some(pane)), ContentViewport(width, size))
      == map[pane := Rect(width, 0, size.cols - width, size.rows - 1)]
  {
  }
}
