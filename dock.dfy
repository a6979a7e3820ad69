/**
 * The dock coordinator of crates/workspace/src/dock.rs, as values: the `Dock`
 * record, the part of the workspace the dock reads and writes, and every dock
 * transition as a pure function. The class in workspace.dfy performs the same
 * transitions in place and is proved equal to these functions.
 */
module DockModel {
  import opened Wrappers
  import opened DockPositions

  /** A pane handle. */
  type PaneId = nat
  /** A content item; the default-item factory hands out fresh ones. */
  type ItemId = nat
  /** A panel size; the source's floating-point pixels are abstract here. */
  type Size = int

  datatype SidebarSide = Left | Right

  /** The commands `init` registers on the workspace. */
  datatype DockAction =
    | FocusDock
    | HideDock
    | AnchorDockRight
    | AnchorDockBottom
    | ExpandDock
    | MoveDock(anchor: DockAnchor)

  /** The edge of a resizable panel that carries the drag handle. */
  datatype Edge = TopEdge | LeftEdge

  /** The theme's sizes for a panel whose size was never recorded. */
  datatype DockStyle = DockStyle(initialSizeBottom: Size, initialSizeRight: Size)

  /** What `Dock::render` lays out, without the styling. */
  datatype DockView =
    | ResizablePanel(resizeEdge: Edge, initialSize: Size)
    | ExpandedOverlay(onClickOutside: DockAction)

  datatype Dock = Dock(position: DockPosition, panelSizes: map<DockAnchor, Size>, pane: PaneId)
  {
    /** The pane, only while the dock is visible. */
    function VisiblePane(): (r: Option<PaneId>)
      ensures r.Some? <==> position.IsVisible()
      ensures r.Some? ==> r.value == pane
    {
      if position.IsVisible() then Some(pane) else None
    }

    function IsAnchoredAt(anchor: DockAnchor): (r: bool)
      ensures r <==> position == Shown(anchor)
    {
      position.IsVisible() && position.Anchor() == anchor
    }

    function StoredSizeOr(anchor: DockAnchor, fallback: Size): (r: Size)
    {
      if anchor in panelSizes then panelSizes[anchor] else fallback
    }

    /**
     * The dock's view at a candidate anchor: nothing unless the dock is
     * visible exactly there; a resizable panel whose handle faces the centre
     * for Bottom and Right; a full overlay that hides the dock when clicked
     * outside for Expanded.
     */
    function Render(anchor: DockAnchor, style: DockStyle): (view: Option<DockView>)
      ensures view.Some? <==> IsAnchoredAt(anchor)
      ensures view.Some? && anchor == DockAnchor.Expanded ==> view.value == ExpandedOverlay(HideDock)
      ensures view.Some? && anchor == DockAnchor.Bottom ==>
        view.value.ResizablePanel? && view.value.resizeEdge == TopEdge &&
        view.value.initialSize == (if anchor in panelSizes then panelSizes[anchor] else style.initialSizeBottom)
      ensures view.Some? && anchor == DockAnchor.Right ==>
        view.value.ResizablePanel? && view.value.resizeEdge == LeftEdge &&
        view.value.initialSize == (if anchor in panelSizes then panelSizes[anchor] else style.initialSizeRight)
    {
      if position.IsVisible() && position.Anchor() == anchor then
        match anchor
        case Bottom => Some(ResizablePanel(TopEdge, StoredSizeOr(anchor, style.initialSizeBottom)))
        case Right => Some(ResizablePanel(LeftEdge, StoredSizeOr(anchor, style.initialSizeRight)))
        case Expanded => Some(ExpandedOverlay(HideDock))
      else
        None
    }

    /** The write-back after a layout pass: remember the panel's size for its anchor. */
    function WithPanelSize(anchor: DockAnchor, size: Size): (d: Dock)
      ensures d.position == position && d.pane == pane
      ensures d.panelSizes.Keys == panelSizes.Keys + {anchor} && d.panelSizes[anchor] == size
      ensures forall a :: a in panelSizes && a != anchor ==> d.panelSizes[a] == panelSizes[a]
    {
      this.(panelSizes := panelSizes[anchor := size])
    }
  }

  /** `Dock::new`: hidden at the configured anchor, no sizes remembered. */
  function NewDock(defaultAnchor: DockAnchor, pane: PaneId): (d: Dock)
    ensures !d.position.IsVisible() && d.position.Anchor() == defaultAnchor
    ensures d.VisiblePane() == None && d.panelSizes == map[] && d.pane == pane
  {
    Dock(Hidden(defaultAnchor), map[], pane)
  }

  /** Where input focus was last sent. */
  datatype Focus = DockPane | CenterPane(pane: PaneId) | Elsewhere

  datatype Event = DockAnchorChanged

  /**
   * The part of the workspace the dock reads and writes: the dock, its pane's
   * items and anchor tag, the two sidebars, the focus, the (weak) last active
   * centre pane, the item-id supply of the default-item factory and the
   * events emitted so far.
   */
  datatype WorkspaceState = WorkspaceState(
    dock: Dock,
    dockItems: seq<ItemId>,
    dockedAt: Option<DockAnchor>,
    leftSidebarOpen: bool,
    rightSidebarOpen: bool,
    focus: Focus,
    lastActiveCenterPane: Option<PaneId>,
    nextItemId: ItemId,
    events: seq<Event>)
  {
    predicate SidebarOpen(side: SidebarSide)
    {
      match side
      case Left => leftSidebarOpen
      case Right => rightSidebarOpen
    }

    /** The dock's pane reports itself active when it holds the focus. */
    predicate DockPaneActive()
    {
      focus == DockPane
    }
  }

  /**
   * What every workspace keeps: items in the dock came from the factory
   * before `nextItemId`; a visible dock is never empty; a dock shown at Right
   * never shares the right edge with the right sidebar; the pane's tag is the
   * dock's anchor.
   */
  ghost predicate Inv(s: WorkspaceState)
  {
    && (forall i :: i in s.dockItems ==> i < s.nextItemId)
    && (s.dock.position.IsVisible() ==> s.dockItems != [])
    && (s.dock.position == Shown(DockAnchor.Right) ==> !s.rightSidebarOpen)
    && s.dockedAt == Some(s.dock.position.Anchor())
  }

  /** A workspace as `Dock::new` leaves it: dock hidden, pane empty and inactive. */
  function NewWorkspace(defaultAnchor: DockAnchor, dockPane: PaneId, lastActiveCenterPane: Option<PaneId>): (s: WorkspaceState)
    ensures Inv(s)
    ensures s.dock == NewDock(defaultAnchor, dockPane)
    ensures s.dockItems == [] && !s.DockPaneActive() && s.events == []
  {
    WorkspaceState(NewDock(defaultAnchor, dockPane), [], Some(defaultAnchor), false, false,
                   Elsewhere, lastActiveCenterPane, 0, [])
  }

  /** The default-item factory followed by `Pane::add_item` with activate and focus. */
  function AddDefaultItem(s: WorkspaceState): (t: WorkspaceState)
    ensures t.dockItems == s.dockItems + [s.nextItemId] && t.nextItemId == s.nextItemId + 1
    ensures t.DockPaneActive()
    ensures t.dock == s.dock && t.dockedAt == s.dockedAt && t.events == s.events
    ensures t.leftSidebarOpen == s.leftSidebarOpen && t.rightSidebarOpen == s.rightSidebarOpen
    ensures t.lastActiveCenterPane == s.lastActiveCenterPane
  {
    s.(dockItems := s.dockItems + [s.nextItemId], nextItemId := s.nextItemId + 1, focus := DockPane)
  }

  /** The single place where the dock's position changes, with all its consequences. */
  function SetDockPosition(s: WorkspaceState, p: DockPosition): (t: WorkspaceState)
    ensures t.dock == s.dock.(position := p)
    ensures t.dockedAt == Some(p.Anchor())
    ensures t.leftSidebarOpen == s.leftSidebarOpen
    ensures t.rightSidebarOpen == (s.rightSidebarOpen && p != Shown(DockAnchor.Right))
    ensures p.IsVisible() ==> t.DockPaneActive() && t.dockItems != []
    ensures p.IsVisible() && s.dockItems == [] ==>
      t.dockItems == [s.nextItemId] && t.nextItemId == s.nextItemId + 1
    ensures s.dockItems != [] || !p.IsVisible() ==>
      t.dockItems == s.dockItems && t.nextItemId == s.nextItemId
    ensures !p.IsVisible() && s.lastActiveCenterPane.Some? ==> t.focus == CenterPane(s.lastActiveCenterPane.value)
    ensures !p.IsVisible() && s.lastActiveCenterPane.None? ==> t.focus == s.focus
    ensures t.lastActiveCenterPane == s.lastActiveCenterPane
    ensures t.events == s.events + [DockAnchorChanged]
    ensures Inv(s) ==> Inv(t)
  {
    // the new position, and the pane tagged with its anchor
    var placed := s.(dock := s.dock.(position := p), dockedAt := Some(p.Anchor()));
    var settled :=
      if p.IsVisible() then
        // a dock shown at Right closes an open right sidebar
        var exclusive :=
          if p.Anchor() == DockAnchor.Right && placed.rightSidebarOpen
          then placed.(rightSidebarOpen := false) else placed;
        // an empty pane gets a default item, which focuses it; otherwise the pane is focused
        if exclusive.dockItems == [] then AddDefaultItem(exclusive) else exclusive.(focus := DockPane)
      else
        // hiding gives focus back to the last active centre pane, if it still exists
        match placed.lastActiveCenterPane
        case Some(center) => placed.(focus := CenterPane(center))
        case None => placed;
    settled.(events := settled.events + [DockAnchorChanged])
  }

  /** `Dock::hide` (and the `HideDock` handler): hide where the dock is. */
  function Hide(s: WorkspaceState): (t: WorkspaceState)
    ensures t.dock.position == Hidden(s.dock.position.Anchor())
    ensures t.dockItems == s.dockItems && t.nextItemId == s.nextItemId
    ensures t.leftSidebarOpen == s.leftSidebarOpen && t.rightSidebarOpen == s.rightSidebarOpen
    ensures Inv(s) ==> Inv(t)
  {
    SetDockPosition(s, s.dock.position.Hide())
  }

  /** `Dock::show` (and the `FocusDock` handler): show where the dock was, focused. */
  function Show(s: WorkspaceState): (t: WorkspaceState)
    ensures t.dock.position == Shown(s.dock.position.Anchor())
    ensures t.DockPaneActive() && t.dockItems != []
    ensures Inv(s) ==> Inv(t)
  {
    SetDockPosition(s, s.dock.position.Show())
  }

  /** `Dock::move_dock`: show at the given anchor, re-running every check of a show. */
  function MoveDockTo(s: WorkspaceState, anchor: DockAnchor): (t: WorkspaceState)
    ensures t.dock.position == Shown(anchor)
    ensures t.DockPaneActive() && t.dockItems != []
    ensures anchor == DockAnchor.Right ==> !t.rightSidebarOpen
    ensures anchor != DockAnchor.Right ==>
      t.leftSidebarOpen == s.leftSidebarOpen && t.rightSidebarOpen == s.rightSidebarOpen
    ensures Inv(s) ==> Inv(t)
  {
    SetDockPosition(s, Shown(anchor))
  }

  /**
   * Called when a sidebar has just opened: the dock gives way when it is
   * shown at Right and the right sidebar opened, or when it is expanded.
   */
  function HideOnSidebarShown(s: WorkspaceState, side: SidebarSide): (t: WorkspaceState)
    ensures (side == SidebarSide.Right && s.dock.position == Shown(DockAnchor.Right))
            || s.dock.position == Shown(DockAnchor.Expanded)
            ==> t == Hide(s) && t.dock.position == Hidden(s.dock.position.Anchor())
    ensures !((side == SidebarSide.Right && s.dock.position == Shown(DockAnchor.Right))
              || s.dock.position == Shown(DockAnchor.Expanded))
            ==> t == s
  {
    if (side == SidebarSide.Right && s.dock.IsAnchoredAt(DockAnchor.Right))
       || s.dock.IsAnchoredAt(DockAnchor.Expanded)
    then Hide(s)
    else s
  }

  /** A registered command, as `init` routes it to the dock's handlers. */
  function Perform(s: WorkspaceState, action: DockAction): (t: WorkspaceState)
    ensures action == FocusDock ==> t.dock.position == Shown(s.dock.position.Anchor())
    ensures action == HideDock ==> t.dock.position == Hidden(s.dock.position.Anchor())
    ensures action == AnchorDockRight ==> t.dock.position == Shown(DockAnchor.Right)
    ensures action == AnchorDockBottom ==> t.dock.position == Shown(DockAnchor.Bottom)
    ensures action == ExpandDock ==> t.dock.position == Shown(DockAnchor.Expanded)
    ensures action.MoveDock? ==> t.dock.position == Shown(action.anchor)
    ensures t.events == s.events + [DockAnchorChanged]
    ensures Inv(s) ==> Inv(t)
  {
    match action
    case FocusDock => Show(s)
    case HideDock => Hide(s)
    case AnchorDockRight => MoveDockTo(s, DockAnchor.Right)
    case AnchorDockBottom => MoveDockTo(s, DockAnchor.Bottom)
    case ExpandDock => MoveDockTo(s, DockAnchor.Expanded)
    case MoveDock(anchor) => MoveDockTo(s, anchor)
  }

  /** The status-bar toggle button: nothing once the workspace is gone. */
  datatype ToggleDockButton =
    | Empty
    | Button(icon: string, active: bool, onClick: DockAction, tooltip: string)

  /**
   * The button for a dock position (`None` when the weak workspace handle no
   * longer upgrades): the anchor's icon, active styling while visible, and a
   * click that hides a visible dock and focuses a hidden one.
   */
  function RenderToggleDockButton(position: Option<DockPosition>): (b: ToggleDockButton)
    ensures b.Empty? <==> position.None?
    ensures b.Button? ==>
      b.icon == IconForDockAnchor(position.value.Anchor()) && b.active == position.value.IsVisible()
    ensures b.Button? ==>
      (b.onClick == HideDock <==> position.value.IsVisible()) &&
      (b.onClick == FocusDock <==> !position.value.IsVisible())
  {
    match position
    case None => Empty
    case Some(p) =>
      if p.IsVisible() then Button(IconForDockAnchor(p.Anchor()), true, HideDock, "Hide Dock")
      else Button(IconForDockAnchor(p.Anchor()), false, FocusDock, "Focus Dock")
  }

  /** Clicking the toggle button flips the dock's visibility and keeps its anchor. */
  lemma ToggleButtonFlipsVisibility(s: WorkspaceState)
    ensures var b := RenderToggleDockButton(Some(s.dock.position));
            var t := Perform(s, b.onClick);
            t.dock.position.IsVisible() == !s.dock.position.IsVisible() &&
            t.dock.position.Anchor() == s.dock.position.Anchor()
  {
  }

  /** A render pass at a visible anchor followed by its size write-back opens at that size next time. */
  lemma RenderReusesRecordedSize(d: Dock, anchor: DockAnchor, style: DockStyle, size: Size)
    requires anchor != DockAnchor.Expanded && d.IsAnchoredAt(anchor)
    ensures d.WithPanelSize(anchor, size).Render(anchor, style) == Some(ResizablePanel(
      if anchor == DockAnchor.Bottom then TopEdge else LeftEdge, size))
  {
  }

  /*
   * What the dock sees of code outside dock.rs: a sidebar toggled by
   * `Workspace::toggle_sidebar`, which reports an opening to the dock, and
   * all dock items closed, after which the workspace hides the dock.
   */

  function ToggleSidebar(s: WorkspaceState, side: SidebarSide): (t: WorkspaceState)
    ensures t.SidebarOpen(side) == !s.SidebarOpen(side)
    ensures side == SidebarSide.Left ==> t.rightSidebarOpen == s.rightSidebarOpen
    ensures side == SidebarSide.Right ==> t.leftSidebarOpen == s.leftSidebarOpen
    ensures t.SidebarOpen(side) ==>
      t.dock.position ==
        (if (side == SidebarSide.Right && s.dock.position == Shown(DockAnchor.Right))
            || s.dock.position == Shown(DockAnchor.Expanded)
         then Hidden(s.dock.position.Anchor()) else s.dock.position)
    ensures !t.SidebarOpen(side) ==>
      t.dock == s.dock && t.dockItems == s.dockItems && t.focus == s.focus && t.events == s.events
    ensures Inv(s) ==> Inv(t)
  {
    var flipped :=
      match side
      case Left => s.(leftSidebarOpen := !s.leftSidebarOpen)
      case Right => s.(rightSidebarOpen := !s.rightSidebarOpen);
    if flipped.SidebarOpen(side) then HideOnSidebarShown(flipped, side) else flipped
  }

  function CloseDockItems(s: WorkspaceState): (t: WorkspaceState)
    ensures t.dockItems == [] && t.nextItemId == s.nextItemId
    ensures t.dock.position == Hidden(s.dock.position.Anchor())
    ensures Inv(s) ==> Inv(t)
  {
    Hide(s.(dockItems := []))
  }

  /** One thing that can happen to a workspace. */
  datatype Step = Act(action: DockAction) | SidebarToggled(side: SidebarSide) | DockItemsClosed

  function ApplyStep(s: WorkspaceState, step: Step): (t: WorkspaceState)
    ensures Inv(s) ==> Inv(t)
    ensures s.nextItemId <= t.nextItemId
    ensures forall i :: i in t.dockItems ==> i in s.dockItems || s.nextItemId <= i
  {
    match step
    case Act(action) => Perform(s, action)
    case SidebarToggled(side) => ToggleSidebar(s, side)
    case DockItemsClosed => CloseDockItems(s)
  }

  /** Any interleaving of steps, applied in order. */
  function Run(s: WorkspaceState, steps: seq<Step>): (t: WorkspaceState)
    decreases |steps|
  {
    if steps == [] then s else Run(ApplyStep(s, steps[0]), steps[1..])
  }

  /** Every interleaving keeps the workspace invariant and never reuses an item id. */
  lemma {:induction false} RunPreservesInv(s: WorkspaceState, steps: seq<Step>)
    requires Inv(s)
    ensures Inv(Run(s, steps))
    ensures s.nextItemId <= Run(s, steps).nextItemId
    decreases |steps|
  {
    if steps != [] {
      RunPreservesInv(ApplyStep(s, steps[0]), steps[1..]);
    }
  }

  /** Whatever happens, the dock only ever holds items it already had or fresh ones. */
  lemma {:induction false} RunItemsOldOrFresh(s: WorkspaceState, steps: seq<Step>)
    ensures forall i :: i in Run(s, steps).dockItems ==> i in s.dockItems || s.nextItemId <= i
    decreases |steps|
  {
    if steps != [] {
      var next := ApplyStep(s, steps[0]);
      RunItemsOldOrFresh(next, steps[1..]);
    }
  }

  /** Items closed out of the dock never come back, whatever happens afterwards. */
  lemma ClosedItemsNeverReturn(s: WorkspaceState, steps: seq<Step>)
    requires Inv(s)
    ensures forall i :: i in Run(CloseDockItems(s), steps).dockItems ==> i !in s.dockItems
  {
    RunItemsOldOrFresh(CloseDockItems(s), steps);
  }
}
