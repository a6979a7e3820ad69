/**
 * The scenarios of dock.rs's unit tests, stated for every workspace that
 * satisfies the invariant rather than for one test window.
 */
module DockScenarios {
  import opened DockPositions
  import opened Wrappers
  import opened DockModel

  /** The test context's `open_sidebar`: toggle only when closed. */
  function OpenSidebar(s: WorkspaceState, side: SidebarSide): (t: WorkspaceState)
    ensures t.SidebarOpen(side)
  {
    if s.SidebarOpen(side) then s else ToggleSidebar(s, side)
  }

  /** The test context's `close_sidebar`: toggle only when open. */
  function CloseSidebar(s: WorkspaceState, side: SidebarSide): (t: WorkspaceState)
    ensures !t.SidebarOpen(side)
  {
    if s.SidebarOpen(side) then ToggleSidebar(s, side) else s
  }

  /**
   * Closing the last dock item hides the dock in place, and reopening it
   * brings an item that was not there before.
   */
  lemma DockHidesWhenPaneEmpty(s: WorkspaceState)
    requires Inv(s)
    ensures var first := Perform(s, MoveDock(DockAnchor.Right));
            var closed := CloseDockItems(first);
            var second := Perform(closed, MoveDock(DockAnchor.Right));
            && first.dockItems != []
            && closed.dock.position == Hidden(DockAnchor.Right)
            && second.dockItems != []
            && forall i :: i in second.dockItems ==> i !in first.dockItems
  {
  }

  /** An expanded dock gives way to either sidebar as it opens. */
  lemma ExpandedDockHidesForEitherSidebar(s: WorkspaceState, side: SidebarSide)
    requires s.dock.position == Shown(DockAnchor.Expanded) && !s.SidebarOpen(side)
    ensures ToggleSidebar(s, side).dock.position == Hidden(DockAnchor.Expanded)
  {
  }

  /** The sequence of sidebar collisions the unit tests walk through, from sidebars both closed. */
  lemma DockPanelCollisions(s: WorkspaceState)
    requires Inv(s) && !s.leftSidebarOpen && !s.rightSidebarOpen
    ensures
      // an expanded dock hides for the left sidebar
      var s1 := OpenSidebar(Perform(s, MoveDock(DockAnchor.Expanded)), SidebarSide.Left);
      s1.dock.position == Hidden(DockAnchor.Expanded) &&
      // and for the right one
      var s2 := OpenSidebar(Perform(CloseSidebar(s1, SidebarSide.Left), MoveDock(DockAnchor.Expanded)), SidebarSide.Right);
      s2.dock.position == Hidden(DockAnchor.Expanded) &&
      // a dock at Right ignores the left sidebar
      var s3 := OpenSidebar(Perform(s2, MoveDock(DockAnchor.Right)), SidebarSide.Left);
      s3.dock.position == Shown(DockAnchor.Right) &&
      // but hides for the right one
      var s4 := OpenSidebar(s3, SidebarSide.Right);
      s4.dock.position == Hidden(DockAnchor.Right) &&
      // a dock at Bottom ignores both
      var s5 := OpenSidebar(OpenSidebar(Perform(CloseSidebar(s4, SidebarSide.Right), MoveDock(DockAnchor.Bottom)),
                                        SidebarSide.Left), SidebarSide.Right);
      s5.dock.position == Shown(DockAnchor.Bottom) && s5.leftSidebarOpen && s5.rightSidebarOpen &&
      // and moving the dock to Right closes the right sidebar
      var s6 := Perform(s5, MoveDock(DockAnchor.Right));
      !s6.rightSidebarOpen && s6.leftSidebarOpen && s6.dock.position == Shown(DockAnchor.Right)
  {
  }

  /** Showing the dock focuses its pane every time, also after a hide. */
  lemma ToggleDockFocus(s: WorkspaceState)
    ensures var shown := Perform(s, MoveDock(DockAnchor.Right));
            var hidden := Perform(shown, HideDock);
            var again := Perform(hidden, MoveDock(DockAnchor.Right));
            shown.DockPaneActive() && again.DockPaneActive() &&
            again.dock.position == Shown(DockAnchor.Right)
  {
  }

  /** From a new workspace, whatever happens, the right-edge and non-empty rules hold. */
  lemma NewWorkspaceKeepsRules(defaultAnchor: DockAnchor, dockPane: PaneId, center: Option<PaneId>, steps: seq<Step>)
    ensures var t := Run(NewWorkspace(defaultAnchor, dockPane, center), steps);
            && (t.dock.position == Shown(DockAnchor.Right) ==> !t.rightSidebarOpen)
            && (t.dock.position.IsVisible() ==> t.dockItems != [])
  {
    RunPreservesInv(NewWorkspace(defaultAnchor, dockPane, center), steps);
  }
}
