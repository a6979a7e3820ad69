/**
 * The workspace as the dock changes it in place: `Dock::set_dock_position`
 * and the transitions built on it, step by step, each proved to leave the
 * workspace in the state the matching function of DockModel describes.
 */
module DockWorkspace {
  import opened Wrappers
  import opened DockPositions
  import opened DockModel

  class Workspace {
    var dock: Dock
    var dockItems: seq<ItemId>
    var dockedAt: Option<DockAnchor>
    var leftSidebarOpen: bool
    var rightSidebarOpen: bool
    var focus: Focus
    var lastActiveCenterPane: Option<PaneId>
    var nextItemId: ItemId
    var events: seq<Event>

    /** The workspace's current state, as a value. */
    function State(): WorkspaceState
      reads this
    {
      WorkspaceState(dock, dockItems, dockedAt, leftSidebarOpen, rightSidebarOpen,
                     focus, lastActiveCenterPane, nextItemId, events)
    }

    ghost predicate Valid()
      reads this
    {
      Inv(State())
    }

    /** A workspace with a freshly built dock: hidden at the configured anchor, pane empty and inactive. */
    constructor (defaultAnchor: DockAnchor, dockPane: PaneId, centerPane: Option<PaneId>)
      ensures Valid()
      ensures State() == NewWorkspace(defaultAnchor, dockPane, centerPane)
    {
      dock := NewDock(defaultAnchor, dockPane);
      dockItems := [];
      dockedAt := Some(defaultAnchor);
      leftSidebarOpen, rightSidebarOpen := false, false;
      focus := Elsewhere;
      lastActiveCenterPane := centerPane;
      nextItemId := 0;
      events := [];
    }

    /** The default-item factory: each call builds a new item. */
    method NewDefaultItem() returns (item: ItemId)
      modifies this`nextItemId
      ensures item == old(nextItemId) && nextItemId == old(nextItemId) + 1
    {
      item := nextItemId;
      nextItemId := nextItemId + 1;
    }

    method SetDockPosition(newPosition: DockPosition)
      modifies this
      ensures old(Valid()) ==> Valid()
      ensures State() == DockModel.SetDockPosition(old(State()), newPosition)
    {
      dock := dock.(position := newPosition);
      // tell the pane its anchor
      dockedAt := Some(newPosition.Anchor());
      if dock.position.IsVisible() {
        if dock.position.Anchor() == DockAnchor.Right {
          if rightSidebarOpen {
            rightSidebarOpen := false;
          }
        }
        if |dockItems| == 0 {
          var item := NewDefaultItem();
          // adding the item activates and focuses the pane
          dockItems := dockItems + [item];
          focus := DockPane;
        } else {
          focus := DockPane;
        }
      } else if lastActiveCenterPane.Some? {
        focus := CenterPane(lastActiveCenterPane.value);
      }
      events := events + [DockAnchorChanged];
    }

    method Hide()
      modifies this
      ensures old(Valid()) ==> Valid()
      ensures State() == DockModel.Hide(old(State()))
    {
      SetDockPosition(dock.position.Hide());
    }

    method Show()
      modifies this
      ensures old(Valid()) ==> Valid()
      ensures State() == DockModel.Show(old(State()))
    {
      SetDockPosition(dock.position.Show());
    }

    method HideOnSidebarShown(side: SidebarSide)
      modifies this
      ensures old(Valid()) ==> Valid()
      ensures State() == DockModel.HideOnSidebarShown(old(State()), side)
    {
      if (side == SidebarSide.Right && dock.IsAnchoredAt(DockAnchor.Right))
         || dock.IsAnchoredAt(DockAnchor.Expanded)
      {
        Hide();
      }
    }

    /** The `FocusDock` handler. */
    method FocusDock()
      modifies this
      ensures old(Valid()) ==> Valid()
      ensures State() == DockModel.Perform(old(State()), DockAction.FocusDock)
    {
      SetDockPosition(dock.position.Show());
    }

    /** The `HideDock` handler. */
    method HideDock()
      modifies this
      ensures old(Valid()) ==> Valid()
      ensures State() == DockModel.Perform(old(State()), DockAction.HideDock)
    {
      SetDockPosition(dock.position.Hide());
    }

    /** The `MoveDock` handler. */
    method MoveDock(anchor: DockAnchor)
      modifies this
      ensures old(Valid()) ==> Valid()
      ensures State() == DockModel.MoveDockTo(old(State()), anchor)
    {
      SetDockPosition(Shown(anchor));
    }

    /** A command dispatched to the workspace, routed as `init` registers it. */
    method Perform(action: DockAction)
      modifies this
      ensures old(Valid()) ==> Valid()
      ensures State() == DockModel.Perform(old(State()), action)
    {
      match action
      case FocusDock => FocusDock();
      case HideDock => HideDock();
      case AnchorDockRight => MoveDock(DockAnchor.Right);
      case AnchorDockBottom => MoveDock(DockAnchor.Bottom);
      case ExpandDock => MoveDock(DockAnchor.Expanded);
      case MoveDock(anchor) => MoveDock(anchor);
    }

    /**
     * A render pass at a candidate anchor, followed by the write-back it
     * defers: a resizable panel's laid-out size is remembered for its anchor.
     */
    method RenderDock(anchor: DockAnchor, style: DockStyle, laidOutSize: Size) returns (view: Option<DockView>)
      modifies this`dock
      ensures old(Valid()) ==> Valid()
      ensures view == old(dock).Render(anchor, style)
      ensures view.Some? && view.value.ResizablePanel? ==> dock == old(dock).WithPanelSize(anchor, laidOutSize)
      ensures !(view.Some? && view.value.ResizablePanel?) ==> dock == old(dock)
    {
      view := dock.Render(anchor, style);
      if view.Some? && view.value.ResizablePanel? {
        dock := dock.WithPanelSize(anchor, laidOutSize);
      }
    }

    /** `Workspace::toggle_sidebar` as the dock sees it: an opening is reported to the dock. */
    method ToggleSidebar(side: SidebarSide)
      modifies this
      ensures old(Valid()) ==> Valid()
      ensures State() == DockModel.ToggleSidebar(old(State()), side)
    {
      match side {
        case Left => leftSidebarOpen := !leftSidebarOpen;
        case Right => rightSidebarOpen := !rightSidebarOpen;
      }
      if State().SidebarOpen(side) {
        HideOnSidebarShown(side);
      }
    }

    /** Every dock item closed; the emptied pane makes the workspace hide the dock. */
    method CloseDockItems()
      modifies this
      ensures old(Valid()) ==> Valid()
      ensures State() == DockModel.CloseDockItems(old(State()))
    {
      dockItems := [];
      Hide();
    }
  }
}
