# Dock state machine of the editor workspace

This project models the dock of `crates/workspace/src/dock.rs`. The dock is the
workspace's single auxiliary panel. It can be anchored at the right edge, at the
bottom edge, or expanded over the whole workspace, and it can be shown or hidden.
The model covers the coordination logic of the dock. That means:

- the `DockPosition` value and its helpers (`dock_position.dfy`, module `DockPositions`);
- the `Dock` record and its queries, the render policy and the size memory;
- the part of the workspace the dock reads and writes, with every dock
  transition written as a pure function over that state (`dock.dfy`, module `DockModel`);
- the same transitions performed in place on a `Workspace` object, step by step
  as `Dock::set_dock_position` does them (`workspace.dfy`, module `DockWorkspace`);
- the unit-test scenarios of `dock.rs`, stated as lemmas over every workspace
  that keeps the invariant (`dock_scenarios.dfy`, module `DockScenarios`).

Each transition method of the `Workspace` class ensures that the new state
equals the matching function of `DockModel` applied to the old state. The one
other method, `NewDefaultItem`, stands for the default-item factory: it returns
the next id and advances the supply. The properties are
proved about those functions.

`Inv` is the workspace invariant:

- every dock item came from the default-item factory before `nextItemId`;
- a visible dock is never empty;
- a dock shown at Right never shares that edge with an open right sidebar;
- the pane's anchor tag equals the dock's anchor.

A new workspace satisfies `Inv`. Every transition keeps it (`ensures Inv(s) ==>
Inv(t)`, and `old(Valid()) ==> Valid()` on the methods). `RunPreservesInv`
proves, by induction, that any interleaving of commands, sidebar toggles and
item closings keeps it.

The workspace is abstracted to these parts:

- the dock (position, remembered panel sizes, pane handle);
- the dock pane's items, as item ids;
- the pane's anchor tag;
- the two sidebar flags;
- a focus target;
- the weak last-active centre pane, as an option;
- a fresh-id supply standing in for the default-item factory;
- the log of emitted events.

## Model

| member | source | states |
|---|---|---|
| `DockPositions.DockPosition.Default` | crates/workspace/src/dock.rs:59-63 | the default position is hidden, at the default anchor |
| `DockPositions.DockPosition.IsVisible` | crates/workspace/src/dock.rs:74-79 | visible exactly when the position is the `Shown` form of its own anchor |
| `DockPositions.DockPosition.Anchor` | crates/workspace/src/dock.rs:81-85 | the anchor is carried by both variants: the position is `Shown` or `Hidden` of the returned anchor |
| `DockPositions.DockPosition.Hide` | crates/workspace/src/dock.rs:87-92 | the result is not visible and keeps the anchor |
| `DockPositions.DockPosition.Show` | crates/workspace/src/dock.rs:94-99 | the result is visible and keeps the anchor |
| `DockPositions.HideIdempotent` | crates/workspace/src/dock.rs:87-92 | hiding twice is hiding once |
| `DockPositions.ShowIdempotent` | crates/workspace/src/dock.rs:94-99 | showing twice is showing once |
| `DockPositions.HideShowRoundTrip` | crates/workspace/src/dock.rs:87-99 | hide then show returns a shown position to itself, and show then hide does the same for a hidden one |
| `DockPositions.IconForDockAnchor` | crates/workspace/src/dock.rs:65-71 | every anchor's icon is a path under `icons/` |
| `DockPositions.IconForDockAnchorInjective` | crates/workspace/src/dock.rs:65-71 | distinct anchors get distinct icons |
| `DockModel.Dock.VisiblePane` | crates/workspace/src/dock.rs:137-139 | the pane is returned exactly when the dock is visible |
| `DockModel.Dock.IsAnchoredAt` | crates/workspace/src/dock.rs:141-143 | true exactly when the position is `Shown(anchor)` |
| `DockModel.Dock.Render` | crates/workspace/src/dock.rs:228-305 | a view exists exactly when the dock is shown at the requested anchor; Bottom gets a panel resized from its top edge, Right one resized from its left edge, both sized by the remembered size or else the theme's default; Expanded gets an overlay whose outside click dispatches `HideDock` |
| `DockModel.Dock.WithPanelSize` | crates/workspace/src/dock.rs:273-279 | the write-back records the size for that anchor, keeps every other remembered size, and changes neither position nor pane |
| `DockModel.RenderReusesRecordedSize` | crates/workspace/src/dock.rs:264-279 | after the write-back, the next render at that anchor opens at the recorded size |
| `DockModel.NewDock` | crates/workspace/src/dock.rs:113-131 | a new dock is hidden at the configured anchor, has no visible pane and no remembered sizes |
| `DockModel.NewWorkspace` | crates/workspace/src/dock.rs:113-131 | a workspace with a new dock satisfies the invariant, with an empty and inactive dock pane |
| `DockModel.AddDefaultItem` | crates/workspace/src/dock.rs:164-169 | the factory's item is the fresh id, appended to the pane, and the pane takes focus |
| `DockModel.SetDockPosition` | crates/workspace/src/dock.rs:145-182 | the position becomes the new one, and the pane is tagged with its anchor. Shown at Right closes the right sidebar; any other position leaves both sidebars alone. A shown dock is focused and non-empty: an empty pane gets exactly one fresh item, a non-empty pane keeps its items. A hidden dock refocuses the last active centre pane if one exists, and otherwise leaves focus alone. `DockAnchorChanged` is appended in every case, and the invariant is kept |
| `DockModel.Hide` | crates/workspace/src/dock.rs:184-186 | the dock ends hidden at its anchor, with items and sidebars unchanged |
| `DockModel.Show` | crates/workspace/src/dock.rs:188-190 | the dock ends shown at its anchor, focused and non-empty |
| `DockModel.MoveDockTo` | crates/workspace/src/dock.rs:212-218 | the dock ends shown at the given anchor, focused and non-empty; at Right the right sidebar is closed; at Bottom or Expanded both sidebars are unchanged |
| `DockModel.HideOnSidebarShown` | crates/workspace/src/dock.rs:192-202 | the dock is hidden, keeping its anchor, exactly when the right sidebar opened against a dock shown at Right, or the dock is shown expanded; otherwise the workspace is left as it was |
| `DockModel.Perform` | crates/workspace/src/dock.rs:32-51 | each registered command lands the dock where its handler promises: focus shows in place, hide hides in place, the anchor commands and `MoveDock` show at their anchor; each emits one event |
| `DockModel.RenderToggleDockButton` | crates/workspace/src/dock.rs:334-392 | nothing when the workspace is gone; otherwise the anchor's icon, active styling exactly while visible, and a click that is `HideDock` exactly when visible and `FocusDock` exactly when hidden |
| `DockModel.ToggleButtonFlipsVisibility` | crates/workspace/src/dock.rs:366-390 | performing the button's click flips visibility and keeps the anchor |
| `DockModel.ToggleSidebar` | crates/workspace/src/dock.rs:192-202 | a toggled sidebar flips and the other is untouched; after an opening the dock is hidden at its anchor exactly when the right sidebar opened against a dock shown at Right or the dock was expanded, and otherwise keeps its position; a closing leaves the dock, its items, the focus and the events alone; the invariant is kept |
| `DockModel.CloseDockItems` | crates/workspace/src/dock.rs:423-432 | after the dock's items are closed the pane is empty and the dock is hidden at its anchor |
| `DockModel.ApplyStep` | crates/workspace/src/dock.rs:32-51 | any single step keeps the invariant, never lowers the id supply, and only ever adds fresh items |
| `DockModel.RunPreservesInv` | crates/workspace/src/dock.rs:145-202 | every interleaving of steps keeps the invariant and never lowers the id supply |
| `DockModel.RunItemsOldOrFresh` | crates/workspace/src/dock.rs:164-169 | after any interleaving, every dock item was already there or is newer than the start |
| `DockModel.ClosedItemsNeverReturn` | crates/workspace/src/dock.rs:423-441 | items closed out of the dock never reappear in it, whatever happens next |
| `DockWorkspace.Workspace.constructor` | crates/workspace/src/dock.rs:113-131 | the new workspace is the new-dock state and is valid |
| `DockWorkspace.Workspace.NewDefaultItem` | crates/workspace/src/dock.rs:164-169 | the factory returns the next id and advances the supply |
| `DockWorkspace.Workspace.SetDockPosition` | crates/workspace/src/dock.rs:145-182 | the in-place steps leave the workspace in the state `DockModel.SetDockPosition` describes |
| `DockWorkspace.Workspace.Hide` | crates/workspace/src/dock.rs:184-186 | the in-place hide matches `DockModel.Hide` |
| `DockWorkspace.Workspace.Show` | crates/workspace/src/dock.rs:188-190 | the in-place show matches `DockModel.Show` |
| `DockWorkspace.Workspace.HideOnSidebarShown` | crates/workspace/src/dock.rs:192-202 | the in-place rule matches `DockModel.HideOnSidebarShown` |
| `DockWorkspace.Workspace.FocusDock` | crates/workspace/src/dock.rs:204-206 | the handler has the effect of the `FocusDock` command |
| `DockWorkspace.Workspace.HideDock` | crates/workspace/src/dock.rs:208-210 | the handler has the effect of the `HideDock` command |
| `DockWorkspace.Workspace.MoveDock` | crates/workspace/src/dock.rs:212-218 | the handler matches `DockModel.MoveDockTo` |
| `DockWorkspace.Workspace.Perform` | crates/workspace/src/dock.rs:32-51 | dispatching a command matches `DockModel.Perform` |
| `DockWorkspace.Workspace.RenderDock` | crates/workspace/src/dock.rs:220-281 | returns `Dock.Render`'s view, then records the laid-out size exactly when a resizable panel was produced |
| `DockWorkspace.Workspace.ToggleSidebar` | crates/workspace/src/dock.rs:192-202 | the in-place toggle matches `DockModel.ToggleSidebar` |
| `DockWorkspace.Workspace.CloseDockItems` | crates/workspace/src/dock.rs:423-432 | the in-place close matches `DockModel.CloseDockItems` |
| `DockScenarios.OpenSidebar` | crates/workspace/src/dock.rs:638-642 | the sidebar ends open |
| `DockScenarios.CloseSidebar` | crates/workspace/src/dock.rs:644-648 | the sidebar ends closed |
| `DockScenarios.DockHidesWhenPaneEmpty` | crates/workspace/src/dock.rs:423-441 | moving to Right fills the dock; closing its items hides it at Right; moving again fills it with items none of which were there before |
| `DockScenarios.ExpandedDockHidesForEitherSidebar` | crates/workspace/src/dock.rs:447-454 | an expanded dock is hidden, still expanded, when either sidebar opens |
| `DockScenarios.DockPanelCollisions` | crates/workspace/src/dock.rs:443-473 | the whole collision walk-through: expanded hides for both sides; Right ignores the left sidebar and hides for the right one; Bottom ignores both; moving to Right closes the right sidebar |
| `DockScenarios.ToggleDockFocus` | crates/workspace/src/dock.rs:504-513 | the dock pane is focused after moving to Right, and again after hiding and moving back |
| `DockScenarios.NewWorkspaceKeepsRules` | crates/workspace/src/dock.rs:145-202 | from a new workspace, after any interleaving, a dock shown at Right has the right sidebar closed and a visible dock is non-empty |

## Left out

- Styling and layout are not modelled: borders, containers, mouse handlers, cursor style, the wash colour, SVG sizing, tooltips' key bindings and themes (dock.rs:233-305, 343-391). Only the anchor filter, the resize edge, the initial size and the overlay's dismiss action are kept.
- Panel sizes are `int`, not `f32`. The resize handle is not modelled; `RenderDock` takes the laid-out size as a parameter.
- `cx.defer` is not modelled. `RenderDock` applies the size write-back right after the render. The case where the workspace is dropped before the deferred write runs is not modelled.
- Observer wiring is not modelled: `cx.subscribe`, `cx.notify` and the toggle button's redraw subscription. Emitted events are kept only as a log.
- The settings crate, where `DockAnchor::default()` is defined, is not part of this model. `DefaultDockAnchor` is taken to be `Right`; `Dock::new`'s configured anchor is a parameter.
- `Pane`, `Sidebar` and `Workspace` live outside dock.rs and are only abstract effects:
  - `add_item` appends to an empty pane and focuses it.
  - `set_docked` is a tag.
  - `Workspace::toggle_sidebar` flips a flag and reports an opening to `hide_on_sidebar_shown`. Its own focus and notify calls are not modelled.
  - Closing the dock's items empties the pane, after which the workspace hides the dock.
- Inside `set_dock_position`, the `toggle_sidebar` call on an open right sidebar is modelled as closing it. That is its whole effect on the dock's state, since a closing is never reported back to the dock.
- The weak `last_active_center_pane` is an option. `None` stands both for no pane and for a pane that no longer upgrades.
- The test of focus hand-off between the dock and the centre pane (dock.rs:475-502) is not modelled. It depends on the workspace's focus handling, which is not part of this model.
- The asynchronous test harness (dock.rs:515-723) is not modelled. Its `open_sidebar` and `close_sidebar` are modelled; its scenarios are lemmas.
- Dispatching a command with no target workspace is not modelled; that routing belongs to the framework.
