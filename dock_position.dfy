/**
 * Where the dock sits and whether it is visible: the `DockPosition` value of
 * crates/workspace/src/dock.rs and its pure helpers.
 */
module DockPositions {

  /** The three placements of the dock (defined by the settings crate). */
  datatype DockAnchor = Right | Bottom | Expanded

  /** The anchor `DockAnchor::default()` yields; the settings crate is not part of this model. */
  const DefaultDockAnchor: DockAnchor := Right

  /**
   * A tagged union: both variants carry the anchor, so the anchor survives
   * hiding and re-showing restores it.
   */
  datatype DockPosition = Shown(DockAnchor) | Hidden(DockAnchor)
  {
    /** The default position: hidden at the default anchor. */
    static function Default(): (p: DockPosition)
      ensures !p.IsVisible() && p.Anchor() == DefaultDockAnchor
    {
      Hidden(DefaultDockAnchor)
    }

    function IsVisible(): (r: bool)
      ensures r <==> this == Shown(Anchor())
    {
      match this
      case Shown(_) => true
      case Hidden(_) => false
    }

    /** The anchor, whatever the visibility tag. */
    function Anchor(): (r: DockAnchor)
      ensures this == Shown(r) || this == Hidden(r)
    {
      match this
      case Shown(a) => a
      case Hidden(a) => a
    }

    /** Hides the dock where it is; a hidden position is returned unchanged. */
    function Hide(): (r: DockPosition)
      ensures !r.IsVisible() && r.Anchor() == Anchor()
    {
      match this
      case Shown(a) => Hidden(a)
      case Hidden(_) => this
    }

    /** Shows the dock where it was; a shown position is returned unchanged. */
    function Show(): (r: DockPosition)
      ensures r.IsVisible() && r.Anchor() == Anchor()
    {
      match this
      case Hidden(a) => Shown(a)
      case Shown(_) => this
    }
  }

  /** The status-bar icon of each anchor. */
  function IconForDockAnchor(anchor: DockAnchor): (icon: string)
    ensures |icon| > 6 && icon[..6] == "icons/"
  {
    match anchor
    case Right => "icons/dock_right_12.svg"
    case Bottom => "icons/dock_bottom_12.svg"
    case Expanded => "icons/dock_modal_12.svg"
  }

  /** Each anchor has its own icon, so the icon tells the anchor. */
  lemma IconForDockAnchorInjective(a: DockAnchor, b: DockAnchor)
    ensures IconForDockAnchor(a) == IconForDockAnchor(b) ==> a == b
  {
  }

  lemma HideIdempotent(p: DockPosition)
    ensures p.Hide().Hide() == p.Hide()
  {
  }

  lemma ShowIdempotent(p: DockPosition)
    ensures p.Show().Show() == p.Show()
  {
  }

  /** Hiding then showing (or the reverse) comes back to the same anchor. */
  lemma HideShowRoundTrip(a: DockAnchor)
    ensures Shown(a).Hide().Show() == Shown(a)
    ensures Hidden(a).Show().Hide() == Hidden(a)
  {
  }
}
