/**
  The holder the editor keeps for each figure on the canvas: the figure
  itself, fixed for the item's lifetime, and a visibility flag that starts
  out set and that only `setVisible` changes.
 */
module Items {
  import opened Styled

  class FigureItem {
    /** The figure reference given at construction; never reassigned. */
    const figure: ColoredPolygon
    var visible: bool

    /** `new FigureItem(figure)`: holds the given figure and is visible. */
    constructor (figure: ColoredPolygon)
      ensures this.figure == figure
      ensures visible
    {
      this.figure := figure;
      visible := true;
    }

    /** `getFigure`: the very object given at construction. */
    method GetFigure() returns (f: ColoredPolygon)
      ensures f == figure
    {
      f := figure;
    }

    /** `isVisible`: the current flag. */
    method IsVisible() returns (b: bool)
      ensures b == visible
    {
      b := visible;
    }

    /** `setVisible(b)`: the flag becomes `b`; the figure, its vertices and
        everything else stay as they were. */
    method SetVisible(b: bool)
      modifies this`visible
      ensures visible == b
      ensures figure.Value() == old(figure.Value())
    {
      visible := b;
    }
  }

  /** A fresh item reports itself visible, and after `setVisible(b)` it
      reports `b` while still handing back the figure it was made with. */
  method VisibilityRoundTrip(figure: ColoredPolygon, b: bool)
    returns (initially: bool, afterwards: bool, held: ColoredPolygon)
    ensures initially
    ensures afterwards == b
    ensures held == figure
  {
    var item := new FigureItem(figure);
    initially := item.IsVisible();
    item.SetVisible(b);
    afterwards := item.IsVisible();
    held := item.GetFigure();
  }
}
