/** The details overlay: `openModal`, `closeModal`, their three dismissal
    handlers, `openDetails` and the keyboard and pointer activation of a
    grid card. The overlay's `is-open` class and the body's scroll lock are
    plain fields; the rendered markup is a `Content` value. */
module Overlay {
  import opened Optional
  import opened JsString
  import opened Movies
  import opened Request
  import opened Details

  datatype Content =
    | Blank
    | Loading
    | Notice(text: string)
    | LoadError(message: string)
    | Shown(view: DetailsView)

  class DetailsOverlay {
    var isOpen: bool
    var scrollLocked: bool
    var content: Content

    /** The body's scroll is locked exactly while the overlay is open. */
    ghost predicate Valid()
      reads this
    {
      scrollLocked == isOpen
    }

    constructor()
      ensures Valid() && !isOpen && content == Blank
    {
      isOpen, scrollLocked, content := false, false, Blank;
    }

    /** `openModal`. */
    method Open()
      modifies this`isOpen, this`scrollLocked
      ensures Valid() && isOpen
    {
      isOpen := true;
      scrollLocked := true;
    }

    /** `closeModal`: the whole state afterwards is fixed, whatever it was
        before, so closing twice is closing once. */
    method Close()
      modifies this
      ensures Valid() && !isOpen && content == Blank
    {
      isOpen := false;
      scrollLocked := false;
      content := Blank;
    }

    /** A click on the close control. */
    method OnCloseClick()
      modifies this
      ensures Valid() && !isOpen && content == Blank
    {
      Close();
    }

    /** A click that reaches the overlay: only a click on the backdrop itself,
        not one inside the panel, closes. */
    method OnOverlayClick(onBackdrop: bool)
      modifies this
      ensures onBackdrop ==> Valid() && !isOpen && content == Blank
      ensures !onBackdrop ==> unchanged(this)
    {
      if onBackdrop {
        Close();
      }
    }

    /** The document's `keydown` handler: Escape closes an open overlay and
        does nothing to a closed one. */
    method OnKeyDown(key: string)
      modifies this
      ensures key == "Escape" && old(isOpen) ==> Valid() && !isOpen && content == Blank
      ensures !(key == "Escape" && old(isOpen)) ==> unchanged(this)
    {
      if key == "Escape" && isOpen {
        Close();
      }
    }

    /** The synchronous start of `openDetails`: an empty id does nothing;
        otherwise the loading message is shown and the overlay opened before
        the request is made. */
    method OpenDetails(imdbId: string) returns (started: bool)
      modifies this
      ensures started <==> imdbId != ""
      ensures !started ==> unchanged(this)
      ensures started ==> Valid() && isOpen && content == Loading
    {
      if imdbId == "" {
        return false;
      }
      content := Loading;
      Open();
      started := true;
    }

    /** The continuation of `openDetails` once the request settles. It
        writes the content whether or not the overlay is still open. */
    method CompleteDetails(reply: Outcome<DetailsData>)
      modifies this`content
      ensures reply.Thrown? ==> content == LoadError(reply.message)
      ensures reply.Delivered? && reply.data.response == Some("False") ==>
        content == Notice(Or(reply.data.error, "Could not load details."))
      ensures reply.Delivered? && reply.data.response != Some("False") ==>
        content == Shown(ViewOf(reply.data))
    {
      match reply
      case Thrown(message) =>
        content := LoadError(message);
      case Delivered(d) =>
        if d.response == Some("False") {
          content := Notice(Or(d.error, "Could not load details."));
        } else {
          content := Shown(ViewOf(d));
        }
    }

    /** A click on a grid card opens that card's title. */
    method OnCardClick(card: Card) returns (started: bool)
      modifies this
      ensures started <==> card.imdbId != ""
      ensures !started ==> unchanged(this)
      ensures started ==> Valid() && isOpen && content == Loading
    {
      started := OpenDetails(card.imdbId);
    }

    /** Enter and Space on a focused card act like a click; other keys do
        nothing. */
    method OnCardKeyDown(card: Card, key: string) returns (started: bool)
      modifies this
      ensures started <==> (key == "Enter" || key == " ") && card.imdbId != ""
      ensures !started ==> unchanged(this)
      ensures started ==> Valid() && isOpen && content == Loading
    {
      started := false;
      if key == "Enter" || key == " " {
        started := OpenDetails(card.imdbId);
      }
    }
  }

  /** Closing and then opening another title shows the loading message, not
      the content of the title shown before. */
  method CloseThenReopen(o: DetailsOverlay, firstId: string, first: DetailsData, other: string)
    requires firstId != "" && other != ""
    requires first.response != Some("False")
    modifies o
  {
    var loading := o.OpenDetails(firstId);
    o.CompleteDetails(Delivered(first));
    assert o.isOpen && o.content == Shown(ViewOf(first));
    o.Close();
    var started := o.OpenDetails(other);
    assert started && o.isOpen && o.content == Loading;
  }
}
