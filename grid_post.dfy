/**
 * The React grid post (src/components/Grid/GridPost.jsx): the anchor a grid post renders as,
 * its grid placement and style, and what that anchor looks like to the document lookup the
 * connector overlay performs.
 */
module GridPost {
  import opened Text
  import opened PostData
  import opened Geometry
  import opened ConnectionsOverlay

  /** The inline style object of the anchor. */
  datatype GridStyle = GridStyle(
    columnStart: int,
    columnEnd: int,
    rowStart: int,
    rowEnd: int,
    text: TextStyle,
    backgroundColor: string,
    padding: string,
    zIndex: int)

  /**
   * `gridStyle`: the post spans `size.width` columns from column `position.x` and
   * `size.height` rows from row `position.y`; every style key falls back (`inherit`,
   * `transparent`, `0`) when the style block or the key is missing or empty; the post sits
   * above the dots at z-index 1.
   */
  function Style(post: Post): (s: GridStyle)
    requires Placed(post)
    ensures s.columnStart == post.position.value.x && s.columnEnd - s.columnStart == post.size.value.width
    ensures s.rowStart == post.position.value.y && s.rowEnd - s.rowStart == post.size.value.height
    ensures s.text == TextStyleOf(post.styles)
    ensures s.backgroundColor != "" && s.padding != ""
    ensures Truthy(Pick(post.styles, BackgroundColor)) ==> s.backgroundColor == Pick(post.styles, BackgroundColor).value
    ensures !Truthy(Pick(post.styles, BackgroundColor)) ==> s.backgroundColor == "transparent"
    ensures Truthy(Pick(post.styles, Padding)) ==> s.padding == Pick(post.styles, Padding).value
    ensures !Truthy(Pick(post.styles, Padding)) ==> s.padding == "0"
    ensures s.zIndex == 1
  {
    var pos := post.position.value;
    var size := post.size.value;
    GridStyle(
      pos.x, pos.x + size.width, pos.y, pos.y + size.height,
      TextStyleOf(post.styles),
      OrElse(Pick(post.styles, BackgroundColor), "transparent"),
      OrElse(Pick(post.styles, Padding), "0"),
      1)
  }

  /** The anchor a grid post renders as. */
  datatype Anchor = Anchor(href: string, classes: seq<string>, postId: string, style: GridStyle, title: string)

  /** The anchor's `className`, split at spaces. */
  const AnchorClasses: seq<string> := ["flex", "items-center", "transition-all", "duration-200", "rounded",
    "cursor-pointer", "hover:bg-gray-200/70", "hover:scale-102", "hover:z-10"]

  lemma {:induction false} AnchorClassesLackGridPost()
    ensures GridPostClass !in AnchorClasses
  {
    forall i | 0 <= i < |AnchorClasses| ensures AnchorClasses[i] != GridPostClass {
      assert |AnchorClasses[i]| != |GridPostClass|;
    }
  }

  /** The component as written: its anchor does not carry the `grid-post` class. */
  function RenderAsWritten(post: Post): (a: Anchor)
    requires Placed(post)
    ensures a.href == Href(post) && a.postId == post.id && a.title == post.title
    ensures a.style == Style(post)
    ensures a.classes == AnchorClasses && GridPostClass !in a.classes
  {
    AnchorClassesLackGridPost();
    Anchor(Href(post), AnchorClasses, post.id, Style(post), post.title)
  }

  /**
   * The component as the overlay needs it: the same anchor with the `grid-post` class the
   * overlay's lookup selects on (the class the vanilla grid renderer gives its posts).
   */
  function Render(post: Post): (a: Anchor)
    requires Placed(post)
    ensures a == RenderAsWritten(post).(classes := AnchorClasses + [GridPostClass])
    ensures a.href == Href(post) && a.postId == post.id && a.title == post.title
    ensures a.style == Style(post)
    ensures GridPostClass in a.classes
  {
    Anchor(Href(post), AnchorClasses + [GridPostClass], post.id, Style(post), post.title)
  }

  /** The grid posts of the page as the lookup sees them, each anchor with its laid-out box. */
  function Page(ps: seq<Post>, boxes: seq<Rect>, fixed: bool): (doc: seq<DomElement>)
    requires |boxes| == |ps| && forall i :: 0 <= i < |ps| ==> Placed(ps[i])
    ensures |doc| == |ps|
    ensures forall i :: 0 <= i < |ps| ==> doc[i].postId == ps[i].id && doc[i].box == boxes[i]
    ensures forall i :: 0 <= i < |ps| ==> (GridPostClass in doc[i].classes <==> fixed)
  {
    seq(|ps|, i requires 0 <= i < |ps| =>
      var a := if fixed then Render(ps[i]) else RenderAsWritten(ps[i]);
      DomElement(a.classes, a.postId, boxes[i]))
  }

  /**
   * As written, no grid post carries `grid-post`, so the overlay resolves no endpoint and
   * draws nothing, whatever the connections and the layout.
   */
  lemma {:induction false} OverlayEmptyAsWritten(ps: seq<Post>, boxes: seq<Rect>, cs: seq<Connection>, grid: Rect)
    requires |boxes| == |ps| && forall i :: 0 <= i < |ps| ==> Placed(ps[i])
    ensures ComputeLines(cs, grid, Page(ps, boxes, false)) == []
  {
    NoGridPostNoLines(cs, grid, Page(ps, boxes, false));
  }

  /** Some grid post of the page has this id. */
  predicate IsGridPostId(ps: seq<Post>, id: string) {
    exists i :: 0 <= i < |ps| && ps[i].id == id
  }

  /** With the class in place, an id resolves exactly when it is the id of a grid post. */
  lemma {:induction false} PageQuery(ps: seq<Post>, boxes: seq<Rect>, id: string)
    requires |boxes| == |ps| && forall i :: 0 <= i < |ps| ==> Placed(ps[i])
    ensures Query(Page(ps, boxes, true), id).Some? <==> IsGridPostId(ps, id)
  {
    var doc := Page(ps, boxes, true);
    assert forall i :: 0 <= i < |ps| ==> (MatchesPost(doc[i], id) <==> ps[i].id == id);
  }

  /**
   * With the class in place, every connection between grid posts gets its line, in the
   * order of the connections, each drawn between the boxes of the first grid posts with
   * its two ids.
   */
  lemma {:induction false} OverlayDrawsWhenFixed(ps: seq<Post>, boxes: seq<Rect>, cs: seq<Connection>, grid: Rect)
    requires |boxes| == |ps| && forall i :: 0 <= i < |ps| ==> Placed(ps[i])
    requires forall k :: 0 <= k < |cs| ==> IsGridPostId(ps, cs[k].from) && IsGridPostId(ps, cs[k].to)
    ensures var doc := Page(ps, boxes, true);
      && |ComputeLines(cs, grid, doc)| == |cs|
      && forall k :: 0 <= k < |cs| ==> Some(ComputeLines(cs, grid, doc)[k]) == MakeLine(cs[k], grid, doc)
  {
    var doc := Page(ps, boxes, true);
    forall k | 0 <= k < |cs|
      ensures Resolves(cs[k], doc)
    {
      PageQuery(ps, boxes, cs[k].from);
      PageQuery(ps, boxes, cs[k].to);
    }
    AllResolvedAllDrawn(cs, doc);
    LinesFollowResolved(cs, grid, doc);
  }
}
