/**
 * The vanilla-JavaScript post manager (js/post-manager.js): one object that loads the index,
 * appends an anchor per grid post to the dot grid, rebuilds the task list, redraws the
 * connector overlay and opens a post's markdown in a modal.  The page it writes to is kept
 * as the sequences of elements it creates.
 */
module PostManager {
  import opened Text
  import opened PostData
  import opened Geometry
  import opened ConnectionsOverlay
  import MarkdownConverter
  import GridPost
  import TaskItem

  const PostsDirectory: string := "posts/"

  /** The inline styles `renderGridPosts` sets only when the post has a style block. */
  datatype Decoration = Decoration(text: TextStyle, backgroundColor: string, padding: string, zIndex: string)

  /** An anchor appended to the grid; it carries the class `grid-post`. */
  datatype GridLink = GridLink(
    href: string,
    postId: string,
    columnStart: int,
    columnEnd: int,
    rowStart: int,
    rowEnd: int,
    decoration: Option<Decoration>,
    title: string,
    post: Post)

  /** A task row: circle border colour and link style are set only when the post has a style block. */
  datatype TaskRow = TaskRow(postId: string, circleColor: Option<string>, text: Option<TextStyle>, href: string, title: string, post: Post)

  /** An SVG `line`; `stroke-dasharray` is set only for a truthy `dashed`. */
  datatype SvgLine = SvgLine(x1: real, y1: real, x2: real, y2: real, stroke: string, strokeWidth: int, dasharray: Option<string>)

  /** The modal's content: the post's title and its converted markdown. */
  datatype Modal = Modal(title: string, html: string)

  /** The anchor for one placed grid post. */
  function GridLinkOf(post: Post): (l: GridLink)
    requires Placed(post)
    ensures l.postId == post.id && l.href == Href(post) && l.title == post.title && l.post == post
    ensures l.columnStart == post.position.value.x && l.columnEnd - l.columnStart == post.size.value.width
    ensures l.rowStart == post.position.value.y && l.rowEnd - l.rowStart == post.size.value.height
    ensures l.decoration.Some? <==> post.styles.Some?
    ensures l.decoration.Some? ==> l.decoration.value.zIndex == "1" && l.decoration.value.text == TextStyleOf(post.styles)
    ensures l.decoration.Some? ==> l.decoration.value.backgroundColor != "" && l.decoration.value.padding != ""
    ensures l.decoration.Some? && Truthy(Pick(post.styles, BackgroundColor)) ==>
      l.decoration.value.backgroundColor == Pick(post.styles, BackgroundColor).value
    ensures l.decoration.Some? && !Truthy(Pick(post.styles, BackgroundColor)) ==> l.decoration.value.backgroundColor == "transparent"
    ensures l.decoration.Some? && Truthy(Pick(post.styles, Padding)) ==> l.decoration.value.padding == Pick(post.styles, Padding).value
    ensures l.decoration.Some? && !Truthy(Pick(post.styles, Padding)) ==> l.decoration.value.padding == "0"
  {
    var pos := post.position.value;
    var size := post.size.value;
    var decoration :=
      if post.styles.Some? then
        Some(Decoration(TextStyleOf(post.styles),
                        OrElse(Pick(post.styles, BackgroundColor), "transparent"),
                        OrElse(Pick(post.styles, Padding), "0"), "1"))
      else None;
    GridLink(Href(post), post.id, pos.x, pos.x + size.width, pos.y, pos.y + size.height, decoration, post.title, post)
  }

  /**
   * Where both front ends style a grid post, they agree: the legacy anchor has the React
   * anchor's placement, and a styled post gets the React anchor's styles.
   */
  lemma {:induction false} GridLinkAgreesWithReact(post: Post)
    requires Placed(post)
    ensures var l := GridLinkOf(post);
      var s := GridPost.Style(post);
      && l.columnStart == s.columnStart && l.columnEnd == s.columnEnd
      && l.rowStart == s.rowStart && l.rowEnd == s.rowEnd
      && l.href == GridPost.Render(post).href
      && (post.styles.Some? ==>
            (l.decoration.value.text == s.text
             && l.decoration.value.backgroundColor == s.backgroundColor
             && l.decoration.value.padding == s.padding))
  {
  }

  /** The row for one task post. */
  function TaskRowOf(post: Post): (r: TaskRow)
    ensures r.postId == post.id && r.href == Href(post) && r.title == post.title && r.post == post
    ensures r.circleColor.Some? <==> post.styles.Some?
    ensures r.text.Some? <==> post.styles.Some?
    ensures r.circleColor.Some? ==> r.circleColor.value != ""
    ensures r.circleColor.Some? && Truthy(Pick(post.styles, CircleColor)) ==> r.circleColor.value == Pick(post.styles, CircleColor).value
    ensures r.circleColor.Some? && !Truthy(Pick(post.styles, CircleColor)) ==> r.circleColor.value == "#ccc"
    ensures r.text.Some? ==> r.text.value == TextStyleOf(post.styles)
  {
    if post.styles.Some? then
      TaskRow(post.id, Some(OrElse(Pick(post.styles, CircleColor), "#ccc")), Some(TextStyleOf(post.styles)),
              Href(post), post.title, post)
    else TaskRow(post.id, None, None, Href(post), post.title, post)
  }

  /**
   * A styled task post looks the same in both front ends; an unstyled one gets no inline
   * style here, where the React row falls back to `#ccc` and `inherit`.
   */
  lemma {:induction false} TaskRowAgreesWithReact(post: Post)
    ensures var r := TaskRowOf(post);
      var v := TaskItem.Render(post);
      && r.href == v.href
      && (post.styles.Some? ==> r.circleColor == Some(v.circleColor) && r.text == Some(v.text))
  {
  }

  /** The number of leading posts that have a grid placement. */
  function FirstUnplaced(ps: seq<Post>): (k: nat)
    ensures k <= |ps|
    ensures forall i :: 0 <= i < k ==> Placed(ps[i])
    ensures k < |ps| ==> !Placed(ps[k])
  {
    if ps == [] || !Placed(ps[0]) then 0 else 1 + FirstUnplaced(ps[1..])
  }

  /** The anchors for a run of placed grid posts, in order. */
  function GridLinks(ps: seq<Post>): (r: seq<GridLink>)
    requires forall i :: 0 <= i < |ps| ==> Placed(ps[i])
    ensures |r| == |ps| && forall i :: 0 <= i < |ps| ==> r[i] == GridLinkOf(ps[i])
  {
    seq(|ps|, i requires 0 <= i < |ps| && Placed(ps[i]) => GridLinkOf(ps[i]))
  }

  /** The rows for the task posts, in order. */
  function TaskRows(ps: seq<Post>): (r: seq<TaskRow>)
    ensures |r| == |ps| && forall i :: 0 <= i < |ps| ==> r[i] == TaskRowOf(ps[i])
  {
    seq(|ps|, i requires 0 <= i < |ps| => TaskRowOf(ps[i]))
  }

  /** The grid anchors as the lookup sees them, each with the box the layout gives the i-th one. */
  function Document(links: seq<GridLink>, layout: nat -> Rect): (doc: seq<DomElement>)
    ensures |doc| == |links|
    ensures forall i :: 0 <= i < |links| ==>
      doc[i].classes == [GridPostClass] && doc[i].postId == links[i].postId && doc[i].box == layout(i)
  {
    seq(|links|, i requires 0 <= i < |links| => DomElement([GridPostClass], links[i].postId, layout(i)))
  }

  /**
   * Every anchor this renderer appends carries `grid-post`, so a connection between two
   * rendered grid posts always resolves and gets its line.
   */
  lemma {:induction false} DocumentResolves(links: seq<GridLink>, layout: nat -> Rect, c: Connection)
    requires exists i :: 0 <= i < |links| && links[i].postId == c.from
    requires exists j :: 0 <= j < |links| && links[j].postId == c.to
    ensures Resolves(c, Document(links, layout))
  {
    var doc := Document(links, layout);
    var i :| 0 <= i < |links| && links[i].postId == c.from;
    var j :| 0 <= j < |links| && links[j].postId == c.to;
    assert MatchesPost(doc[i], c.from);
    assert MatchesPost(doc[j], c.to);
  }

  /** The SVG line for a connection whose two ends are on the page. */
  function SvgLineOf(c: Connection, grid: Rect, doc: seq<DomElement>): (l: SvgLine)
    requires Resolves(c, doc)
    ensures var a := CentreIn(Query(doc, c.from).value, grid);
      var b := CentreIn(Query(doc, c.to).value, grid);
      l.x1 == a.x && l.y1 == a.y && l.x2 == b.x && l.y2 == b.y
    ensures l.stroke == OrElse(c.color, DefaultColor) && l.strokeWidth == WidthOr(c.width, DefaultWidth)
    ensures l.dasharray.Some? <==> Truthy(c.dashed)
    ensures l.dasharray.Some? ==> l.dasharray == c.dashed
  {
    var a := CentreIn(Query(doc, c.from).value, grid);
    var b := CentreIn(Query(doc, c.to).value, grid);
    SvgLine(a.x, a.y, b.x, b.y, OrElse(c.color, DefaultColor), WidthOr(c.width, DefaultWidth),
            if Truthy(c.dashed) then c.dashed else None)
  }

  /** The overlay `drawConnections` leaves: one line per connection whose ends are both on the page. */
  function SvgLines(cs: seq<Connection>, grid: Rect, doc: seq<DomElement>): (r: seq<SvgLine>)
    ensures var rs := Resolved(cs, doc);
      |r| == |rs| && forall i :: 0 <= i < |rs| ==> r[i] == SvgLineOf(rs[i], grid, doc)
  {
    var rs := Resolved(cs, doc);
    seq(|rs|, i requires 0 <= i < |rs| => SvgLineOf(rs[i], grid, doc))
  }

  /** Drawing a list extended by one connection adds that connection's line, if it resolves. */
  lemma {:induction false} SvgLinesSnoc(cs: seq<Connection>, c: Connection, grid: Rect, doc: seq<DomElement>)
    ensures SvgLines(cs + [c], grid, doc)
      == SvgLines(cs, grid, doc) + (if Resolves(c, doc) then [SvgLineOf(c, grid, doc)] else [])
  {
    ResolvedSnoc(cs, c, doc);
  }

  /** Resolving a list extended by one connection extends the resolved list by it, if it resolves. */
  lemma {:induction false} ResolvedSnoc(cs: seq<Connection>, c: Connection, doc: seq<DomElement>)
    ensures Resolved(cs + [c], doc) == Resolved(cs, doc) + (if Resolves(c, doc) then [c] else [])
    decreases |cs|
  {
    var csc := cs + [c];
    if cs == [] {
      assert csc[1..] == [];
    } else {
      assert csc[0] == cs[0] && csc[1..] == cs[1..] + [c];
      ResolvedSnoc(cs[1..], c, doc);
    }
  }

  /**
   * The two overlays draw the same lines: same count, same order, same end points, colour and
   * width; the legacy line carries the dash pattern only when it is truthy.
   */
  lemma {:induction false} SvgLinesAgreeWithReact(cs: seq<Connection>, grid: Rect, doc: seq<DomElement>)
    ensures var legacy := SvgLines(cs, grid, doc);
      var react := ComputeLines(cs, grid, doc);
      && |legacy| == |react|
      && forall i :: 0 <= i < |react| ==>
           && legacy[i].x1 == react[i].x1 && legacy[i].y1 == react[i].y1
           && legacy[i].x2 == react[i].x2 && legacy[i].y2 == react[i].y2
           && legacy[i].stroke == react[i].color && legacy[i].strokeWidth == react[i].width
           && legacy[i].dasharray == (if Truthy(react[i].dashed) then react[i].dashed else None)
  {
    LinesFollowResolved(cs, grid, doc);
  }

  /** The legacy copy of the converter: the same chain without the empty-input guard. */
  function ConvertMarkdownToHtml(md: string): string {
    MarkdownConverter.Pipeline(md)
  }

  /** Without the guard it still maps every text, the empty one included, as the React converter does. */
  lemma {:induction false} ConvertersAgree(md: string)
    ensures ConvertMarkdownToHtml(md) == MarkdownConverter.ConvertMarkdownToHtml(md)
  {
    if md == "" {
      MarkdownConverter.PipelineEmpty();
    }
  }

  /** The file a post's content is fetched from; a post without `file` gives `posts/undefined`. */
  function ContentUrl(post: Post): (u: string)
    ensures PostsDirectory <= u
    ensures post.file.Some? ==> u[|PostsDirectory|..] == post.file.value
    ensures post.file.None? ==> u[|PostsDirectory|..] == "undefined"
  {
    PostsDirectory + (if post.file.Some? then post.file.value else "undefined")
  }

  class Manager {
    var posts: seq<Post>
    var connections: seq<Connection>
    /** The anchors appended to the dot grid, in order. */
    var gridChildren: seq<GridLink>
    /** The rows of the task list. */
    var taskRows: seq<TaskRow>
    /** The lines inside the connector overlay. */
    var overlay: seq<SvgLine>
    /** The modal's content, once one was shown. */
    var modal: Option<Modal>
    /** The files fetched for post content, in order. */
    ghost var fetches: seq<string>

    constructor()
      ensures posts == [] && connections == [] && gridChildren == [] && taskRows == [] && overlay == []
      ensures modal.None? && fetches == []
    {
      posts := [];
      connections := [];
      gridChildren := [];
      taskRows := [];
      overlay := [];
      modal := None;
      fetches := [];
    }

    /**
     * `renderGridPosts`: appends an anchor per grid post, in index order, to what the grid
     * already holds.  Reading the placement of a grid post without `position` or `size`
     * throws, so the posts from that one on are not appended and `ok` is false.
     */
    method RenderGridPosts() returns (ok: bool)
      modifies this`gridChildren
      ensures var gp := OfKind(posts, "grid");
        var k := FirstUnplaced(gp);
        && (ok <==> k == |gp|)
        && gridChildren == old(gridChildren) + GridLinks(gp[..k])
    {
      var gp := OfKind(posts, "grid");
      var i := 0;
      while i < |gp|
        invariant 0 <= i <= |gp|
        invariant forall j :: 0 <= j < i ==> Placed(gp[j])
        invariant gridChildren == old(gridChildren) + GridLinks(gp[..i])
      {
        if !Placed(gp[i]) {
          FirstUnplacedAt(gp, i);
          return false;
        }
        assert GridLinks(gp[..i + 1]) == GridLinks(gp[..i]) + [GridLinkOf(gp[i])];
        gridChildren := gridChildren + [GridLinkOf(gp[i])];
        i := i + 1;
      }
      FirstUnplacedAt(gp, i);
      assert gp[..i] == gp;
      return true;
    }

    /** `renderTaskPosts`: empties the task list, then adds a row per task post, in index order. */
    method RenderTaskPosts()
      modifies this`taskRows
      ensures taskRows == TaskRows(OfKind(posts, "task"))
    {
      var tp := OfKind(posts, "task");
      taskRows := [];
      var i := 0;
      while i < |tp|
        invariant 0 <= i <= |tp|
        invariant taskRows == TaskRows(tp[..i])
      {
        taskRows := taskRows + [TaskRowOf(tp[i])];
        i := i + 1;
      }
      assert tp[..i] == tp;
    }

    /**
     * `drawConnections`: empties the overlay, then adds a line per connection whose two ends
     * are grid anchors on the page, in connection order.
     */
    method DrawConnections(grid: Rect, layout: nat -> Rect)
      modifies this`overlay
      ensures overlay == SvgLines(connections, grid, Document(gridChildren, layout))
    {
      var doc := Document(gridChildren, layout);
      overlay := [];
      var i := 0;
      while i < |connections|
        invariant 0 <= i <= |connections|
        invariant overlay == SvgLines(connections[..i], grid, doc)
      {
        var c := connections[i];
        assert connections[..i + 1] == connections[..i] + [c];
        SvgLinesSnoc(connections[..i], c, grid, doc);
        if Query(doc, c.from).Some? && Query(doc, c.to).Some? {
          overlay := overlay + [SvgLineOf(c, grid, doc)];
        }
        i := i + 1;
      }
      assert connections[..i] == connections;
    }

    /**
     * `init`: with the index loaded (`data`), takes its lists (a missing one is empty), then
     * renders the grid; the task list and the overlay are rendered only when the grid render
     * did not throw.  A failed load changes nothing.
     */
    method Init(data: Option<IndexData>, grid: Rect, layout: nat -> Rect) returns (completed: bool)
      modifies this`posts, this`connections, this`gridChildren, this`taskRows, this`overlay
      ensures data.None? ==> !completed && posts == old(posts) && connections == old(connections)
      ensures data.None? ==> gridChildren == old(gridChildren) && taskRows == old(taskRows) && overlay == old(overlay)
      ensures data.Some? ==> posts == ListOr(data.value.posts) && connections == ListOr(data.value.connections)
      ensures data.Some? ==> var gp := OfKind(posts, "grid");
        && gridChildren == old(gridChildren) + GridLinks(gp[..FirstUnplaced(gp)])
        && (completed <==> FirstUnplaced(gp) == |gp|)
      ensures completed ==> taskRows == TaskRows(OfKind(posts, "task"))
      ensures completed ==> overlay == SvgLines(connections, grid, Document(gridChildren, layout))
      ensures data.Some? && !completed ==> taskRows == old(taskRows) && overlay == old(overlay)
    {
      if data.None? {
        return false;
      }
      posts := ListOr(data.value.posts);
      connections := ListOr(data.value.connections);
      completed := RenderGridPosts();
      if completed {
        RenderTaskPosts();
        DrawConnections(grid, layout);
      }
    }

    /**
     * `showPostContent`: fetches the post's file; on success the modal shows the post's title
     * and its converted markdown, on failure the modal stays as it was.
     */
    method ShowPostContent(post: Post, outcome: Fetch)
      modifies this`modal, this`fetches
      ensures fetches == old(fetches) + [ContentUrl(post)]
      ensures outcome.Loaded? ==> modal == Some(Modal(post.title, ConvertMarkdownToHtml(outcome.text)))
      ensures outcome.Failed? ==> modal == old(modal)
    {
      fetches := fetches + [ContentUrl(post)];
      if outcome.Loaded? {
        modal := Some(Modal(post.title, ConvertMarkdownToHtml(outcome.text)));
      }
    }

    /**
     * A click on the i-th grid anchor opens its post unless the post sets `showContent` to
     * false, in which case the browser follows the link and nothing is fetched.
     */
    method ClickGridLink(i: nat, outcome: Fetch)
      requires i < |gridChildren|
      modifies this`modal, this`fetches
      ensures gridChildren[i].post.showContent != Some(false) ==> fetches == old(fetches) + [ContentUrl(gridChildren[i].post)]
      ensures gridChildren[i].post.showContent != Some(false) && outcome.Loaded? ==>
        modal == Some(Modal(gridChildren[i].post.title, ConvertMarkdownToHtml(outcome.text)))
      ensures gridChildren[i].post.showContent != Some(false) && outcome.Failed? ==> modal == old(modal)
      ensures gridChildren[i].post.showContent == Some(false) ==> fetches == old(fetches) && modal == old(modal)
    {
      var post := gridChildren[i].post;
      if HandleClick(post).preventDefault {
        ShowPostContent(post, outcome);
      }
    }

    /** A click on the i-th task row's link: the same gate as a grid anchor's click. */
    method ClickTaskRow(i: nat, outcome: Fetch)
      requires i < |taskRows|
      modifies this`modal, this`fetches
      ensures taskRows[i].post.showContent != Some(false) ==> fetches == old(fetches) + [ContentUrl(taskRows[i].post)]
      ensures taskRows[i].post.showContent != Some(false) && outcome.Loaded? ==>
        modal == Some(Modal(taskRows[i].post.title, ConvertMarkdownToHtml(outcome.text)))
      ensures taskRows[i].post.showContent != Some(false) && outcome.Failed? ==> modal == old(modal)
      ensures taskRows[i].post.showContent == Some(false) ==> fetches == old(fetches) && modal == old(modal)
    {
      var post := taskRows[i].post;
      if HandleClick(post).preventDefault {
        ShowPostContent(post, outcome);
      }
    }
  }

  /** The first post without a placement sits exactly where the leading placed run ends. */
  lemma {:induction false} FirstUnplacedAt(ps: seq<Post>, k: nat)
    requires k <= |ps|
    requires forall j :: 0 <= j < k ==> Placed(ps[j])
    requires k < |ps| ==> !Placed(ps[k])
    ensures FirstUnplaced(ps) == k
    decreases k
  {
    if k > 0 {
      assert forall j :: 0 <= j < k - 1 ==> ps[1..][j] == ps[j + 1];
      FirstUnplacedAt(ps[1..], k - 1);
    }
  }
}
