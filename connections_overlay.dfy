/**
 * The connector lines of the React grid (src/components/Shared/ConnectionsOverlay.jsx) and
 * the document lookup both front ends use to find a post's element:
 * `document.querySelector('.grid-post[data-post-id="<id>"]')`.
 */
module ConnectionsOverlay {
  import opened Text
  import opened PostData
  import opened Geometry

  /** An element of the page that carries a `data-post-id`: its classes, that id, and its box. */
  datatype DomElement = DomElement(classes: seq<string>, postId: string, box: Rect)

  const GridPostClass: string := "grid-post"

  predicate MatchesPost(e: DomElement, id: string) {
    GridPostClass in e.classes && e.postId == id
  }

  /** `doc[i]` is the first element in document order that matches `id`. */
  predicate FirstMatchAt(doc: seq<DomElement>, id: string, i: int) {
    0 <= i < |doc| && MatchesPost(doc[i], id) && forall j :: 0 <= j < i ==> !MatchesPost(doc[j], id)
  }

  /** The index of the first element at or after `j` that matches `id`. */
  function FirstMatchFrom(doc: seq<DomElement>, id: string, j: nat): (r: Option<nat>)
    requires j <= |doc|
    ensures r.None? <==> forall i :: j <= i < |doc| ==> !MatchesPost(doc[i], id)
    ensures r.Some? ==> j <= r.value < |doc| && MatchesPost(doc[r.value], id)
    ensures r.Some? ==> forall i :: j <= i < r.value ==> !MatchesPost(doc[i], id)
    decreases |doc| - j
  {
    if j == |doc| then None
    else if MatchesPost(doc[j], id) then Some(j)
    else FirstMatchFrom(doc, id, j + 1)
  }

  /** The box of the first element, in document order, with class `grid-post` and the given id. */
  function Query(doc: seq<DomElement>, id: string): (r: Option<Rect>)
    ensures r.None? <==> forall i :: 0 <= i < |doc| ==> !MatchesPost(doc[i], id)
    ensures r.Some? ==> exists i :: FirstMatchAt(doc, id, i) && doc[i].box == r.value
  {
    var m := FirstMatchFrom(doc, id, 0);
    if m.Some? then
      assert FirstMatchAt(doc, id, m.value);
      Some(doc[m.value].box)
    else None
  }

  /** Both ends of a connection are on the page. */
  predicate Resolves(c: Connection, doc: seq<DomElement>) {
    Query(doc, c.from).Some? && Query(doc, c.to).Some?
  }

  /** A line of the overlay, as the component keeps it in its `lines` state. */
  datatype Line = Line(id: string, x1: real, y1: real, x2: real, y2: real, color: string, width: int, dashed: Option<string>)

  /** `connection.width || 2`: a missing width and a width of 0 both become 2. */
  function WidthOr(w: Option<int>, fallback: int): (r: int)
    ensures (w.Some? && w.value != 0) ==> r == w.value
    ensures (w.None? || w.value == 0) ==> r == fallback
  {
    if w.Some? && w.value != 0 then w.value else fallback
  }

  const DefaultColor: string := "#888"
  const DefaultWidth: int := 2

  /** The line for one connection, or nothing when either end is missing from the page. */
  function MakeLine(c: Connection, grid: Rect, doc: seq<DomElement>): (r: Option<Line>)
    ensures r.Some? <==> Resolves(c, doc)
    ensures r.Some? ==> r.value.id == c.from + "-" + c.to
    ensures r.Some? ==> var a := CentreIn(Query(doc, c.from).value, grid);
      var b := CentreIn(Query(doc, c.to).value, grid);
      r.value.x1 == a.x && r.value.y1 == a.y && r.value.x2 == b.x && r.value.y2 == b.y
    ensures r.Some? ==> r.value.color == OrElse(c.color, DefaultColor) && r.value.color != ""
    ensures r.Some? ==> r.value.width == WidthOr(c.width, DefaultWidth) && r.value.width != 0
    ensures r.Some? ==> r.value.dashed == c.dashed
  {
    var from := Query(doc, c.from);
    var to := Query(doc, c.to);
    if from.None? || to.None? then None
    else
      var a := CentreIn(from.value, grid);
      var b := CentreIn(to.value, grid);
      Some(Line(c.from + "-" + c.to, a.x, a.y, b.x, b.y,
                OrElse(c.color, DefaultColor), WidthOr(c.width, DefaultWidth), c.dashed))
  }

  /** `connections.map(...)`: one optional line per connection, in order. */
  function MapLines(cs: seq<Connection>, grid: Rect, doc: seq<DomElement>): (r: seq<Option<Line>>)
    ensures |r| == |cs| && forall i :: 0 <= i < |cs| ==> r[i] == MakeLine(cs[i], grid, doc)
  {
    seq(|cs|, i requires 0 <= i < |cs| => MakeLine(cs[i], grid, doc))
  }

  /** `.filter(Boolean)`: the present lines, in order. */
  function Present(xs: seq<Option<Line>>): seq<Line> {
    if xs == [] then []
    else if xs[0].Some? then [xs[0].value] + Present(xs[1..])
    else Present(xs[1..])
  }

  /** The lines `updateLines` computes: map every connection to a line, then drop the misses. */
  function ComputeLines(cs: seq<Connection>, grid: Rect, doc: seq<DomElement>): seq<Line> {
    Present(MapLines(cs, grid, doc))
  }

  /** The connections whose two ends are on the page, in order. */
  function Resolved(cs: seq<Connection>, doc: seq<DomElement>): (r: seq<Connection>)
    ensures |r| <= |cs|
    ensures forall i :: 0 <= i < |r| ==> Resolves(r[i], doc) && r[i] in cs
  {
    if cs == [] then []
    else if Resolves(cs[0], doc) then [cs[0]] + Resolved(cs[1..], doc)
    else Resolved(cs[1..], doc)
  }

  /**
   * One line per connection whose two ends are on the page, in connection order, each line
   * the one MakeLine gives for it; unresolved connections are dropped.
   */
  lemma {:induction false} LinesFollowResolved(cs: seq<Connection>, grid: Rect, doc: seq<DomElement>)
    ensures |ComputeLines(cs, grid, doc)| == |Resolved(cs, doc)|
    ensures forall i :: 0 <= i < |Resolved(cs, doc)| ==>
      Some(ComputeLines(cs, grid, doc)[i]) == MakeLine(Resolved(cs, doc)[i], grid, doc)
    decreases |cs|
  {
    if cs != [] {
      var m := MapLines(cs, grid, doc);
      assert m[1..] == MapLines(cs[1..], grid, doc);
      LinesFollowResolved(cs[1..], grid, doc);
    }
  }

  /** When every connection resolves, there is exactly one line per connection. */
  lemma {:induction false} AllResolvedAllDrawn(cs: seq<Connection>, doc: seq<DomElement>)
    requires forall i :: 0 <= i < |cs| ==> Resolves(cs[i], doc)
    ensures Resolved(cs, doc) == cs
    decreases |cs|
  {
    if cs != [] {
      var rest := cs[1..];
      assert forall i :: 0 <= i < |rest| ==> rest[i] == cs[i + 1];
      AllResolvedAllDrawn(rest, doc);
      assert Resolves(cs[0], doc);
      assert Resolved(cs, doc) == [cs[0]] + rest;
      assert [cs[0]] + rest == cs;
    }
  }

  /** A single connection whose ends are both on the page gets exactly its line. */
  lemma {:induction false} OneResolvedOneLine(c: Connection, grid: Rect, doc: seq<DomElement>)
    requires Resolves(c, doc)
    ensures ComputeLines([c], grid, doc) == [MakeLine(c, grid, doc).value]
  {
    var l := MakeLine(c, grid, doc);
    var m := MapLines([c], grid, doc);
    assert m == [l] && l.Some?;
    assert m[1..] == [];
    assert Present(m) == [l.value] + Present(m[1..]);
  }

  /** A page with no `grid-post` element resolves nothing, so no line is drawn. */
  lemma {:induction false} NoGridPostNoLines(cs: seq<Connection>, grid: Rect, doc: seq<DomElement>)
    requires forall i :: 0 <= i < |doc| ==> GridPostClass !in doc[i].classes
    ensures ComputeLines(cs, grid, doc) == []
  {
    LinesFollowResolved(cs, grid, doc);
    NoneResolved(cs, doc);
  }

  lemma {:induction false} NoneResolved(cs: seq<Connection>, doc: seq<DomElement>)
    requires forall i :: 0 <= i < |doc| ==> GridPostClass !in doc[i].classes
    ensures Resolved(cs, doc) == []
    decreases |cs|
  {
    if cs != [] {
      NoneResolved(cs[1..], doc);
    }
  }

  /**
   * `updateLines`: without the grid or the overlay mounted, or without connections, it
   * returns early and the previous lines stay; otherwise the whole line set is replaced.
   */
  function UpdateLines(prev: seq<Line>, cs: seq<Connection>, gridMounted: bool, svgMounted: bool,
                       grid: Rect, doc: seq<DomElement>): (r: seq<Line>)
    ensures (!gridMounted || !svgMounted || |cs| == 0) ==> r == prev
    ensures (gridMounted && svgMounted && |cs| > 0) ==> r == ComputeLines(cs, grid, doc)
  {
    if !gridMounted || !svgMounted || |cs| == 0 then prev else ComputeLines(cs, grid, doc)
  }

  /**
   * The result does not depend on the previous lines once the update runs, so running it
   * again with the same inputs and the same layout (a second resize) changes nothing.
   */
  lemma {:induction false} UpdateIdempotent(prev: seq<Line>, cs: seq<Connection>, gridMounted: bool, svgMounted: bool,
                         grid: Rect, doc: seq<DomElement>)
    ensures var once := UpdateLines(prev, cs, gridMounted, svgMounted, grid, doc);
      UpdateLines(once, cs, gridMounted, svgMounted, grid, doc) == once
  {
  }
}
