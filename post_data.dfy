/**
 * The records of the post index (`posts/index.json`, `data/posts/index.json`) that the
 * front ends read and the authoring tool writes, and the JavaScript value rules the
 * front ends apply to them: `x || fallback` with the empty string as the falsy value,
 * the `#post-<id>` link, and the click rule.
 */
module PostData {
  import opened Text

  /** The optional style block of a post; every key may be absent. */
  datatype Styles = Styles(
    font: Option<string>,
    color: Option<string>,
    fontSize: Option<string>,
    fontWeight: Option<string>,
    backgroundColor: Option<string>,
    padding: Option<string>,
    circleColor: Option<string>)

  datatype Point = Point(x: int, y: int)

  datatype Extent = Extent(width: int, height: int)

  /**
   * A post record.  `kind` is the record's `type` key (`"grid"` or `"task"`); the optional
   * keys are `None` when the record lacks them.
   */
  datatype Post = Post(
    id: string,
    title: string,
    kind: string,
    file: Option<string>,
    url: Option<string>,
    position: Option<Point>,
    size: Option<Extent>,
    styles: Option<Styles>,
    showContent: Option<bool>)

  /** The post has the grid placement a grid renderer reads: a position and a size. */
  predicate Placed(post: Post) {
    post.position.Some? && post.size.Some?
  }

  /** A connector between two posts, by id. */
  datatype Connection = Connection(
    from: string,
    to: string,
    color: Option<string>,
    width: Option<int>,
    dashed: Option<string>)

  /** The parsed index file: either list may be missing. */
  datatype IndexData = IndexData(posts: Option<seq<Post>>, connections: Option<seq<Connection>>)

  /** A string value is truthy in JavaScript when it is present and not empty. */
  predicate Truthy(v: Option<string>) {
    v.Some? && v.value != ""
  }

  /** `v || fallback` for a string value. */
  function OrElse(v: Option<string>, fallback: string): (r: string)
    ensures r == fallback || (v.Some? && r == v.value)
    ensures Truthy(v) <==> (v.Some? && r == v.value && r != "")
    ensures fallback != "" ==> r != ""
  {
    if Truthy(v) then v.value else fallback
  }

  /** `list || []` for a list value that may be missing. */
  function ListOr<T>(v: Option<seq<T>>): (r: seq<T>)
    ensures v.None? ==> r == []
    ensures v.Some? ==> r == v.value
  {
    if v.Some? then v.value else []
  }

  /** The keys of a style block. */
  datatype StyleKey = Font | Color | FontSize | FontWeight | BackgroundColor | Padding | CircleColor

  /** `post.styles?.<key>`: absent when the style block or the key is absent. */
  function Pick(styles: Option<Styles>, key: StyleKey): Option<string> {
    if styles.None? then None
    else
      var st := styles.value;
      match key
      case Font => st.font
      case Color => st.color
      case FontSize => st.fontSize
      case FontWeight => st.fontWeight
      case BackgroundColor => st.backgroundColor
      case Padding => st.padding
      case CircleColor => st.circleColor
  }

  /** The text style every renderer derives from a post: font, colour, size and weight. */
  datatype TextStyle = TextStyle(fontFamily: string, color: string, fontSize: string, fontWeight: string)

  /** `styles?.font || 'inherit'` and the same for colour, size and weight. */
  function TextStyleOf(styles: Option<Styles>): (t: TextStyle)
    ensures t.fontFamily != "" && t.color != "" && t.fontSize != "" && t.fontWeight != ""
    ensures styles.None? ==> t == TextStyle("inherit", "inherit", "inherit", "inherit")
    ensures Truthy(Pick(styles, Font)) ==> t.fontFamily == Pick(styles, Font).value
    ensures !Truthy(Pick(styles, Font)) ==> t.fontFamily == "inherit"
    ensures Truthy(Pick(styles, Color)) ==> t.color == Pick(styles, Color).value
    ensures !Truthy(Pick(styles, Color)) ==> t.color == "inherit"
    ensures Truthy(Pick(styles, FontSize)) ==> t.fontSize == Pick(styles, FontSize).value
    ensures !Truthy(Pick(styles, FontSize)) ==> t.fontSize == "inherit"
    ensures Truthy(Pick(styles, FontWeight)) ==> t.fontWeight == Pick(styles, FontWeight).value
    ensures !Truthy(Pick(styles, FontWeight)) ==> t.fontWeight == "inherit"
  {
    TextStyle(
      OrElse(Pick(styles, Font), "inherit"),
      OrElse(Pick(styles, Color), "inherit"),
      OrElse(Pick(styles, FontSize), "inherit"),
      OrElse(Pick(styles, FontWeight), "inherit"))
  }

  const PostAnchorPrefix: string := "#post-"

  /** The link of a post: its `url` when truthy, else the in-page anchor `#post-<id>`. */
  function Href(post: Post): (r: string)
    ensures Truthy(post.url) ==> r == post.url.value
    ensures !Truthy(post.url) ==> PostAnchorPrefix <= r && r[|PostAnchorPrefix|..] == post.id
  {
    OrElse(post.url, PostAnchorPrefix + post.id)
  }

  /** The post an in-page anchor names, if it is one. */
  function AnchorTarget(href: string): (r: Option<string>)
    ensures r.Some? ==> href == PostAnchorPrefix + r.value
  {
    if PostAnchorPrefix <= href then Some(href[|PostAnchorPrefix|..]) else None
  }

  /** A post without a truthy `url` links to itself: its anchor names its own id. */
  lemma {:induction false} HrefNamesPost(post: Post)
    requires !Truthy(post.url)
    ensures AnchorTarget(Href(post)) == Some(post.id)
  {
  }

  /** What a click on a rendered post does: cancel the navigation and open the post, or neither. */
  datatype ClickEffect = ClickEffect(preventDefault: bool, target: Option<Post>)

  /**
   * `if (post.showContent !== false) { e.preventDefault(); openPost(post) }`: only an explicit
   * `false` lets the browser follow the link; a missing key opens the post.
   */
  function HandleClick(post: Post): (e: ClickEffect)
    ensures e.preventDefault <==> e.target.Some?
    ensures e.target.Some? ==> e.target.value == post
    ensures e.preventDefault <==> post.showContent != Some(false)
    ensures post.showContent.None? ==> e.preventDefault
  {
    if post.showContent != Some(false) then ClickEffect(true, Some(post)) else ClickEffect(false, None)
  }

  /** What fetching a file and reading its text gives: the text, or the error it failed with. */
  datatype Fetch = Loaded(text: string) | Failed(reason: string)

  /** The posts of one type, in index order (`posts.filter(post => post.type === kind)`). */
  function OfKind(ps: seq<Post>, kind: string): (r: seq<Post>)
    ensures |r| <= |ps|
    ensures forall i :: 0 <= i < |r| ==> r[i].kind == kind && r[i] in ps
  {
    if ps == [] then []
    else if ps[0].kind == kind then [ps[0]] + OfKind(ps[1..], kind)
    else OfKind(ps[1..], kind)
  }

  /**
   * The type filter keeps index order: filtering a concatenation is the concatenation of the
   * filtered parts, so together with the one-element case it fixes the result completely.
   */
  lemma {:induction false} OfKindAppend(a: seq<Post>, b: seq<Post>, kind: string)
    ensures OfKind(a + b, kind) == OfKind(a, kind) + OfKind(b, kind)
    decreases |a|
  {
    if a != [] {
      var ab := a + b;
      assert ab[0] == a[0] && ab[1..] == a[1..] + b;
      OfKindAppend(a[1..], b, kind);
      if a[0].kind == kind {
        assert OfKind(ab, kind) == [a[0]] + OfKind(a[1..] + b, kind);
        assert OfKind(a, kind) == [a[0]] + OfKind(a[1..], kind);
      } else {
        assert OfKind(ab, kind) == OfKind(a[1..] + b, kind);
        assert OfKind(a, kind) == OfKind(a[1..], kind);
      }
    } else {
      assert a + b == b;
    }
  }

  lemma {:induction false} OfKindSingle(p: Post, kind: string)
    ensures OfKind([p], kind) == if p.kind == kind then [p] else []
  {
  }

  /** Every post of the given type survives the filter. */
  lemma {:induction false} OfKindComplete(ps: seq<Post>, kind: string, p: Post)
    requires p in ps && p.kind == kind
    ensures p in OfKind(ps, kind)
    decreases |ps|
  {
    if ps[0] != p {
      OfKindComplete(ps[1..], kind, p);
    }
  }
}
