/**
 * The authoring tool (scripts/post-creator.py): fresh ids, new grid and task post records
 * appended to the index, and validated, de-duplicated connections.  The index is the object
 * the tool loads, changes in place and saves; loading, saving and the post files are not
 * part of this model.
 */
module PostCreator {
  import opened Text
  import opened PostData

  const PostPrefix: string := "post"
  const TaskPrefix: string := "task"

  /** Both prefixes are four characters long, which is where the tool cuts the number off. */
  const SuffixStart: nat := 4

  /** `int(id[4:])` for an id with the prefix; ids without it, or with a non-number after it, count as 0. */
  function SuffixNumber(id: string, prefix: string): (n: nat)
    requires |prefix| == SuffixStart
    ensures n > 0 ==> prefix <= id && ParseDecimal(id[SuffixStart..]) == Some(n)
    ensures prefix <= id && ParseDecimal(id[SuffixStart..]).Some? ==> n == ParseDecimal(id[SuffixStart..]).value
    ensures !(prefix <= id) || ParseDecimal(id[SuffixStart..]).None? ==> n == 0
  {
    if prefix <= id then
      match ParseDecimal(id[SuffixStart..])
      case Some(v) => v
      case None => 0
    else 0
  }

  function Max(a: nat, b: nat): nat {
    if a < b then b else a
  }

  /** The highest number among the posts' ids with the prefix, 0 when there is none. */
  function HighestSuffix(ps: seq<Post>, prefix: string): (h: nat)
    requires |prefix| == SuffixStart
    ensures forall i :: 0 <= i < |ps| ==> SuffixNumber(ps[i].id, prefix) <= h
  {
    if ps == [] then 0
    else
      var init := ps[..|ps| - 1];
      assert forall i :: 0 <= i < |init| ==> init[i] == ps[i];
      Max(HighestSuffix(init, prefix), SuffixNumber(ps[|ps| - 1].id, prefix))
  }

  /** The highest number is one that an id in the index carries, unless it is 0. */
  lemma {:induction false} HighestSuffixAttained(ps: seq<Post>, prefix: string)
    requires |prefix| == SuffixStart
    ensures HighestSuffix(ps, prefix) == 0 || exists i :: 0 <= i < |ps| && SuffixNumber(ps[i].id, prefix) == HighestSuffix(ps, prefix)
    decreases |ps|
  {
    if ps != [] {
      var init := ps[..|ps| - 1];
      HighestSuffixAttained(init, prefix);
      if HighestSuffix(ps, prefix) != SuffixNumber(ps[|ps| - 1].id, prefix) && HighestSuffix(ps, prefix) != 0 {
        var i :| 0 <= i < |init| && SuffixNumber(init[i].id, prefix) == HighestSuffix(init, prefix);
        assert init[i] == ps[i];
      }
    }
  }

  lemma {:induction false} HighestSuffixStep(ps: seq<Post>, i: nat, prefix: string)
    requires |prefix| == SuffixStart && i < |ps|
    ensures HighestSuffix(ps[..i + 1], prefix) == Max(HighestSuffix(ps[..i], prefix), SuffixNumber(ps[i].id, prefix))
  {
    var p := ps[..i + 1];
    assert p[..|p| - 1] == ps[..i];
    assert p[|p| - 1] == ps[i];
  }

  /** The id the generator returns: the prefix and one more than the highest number in use. */
  function NextId(ps: seq<Post>, prefix: string): string
    requires |prefix| == SuffixStart
  {
    prefix + NatToString(HighestSuffix(ps, prefix) + 1)
  }

  /** The generated id carries the prefix and a number of at least 1, one above every number in use. */
  lemma {:induction false} NextIdNumber(ps: seq<Post>, prefix: string)
    requires |prefix| == SuffixStart
    ensures SuffixNumber(NextId(ps, prefix), prefix) == HighestSuffix(ps, prefix) + 1
  {
    var n := HighestSuffix(ps, prefix) + 1;
    var id := NextId(ps, prefix);
    assert prefix <= id;
    assert id[SuffixStart..] == NatToString(n);
    ParsePrinted(n);
  }

  /** The generated id is not the id of any post already in the index. */
  lemma {:induction false} NextIdIsFresh(ps: seq<Post>, prefix: string)
    requires |prefix| == SuffixStart
    ensures forall i :: 0 <= i < |ps| ==> ps[i].id != NextId(ps, prefix)
  {
    NextIdNumber(ps, prefix);
    forall i | 0 <= i < |ps|
      ensures ps[i].id != NextId(ps, prefix)
    {
      assert SuffixNumber(ps[i].id, prefix) < SuffixNumber(NextId(ps, prefix), prefix);
    }
  }

  /** An empty index, or one with no numbered id of that prefix, starts at 1. */
  lemma {:induction false} NextIdFirst(ps: seq<Post>, prefix: string)
    requires |prefix| == SuffixStart
    requires forall i :: 0 <= i < |ps| ==> SuffixNumber(ps[i].id, prefix) == 0
    ensures NextId(ps, prefix) == prefix + "1"
  {
    HighestSuffixAttained(ps, prefix);
    assert NatToString(1) == "1";
  }

  /** `args.filename or f"{title.lower().replace(' ', '-')}.md"`. */
  function PostFilename(title: string, filename: Option<string>): (f: string)
    ensures Truthy(filename) ==> f == filename.value
    ensures !Truthy(filename) ==> |f| == |title| + 3 && f[|title|..] == ".md"
    ensures !Truthy(filename) ==> forall i :: 0 <= i < |title| ==>
      f[i] == if title[i] == ' ' then '-' else LowerChar(title[i])
  {
    if Truthy(filename) then filename.value else ReplaceChar(Lower(title), ' ', '-') + ".md"
  }

  /** A derived file name holds no space and no ASCII capital. */
  lemma {:induction false} DefaultFilenameShape(title: string)
    ensures var f := PostFilename(title, None);
      forall i :: 0 <= i < |f| ==> f[i] != ' ' && !('A' <= f[i] <= 'Z')
  {
    var f := PostFilename(title, None);
    forall i | 0 <= i < |f|
      ensures f[i] != ' ' && !('A' <= f[i] <= 'Z')
    {
      if i >= |title| {
        assert f[i] == ".md"[i - |title|];
      }
    }
  }

  /** The arguments of the `grid` command; `fontSize` is the float's printed form. */
  datatype GridArgs = GridArgs(
    title: string,
    filename: Option<string>,
    url: Option<string>,
    x: int,
    y: int,
    width: int,
    height: int,
    font: string,
    color: string,
    fontSize: string)

  /** The arguments of the `task` command. */
  datatype TaskArgs = TaskArgs(title: string, filename: Option<string>, url: Option<string>, font: string, color: string)

  /** The arguments of the `connect` command. */
  datatype ConnectArgs = ConnectArgs(from: string, to: string, color: string, width: int, dashed: Option<string>)

  /** The record `add_grid_post` appends. */
  function GridPostRecord(args: GridArgs, id: string): (p: Post)
    ensures p.id == id && p.kind == "grid" && p.title == args.title
    ensures p.file == Some(PostFilename(args.title, args.filename))
    ensures Placed(p) && p.position.value == Point(args.x, args.y) && p.size.value == Extent(args.width, args.height)
    ensures p.url.Some? <==> Truthy(args.url)
    ensures p.url.Some? ==> p.url == args.url
    ensures Pick(p.styles, Font) == Some(args.font) && Pick(p.styles, Color) == Some(args.color)
    ensures Pick(p.styles, FontSize) == Some(args.fontSize + "rem") && Pick(p.styles, Padding) == Some("5px")
    ensures Pick(p.styles, BackgroundColor).None? && Pick(p.styles, FontWeight).None? && Pick(p.styles, CircleColor).None?
    ensures p.showContent.None?
  {
    Post(id, args.title, "grid", Some(PostFilename(args.title, args.filename)),
         if Truthy(args.url) then args.url else None,
         Some(Point(args.x, args.y)), Some(Extent(args.width, args.height)),
         Some(Styles(Some(args.font), Some(args.color), Some(args.fontSize + "rem"), None, None, Some("5px"), None)),
         None)
  }

  /** The record `add_task_post` appends: no placement, text colour `#333`, circle in the chosen colour. */
  function TaskPostRecord(args: TaskArgs, id: string): (p: Post)
    ensures p.id == id && p.kind == "task" && p.title == args.title
    ensures p.file == Some(PostFilename(args.title, args.filename))
    ensures p.position.None? && p.size.None?
    ensures p.url.Some? <==> Truthy(args.url)
    ensures p.url.Some? ==> p.url == args.url
    ensures Pick(p.styles, Font) == Some(args.font) && Pick(p.styles, Color) == Some("#333")
    ensures Pick(p.styles, CircleColor) == Some(args.color)
    ensures p.showContent.None?
  {
    Post(id, args.title, "task", Some(PostFilename(args.title, args.filename)),
         if Truthy(args.url) then args.url else None,
         None, None,
         Some(Styles(Some(args.font), Some("#333"), None, None, None, None, Some(args.color))),
         None)
  }

  /** The record `add_connection` appends; `dashed` is kept only when truthy. */
  function ConnectionRecord(args: ConnectArgs): (c: Connection)
    ensures c.from == args.from && c.to == args.to
    ensures c.color == Some(args.color) && c.width == Some(args.width)
    ensures c.dashed.Some? <==> Truthy(args.dashed)
    ensures c.dashed.Some? ==> c.dashed == args.dashed
  {
    Connection(args.from, args.to, Some(args.color), Some(args.width),
               if Truthy(args.dashed) then args.dashed else None)
  }

  /** The ids of the posts, in order. */
  function Ids(ps: seq<Post>): (r: seq<string>)
    ensures |r| == |ps| && forall i :: 0 <= i < |ps| ==> r[i] == ps[i].id
  {
    seq(|ps|, i requires 0 <= i < |ps| => ps[i].id)
  }

  /** Some connection already goes from `from` to `to` (the reverse direction does not count). */
  predicate Linked(cs: seq<Connection>, from: string, to: string) {
    exists i :: 0 <= i < |cs| && cs[i].from == from && cs[i].to == to
  }

  /** How `add_connection` ends: added, or refused for one of its three reasons, checked in this order. */
  datatype ConnectResult = Added | FromNotFound | ToNotFound | AlreadyExists

  function ConnectCheck(ps: seq<Post>, cs: seq<Connection>, from: string, to: string): (r: ConnectResult)
    ensures r == Added <==> from in Ids(ps) && to in Ids(ps) && !Linked(cs, from, to)
    ensures r == FromNotFound <==> from !in Ids(ps)
    ensures r == ToNotFound <==> from in Ids(ps) && to !in Ids(ps)
    ensures r == AlreadyExists <==> from in Ids(ps) && to in Ids(ps) && Linked(cs, from, to)
  {
    if from !in Ids(ps) then FromNotFound
    else if to !in Ids(ps) then ToNotFound
    else if Linked(cs, from, to) then AlreadyExists
    else Added
  }

  /** Adding the same connection a second time is refused as a duplicate. */
  lemma {:induction false} SecondConnectRefused(ps: seq<Post>, cs: seq<Connection>, args: ConnectArgs)
    requires ConnectCheck(ps, cs, args.from, args.to) == Added
    ensures ConnectCheck(ps, cs + [ConnectionRecord(args)], args.from, args.to) == AlreadyExists
  {
    var cs' := cs + [ConnectionRecord(args)];
    assert cs'[|cs|].from == args.from && cs'[|cs|].to == args.to;
  }

  /** A connection in one direction does not block the reverse one. */
  lemma {:induction false} ReverseNotDuplicate(ps: seq<Post>, cs: seq<Connection>, args: ConnectArgs)
    requires args.from != args.to
    requires ConnectCheck(ps, cs, args.to, args.from) == Added
    ensures ConnectCheck(ps, cs + [ConnectionRecord(args)], args.to, args.from) == Added
  {
    var cs' := cs + [ConnectionRecord(args)];
    forall i | 0 <= i < |cs'|
      ensures !(cs'[i].from == args.to && cs'[i].to == args.from)
    {
      if i < |cs| {
        assert cs'[i] == cs[i];
      }
    }
  }

  /** The index the tool edits: its post list and its connection list. */
  class PostIndex {
    var posts: seq<Post>
    var connections: seq<Connection>

    constructor(posts: seq<Post>, connections: seq<Connection>)
      ensures this.posts == posts && this.connections == connections
    {
      this.posts := posts;
      this.connections := connections;
    }

    /**
     * `generate_post_id` (prefix `post`) and `generate_task_id` (prefix `task`): the prefix
     * and one more than the highest number any id with that prefix carries; the result is not
     * an id already in the index.
     */
    method GenerateId(prefix: string) returns (id: string)
      requires prefix == PostPrefix || prefix == TaskPrefix
      ensures id == NextId(posts, prefix)
      ensures SuffixNumber(id, prefix) == HighestSuffix(posts, prefix) + 1
      ensures forall i :: 0 <= i < |posts| ==> posts[i].id != id
      ensures posts == [] ==> id == prefix + "1"
    {
      if posts == [] {
        NextIdFirst(posts, prefix);
        NextIdNumber(posts, prefix);
        return prefix + "1";
      }
      var highest: nat := 0;
      var i := 0;
      while i < |posts|
        invariant 0 <= i <= |posts|
        invariant highest == HighestSuffix(posts[..i], prefix)
      {
        HighestSuffixStep(posts, i, prefix);
        var id := posts[i].id;
        ghost var n := SuffixNumber(id, prefix);
        if prefix <= id {
          var num := ParseDecimal(id[SuffixStart..]);
          if num.Some? {
            assert n == num.value;
            highest := Max(highest, num.value);
          } else {
            assert n == 0;
          }
        } else {
          assert n == 0;
        }
        i := i + 1;
      }
      assert posts[..i] == posts;
      id := prefix + NatToString(highest + 1);
      NextIdIsFresh(posts, prefix);
      NextIdNumber(posts, prefix);
    }

    /** `add_grid_post`: appends one grid post with a fresh `post` id and returns the id and the record. */
    method AddGridPost(args: GridArgs) returns (id: string, post: Post)
      modifies this`posts
      ensures id == NextId(old(posts), PostPrefix) && post == GridPostRecord(args, id)
      ensures posts == old(posts) + [post]
      ensures forall i :: 0 <= i < |old(posts)| ==> old(posts)[i].id != id
    {
      id := GenerateId(PostPrefix);
      post := GridPostRecord(args, id);
      posts := posts + [post];
    }

    /** `add_task_post`: appends one task post with a fresh `task` id and returns the id and the record. */
    method AddTaskPost(args: TaskArgs) returns (id: string, post: Post)
      modifies this`posts
      ensures id == NextId(old(posts), TaskPrefix) && post == TaskPostRecord(args, id)
      ensures posts == old(posts) + [post]
      ensures forall i :: 0 <= i < |old(posts)| ==> old(posts)[i].id != id
    {
      id := GenerateId(TaskPrefix);
      post := TaskPostRecord(args, id);
      posts := posts + [post];
    }

    /**
     * `add_connection`: refuses an unknown `from`, then an unknown `to`, then a pair already
     * connected in that direction, leaving the index as it was; otherwise appends one
     * connection.  The posts are never touched.
     */
    method AddConnection(args: ConnectArgs) returns (r: ConnectResult)
      modifies this`connections
      ensures r == ConnectCheck(posts, old(connections), args.from, args.to)
      ensures r == Added ==> connections == old(connections) + [ConnectionRecord(args)]
      ensures r != Added ==> connections == old(connections)
    {
      var ids := Ids(posts);
      if args.from !in ids {
        return FromNotFound;
      }
      if args.to !in ids {
        return ToNotFound;
      }
      var record := ConnectionRecord(args);
      var i := 0;
      while i < |connections|
        invariant 0 <= i <= |connections|
        invariant forall j :: 0 <= j < i ==> !(connections[j].from == args.from && connections[j].to == args.to)
      {
        if connections[i].from == args.from && connections[i].to == args.to {
          return AlreadyExists;
        }
        i := i + 1;
      }
      connections := connections + [record];
      return Added;
    }
  }
}
