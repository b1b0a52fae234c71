/**
 * The React post provider (src/context/PostContext.jsx): the loaded index, the open post,
 * and a session cache of post content keyed by file name.  Calls are sequential; the
 * outcome of each fetch is a parameter.
 */
module PostContext {
  import opened Text
  import opened PostData

  const ContentDirectory: string := "/data/posts/"

  /** One content fetch: its URL, and whether `contentLoading` was up while it ran. */
  datatype FetchRecord = FetchRecord(url: string, contentLoading: bool)

  /** The post whose content `loadPostContent` would load: present, with a truthy `file`. */
  predicate HasFile(post: Option<Post>) {
    post.Some? && Truthy(post.value.file)
  }

  class PostProvider {
    var posts: seq<Post>
    var connections: seq<Connection>
    var loading: bool
    var currentPost: Option<Post>
    var postContent: string
    var contentLoading: bool
    /** `contentCache`: file name to text. */
    var cache: map<string, string>
    /** The content fetches issued, in order. */
    ghost var fetchLog: seq<FetchRecord>

    constructor()
      ensures posts == [] && connections == [] && loading && currentPost.None?
      ensures postContent == "" && !contentLoading && cache == map[] && fetchLog == []
    {
      posts := [];
      connections := [];
      loading := true;
      currentPost := None;
      postContent := "";
      contentLoading := false;
      cache := map[];
      fetchLog := [];
    }

    /**
     * `loadPosts`: a loaded index sets both lists, a missing list being empty; a failed load
     * keeps them; either way `loading` ends false.
     */
    method LoadPosts(data: Option<IndexData>)
      modifies this`posts, this`connections, this`loading
      ensures data.Some? ==> posts == ListOr(data.value.posts) && connections == ListOr(data.value.connections)
      ensures data.None? ==> posts == old(posts) && connections == old(connections)
      ensures !loading
    {
      if data.Some? {
        posts := ListOr(data.value.posts);
        connections := ListOr(data.value.connections);
      }
      loading := false;
    }

    /**
     * `loadPostContent`: nothing happens for a missing post or file.  A cached file is shown
     * from the cache without a fetch.  Otherwise the file is fetched with `contentLoading` up;
     * a success caches and shows the text, a failure leaves cache and content alone; the flag
     * ends down.  A cached entry is never changed.
     */
    method LoadPostContent(post: Option<Post>, outcome: Fetch)
      modifies this`postContent, this`contentLoading, this`cache, this`fetchLog
      ensures !HasFile(post) ==>
        postContent == old(postContent) && contentLoading == old(contentLoading)
        && cache == old(cache) && fetchLog == old(fetchLog)
      ensures HasFile(post) && post.value.file.value in old(cache) ==>
        postContent == old(cache)[post.value.file.value] && contentLoading == old(contentLoading)
        && cache == old(cache) && fetchLog == old(fetchLog)
      ensures HasFile(post) && post.value.file.value !in old(cache) ==>
        fetchLog == old(fetchLog) + [FetchRecord(ContentDirectory + post.value.file.value, true)] && !contentLoading
      ensures HasFile(post) && post.value.file.value !in old(cache) && outcome.Loaded? ==>
        cache == old(cache)[post.value.file.value := outcome.text] && postContent == outcome.text
      ensures HasFile(post) && post.value.file.value !in old(cache) && outcome.Failed? ==>
        cache == old(cache) && postContent == old(postContent)
      ensures forall f :: f in old(cache) ==> f in cache && cache[f] == old(cache)[f]
    {
      if !HasFile(post) {
        return;
      }
      var file := post.value.file.value;
      if file in cache {
        postContent := cache[file];
        return;
      }
      contentLoading := true;
      fetchLog := fetchLog + [FetchRecord(ContentDirectory + file, contentLoading)];
      if outcome.Loaded? {
        cache := cache[file := outcome.text];
        postContent := outcome.text;
      }
      contentLoading := false;
    }

    /** `openPost`: the post becomes current, then its content is loaded. */
    method OpenPost(post: Option<Post>, outcome: Fetch)
      modifies this`currentPost, this`postContent, this`contentLoading, this`cache, this`fetchLog
      ensures currentPost == post
      ensures !HasFile(post) ==>
        postContent == old(postContent) && contentLoading == old(contentLoading)
        && cache == old(cache) && fetchLog == old(fetchLog)
      ensures HasFile(post) && post.value.file.value in old(cache) ==>
        postContent == old(cache)[post.value.file.value] && contentLoading == old(contentLoading)
        && cache == old(cache) && fetchLog == old(fetchLog)
      ensures HasFile(post) && post.value.file.value !in old(cache) ==>
        fetchLog == old(fetchLog) + [FetchRecord(ContentDirectory + post.value.file.value, true)] && !contentLoading
      ensures HasFile(post) && post.value.file.value !in old(cache) && outcome.Loaded? ==>
        cache == old(cache)[post.value.file.value := outcome.text] && postContent == outcome.text
      ensures HasFile(post) && post.value.file.value !in old(cache) && outcome.Failed? ==>
        cache == old(cache) && postContent == old(postContent)
      ensures forall f :: f in old(cache) ==> f in cache && cache[f] == old(cache)[f]
    {
      currentPost := post;
      LoadPostContent(post, outcome);
    }

    /** `closePost`: only the current post is cleared. */
    method ClosePost()
      modifies this`currentPost
      ensures currentPost.None?
    {
      currentPost := None;
    }
  }

  /**
   * Opening the same post twice, the first load succeeding, fetches at most once: the second
   * open is a cache hit that shows what the first one cached.
   */
  method OpenTwice(p: PostProvider, post: Post, first: Fetch, second: Fetch)
    requires Truthy(post.file) && first.Loaded?
    modifies p
    ensures |p.fetchLog| == |old(p.fetchLog)| + (if post.file.value in old(p.cache) then 0 else 1)
    ensures p.currentPost == Some(post)
    ensures post.file.value in p.cache && p.postContent == p.cache[post.file.value]
    ensures post.file.value !in old(p.cache) ==> p.postContent == first.text
  {
    p.OpenPost(Some(post), first);
    p.ClosePost();
    p.OpenPost(Some(post), second);
  }
}
