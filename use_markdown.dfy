/**
 * The React markdown hook (src/hooks/useMarkdown.js): a loader with its own content cache,
 * a loading flag and the last error.  Calls are sequential; the outcome of each fetch is a
 * parameter.
 */
module UseMarkdown {
  import opened Text
  import opened PostData

  const ContentDirectory: string := "/data/posts/"

  /** One fetch: its URL, whether `loading` was up and whether `error` was clear while it ran. */
  datatype FetchRecord = FetchRecord(url: string, loading: bool, errorCleared: bool)

  class MarkdownLoader {
    var content: string
    var loading: bool
    /** The error of the last failed fetch since the last miss, if any. */
    var error: Option<string>
    /** `contentCache`: file path to text. */
    var cache: map<string, string>
    ghost var fetchLog: seq<FetchRecord>

    constructor()
      ensures content == "" && !loading && error.None? && cache == map[] && fetchLog == []
    {
      content := "";
      loading := false;
      error := None;
      cache := map[];
      fetchLog := [];
    }

    /**
     * `loadMarkdown`: a falsy path gives `""` and changes nothing.  A cached path gives the
     * cached text and shows it, without a fetch and without touching `error`.  Otherwise the
     * flag is raised and the error cleared before the fetch; a success caches, shows and
     * returns the text, a failure records the error and returns `""`; the flag ends down.
     */
    method LoadMarkdown(filepath: Option<string>, outcome: Fetch) returns (r: string)
      modifies this`content, this`loading, this`error, this`cache, this`fetchLog
      ensures !Truthy(filepath) ==>
        r == "" && content == old(content) && loading == old(loading)
        && error == old(error) && cache == old(cache) && fetchLog == old(fetchLog)
      ensures Truthy(filepath) && filepath.value in old(cache) ==>
        r == old(cache)[filepath.value] && content == r && loading == old(loading)
        && error == old(error) && cache == old(cache) && fetchLog == old(fetchLog)
      ensures Truthy(filepath) && filepath.value !in old(cache) ==>
        fetchLog == old(fetchLog) + [FetchRecord(ContentDirectory + filepath.value, true, true)] && !loading
      ensures Truthy(filepath) && filepath.value !in old(cache) && outcome.Loaded? ==>
        r == outcome.text && content == r && cache == old(cache)[filepath.value := r] && error.None?
      ensures Truthy(filepath) && filepath.value !in old(cache) && outcome.Failed? ==>
        r == "" && error == Some(outcome.reason) && content == old(content) && cache == old(cache)
      ensures forall f :: f in old(cache) ==> f in cache && cache[f] == old(cache)[f]
    {
      if !Truthy(filepath) {
        return "";
      }
      var path := filepath.value;
      if path in cache {
        content := cache[path];
        return cache[path];
      }
      loading := true;
      error := None;
      fetchLog := fetchLog + [FetchRecord(ContentDirectory + path, loading, error.None?)];
      if outcome.Loaded? {
        cache := cache[path := outcome.text];
        content := outcome.text;
        r := outcome.text;
      } else {
        error := Some(outcome.reason);
        r := "";
      }
      loading := false;
    }
  }
}
