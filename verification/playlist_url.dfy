/**
 * Recovering a playlist id from a playlist link such as
 * `https://open.spotify.com/playlist/<ID>?si=...`. The URL parser itself
 * is not modelled: `path` stands for the path component it extracted
 * from `url`.
 */
module PlaylistUrl {
  import opened Wrappers
  import opened Text

  /** The second path segment that marks a playlist link. */
  const PlaylistSegment: string := "playlist"

  /**
   * `path` reads `prefix/playlist/id` followed by nothing or by a further
   * `/...`, with no slash inside `prefix` or `id`.
   */
  ghost predicate PlaylistPath(path: string, prefix: string, id: string, rest: string)
  {
    && '/' !in prefix
    && '/' !in id
    && (rest == "" || rest[0] == '/')
    && path == prefix + "/" + PlaylistSegment + "/" + id + rest
  }

  /** The id part of a playlist path: the third `/`-segment when the second is `playlist`. */
  function ParsePlaylistPath(path: string): (id: Option<string>)
    ensures id.Some? ==> '/' !in id.value
  {
    var parts := Split(path, '/');
    if |parts| > 2 && parts[1] == PlaylistSegment then Some(parts[2]) else None
  }

  /** `extract_playlist_id`: the id inside a playlist link, or the input unchanged. */
  function ExtractPlaylistId(url: string, path: string): (id: string)
    ensures ParsePlaylistPath(path).Some? ==> id == ParsePlaylistPath(path).value
    ensures ParsePlaylistPath(path).None? ==> id == url
  {
    match ParsePlaylistPath(path)
    case Some(parsed) => parsed
    case None => url
  }

  /** Every path of playlist shape yields the id it carries. */
  lemma ExtractFromPlaylistPath(url: string, path: string, prefix: string, id: string, rest: string)
    requires PlaylistPath(path, prefix, id, rest)
    ensures ParsePlaylistPath(path) == Some(id)
    ensures ExtractPlaylistId(url, path) == id
  {
    var tail := SplitIdAndRest(id, rest);
    var mid := PlaylistSegment + ['/'] + (id + rest);
    SplitAtFirstSeparator(PlaylistSegment, '/', id + rest);
    assert Split(mid, '/') == [PlaylistSegment] + tail;
    SplitAtFirstSeparator(prefix, '/', mid);
    PlaylistPathRegrouped(path, prefix, id, rest);
    assert Split(path, '/') == [prefix] + ([PlaylistSegment] + tail);
  }

  /** The segments from the id onwards: the id, then whatever `rest` splits into. */
  lemma SplitIdAndRest(id: string, rest: string) returns (tail: seq<string>)
    requires '/' !in id
    requires rest == "" || rest[0] == '/'
    ensures Split(id + rest, '/') == tail
    ensures |tail| >= 1 && tail[0] == id
  {
    if rest == "" {
      SplitWithoutSeparator(id, '/');
      assert id + rest == id;
      tail := [id];
    } else {
      SplitAtFirstSeparator(id, '/', rest[1..]);
      assert id + rest == id + ['/'] + rest[1..];
      tail := [id] + Split(rest[1..], '/');
    }
  }

  /** Regrouping the concatenation of a playlist path around its first two slashes. */
  lemma PlaylistPathRegrouped(path: string, prefix: string, id: string, rest: string)
    requires path == prefix + "/" + PlaylistSegment + "/" + id + rest
    ensures path == prefix + ['/'] + (PlaylistSegment + ['/'] + (id + rest))
  {
  }

  /** Whenever an id is parsed, the path has playlist shape around exactly that id. */
  lemma ParsedPathIsPlaylistPath(path: string)
    requires ParsePlaylistPath(path).Some?
    ensures var parts := Split(path, '/');
      PlaylistPath(path, parts[0], parts[2], if |parts| == 3 then "" else "/" + Join(parts[3..], "/"))
  {
    var parts := Split(path, '/');
    JoinSplit(path, '/');
    assert Join(parts, "/") == parts[0] + "/" + Join(parts[1..], "/");
    assert parts[1..][1..] == parts[2..];
    assert Join(parts[1..], "/") == parts[1] + "/" + Join(parts[2..], "/");
    if |parts| == 3 {
      assert Join(parts[2..], "/") == parts[2];
    } else {
      assert parts[2..][1..] == parts[3..];
      assert Join(parts[2..], "/") == parts[2] + "/" + Join(parts[3..], "/");
    }
  }

  /** A path of no playlist shape falls back to the link as given. */
  lemma ExtractFallsBack(url: string, path: string)
    requires forall prefix, id, rest :: !PlaylistPath(path, prefix, id, rest)
    ensures ExtractPlaylistId(url, path) == url
  {
    if ParsePlaylistPath(path).Some? {
      ParsedPathIsPlaylistPath(path);
    }
  }
}
