/**
 * Flattening the pages of a playlist listing into a snapshot. Fetching
 * the pages is a network call and is not modelled: the pages arrive as
 * an input sequence, in the order the listing returned them.
 */
module PlaylistFetch {
  import opened Wrappers
  import opened Text
  import opened SnapshotStore

  datatype Artist = Artist(name: string)

  /** A track as the listing reports it. */
  datatype ListedTrack = ListedTrack(uri: string, name: string, artists: seq<Artist>)

  /** One playlist entry; local or unavailable tracks come back without a track. */
  datatype PlaylistItem = PlaylistItem(track: Option<ListedTrack>)

  /** One page of the listing. */
  datatype Page = Page(items: seq<PlaylistItem>)

  /** The separator placed between artist names. */
  const ArtistSeparator: string := ", "

  function ArtistNames(artists: seq<Artist>): (names: seq<string>)
    ensures |names| == |artists|
    ensures forall i :: 0 <= i < |artists| ==> names[i] == artists[i].name
  {
    if |artists| == 0 then [] else ArtistNames(artists[..|artists| - 1]) + [artists[|artists| - 1].name]
  }

  /** The stored form of a listed track: its name and its artists' names joined by `", "`. */
  function ToTrack(t: ListedTrack): (r: Track)
    ensures r.name == t.name
    ensures |t.artists| == 0 ==> r.artists == ""
    ensures |t.artists| == 1 ==> r.artists == t.artists[0].name
  {
    Track(t.name, Join(ArtistNames(t.artists), ArtistSeparator))
  }

  /** One more artist adds `", "` and that artist's name after the names already joined. */
  lemma ArtistsJoinedInOrder(uri: string, name: string, artists: seq<Artist>, a: Artist)
    requires |artists| >= 1
    ensures ToTrack(ListedTrack(uri, name, artists + [a])).artists
         == ToTrack(ListedTrack(uri, name, artists)).artists + ArtistSeparator + a.name
  {
    var all := artists + [a];
    assert all[..|all| - 1] == artists;
    assert ArtistNames(all) == ArtistNames(artists) + [a.name];
    JoinAppend(ArtistNames(artists), ArtistSeparator, a.name);
  }

  /** Item `i` carries a track with URI `uri`. */
  predicate HasUri(items: seq<PlaylistItem>, i: int, uri: string)
  {
    0 <= i < |items| && items[i].track.Some? && items[i].track.value.uri == uri
  }

  /** The URIs of the entries that carry a track. */
  function UriSet(items: seq<PlaylistItem>): set<string>
  {
    set i | 0 <= i < |items| && items[i].track.Some? :: items[i].track.value.uri
  }

  /**
   * The snapshot after processing `items` in order: an entry without a
   * track is skipped, otherwise its URI is (re)assigned.
   */
  function Collect(items: seq<PlaylistItem>): (songs: Snapshot)
    ensures songs.Keys == UriSet(items)
  {
    if |items| == 0 then map[]
    else
      var front := items[..|items| - 1];
      var earlier := Collect(front);
      var last := items[|items| - 1];
      assert forall i :: 0 <= i < |front| ==> front[i] == items[i];
      match last.track
      case None =>
        assert UriSet(items) == UriSet(front);
        earlier
      case Some(t) =>
        assert UriSet(items) == UriSet(front) + {t.uri};
        earlier[t.uri := ToTrack(t)]
  }

  /** The entries of all pages, page after page. */
  function AllItems(pages: seq<Page>): seq<PlaylistItem>
  {
    if |pages| == 0 then [] else AllItems(pages[..|pages| - 1]) + pages[|pages| - 1].items
  }

  /**
   * Of several entries with one URI, the last one decides the stored
   * track: an entry with no later namesake is what the snapshot holds.
   */
  lemma {:induction false} CollectLastWins(items: seq<PlaylistItem>, i: int)
    requires 0 <= i < |items| && items[i].track.Some?
    requires forall j :: i < j < |items| ==> !HasUri(items, j, items[i].track.value.uri)
    ensures items[i].track.value.uri in Collect(items)
    ensures Collect(items)[items[i].track.value.uri] == ToTrack(items[i].track.value)
  {
    var uri := items[i].track.value.uri;
    assert HasUri(items, i, uri);
    if i < |items| - 1 {
      var front := items[..|items| - 1];
      assert front[i] == items[i];
      forall j | i < j < |front|
        ensures !HasUri(front, j, uri)
      {
        assert !HasUri(items, j, uri);
      }
      CollectLastWins(front, i);
      assert !HasUri(items, |items| - 1, uri);
    }
  }

  /** Processing one more entry updates the snapshot by that entry alone. */
  lemma CollectOneMore(seen: seq<PlaylistItem>, item: PlaylistItem)
    ensures Collect(seen + [item]) ==
      match item.track
      case None => Collect(seen)
      case Some(t) => Collect(seen)[t.uri := ToTrack(t)]
  {
    assert (seen + [item])[..|seen|] == seen;
  }

  /** One more page appends its entries. */
  lemma AllItemsOneMore(pages: seq<Page>, p: nat)
    requires p < |pages|
    ensures AllItems(pages[..p + 1]) == AllItems(pages[..p]) + pages[p].items
  {
    assert pages[..p + 1][..p] == pages[..p];
  }

  /** `get_playlist_songs`: walk the pages and their entries in order. */
  method GetPlaylistSongs(pages: seq<Page>) returns (songs: Snapshot)
    ensures songs == Collect(AllItems(pages))
  {
    songs := map[];
    var p := 0;
    while p < |pages|
      invariant 0 <= p <= |pages|
      invariant songs == Collect(AllItems(pages[..p]))
    {
      var items := pages[p].items;
      ghost var before := AllItems(pages[..p]);
      var k := 0;
      assert before + items[..k] == before;
      while k < |items|
        invariant 0 <= k <= |items|
        invariant songs == Collect(before + items[..k])
      {
        CollectOneMore(before + items[..k], items[k]);
        assert before + items[..k] + [items[k]] == before + items[..k + 1];
        match items[k].track {
          case None =>
          case Some(t) =>
            songs := songs[t.uri := ToTrack(t)];
        }
        k := k + 1;
      }
      assert items[..k] == items;
      AllItemsOneMore(pages, p);
      p := p + 1;
    }
    assert pages[..p] == pages;
  }
}
