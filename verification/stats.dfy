/**
 * The listening history and the per-user statistics: the history page,
 * the most-played songs and the live counters of uploads, playlists,
 * favorites and plays.
 */
module Stats {
  import opened Wrappers
  import opened Library
  import opened Sorting
  import Paging

  function ByUser(user: Id): Play -> bool
  {
    (p: Play) => p.user == user
  }

  /**
   * The user's plays, most recent first: the user's rows of the history
   * table in insertion order, reversed, none lost or repeated.
   */
  function PlaysBy(h: seq<Play>, user: Id): (r: seq<Play>)
    ensures r == Reverse(Filter(h, ByUser(user)))
    ensures forall p :: p in r <==> p in h && p.user == user
  {
    if h == [] then []
    else
      var init := h[..|h| - 1];
      var last := h[|h| - 1];
      assert h == init + [last];
      var rest := PlaysBy(init, user);
      PlaysStep(init, last, user, rest);
      if last.user == user then [last] + rest else rest
  }

  /** One more row at the back of the history: shown first when it is the user's. */
  lemma PlaysStep(init: seq<Play>, last: Play, user: Id, rest: seq<Play>)
    requires rest == Reverse(Filter(init, ByUser(user)))
    ensures (if last.user == user then [last] + rest else rest) == Reverse(Filter(init + [last], ByUser(user)))
  {
    var f := Filter(init, ByUser(user));
    FilterSnoc(init, last, ByUser(user));
    if last.user == user {
      assert Filter(init + [last], ByUser(user)) == f + [last];
      ReverseSnoc(f, last);
    } else {
      assert Filter(init + [last], ByUser(user)) == f;
    }
  }

  /** Timestamps never decrease along the history table. */
  predicate Chronological(h: seq<Play>)
  {
    forall i, j :: 0 <= i < j < |h| ==> h[i].playedAt <= h[j].playedAt
  }

  /** Timestamps never increase along a listing: the `-played_at` order. */
  predicate NewestFirst(r: seq<Play>)
  {
    forall i, j :: 0 <= i < j < |r| ==> r[i].playedAt >= r[j].playedAt
  }

  /** A play no older than everything in a newest-first listing can go in front of it. */
  lemma PrependNewest(last: Play, rest: seq<Play>)
    requires NewestFirst(rest)
    requires forall p :: p in rest ==> p.playedAt <= last.playedAt
    ensures NewestFirst([last] + rest)
  {
    var r := [last] + rest;
    forall i, j | 0 <= i < j < |r| ensures r[i].playedAt >= r[j].playedAt {
      assert r[j] == rest[j - 1] && rest[j - 1] in rest;
      if i > 0 {
        assert r[i] == rest[i - 1];
      }
    }
  }

  /** On a chronological history the plays are shown by `-played_at`. */
  lemma {:induction false} PlaysByNewestFirst(h: seq<Play>, user: Id)
    requires Chronological(h)
    ensures NewestFirst(PlaysBy(h, user))
  {
    if h != [] {
      var init := h[..|h| - 1];
      var last := h[|h| - 1];
      assert Chronological(init) by {
        forall i, j | 0 <= i < j < |init| ensures init[i].playedAt <= init[j].playedAt {
          assert init[i] == h[i] && init[j] == h[j];
        }
      }
      PlaysByNewestFirst(init, user);
      var rest := PlaysBy(init, user);
      if last.user == user {
        forall p | p in rest ensures p.playedAt <= last.playedAt {
          var k :| 0 <= k < |init| && init[k] == p;
          assert init[k] == h[k];
        }
        PrependNewest(last, rest);
      }
    }
  }

  /** The number of plays of the user (`PlayHistory.objects.filter(user=...).count()`): one per history row of theirs. */
  function TotalPlays(h: seq<Play>, user: Id): (n: nat)
    ensures n == |Filter(h, ByUser(user))|
  {
    |PlaysBy(h, user)|
  }

  /** `play_history`: the user's plays, newest first, fifty per page. */
  function HistoryPage(st: Store, user: Id, page: Option<string>): (p: Paging.Page<Play>)
    ensures p == Paging.Paginate(PlaysBy(st.history, user), Paging.HistoryPerPage, page)
    ensures |p.items| <= Paging.HistoryPerPage
    ensures 1 <= p.number <= p.numPages
    ensures forall x :: x in p.items ==> x in st.history && x.user == user
    ensures p.numPages == Paging.NumPages(TotalPlays(st.history, user), Paging.HistoryPerPage)
  {
    var all := PlaysBy(st.history, user);
    Paging.PageFromItems(all, Paging.HistoryPerPage, page);
    Paging.Paginate(all, Paging.HistoryPerPage, page)
  }

  function PlayOf(user: Id, song: Id): Play -> bool
  {
    (p: Play) => p.user == user && p.song == song
  }

  /** How often the user played `song`: the number of history rows for the pair. */
  function PlayCount(h: seq<Play>, user: Id, song: Id): (n: nat)
    ensures n == |Filter(h, PlayOf(user, song))|
    ensures n <= |h|
  {
    if h == [] then 0
    else
      var init := h[..|h| - 1];
      var last := h[|h| - 1];
      assert h == init + [last];
      FilterSnoc(init, last, PlayOf(user, song));
      PlayCount(init, user, song) + (if last.user == user && last.song == song then 1 else 0)
  }

  /** A song the user played has a row in the history. */
  lemma {:induction false} PlayCountPositive(h: seq<Play>, user: Id, song: Id)
    requires PlayCount(h, user, song) > 0
    ensures exists p :: p in h && p.user == user && p.song == song
  {
    var last := h[|h| - 1];
    if !(last.user == user && last.song == song) {
      PlayCountPositive(h[..|h| - 1], user, song);
      var p :| p in h[..|h| - 1] && p.user == user && p.song == song;
      assert p in h;
    }
  }

  /** Playing a song once more raises its count for that user by one and leaves every other count alone. */
  lemma PlayCountAppend(h: seq<Play>, p: Play, user: Id, song: Id)
    ensures PlayCount(h + [p], user, song) ==
      PlayCount(h, user, song) + (if p.user == user && p.song == song then 1 else 0)
  {
    assert (h + [p])[..|h|] == h;
  }

  datatype SongPlays = SongPlays(song: Id, plays: nat)

  const MostPlayedLimit: nat := 10

  function PlayedBy(h: seq<Play>, user: Id): Id -> bool
  {
    (s: Id) => PlayCount(h, user, s) > 0
  }

  function PlaysRank(h: seq<Play>, user: Id): Id -> Rank
  {
    (s: Id) => Rank(-(PlayCount(h, user, s) as int), "")
  }

  /** Pairs each song with its play count. */
  function WithPlays(h: seq<Play>, user: Id, ids: seq<Id>): (r: seq<SongPlays>)
    ensures |r| == |ids|
    ensures forall i :: 0 <= i < |ids| ==> r[i] == SongPlays(ids[i], PlayCount(h, user, ids[i]))
  {
    if ids == [] then [] else [SongPlays(ids[0], PlayCount(h, user, ids[0]))] + WithPlays(h, user, ids[1..])
  }

  /** The songs the user played, most played first. */
  function PlayedSongs(st: Store, user: Id): (r: seq<Id>)
    requires IdsBelow(st) && EngagementOk(st)
    ensures NoDup(r)
    ensures forall s: Id :: s in r <==> PlayCount(st.history, user, s) > 0
    ensures SortedBy(r, PlaysRank(st.history, user))
  {
    var ids := IdsWhere(st.nextId, PlayedBy(st.history, user));
    PlayedIds(st, user);
    var r := SortBy(ids, PlaysRank(st.history, user));
    PermutationNoDup(ids, r);
    assert forall id :: id in r <==> id in multiset(r);
    r
  }

  /** Scanning the ids for songs the user played finds exactly those songs. */
  lemma PlayedIds(st: Store, user: Id)
    requires IdsBelow(st) && EngagementOk(st)
    ensures forall s: Id :: s in IdsWhere(st.nextId, PlayedBy(st.history, user)) <==> PlayCount(st.history, user, s) > 0
  {
    var ids := IdsWhere(st.nextId, PlayedBy(st.history, user));
    forall s: Id ensures s in ids <==> PlayCount(st.history, user, s) > 0 {
      if PlayCount(st.history, user, s) > 0 {
        PlayCountPositive(st.history, user, s);
      }
    }
  }

  /** The ten songs the user played most, as ids. */
  function TopPlayed(st: Store, user: Id): (top: seq<Id>)
    requires IdsBelow(st) && EngagementOk(st)
    ensures |top| <= MostPlayedLimit
    ensures NoDup(top)
    ensures forall s :: s in top ==> PlayCount(st.history, user, s) > 0
    ensures SortedBy(top, PlaysRank(st.history, user))
    ensures forall s: Id :: PlayCount(st.history, user, s) > 0 && s !in top ==>
      |top| == MostPlayedLimit && PlayCount(st.history, user, s) <= PlayCount(st.history, user, top[|top| - 1])
  {
    var sorted := PlayedSongs(st, user);
    var top := Take(sorted, MostPlayedLimit);
    assert forall i :: 0 <= i < |top| ==> top[i] == sorted[i] && top[i] in sorted;
    forall s: Id | PlayCount(st.history, user, s) > 0 && s !in top
      ensures |top| == MostPlayedLimit && PlayCount(st.history, user, s) <= PlayCount(st.history, user, top[|top| - 1])
    {
      var k :| 0 <= k < |sorted| && sorted[k] == s;
      assert k >= |top|;
      assert RankLe(PlaysRank(st.history, user)(sorted[|top| - 1]), PlaysRank(st.history, user)(sorted[k]));
    }
    top
  }

  /** `user_stats`' ten most played songs with their play counts. */
  function MostPlayed(st: Store, user: Id): (r: seq<SongPlays>)
    requires IdsBelow(st) && EngagementOk(st)
    ensures |r| <= MostPlayedLimit
    ensures forall i :: 0 <= i < |r| ==> r[i].plays == PlayCount(st.history, user, r[i].song) && r[i].plays > 0
    ensures forall i, j :: 0 <= i < j < |r| ==> r[i].plays >= r[j].plays && r[i].song != r[j].song
    ensures forall s: Id :: PlayCount(st.history, user, s) > 0 && (forall i :: 0 <= i < |r| ==> r[i].song != s) ==>
      |r| == MostPlayedLimit && PlayCount(st.history, user, s) <= r[|r| - 1].plays
  {
    var top := TopPlayed(st, user);
    var r := WithPlays(st.history, user, top);
    assert forall i :: 0 <= i < |top| ==> top[i] in top;
    r
  }

  // ---------------------------------------------------------------- counters

  function UploadedBy(songs: map<Id, Song>, user: Id): Id -> bool
  {
    (id: Id) => id in songs && songs[id].uploadedBy == user
  }

  /** `total_uploads`: the songs the user uploaded. */
  function TotalUploads(st: Store, user: Id): nat
  {
    |IdsWhere(st.nextId, UploadedBy(st.songs, user))|
  }

  function OwnedBy(playlists: map<Id, Playlist>, user: Id): Id -> bool
  {
    (id: Id) => id in playlists && playlists[id].owner == user
  }

  /** `total_playlists`: the playlists the user owns. */
  function TotalPlaylists(st: Store, user: Id): nat
  {
    |IdsWhere(st.nextId, OwnedBy(st.playlists, user))|
  }

  function FavoritedBy(favorites: set<(Id, Id)>, user: Id): Id -> bool
  {
    (s: Id) => (user, s) in favorites
  }

  /** `total_favorites`: the songs the user marked as favorite. */
  function TotalFavorites(st: Store, user: Id): nat
  {
    |IdsWhere(st.nextId, FavoritedBy(st.favorites, user))|
  }

  /** `total_uploads` counts exactly the songs the user uploaded. */
  lemma UploadsCounted(st: Store, user: Id)
    requires IdsBelow(st)
    ensures TotalUploads(st, user) == |set id | id in st.songs && st.songs[id].uploadedBy == user|
  {
    IdsWhereCount(st.nextId, UploadedBy(st.songs, user));
    assert (set id: Id | id < st.nextId && UploadedBy(st.songs, user)(id))
      == (set id | id in st.songs && st.songs[id].uploadedBy == user);
  }

  /** `total_playlists` counts exactly the playlists the user owns. */
  lemma PlaylistsCounted(st: Store, user: Id)
    requires IdsBelow(st)
    ensures TotalPlaylists(st, user) == |set id | id in st.playlists && st.playlists[id].owner == user|
  {
    IdsWhereCount(st.nextId, OwnedBy(st.playlists, user));
    assert (set id: Id | id < st.nextId && OwnedBy(st.playlists, user)(id))
      == (set id | id in st.playlists && st.playlists[id].owner == user);
  }

  /** `total_favorites` counts exactly the user's favorite rows. */
  lemma FavoritesCounted(st: Store, user: Id)
    requires Valid(st)
    ensures TotalFavorites(st, user) == |set f | f in st.favorites && f.0 == user :: f.1|
  {
    IdsWhereCount(st.nextId, FavoritedBy(st.favorites, user));
    assert (set s: Id | s < st.nextId && FavoritedBy(st.favorites, user)(s))
      == (set f | f in st.favorites && f.0 == user :: f.1);
  }

  /** A new playlist under the next id counts once for its owner. */
  lemma NewPlaylistCounts(st: Store, p: Playlist, clock: nat)
    requires IdsBelow(st)
    ensures var after := st.(playlists := st.playlists[st.nextId := p], nextId := st.nextId + 1, clock := clock);
      TotalPlaylists(after, p.owner) == TotalPlaylists(st, p.owner) + 1
  {
    OwnedByInsert(st.playlists, st.nextId, p);
    IdsWhereFresh(st.nextId, OwnedBy(st.playlists, p.owner), OwnedBy(st.playlists[st.nextId := p], p.owner));
  }

  /** Below the fresh id ownership is as before, and the fresh id is the owner's. */
  lemma OwnedByInsert(playlists: map<Id, Playlist>, hi: nat, p: Playlist)
    requires forall id :: id in playlists ==> id < hi
    ensures forall id: Id :: id < hi ==> OwnedBy(playlists, p.owner)(id) == OwnedBy(playlists[hi := p], p.owner)(id)
    ensures OwnedBy(playlists[hi := p], p.owner)(hi)
  {
  }

  /** A new song under the next id counts once for its uploader. */
  lemma NewSongCounts(st: Store, s: Song, clock: nat)
    requires IdsBelow(st)
    ensures var after := st.(songs := st.songs[st.nextId := s], nextId := st.nextId + 1, clock := clock);
      TotalUploads(after, s.uploadedBy) == TotalUploads(st, s.uploadedBy) + 1
  {
    UploadedByInsert(st.songs, st.nextId, s);
    IdsWhereFresh(st.nextId, UploadedBy(st.songs, s.uploadedBy), UploadedBy(st.songs[st.nextId := s], s.uploadedBy));
  }

  /** Below the fresh id authorship is as before, and the fresh id is the uploader's. */
  lemma UploadedByInsert(songs: map<Id, Song>, hi: nat, s: Song)
    requires forall id :: id in songs ==> id < hi
    ensures forall id: Id :: id < hi ==> UploadedBy(songs, s.uploadedBy)(id) == UploadedBy(songs[hi := s], s.uploadedBy)(id)
    ensures UploadedBy(songs[hi := s], s.uploadedBy)(hi)
  {
  }
}
