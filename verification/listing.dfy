/**
 * The read-only listings: the song list with its filters, orderings and
 * pagination, the search page, the artist list and the artist and album
 * pages. Every listing is a scan of the store in primary-key order followed
 * by a sort, so every result is described by which rows it holds, that it
 * holds each once, and in which order.
 */
module Listing {
  import opened Wrappers
  import opened Library
  import opened Sorting
  import Text
  import Access
  import Paging

  /** The rows below `hi` satisfying `p`, in `key` order, each once. */
  function Query(hi: nat, p: Id -> bool, key: Id -> Rank): (r: seq<Id>)
    ensures forall id: Id :: id in r <==> id < hi && p(id)
    ensures NoDup(r)
    ensures SortedBy(r, key)
  {
    var ids := IdsWhere(hi, p);
    var r := SortBy(ids, key);
    PermutationNoDup(ids, r);
    assert forall id :: id in r <==> id in multiset(r);
    assert forall id :: id in ids <==> id in multiset(ids);
    r
  }

  /** The first `n` results of a query (`qs[:n]`): sorted, without repeats, and all of them when fewer than `n` match. */
  lemma FirstOfQuery(hi: nat, p: Id -> bool, key: Id -> Rank, n: nat)
    ensures var r: seq<Id> := Take<Id>(Query(hi, p, key), n);
      && |r| <= n && NoDup(r) && SortedBy<Id>(r, key)
      && (forall id :: id in r ==> id < hi && p(id))
      && (|r| < n ==> forall id: Id :: id < hi && p(id) ==> id in r)
  {
    var all := Query(hi, p, key);
    TakeKeeps<Id>(all, n, key);
  }

  /** The orderings `song_list` accepts in its `sort` parameter. */
  datatype SortKey = NewestFirst | ByTitle | MostPlayedFirst | ByArtistName

  /** The allow-list of `sort` values. */
  function SortKeyFor(param: string): (k: Option<SortKey>)
    ensures k.Some? <==> param in ["-upload_date", "title", "-play_count", "artist__name"]
    ensures k == Some(NewestFirst) <==> param == "-upload_date"
    ensures k == Some(ByTitle) <==> param == "title"
    ensures k == Some(MostPlayedFirst) <==> param == "-play_count"
    ensures k == Some(ByArtistName) <==> param == "artist__name"
  {
    if param == "-upload_date" then Some(NewestFirst)
    else if param == "title" then Some(ByTitle)
    else if param == "-play_count" then Some(MostPlayedFirst)
    else if param == "artist__name" then Some(ByArtistName)
    else None
  }

  /**
   * The ordering the song list is served in: `-upload_date` when no `sort`
   * is given, and a value outside the allow-list leaves the Song model's
   * default ordering, which is newest first as well.
   */
  function ChosenSort(param: Option<string>): (k: SortKey)
    ensures param.None? ==> k == NewestFirst
    ensures param.Some? && SortKeyFor(param.value).None? ==> k == NewestFirst
    ensures param.Some? && SortKeyFor(param.value).Some? ==> k == SortKeyFor(param.value).value
  {
    SortKeyFor(param.GetOr("-upload_date")).GetOr(NewestFirst)
  }

  /** The name of a song's artist (empty for a dangling reference, which `Valid` rules out). */
  function ArtistName(st: Store, s: Song): string
  {
    if s.artist in st.artists then st.artists[s.artist].name else ""
  }

  /** The sort key of a song row under each ordering; a descending column is negated. */
  function SongRank(st: Store, key: SortKey): Id -> Rank
  {
    id =>
      if id !in st.songs then Rank(0, "")
      else
        var s := st.songs[id];
        match key
        case NewestFirst => Rank(-(s.uploadedAt as int), "")
        case ByTitle => Rank(0, s.title)
        case MostPlayedFirst => Rank(-(s.playCount as int), "")
        case ByArtistName => Rank(0, ArtistName(st, s))
  }

  /** What each ordering promises about two songs listed one before the other. */
  predicate ListedBefore(st: Store, key: SortKey, a: Song, b: Song)
  {
    match key
    case NewestFirst => a.uploadedAt >= b.uploadedAt
    case ByTitle => Text.StrLe(a.title, b.title)
    case MostPlayedFirst => a.playCount >= b.playCount
    case ByArtistName => Text.StrLe(ArtistName(st, a), ArtistName(st, b))
  }

  /** The rank comparison is exactly the promised order. */
  lemma RankMeansOrder(st: Store, key: SortKey, a: Id, b: Id)
    requires a in st.songs && b in st.songs
    ensures RankLe(SongRank(st, key)(a), SongRank(st, key)(b)) <==> ListedBefore(st, key, st.songs[a], st.songs[b])
  {
  }

  /** A sequence of song ids sorted by a key lists its songs in that key's order. */
  lemma SortedSongsInOrder(st: Store, key: SortKey, r: seq<Id>)
    requires forall i :: 0 <= i < |r| ==> r[i] in st.songs
    requires SortedBy(r, SongRank(st, key))
    ensures forall i, j :: 0 <= i < j < |r| ==> ListedBefore(st, key, st.songs[r[i]], st.songs[r[j]])
  {
    forall i, j | 0 <= i < j < |r| ensures ListedBefore(st, key, st.songs[r[i]], st.songs[r[j]]) {
      RankMeansOrder(st, key, r[i], r[j]);
    }
  }

  /** Every song listed before another was uploaded no earlier: `order_by('-upload_date')`. */
  predicate NewestUploadFirst(st: Store, ids: seq<Id>)
  {
    forall i, j :: 0 <= i < j < |ids| ==> UploadedNoEarlier(st, ids[i], ids[j])
  }

  predicate UploadedNoEarlier(st: Store, a: Id, b: Id)
  {
    a in st.songs && b in st.songs && st.songs[a].uploadedAt >= st.songs[b].uploadedAt
  }

  /** Cutting a newest-first listing short keeps it newest first, and drops nothing when it is short already. */
  lemma TakeNewest(st: Store, xs: seq<Id>, n: nat)
    requires NoDup(xs) && NewestUploadFirst(st, xs)
    ensures var r: seq<Id> := Take<Id>(xs, n);
      && NoDup(r) && NewestUploadFirst(st, r)
      && (forall x :: x in r ==> x in xs)
      && (|r| < n ==> r == xs)
  {
    var r: seq<Id> := Take<Id>(xs, n);
    assert forall i :: 0 <= i < |r| ==> r[i] == xs[i];
    forall i, j | 0 <= i < j < |r| ensures UploadedNoEarlier(st, r[i], r[j]) {
      assert r[i] == xs[i] && r[j] == xs[j];
    }
    forall i, j | 0 <= i < j < |r| ensures r[i] != r[j] {
      assert r[i] == xs[i] && r[j] == xs[j];
    }
  }

  /** A song a newest-first listing cut to `n` left out was uploaded no later than the last one shown. */
  lemma TakeNewestTop(st: Store, xs: seq<Id>, n: nat, x: Id)
    requires n > 0 && NewestUploadFirst(st, xs)
    requires x in xs && x !in Take<Id>(xs, n)
    ensures var r: seq<Id> := Take<Id>(xs, n);
      |r| == n && n > 0 && UploadedNoEarlier(st, r[|r| - 1], x)
  {
    var r: seq<Id> := Take<Id>(xs, n);
    var k :| 0 <= k < |xs| && xs[k] == x;
    assert k >= n;
    assert r[|r| - 1] == xs[n - 1];
  }

  /** The `genre`, `artist` and `album` query parameters; `None` when absent or empty. */
  datatype SongFilters = SongFilters(genre: Option<Id>, artist: Option<Id>, album: Option<Id>)

  const NoFilters := SongFilters(None, None, None)

  predicate MatchesFilters(s: Song, f: SongFilters)
  {
    && (f.genre.Some? ==> s.genre == f.genre)
    && (f.artist.Some? ==> s.artist == f.artist.value)
    && (f.album.Some? ==> s.album == f.album)
  }

  /** The songs `song_list` shows before pagination. */
  function SongQuery(st: Store, user: Id, f: SongFilters, sort: Option<string>): (r: seq<Id>)
    requires IdsBelow(st)
    ensures forall id: Id :: id in r <==>
      id in st.songs && Access.CanViewSong(st.songs[id], user) && MatchesFilters(st.songs[id], f)
    ensures NoDup(r)
    ensures forall i, j :: 0 <= i < j < |r| ==>
      r[i] in st.songs && r[j] in st.songs && ListedBefore(st, ChosenSort(sort), st.songs[r[i]], st.songs[r[j]])
  {
    var key := ChosenSort(sort);
    var r := Query(st.nextId,
      id => id in st.songs && Access.CanViewSong(st.songs[id], user) && MatchesFilters(st.songs[id], f),
      SongRank(st, key));
    assert forall i :: 0 <= i < |r| ==> r[i] in r;
    SortedSongsInOrder(st, key, r);
    r
  }

  /** `song_list`: the requested page, twenty songs to a page, of the filtered and ordered songs. */
  function SongList(st: Store, user: Id, f: SongFilters, sort: Option<string>, page: Option<string>): (p: Paging.Page<Id>)
    requires IdsBelow(st)
    ensures p == Paging.Paginate(SongQuery(st, user, f, sort), Paging.SongsPerPage, page)
    ensures |p.items| <= Paging.SongsPerPage
    ensures 1 <= p.number <= p.numPages
    ensures forall id :: id in p.items ==>
      id in st.songs && Access.CanViewSong(st.songs[id], user) && MatchesFilters(st.songs[id], f)
    ensures NoDup(p.items)
  {
    var all := SongQuery(st, user, f, sort);
    Paging.PageFromItems(all, Paging.SongsPerPage, page);
    Paging.Paginate(all, Paging.SongsPerPage, page)
  }

  /** Filters `g` keep every condition of `f` and may add more. */
  predicate Narrower(g: SongFilters, f: SongFilters)
  {
    && (f.genre.Some? ==> g.genre == f.genre)
    && (f.artist.Some? ==> g.artist == f.artist)
    && (f.album.Some? ==> g.album == f.album)
  }

  /** Adding a filter never brings a song into the list, whatever the orderings. */
  lemma FiltersNarrow(st: Store, user: Id, f: SongFilters, g: SongFilters, s1: Option<string>, s2: Option<string>)
    requires IdsBelow(st) && Narrower(g, f)
    ensures forall id :: id in SongQuery(st, user, g, s2) ==> id in SongQuery(st, user, f, s1)
  {
  }

  /** The ordering never changes which songs are listed, nor how many. */
  lemma SortKeepsSongs(st: Store, user: Id, f: SongFilters, s1: Option<string>, s2: Option<string>)
    requires IdsBelow(st)
    ensures forall id :: id in SongQuery(st, user, f, s1) <==> id in SongQuery(st, user, f, s2)
    ensures |SongQuery(st, user, f, s1)| == |SongQuery(st, user, f, s2)|
  {
    var a := SongQuery(st, user, f, s1);
    var b := SongQuery(st, user, f, s2);
    forall x ensures multiset(a)[x] == multiset(b)[x] {
      NoDupCount(a, x);
      NoDupCount(b, x);
    }
    assert multiset(a) == multiset(b);
    assert |a| == |multiset(a)| && |b| == |multiset(b)|;
  }

  /** Another user's private song is never listed. */
  lemma PrivateSongsHidden(st: Store, user: Id, f: SongFilters, sort: Option<string>, id: Id)
    requires IdsBelow(st)
    requires id in st.songs && !st.songs[id].isPublic && st.songs[id].uploadedBy != user
    ensures id !in SongQuery(st, user, f, sort)
  {
  }

  // ---------------------------------------------------------------- search

  const SearchSongLimit: nat := 50
  const SearchArtistLimit: nat := 20
  const SearchAlbumLimit: nat := 20

  /** A song matches a query when its title, artist name, album title or lyrics contain it, ignoring case. */
  predicate SongMatches(st: Store, s: Song, q: string)
  {
    || Text.ContainsFolded(s.title, q)
    || (s.artist in st.artists && Text.ContainsFolded(st.artists[s.artist].name, q))
    || (s.album.Some? && s.album.value in st.albums && Text.ContainsFolded(st.albums[s.album.value].title, q))
    || Text.ContainsFolded(s.lyrics, q)
  }

  /** An album matches when its title or its artist's name contains the query, ignoring case. */
  predicate AlbumMatches(st: Store, a: Album, q: string)
  {
    Text.ContainsFolded(a.title, q) || (a.artist in st.artists && Text.ContainsFolded(st.artists[a.artist].name, q))
  }

  function ArtistRank(st: Store): Id -> Rank
  {
    id => if id in st.artists then Rank(0, st.artists[id].name) else Rank(0, "")
  }

  /**
   * The fifty newest visible matching songs, newest first: a match left out
   * was cut because fifty were shown, none of them uploaded before it.
   */
  function SearchSongs(st: Store, user: Id, q: string): (r: seq<Id>)
    requires IdsBelow(st)
    ensures |r| <= SearchSongLimit
    ensures NoDup(r)
    ensures forall id :: id in r ==> IsSongHit(st, user, q, id)
    ensures |r| < SearchSongLimit ==> forall id :: IsSongHit(st, user, q, id) ==> id in r
    ensures NewestUploadFirst(st, r)
    ensures forall id :: IsSongHit(st, user, q, id) && id !in r ==>
      |r| == SearchSongLimit && UploadedNoEarlier(st, r[|r| - 1], id)
  {
    var all := NewestWhere(st, SongHit(st, user, q));
    TakeNewest(st, all, SearchSongLimit);
    var r: seq<Id> := Take<Id>(all, SearchSongLimit);
    forall id | IsSongHit(st, user, q, id) && id !in r
      ensures |r| == SearchSongLimit && UploadedNoEarlier(st, r[|r| - 1], id)
    {
      TakeNewestTop(st, all, SearchSongLimit, id);
    }
    r
  }

  /** A song `search` may return: visible to the requester and matching the query. */
  predicate IsSongHit(st: Store, user: Id, q: string, id: Id)
  {
    id in st.songs && Access.CanViewSong(st.songs[id], user) && SongMatches(st, st.songs[id], q)
  }

  function SongHit(st: Store, user: Id, q: string): Id -> bool
  {
    (id: Id) => IsSongHit(st, user, q, id)
  }

  /** Artist `a`'s name sorts no later than artist `b`'s: `a` may be listed before `b` under `order_by('name')`. */
  predicate NamedNoLater(st: Store, a: Id, b: Id)
  {
    a in st.artists && b in st.artists && Text.StrLe(st.artists[a].name, st.artists[b].name)
  }

  predicate IsArtistHit(st: Store, q: string, id: Id)
  {
    id in st.artists && Text.ContainsFolded(st.artists[id].name, q)
  }

  function ArtistHit(st: Store, q: string): Id -> bool
  {
    (id: Id) => IsArtistHit(st, q, id)
  }

  /**
   * The first twenty matching artists by name: a match left out was cut
   * because twenty were shown, none of them named after it.
   */
  function SearchArtists(st: Store, q: string): (r: seq<Id>)
    requires IdsBelow(st)
    ensures |r| <= SearchArtistLimit
    ensures NoDup(r)
    ensures forall id :: id in r ==> IsArtistHit(st, q, id)
    ensures |r| < SearchArtistLimit ==> forall id :: IsArtistHit(st, q, id) ==> id in r
    ensures forall i, j :: 0 <= i < j < |r| ==> NamedNoLater(st, r[i], r[j])
    ensures forall id :: IsArtistHit(st, q, id) && id !in r ==>
      |r| == SearchArtistLimit && NamedNoLater(st, r[|r| - 1], id)
  {
    var all := Query(st.nextId, ArtistHit(st, q), ArtistRank(st));
    var r: seq<Id> := Take<Id>(all, SearchArtistLimit);
    FirstOfQuery(st.nextId, ArtistHit(st, q), ArtistRank(st), SearchArtistLimit);
    forall i | 0 <= i < |r| ensures r[i] in st.artists {
      assert r[i] in r && ArtistHit(st, q)(r[i]);
    }
    SortedArtistsInOrder(st, r);
    ArtistsTop(st, q, all, r);
    r
  }

  /** Artists sorted by their rank are in name order. */
  lemma SortedArtistsInOrder(st: Store, r: seq<Id>)
    requires forall i :: 0 <= i < |r| ==> r[i] in st.artists
    requires SortedBy(r, ArtistRank(st))
    ensures forall i, j :: 0 <= i < j < |r| ==> NamedNoLater(st, r[i], r[j])
  {
    forall i, j | 0 <= i < j < |r| ensures NamedNoLater(st, r[i], r[j]) {
      assert RankLe(ArtistRank(st)(r[i]), ArtistRank(st)(r[j]));
    }
  }

  lemma ArtistsTop(st: Store, q: string, all: seq<Id>, r: seq<Id>)
    requires IdsBelow(st)
    requires all == Query(st.nextId, ArtistHit(st, q), ArtistRank(st))
    requires r == Take<Id>(all, SearchArtistLimit)
    ensures forall id :: IsArtistHit(st, q, id) && id !in r ==>
      |r| == SearchArtistLimit && NamedNoLater(st, r[|r| - 1], id)
  {
    forall id | IsArtistHit(st, q, id) && id !in r
      ensures |r| == SearchArtistLimit && NamedNoLater(st, r[|r| - 1], id)
    {
      assert ArtistHit(st, q)(id) && id in all;
      TakeTop(all, SearchArtistLimit, ArtistRank(st), id);
      var last := r[|r| - 1];
      assert last in all && ArtistHit(st, q)(last);
      assert RankLe(ArtistRank(st)(last), ArtistRank(st)(id));
    }
  }

  /**
   * Album `x` may be listed before album `y` under `order_by('-release_date',
   * 'title')`: a later release first, a tie broken by title, and an album
   * without a date after every dated one (the database sorts NULL lowest).
   */
  predicate ReleasedNoEarlier(x: Album, y: Album)
  {
    match (x.releaseDate, y.releaseDate)
    case (Some(d), Some(e)) => d > e || (d == e && Text.StrLe(x.title, y.title))
    case (Some(_), None) => true
    case (None, Some(_)) => false
    case (None, None) => Text.StrLe(x.title, y.title)
  }

  predicate AlbumNoLater(st: Store, a: Id, b: Id)
  {
    a in st.albums && b in st.albums && ReleasedNoEarlier(st.albums[a], st.albums[b])
  }

  function ReleaseRank(a: Album): Rank
  {
    Rank(if a.releaseDate.Some? then -(a.releaseDate.value as int) else 1, a.title)
  }

  function AlbumRank(st: Store): Id -> Rank
  {
    (id: Id) => if id in st.albums then ReleaseRank(st.albums[id]) else Rank(0, "")
  }

  /** The album rank orders albums exactly as the Album model's default ordering does. */
  lemma ReleaseRankMeansOrder(x: Album, y: Album)
    ensures RankLe(ReleaseRank(x), ReleaseRank(y)) <==> ReleasedNoEarlier(x, y)
  {
  }

  /** Albums sorted by their rank are in the default album order. */
  lemma SortedAlbumsInOrder(st: Store, r: seq<Id>)
    requires forall i :: 0 <= i < |r| ==> r[i] in st.albums
    requires SortedBy(r, AlbumRank(st))
    ensures forall i, j :: 0 <= i < j < |r| ==> AlbumNoLater(st, r[i], r[j])
  {
    forall i, j | 0 <= i < j < |r| ensures AlbumNoLater(st, r[i], r[j]) {
      assert RankLe(AlbumRank(st)(r[i]), AlbumRank(st)(r[j]));
      ReleaseRankMeansOrder(st.albums[r[i]], st.albums[r[j]]);
    }
  }

  predicate IsAlbumHit(st: Store, q: string, id: Id)
  {
    id in st.albums && AlbumMatches(st, st.albums[id], q)
  }

  function AlbumHit(st: Store, q: string): Id -> bool
  {
    (id: Id) => IsAlbumHit(st, q, id)
  }

  /**
   * The first twenty matching albums in the default album order: a match left
   * out was cut because twenty were shown, all of them ordered before it.
   */
  function SearchAlbums(st: Store, q: string): (r: seq<Id>)
    requires IdsBelow(st)
    ensures |r| <= SearchAlbumLimit
    ensures NoDup(r)
    ensures forall id :: id in r ==> IsAlbumHit(st, q, id)
    ensures |r| < SearchAlbumLimit ==> forall id :: IsAlbumHit(st, q, id) ==> id in r
    ensures forall i, j :: 0 <= i < j < |r| ==> AlbumNoLater(st, r[i], r[j])
    ensures forall id :: IsAlbumHit(st, q, id) && id !in r ==>
      |r| == SearchAlbumLimit && AlbumNoLater(st, r[|r| - 1], id)
  {
    var all := Query(st.nextId, AlbumHit(st, q), AlbumRank(st));
    var r: seq<Id> := Take<Id>(all, SearchAlbumLimit);
    FirstOfQuery(st.nextId, AlbumHit(st, q), AlbumRank(st), SearchAlbumLimit);
    forall i | 0 <= i < |r| ensures r[i] in st.albums {
      assert r[i] in r && AlbumHit(st, q)(r[i]);
    }
    SortedAlbumsInOrder(st, r);
    AlbumsTop(st, q, all, r);
    r
  }

  lemma AlbumsTop(st: Store, q: string, all: seq<Id>, r: seq<Id>)
    requires IdsBelow(st)
    requires all == Query(st.nextId, AlbumHit(st, q), AlbumRank(st))
    requires r == Take<Id>(all, SearchAlbumLimit)
    ensures forall id :: IsAlbumHit(st, q, id) && id !in r ==>
      |r| == SearchAlbumLimit && AlbumNoLater(st, r[|r| - 1], id)
  {
    forall id | IsAlbumHit(st, q, id) && id !in r
      ensures |r| == SearchAlbumLimit && AlbumNoLater(st, r[|r| - 1], id)
    {
      assert AlbumHit(st, q)(id) && id in all;
      TakeTop(all, SearchAlbumLimit, AlbumRank(st), id);
      var last := r[|r| - 1];
      assert last in all && AlbumHit(st, q)(last);
      assert RankLe(AlbumRank(st)(last), AlbumRank(st)(id));
      ReleaseRankMeansOrder(st.albums[last], st.albums[id]);
    }
  }

  datatype SearchResults = SearchResults(query: string, songs: seq<Id>, artists: seq<Id>, albums: seq<Id>)

  /** `search`: the query is stripped, and a blank query finds nothing. */
  function Search(st: Store, user: Id, raw: string): (r: SearchResults)
    requires IdsBelow(st)
    ensures r.query == Text.Strip(raw)
    ensures Text.AllSpace(raw) ==> r.songs == [] && r.artists == [] && r.albums == []
    ensures !Text.AllSpace(raw) ==>
      && r.songs == SearchSongs(st, user, r.query)
      && r.artists == SearchArtists(st, r.query)
      && r.albums == SearchAlbums(st, r.query)
  {
    var q := Text.Strip(raw);
    if q == [] then SearchResults(q, [], [], [])
    else SearchResults(q, SearchSongs(st, user, q), SearchArtists(st, q), SearchAlbums(st, q))
  }

  /** Surrounding blanks never change what a search finds. */
  lemma SearchIgnoresBlanks(st: Store, user: Id, raw: string)
    requires IdsBelow(st)
    ensures Search(st, user, Text.Strip(raw)) == Search(st, user, raw)
  {
    Text.StripIdempotent(raw);
  }

  // ------------------------------------------------------- artists and albums

  datatype ArtistEntry = ArtistEntry(artist: Id, songCount: nat)

  /** How many songs, public or not, name `artist` (the `Count('songs')` annotation). */
  function SongCount(st: Store, artist: Id): nat
  {
    |IdsWhere(st.nextId, id => id in st.songs && st.songs[id].artist == artist)|
  }

  function EntryRank(st: Store): ArtistEntry -> Rank
  {
    (e: ArtistEntry) => ArtistRank(st)(e.artist)
  }

  /** Pairs each artist with its song count. */
  function WithCounts(st: Store, ids: seq<Id>): (es: seq<ArtistEntry>)
    ensures |es| == |ids|
    ensures forall i :: 0 <= i < |ids| ==> es[i].artist == ids[i] && es[i].songCount == SongCount(st, ids[i])
  {
    if ids == [] then [] else [ArtistEntry(ids[0], SongCount(st, ids[0]))] + WithCounts(st, ids[1..])
  }

  /** Pairing with counts keeps the artists, their order, and gives each its own count. */
  lemma WithCountsKeeps(st: Store, ids: seq<Id>)
    requires SortedBy(ids, ArtistRank(st)) && NoDup(ids)
    ensures var es := WithCounts(st, ids);
      && SortedBy(es, EntryRank(st))
      && (forall i, j :: 0 <= i < j < |es| ==> es[i].artist != es[j].artist)
      && (forall a :: a in ids ==> exists i :: 0 <= i < |es| && es[i].artist == a)
      && (forall e :: e in es ==> e.artist in ids && e.songCount == SongCount(st, e.artist))
  {
    var es := WithCounts(st, ids);
    forall a | a in ids ensures exists i :: 0 <= i < |es| && es[i].artist == a {
      var i :| 0 <= i < |ids| && ids[i] == a;
      assert es[i].artist == a;
    }
    assert forall i :: 0 <= i < |es| ==> EntryRank(st)(es[i]) == ArtistRank(st)(ids[i]);
  }

  function IsArtist(st: Store): Id -> bool
  {
    (id: Id) => id in st.artists
  }

  /** Every artist once, by name, with its song count. */
  function ArtistEntries(st: Store): (es: seq<ArtistEntry>)
    requires IdsBelow(st)
    ensures forall e :: e in es ==> e.artist in st.artists && e.songCount == SongCount(st, e.artist)
    ensures forall a :: a in st.artists ==> exists i :: 0 <= i < |es| && es[i].artist == a
    ensures SortedBy(es, EntryRank(st))
    ensures forall i, j :: 0 <= i < j < |es| ==> es[i].artist != es[j].artist
    ensures |es| == |st.artists|
  {
    var ids := Query(st.nextId, IsArtist(st), ArtistRank(st));
    WithCountsKeeps(st, ids);
    assert forall a :: a in st.artists ==> IsArtist(st)(a) && a in ids;
    ArtistIdsCount(st, ids);
    WithCounts(st, ids)
  }

  /** The artist scan lists each artist exactly once. */
  lemma ArtistIdsCount(st: Store, ids: seq<Id>)
    requires NoDup(ids)
    requires forall a :: a in ids <==> a in st.artists
    ensures |ids| == |st.artists|
  {
    NoDupCard<Id>(ids);
    assert (set x: Id | x in ids) == st.artists.Keys;
  }

  /** `artist_list`: every artist by name with its song count, twenty-four per page. */
  function ArtistList(st: Store, page: Option<string>): (p: Paging.Page<ArtistEntry>)
    requires IdsBelow(st)
    ensures p == Paging.Paginate(ArtistEntries(st), Paging.ArtistsPerPage, page)
    ensures |p.items| <= Paging.ArtistsPerPage
    ensures 1 <= p.number <= p.numPages
    ensures forall e :: e in p.items ==> e.artist in st.artists && e.songCount == SongCount(st, e.artist)
    ensures forall i, j :: 0 <= i < j < |p.items| ==>
      p.items[i].artist in st.artists && p.items[j].artist in st.artists &&
      Text.StrLe(st.artists[p.items[i].artist].name, st.artists[p.items[j].artist].name)
  {
    var es := ArtistEntries(st);
    Paging.PageFromItems(es, Paging.ArtistsPerPage, page);
    Paging.PageKeepsOrder(es, Paging.ArtistsPerPage, page, EntryRank(st));
    var p := Paging.Paginate(es, Paging.ArtistsPerPage, page);
    assert forall i :: 0 <= i < |p.items| ==> p.items[i] in p.items;
    EntriesByName(st, p.items);
    p
  }

  /** Entries sorted by their rank are in name order. */
  lemma EntriesByName(st: Store, items: seq<ArtistEntry>)
    requires SortedBy(items, EntryRank(st))
    requires forall i :: 0 <= i < |items| ==> items[i].artist in st.artists
    ensures forall i, j :: 0 <= i < j < |items| ==>
      Text.StrLe(st.artists[items[i].artist].name, st.artists[items[j].artist].name)
  {
    forall i, j | 0 <= i < j < |items|
      ensures Text.StrLe(st.artists[items[i].artist].name, st.artists[items[j].artist].name)
    {
      var a, b := items[i].artist, items[j].artist;
      assert EntryRank(st)(items[i]) == ArtistRank(st)(a) == Rank(0, st.artists[a].name);
      assert EntryRank(st)(items[j]) == ArtistRank(st)(b) == Rank(0, st.artists[b].name);
      assert RankLe(EntryRank(st)(items[i]), EntryRank(st)(items[j]));
    }
  }

  /** The songs `p` selects, newest upload first: `order_by('-upload_date')`. */
  function NewestWhere(st: Store, p: Id -> bool): (r: seq<Id>)
    requires IdsBelow(st)
    requires forall id :: p(id) ==> id in st.songs
    ensures NoDup(r)
    ensures forall id :: id in r <==> p(id)
    ensures NewestUploadFirst(st, r)
  {
    var r := Query(st.nextId, p, SongRank(st, NewestFirst));
    assert forall i :: 0 <= i < |r| ==> r[i] in r;
    SortedSongsInOrder(st, NewestFirst, r);
    r
  }

  function ArtistSong(st: Store, user: Id, artist: Id): Id -> bool
  {
    (id: Id) => id in st.songs && st.songs[id].artist == artist && Access.CanViewSong(st.songs[id], user)
  }

  function ArtistAlbum(st: Store, artist: Id): Id -> bool
  {
    (id: Id) => id in st.albums && st.albums[id].artist == artist
  }

  function AlbumSong(st: Store, user: Id, album: Id): Id -> bool
  {
    (id: Id) => id in st.songs && st.songs[id].album == Some(album) && Access.CanViewSong(st.songs[id], user)
  }

  datatype ArtistPage = ArtistPage(artist: Artist, songs: seq<Id>, albums: seq<Id>)

  /** `artist_detail`: the artist's visible songs, newest first, and all of the artist's albums in the default album order. */
  function ArtistDetail(st: Store, user: Id, artist: Id): (r: Result<ArtistPage, Denial>)
    requires IdsBelow(st)
    ensures r.Failure? <==> artist !in st.artists
    ensures r.Failure? ==> r.error == NotFound
    ensures r.Success? ==>
      && r.value.artist == st.artists[artist]
      && NoDup(r.value.songs)
      && (forall id :: id in r.value.songs <==>
            id in st.songs && st.songs[id].artist == artist && Access.CanViewSong(st.songs[id], user))
      && (forall id :: id in r.value.albums <==> id in st.albums && st.albums[id].artist == artist)
      && NoDup(r.value.albums)
      && (forall i, j :: 0 <= i < j < |r.value.albums| ==> AlbumNoLater(st, r.value.albums[i], r.value.albums[j]))
      && NewestUploadFirst(st, r.value.songs)
  {
    if artist !in st.artists then Failure(NotFound)
    else
      var songs := NewestWhere(st, ArtistSong(st, user, artist));
      var albums := Query(st.nextId, ArtistAlbum(st, artist), AlbumRank(st));
      assert forall id :: id in songs <==> ArtistSong(st, user, artist)(id);
      assert forall id :: id in albums <==> ArtistAlbum(st, artist)(id);
      assert forall i :: 0 <= i < |albums| ==> albums[i] in albums;
      SortedAlbumsInOrder(st, albums);
      Success(ArtistPage(st.artists[artist], songs, albums))
  }

  datatype AlbumPage = AlbumPage(album: Album, songs: seq<Id>)

  /** `album_detail`: the album's visible songs, newest first. */
  function AlbumDetail(st: Store, user: Id, album: Id): (r: Result<AlbumPage, Denial>)
    requires IdsBelow(st)
    ensures r.Failure? <==> album !in st.albums
    ensures r.Failure? ==> r.error == NotFound
    ensures r.Success? ==>
      && r.value.album == st.albums[album]
      && NoDup(r.value.songs)
      && (forall id :: id in r.value.songs <==>
            id in st.songs && st.songs[id].album == Some(album) && Access.CanViewSong(st.songs[id], user))
      && NewestUploadFirst(st, r.value.songs)
  {
    if album !in st.albums then Failure(NotFound)
    else
      var songs := NewestWhere(st, AlbumSong(st, user, album));
      assert forall id :: id in songs <==> AlbumSong(st, user, album)(id);
      Success(AlbumPage(st.albums[album], songs))
  }
}
