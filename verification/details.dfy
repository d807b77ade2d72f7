/**
 * The detail pages: a song with its rating summary, comments and related
 * songs, and the playlist pages.
 */
module Details {
  import opened Wrappers
  import opened Library
  import opened Sorting
  import Access
  import Listing

  /** Which users have rated `song`. */
  function RatedBy(ratings: map<(Id, Id), int>, song: Id): Id -> bool
  {
    u => (u, song) in ratings
  }

  /** The raters of `song` in user-id order. */
  function Raters(st: Store, song: Id): seq<Id>
  {
    IdsWhere(st.nextId, RatedBy(st.ratings, song))
  }

  /**
   * The sum and number of the ratings users below `hi` gave `song`: the
   * `Avg('rating')` aggregate is `sum / count` and `rating_count` is `count`.
   */
  function RatingTotals(ratings: map<(Id, Id), int>, song: Id, hi: nat): (t: (int, nat))
    ensures t.1 == |IdsWhere(hi, RatedBy(ratings, song))|
    ensures t.0 == RatingSum(ratings, song, IdsWhere(hi, RatedBy(ratings, song)))
  {
    if hi == 0 then (0, 0)
    else
      var rest := RatingTotals(ratings, song, hi - 1);
      if (hi - 1, song) in ratings then
        RatingSumSnoc(ratings, song, IdsWhere(hi - 1, RatedBy(ratings, song)), hi - 1);
        (rest.0 + ratings[(hi - 1, song)], rest.1 + 1)
      else rest
  }

  /** The rating `u` gave `song`, or nothing when there is none. */
  function RatingOf(ratings: map<(Id, Id), int>, song: Id, u: Id): int
  {
    if (u, song) in ratings then ratings[(u, song)] else 0
  }

  /** The sum of the ratings the users `us` gave `song`, added front to back. */
  function RatingSum(ratings: map<(Id, Id), int>, song: Id, us: seq<Id>): int
  {
    if us == [] then 0 else RatingOf(ratings, song, us[0]) + RatingSum(ratings, song, us[1..])
  }

  lemma {:induction false} RatingSumSnoc(ratings: map<(Id, Id), int>, song: Id, us: seq<Id>, u: Id)
    ensures RatingSum(ratings, song, us + [u]) == RatingSum(ratings, song, us) + RatingOf(ratings, song, u)
  {
    if us != [] {
      assert (us + [u])[1..] == us[1..] + [u];
      RatingSumSnoc(ratings, song, us[1..], u);
    }
  }

  /** With every rating between 1 and 5, the average lies between 1 and 5. */
  lemma {:induction false} RatingTotalsBounds(ratings: map<(Id, Id), int>, song: Id, hi: nat)
    requires forall k :: k in ratings ==> 1 <= ratings[k] <= 5
    ensures var t := RatingTotals(ratings, song, hi); t.1 <= t.0 <= 5 * t.1
  {
    if hi > 0 {
      RatingTotalsBounds(ratings, song, hi - 1);
    }
  }

  /** Nobody has rated the song: there is no average. */
  lemma {:induction false} NoRatingsNoTotal(ratings: map<(Id, Id), int>, song: Id, hi: nat)
    requires forall u: Id :: (u, song) !in ratings
    ensures RatingTotals(ratings, song, hi) == (0, 0)
  {
    if hi > 0 {
      NoRatingsNoTotal(ratings, song, hi - 1);
    }
  }

  function OnSong(song: Id): Comment -> bool
  {
    (c: Comment) => c.song == song
  }

  /**
   * The comments on `song`, newest first: the song's comments in posting
   * order, reversed, so none is lost, repeated or moved.
   */
  function CommentsOn(cs: seq<Comment>, song: Id): (r: seq<Comment>)
    ensures r == Reverse(Filter(cs, OnSong(song)))
    ensures forall c :: c in r <==> c in cs && c.song == song
  {
    if cs == [] then []
    else
      var init := cs[..|cs| - 1];
      var last := cs[|cs| - 1];
      var rest := CommentsOn(init, song);
      assert cs == init + [last];
      CommentsStep(init, last, song, rest);
      if last.song == song then [last] + rest else rest
  }

  /** One more comment at the back of the table: shown first when it is on the song. */
  lemma CommentsStep(init: seq<Comment>, last: Comment, song: Id, rest: seq<Comment>)
    requires rest == Reverse(Filter(init, OnSong(song)))
    ensures (if last.song == song then [last] + rest else rest) == Reverse(Filter(init + [last], OnSong(song)))
  {
    var f := Filter(init, OnSong(song));
    FilterSnoc(init, last, OnSong(song));
    if last.song == song {
      assert Filter(init + [last], OnSong(song)) == f + [last];
      ReverseSnoc(f, last);
    } else {
      assert Filter(init + [last], OnSong(song)) == f;
    }
  }

  /** A comment just added is the first one shown. */
  lemma NewestCommentFirst(cs: seq<Comment>, c: Comment)
    ensures CommentsOn(cs + [c], c.song) == [c] + CommentsOn(cs, c.song)
  {
    assert (cs + [c])[..|cs|] == cs;
  }

  const RelatedLimit: nat := 6

  /** Another public song by the same artist or in the same genre (two songs without a genre count as the same). */
  predicate Related(s: Song, other: Song)
  {
    other.isPublic && (other.artist == s.artist || other.genre == s.genre)
  }

  /** A song other than `id` that the detail page of `id` may suggest. */
  predicate IsRelated(st: Store, id: Id, o: Id)
  {
    id in st.songs && o in st.songs && o != id && Related(st.songs[id], st.songs[o])
  }

  function RelatedTo(st: Store, id: Id): Id -> bool
  {
    (o: Id) => IsRelated(st, id, o)
  }

  /**
   * The six newest related songs, newest first: a related song left out was
   * cut because six were shown, none of them uploaded before it.
   */
  function RelatedSongs(st: Store, id: Id): (r: seq<Id>)
    requires IdsBelow(st) && id in st.songs
    ensures |r| <= RelatedLimit
    ensures NoDup(r)
    ensures id !in r
    ensures forall o :: o in r ==> IsRelated(st, id, o)
    ensures |r| < RelatedLimit ==> forall o :: IsRelated(st, id, o) ==> o in r
    ensures Listing.NewestUploadFirst(st, r)
    ensures forall o :: IsRelated(st, id, o) && o !in r ==>
      |r| == RelatedLimit && Listing.UploadedNoEarlier(st, r[|r| - 1], o)
  {
    var all := Listing.NewestWhere(st, RelatedTo(st, id));
    Listing.TakeNewest(st, all, RelatedLimit);
    var r: seq<Id> := Take<Id>(all, RelatedLimit);
    forall o | IsRelated(st, id, o) && o !in r
      ensures |r| == RelatedLimit && Listing.UploadedNoEarlier(st, r[|r| - 1], o)
    {
      Listing.TakeNewestTop(st, all, RelatedLimit, o);
    }
    r
  }

  datatype SongPage = SongPage(
    song: Song, isFavorite: bool, userRating: Option<int>,
    ratingSum: int, ratingCount: nat, comments: seq<Comment>, related: seq<Id>)

  /** `song_detail`. */
  function SongDetail(st: Store, user: Id, id: Id): (r: Result<SongPage, Denial>)
    requires IdsBelow(st)
    ensures r.Failure? <==> Access.VisibleSong(st, user, id).Failure?
    ensures r.Failure? ==> r.error == Access.VisibleSong(st, user, id).error
    ensures r.Success? ==>
      && id in st.songs
      && r.value.song == st.songs[id]
      && (r.value.isFavorite <==> (user, id) in st.favorites)
      && (r.value.userRating.Some? <==> (user, id) in st.ratings)
      && ((user, id) in st.ratings ==> r.value.userRating == Some(st.ratings[(user, id)]))
      && r.value.ratingCount == |Raters(st, id)|
      && r.value.ratingSum == RatingSum(st.ratings, id, Raters(st, id))
      && r.value.comments == Reverse(Filter(st.comments, OnSong(id)))
      && r.value.related == RelatedSongs(st, id)
  {
    match Access.VisibleSong(st, user, id)
    case Failure(e) => Failure(e)
    case Success(s) =>
      var t := RatingTotals(st.ratings, id, st.nextId);
      var mine := if (user, id) in st.ratings then Some(st.ratings[(user, id)]) else None;
      Success(SongPage(s, (user, id) in st.favorites, mine, t.0, t.1,
        CommentsOn(st.comments, id), RelatedSongs(st, id)))
  }

  /** Under the rating constraint the page's average lies between 1 and 5 whenever there is one. */
  lemma SongDetailAverage(st: Store, user: Id, id: Id)
    requires Valid(st)
    requires SongDetail(st, user, id).Success?
    ensures var p := SongDetail(st, user, id).value;
      p.ratingCount <= p.ratingSum <= 5 * p.ratingCount
  {
    RatingTotalsBounds(st.ratings, id, st.nextId);
  }

  /** Every user who rated the song is counted: the raters are exactly the rating rows of the song. */
  lemma RatersAreRatings(st: Store, song: Id)
    requires Valid(st)
    ensures forall u: Id :: u in Raters(st, song) <==> (u, song) in st.ratings
  {
  }

  // --------------------------------------------------------------- playlists

  datatype PlaylistPage = PlaylistPage(playlist: Playlist, songs: seq<Id>, isOwner: bool)

  /** `playlist_detail`: the members in the Song model's default order, newest upload first. */
  function PlaylistDetail(st: Store, user: Id, id: Id): (r: Result<PlaylistPage, Denial>)
    requires IdsBelow(st) && CatalogOk(st)
    ensures r.Failure? <==> Access.VisiblePlaylist(st, user, id).Failure?
    ensures r.Failure? ==> r.error == Access.VisiblePlaylist(st, user, id).error
    ensures r.Success? ==>
      && id in st.playlists
      && r.value.playlist == st.playlists[id]
      && (r.value.isOwner <==> st.playlists[id].owner == user)
      && NoDup(r.value.songs)
      && (forall s :: s in r.value.songs <==> s in st.playlists[id].songs)
      && Listing.NewestUploadFirst(st, r.value.songs)
  {
    match Access.VisiblePlaylist(st, user, id)
    case Failure(e) => Failure(e)
    case Success(p) =>
      assert PlaylistOk(st, p);
      var songs := Listing.Query(st.nextId, s => s in p.songs, Listing.SongRank(st, Listing.NewestFirst));
      assert forall i :: 0 <= i < |songs| ==> songs[i] in songs;
      Listing.SortedSongsInOrder(st, Listing.NewestFirst, songs);
      Success(PlaylistPage(p, songs, p.owner == user))
  }

  function PlaylistRank(st: Store): Id -> Rank
  {
    id => if id in st.playlists then Rank(-(st.playlists[id].createdAt as int), "") else Rank(0, "")
  }

  const PublicPlaylistLimit: nat := 10

  datatype PlaylistIndex = PlaylistIndex(mine: seq<Id>, others: seq<Id>)

  /** Playlists listed newest first, by creation time. */
  predicate NewestCreatedFirst(st: Store, r: seq<Id>)
  {
    forall i, j :: 0 <= i < j < |r| ==>
      r[i] in st.playlists && r[j] in st.playlists &&
      st.playlists[r[i]].createdAt >= st.playlists[r[j]].createdAt
  }

  /** The user's own playlists, newest first. */
  function MyPlaylists(st: Store, user: Id): (r: seq<Id>)
    requires IdsBelow(st)
    ensures NoDup(r)
    ensures forall id :: id in r <==> id in st.playlists && st.playlists[id].owner == user
    ensures NewestCreatedFirst(st, r)
  {
    var r := Listing.Query(st.nextId, Mine(st, user), PlaylistRank(st));
    assert forall i :: 0 <= i < |r| ==> r[i] in r && Mine(st, user)(r[i]);
    NewestPlaylistsFirst(st, r);
    r
  }

  function Mine(st: Store, user: Id): Id -> bool
  {
    id => id in st.playlists && st.playlists[id].owner == user
  }

  /** A public playlist of someone other than `user`. */
  predicate IsOthersPublic(st: Store, user: Id, id: Id)
  {
    id in st.playlists && st.playlists[id].isPublic && st.playlists[id].owner != user
  }

  function OthersPublic(st: Store, user: Id): Id -> bool
  {
    (id: Id) => IsOthersPublic(st, user, id)
  }

  /** Playlists sorted by their rank are in newest-first order. */
  lemma NewestPlaylistsFirst(st: Store, r: seq<Id>)
    requires forall i :: 0 <= i < |r| ==> r[i] in st.playlists
    requires SortedBy(r, PlaylistRank(st))
    ensures NewestCreatedFirst(st, r)
  {
    forall i, j | 0 <= i < j < |r| ensures st.playlists[r[i]].createdAt >= st.playlists[r[j]].createdAt {
      assert RankLe(PlaylistRank(st)(r[i]), PlaylistRank(st)(r[j]));
    }
  }

  /**
   * The ten newest public playlists of other users: one left out was cut
   * because ten were shown, none of them created before it.
   */
  function OthersPublicPlaylists(st: Store, user: Id): (r: seq<Id>)
    requires IdsBelow(st)
    ensures NoDup(r)
    ensures |r| <= PublicPlaylistLimit
    ensures forall id :: id in r ==> IsOthersPublic(st, user, id)
    ensures |r| < PublicPlaylistLimit ==> forall id :: IsOthersPublic(st, user, id) ==> id in r
    ensures NewestCreatedFirst(st, r)
    ensures forall id :: IsOthersPublic(st, user, id) && id !in r ==>
      |r| == PublicPlaylistLimit && CreatedNoLater(st, r[|r| - 1], id)
  {
    var all := Listing.Query(st.nextId, OthersPublic(st, user), PlaylistRank(st));
    var r: seq<Id> := Take<Id>(all, PublicPlaylistLimit);
    OthersPublicListed(st, user, all, r);
    OthersPublicTop(st, user, all, r);
    r
  }

  lemma OthersPublicListed(st: Store, user: Id, all: seq<Id>, r: seq<Id>)
    requires IdsBelow(st)
    requires all == Listing.Query(st.nextId, OthersPublic(st, user), PlaylistRank(st))
    requires r == Take<Id>(all, PublicPlaylistLimit)
    ensures NoDup(r) && |r| <= PublicPlaylistLimit
    ensures forall id :: id in r ==> IsOthersPublic(st, user, id)
    ensures |r| < PublicPlaylistLimit ==> forall id :: IsOthersPublic(st, user, id) ==> id in r
    ensures NewestCreatedFirst(st, r)
  {
    Listing.FirstOfQuery(st.nextId, OthersPublic(st, user), PlaylistRank(st), PublicPlaylistLimit);
    forall i | 0 <= i < |r| ensures r[i] in st.playlists {
      assert r[i] in r && OthersPublic(st, user)(r[i]);
    }
    NewestPlaylistsFirst(st, r);
  }

  lemma OthersPublicTop(st: Store, user: Id, all: seq<Id>, r: seq<Id>)
    requires IdsBelow(st)
    requires all == Listing.Query(st.nextId, OthersPublic(st, user), PlaylistRank(st))
    requires r == Take<Id>(all, PublicPlaylistLimit)
    requires forall id :: id in r ==> IsOthersPublic(st, user, id)
    ensures forall id :: IsOthersPublic(st, user, id) && id !in r ==>
      |r| == PublicPlaylistLimit && CreatedNoLater(st, r[|r| - 1], id)
  {
    assert forall x :: x in all ==> OthersPublic(st, user)(x);
    forall id | IsOthersPublic(st, user, id) && id !in r
      ensures |r| == PublicPlaylistLimit && CreatedNoLater(st, r[|r| - 1], id)
    {
      NewestPlaylistTop(st, all, PublicPlaylistLimit, id);
    }
  }

  /** Playlist `a` was created no earlier than playlist `b`: `a` may be listed before `b` under `-created_at`. */
  predicate CreatedNoLater(st: Store, a: Id, b: Id)
  {
    a in st.playlists && b in st.playlists && st.playlists[a].createdAt >= st.playlists[b].createdAt
  }

  /** A playlist a newest-first listing cut to `n` left out was created no later than the last one shown. */
  lemma NewestPlaylistTop(st: Store, all: seq<Id>, n: nat, id: Id)
    requires n > 0 && SortedBy(all, PlaylistRank(st))
    requires id in st.playlists && id in all && id !in Take<Id>(all, n)
    requires forall x :: x in all ==> x in st.playlists
    ensures var r: seq<Id> := Take<Id>(all, n);
      |r| == n && CreatedNoLater(st, r[|r| - 1], id)
  {
    var r: seq<Id> := Take<Id>(all, n);
    TakeTop(all, n, PlaylistRank(st), id);
    assert r[|r| - 1] in all;
    assert RankLe(PlaylistRank(st)(r[|r| - 1]), PlaylistRank(st)(id));
  }

  /**
   * `playlist_list`: the user's own playlists newest first, and the ten
   * newest public playlists of others; the two lists never share a playlist.
   */
  function PlaylistList(st: Store, user: Id): (r: PlaylistIndex)
    requires IdsBelow(st)
    ensures forall id :: id in r.mine ==> id !in r.others
    ensures forall id :: id in r.mine <==> id in st.playlists && st.playlists[id].owner == user
    ensures NoDup(r.mine) && NewestCreatedFirst(st, r.mine)
    ensures NoDup(r.others) && |r.others| <= PublicPlaylistLimit
    ensures forall id :: id in r.others ==> IsOthersPublic(st, user, id)
    ensures |r.others| < PublicPlaylistLimit ==> forall id :: IsOthersPublic(st, user, id) ==> id in r.others
    ensures NewestCreatedFirst(st, r.others)
    ensures forall id :: IsOthersPublic(st, user, id) && id !in r.others ==>
      |r.others| == PublicPlaylistLimit && CreatedNoLater(st, r.others[|r.others| - 1], id)
  {
    PlaylistIndex(MyPlaylists(st, user), OthersPublicPlaylists(st, user))
  }
}
