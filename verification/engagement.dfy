/**
 * The engagement transitions: favorites, ratings, plays, downloads and
 * comments. Each is a pure function from the store to the new store and
 * what the view reports, or the reason the view refuses.
 */
module Engagement {
  import opened Wrappers
  import opened Library
  import Models
  import Forms
  import Access
  import Stats
  import Text

  // --------------------------------------------------------------- favorites

  /**
   * `toggle_favorite`: `get_or_create` on the (user, song) pair, and delete
   * it when it already existed; the result says whether it is now a favorite.
   */
  function ToggleFavorite(st: Store, user: Id, song: Id): (r: Result<Step<bool>, Denial>)
    ensures song !in st.songs ==> r == Failure(NotFound)
    ensures song in st.songs ==> r.Success?
    ensures r.Success? ==>
      && (r.value.out <==> (user, song) !in st.favorites)
      && ((user, song) in r.value.store.favorites <==> r.value.out)
      && (forall f :: f != (user, song) ==> (f in r.value.store.favorites <==> f in st.favorites))
      && r.value.store == st.(favorites := r.value.store.favorites)
  {
    if song !in st.songs then Failure(NotFound)
    else if (user, song) in st.favorites then Success(Step(st.(favorites := st.favorites - {(user, song)}), false))
    else Success(Step(st.(favorites := st.favorites + {(user, song)}), true))
  }

  /** Two toggles restore the store. */
  lemma ToggleTwice(st: Store, user: Id, song: Id)
    requires song in st.songs
    ensures var once := ToggleFavorite(st, user, song).value;
      ToggleFavorite(once.store, user, song).value.store == st
      && ToggleFavorite(once.store, user, song).value.out == !once.out
  {
    var once := ToggleFavorite(st, user, song).value;
    assert once.store.favorites - {(user, song)} == st.favorites - {(user, song)};
  }

  /** `total_favorites` moves by exactly one in the direction the toggle reports. */
  lemma ToggleFavoriteCount(st: Store, user: Id, song: Id)
    requires IdsBelow(st) && song in st.songs
    ensures var s := ToggleFavorite(st, user, song).value;
      Stats.TotalFavorites(s.store, user) == Stats.TotalFavorites(st, user) + (if s.out then 1 else -1)
  {
    var s := ToggleFavorite(st, user, song).value;
    var before := Stats.FavoritedBy(st.favorites, user);
    var after := Stats.FavoritedBy(s.store.favorites, user);
    if s.out {
      IdsWhereAdd(st.nextId, before, after, song);
    } else {
      IdsWhereAdd(st.nextId, after, before, song);
    }
  }

  lemma ToggleFavoriteKeepsValid(st: Store, user: Id, song: Id)
    requires Valid(st) && user in st.users && song in st.songs
    ensures Valid(ToggleFavorite(st, user, song).value.store)
  {
    FavoritesChangeKeepsValid(st, ToggleFavorite(st, user, song).value.store);
  }

  // ----------------------------------------------------------------- ratings

  /**
   * `add_rating`: the rating form's value replaces or creates the single
   * rating of (user, song); the result says whether it was created. An
   * invalid form changes nothing.
   */
  function AddRating(st: Store, user: Id, song: Id, raw: Option<string>): (r: Result<Step<bool>, Denial>)
    ensures song !in st.songs ==> r == Failure(NotFound)
    ensures song in st.songs && Forms.CleanRating(raw).Failure? ==>
      r == Failure(Rejected({Forms.CleanRating(raw).error}))
    ensures r.Success? ==>
      && Forms.CleanRating(raw).Success?
      && (user, song) in r.value.store.ratings
      && r.value.store.ratings[(user, song)] == Forms.CleanRating(raw).value
      && (r.value.out <==> (user, song) !in st.ratings)
      && (forall k :: k != (user, song) ==>
            (k in r.value.store.ratings <==> k in st.ratings) &&
            (k in st.ratings ==> r.value.store.ratings[k] == st.ratings[k]))
      && r.value.store == st.(ratings := r.value.store.ratings)
  {
    if song !in st.songs then Failure(NotFound)
    else
      match Forms.CleanRating(raw)
      case Failure(e) => Failure(Rejected({e}))
      case Success(v) =>
        Success(Step(st.(ratings := st.ratings[(user, song) := v]), (user, song) !in st.ratings))
  }

  /** Rating twice leaves the second value, and the second rating is an update. */
  lemma RatingLastWins(st: Store, user: Id, song: Id, a: Option<string>, b: Option<string>)
    requires AddRating(st, user, song, a).Success?
    requires Forms.CleanRating(b).Success?
    ensures var first := AddRating(st, user, song, a).value.store;
      var second := AddRating(first, user, song, b);
      second.Success? && !second.value.out &&
      second.value.store.ratings[(user, song)] == Forms.CleanRating(b).value &&
      second.value.store.ratings.Keys == first.ratings.Keys
  {
  }

  lemma AddRatingKeepsValid(st: Store, user: Id, song: Id, raw: Option<string>)
    requires Valid(st) && user in st.users
    requires AddRating(st, user, song, raw).Success?
    ensures Valid(AddRating(st, user, song, raw).value.store)
  {
    var after := AddRating(st, user, song, raw).value.store;
    forall k | k in after.ratings ensures k.0 in st.users && k.1 in st.songs && 1 <= after.ratings[k] <= 5 {
      if k != (user, song) { assert k in st.ratings; }
    }
    RatingsChangeKeepsValid(st, after);
  }

  // ------------------------------------------------------------------- plays

  /**
   * `play_song`: one more play on the song's counter and one more history
   * row stamped with the clock; the result is the new play count.
   */
  function PlaySong(st: Store, user: Id, song: Id): (r: Result<Step<nat>, Denial>)
    ensures song !in st.songs ==> r == Failure(NotFound)
    ensures song in st.songs ==> r.Success?
    ensures r.Success? ==>
      && song in r.value.store.songs
      && r.value.out == r.value.store.songs[song].playCount == st.songs[song].playCount + 1
      && r.value.store.songs[song] == Models.IncrementPlayCount(st.songs[song])
      && r.value.store.songs.Keys == st.songs.Keys
      && (forall s :: s in st.songs && s != song ==> r.value.store.songs[s] == st.songs[s])
      && r.value.store.history == st.history + [Play(user, song, st.clock)]
      && r.value.store.clock == st.clock + 1
      && r.value.store == st.(songs := r.value.store.songs, history := r.value.store.history, clock := st.clock + 1)
  {
    if song !in st.songs then Failure(NotFound)
    else
      var s := Models.IncrementPlayCount(st.songs[song]);
      Success(Step(st.(songs := st.songs[song := s], history := st.history + [Play(user, song, st.clock)],
        clock := st.clock + 1), s.playCount))
  }

  /** How many history rows name `song`, whoever played it. */
  function PlaysOfSong(h: seq<Play>, song: Id): nat
  {
    if h == [] then 0
    else PlaysOfSong(h[..|h| - 1], song) + (if h[|h| - 1].song == song then 1 else 0)
  }

  /** Every song's counter equals the number of its history rows. */
  predicate CountersMatchHistory(st: Store)
  {
    forall s :: s in st.songs ==> st.songs[s].playCount == PlaysOfSong(st.history, s)
  }

  lemma PlaysOfSongAppend(h: seq<Play>, p: Play, song: Id)
    ensures PlaysOfSong(h + [p], song) == PlaysOfSong(h, song) + (if p.song == song then 1 else 0)
  {
    assert (h + [p])[..|h|] == h;
  }

  /** Playing keeps every counter equal to the length of its song's history. */
  lemma PlaySongKeepsCounters(st: Store, user: Id, song: Id)
    requires CountersMatchHistory(st) && song in st.songs
    ensures CountersMatchHistory(PlaySong(st, user, song).value.store)
  {
    var p := Play(user, song, st.clock);
    forall s | s in st.songs ensures PlaysOfSong(st.history + [p], s) == PlaysOfSong(st.history, s) + (if s == song then 1 else 0) {
      PlaysOfSongAppend(st.history, p, s);
    }
  }

  /** A play raises the player's own count for that song by one, as `user_stats` reports it. */
  lemma PlaySongCountsForPlayer(st: Store, user: Id, song: Id)
    requires song in st.songs
    ensures var after := PlaySong(st, user, song).value.store;
      Stats.PlayCount(after.history, user, song) == Stats.PlayCount(st.history, user, song) + 1
      && Stats.TotalPlays(after.history, user) == Stats.TotalPlays(st.history, user) + 1
  {
    var p := Play(user, song, st.clock);
    Stats.PlayCountAppend(st.history, p, user, song);
    assert (st.history + [p])[..|st.history|] == st.history;
  }

  /** `n` plays of the same song raise its counter by `n` and add `n` history rows. */
  function PlayTimes(st: Store, user: Id, song: Id, n: nat): (r: Store)
    requires song in st.songs
    ensures song in r.songs
    ensures r.songs[song].playCount == st.songs[song].playCount + n
    ensures |r.history| == |st.history| + n
    ensures PlaysOfSong(r.history, song) == PlaysOfSong(st.history, song) + n
  {
    if n == 0 then st
    else
      var mid := PlayTimes(st, user, song, n - 1);
      PlaysOfSongAppend(mid.history, Play(user, song, mid.clock), song);
      PlaySong(mid, user, song).value.store
  }

  lemma PlaySongKeepsValid(st: Store, user: Id, song: Id)
    requires Valid(st) && user in st.users && song in st.songs
    ensures Valid(PlaySong(st, user, song).value.store)
  {
    var after := PlaySong(st, user, song).value.store;
    forall s | s in after.songs ensures SameRefs(after.songs[s], st.songs[s]) {
      if s == song { assert after.songs[s].(playCount := st.songs[s].playCount) == st.songs[s]; }
    }
    forall p | p in after.history ensures PlayOk(st, p) {
      if p in st.history { assert PlayOk(st, p); }
    }
    SongFieldsChangeKeepsValid(st, after);
  }

  // --------------------------------------------------------------- downloads

  /** `download_song`: the visibility gate, then one more download; the result is the file served. */
  function DownloadSong(st: Store, user: Id, song: Id): (r: Result<Step<Upload>, Denial>)
    ensures r.Failure? <==> Access.VisibleSong(st, user, song).Failure?
    ensures r.Failure? ==> r.error == Access.VisibleSong(st, user, song).error
    ensures r.Success? ==>
      && song in st.songs && song in r.value.store.songs
      && r.value.out == st.songs[song].audio
      && r.value.store.songs[song] == Models.IncrementDownloadCount(st.songs[song])
      && r.value.store == st.(songs := st.songs[song := r.value.store.songs[song]])
  {
    match Access.VisibleSong(st, user, song)
    case Failure(e) => Failure(e)
    case Success(s) => Success(Step(st.(songs := st.songs[song := Models.IncrementDownloadCount(s)]), s.audio))
  }

  lemma DownloadSongKeepsValid(st: Store, user: Id, song: Id)
    requires Valid(st)
    requires DownloadSong(st, user, song).Success?
    ensures Valid(DownloadSong(st, user, song).value.store)
  {
    var after := DownloadSong(st, user, song).value.store;
    forall s | s in after.songs ensures SameRefs(after.songs[s], st.songs[s]) {
      if s == song { assert after.songs[s].(downloadCount := st.songs[s].downloadCount) == st.songs[s]; }
    }
    SongFieldsChangeKeepsValid(st, after);
  }

  // ---------------------------------------------------------------- comments

  /** `add_comment`: a valid comment form appends one comment with the cleaned text. */
  function AddComment(st: Store, user: Id, song: Id, raw: string): (r: Result<Store, Denial>)
    ensures song !in st.songs ==> r == Failure(NotFound)
    ensures song in st.songs && Forms.CleanComment(raw).Failure? ==>
      r == Failure(Rejected({Forms.CleanComment(raw).error}))
    ensures r.Success? ==>
      && Forms.CleanComment(raw).Success?
      && r.value.comments == st.comments + [Comment(song, user, Text.Strip(raw), false)]
      && r.value == st.(comments := r.value.comments)
  {
    if song !in st.songs then Failure(NotFound)
    else
      match Forms.CleanComment(raw)
      case Failure(e) => Failure(Rejected({e}))
      case Success(t) => Success(st.(comments := st.comments + [Comment(song, user, t, false)]))
  }

  /** Every stored comment stays within 1000 characters. */
  lemma AddCommentKeepsValid(st: Store, user: Id, song: Id, raw: string)
    requires Valid(st) && user in st.users
    requires AddComment(st, user, song, raw).Success?
    ensures Valid(AddComment(st, user, song, raw).value)
  {
    CommentsChangeKeepsValid(st, AddComment(st, user, song, raw).value);
  }
}
