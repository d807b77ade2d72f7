/**
 * What deleting a row does to the rows that reference it. Every foreign key
 * to Song and to User is `CASCADE`; Song's album and genre are `SET_NULL`,
 * and Album's artist is `CASCADE`. A deleted song also leaves every
 * playlist's membership table.
 */
module Cascade {
  import opened Wrappers
  import opened Library
  import Access
  import opened Sorting

  function CommentOff(gone: set<Id>): Comment -> bool
  {
    (c: Comment) => c.song !in gone
  }

  function PlayOff(gone: set<Id>): Play -> bool
  {
    (p: Play) => p.song !in gone
  }

  /** The songs in `gone` removed, with every favorite, rating, comment, play and playlist entry of theirs. */
  function RemoveSongs(st: Store, gone: set<Id>): (r: Store)
    ensures forall s :: s in r.songs <==> s in st.songs && s !in gone
    ensures forall s :: s in r.songs ==> r.songs[s] == st.songs[s]
    ensures forall f :: f in r.favorites <==> f in st.favorites && f.1 !in gone
    ensures forall k :: k in r.ratings <==> k in st.ratings && k.1 !in gone
    ensures forall k :: k in r.ratings ==> r.ratings[k] == st.ratings[k]
    ensures forall c :: c in r.comments <==> c in st.comments && c.song !in gone
    ensures forall p :: p in r.history <==> p in st.history && p.song !in gone
    ensures r.comments == Filter(st.comments, CommentOff(gone))
    ensures r.history == Filter(st.history, PlayOff(gone))
    ensures r.playlists.Keys == st.playlists.Keys
    ensures forall p :: p in r.playlists ==> r.playlists[p] == st.playlists[p].(songs := st.playlists[p].songs - gone)
    ensures r.users == st.users && r.artists == st.artists && r.albums == st.albums && r.genres == st.genres
    ensures r.nextId == st.nextId && r.clock == st.clock
  {
    st.(songs := KeepSongs(st.songs, gone),
        playlists := DropFromPlaylists(st.playlists, gone),
        favorites := KeepFavorites(st.favorites, gone),
        ratings := KeepRatings(st.ratings, gone),
        comments := Filter(st.comments, CommentOff(gone)),
        history := Filter(st.history, PlayOff(gone)))
  }

  function KeepSongs(songs: map<Id, Song>, gone: set<Id>): (r: map<Id, Song>)
    ensures forall s :: s in r <==> s in songs && s !in gone
    ensures forall s :: s in r ==> r[s] == songs[s]
  {
    map s | s in songs && s !in gone :: songs[s]
  }

  function DropFromPlaylists(playlists: map<Id, Playlist>, gone: set<Id>): (r: map<Id, Playlist>)
    ensures r.Keys == playlists.Keys
    ensures forall p :: p in r ==> r[p] == playlists[p].(songs := playlists[p].songs - gone)
  {
    map p | p in playlists :: playlists[p].(songs := playlists[p].songs - gone)
  }

  function KeepFavorites(favorites: set<(Id, Id)>, gone: set<Id>): (r: set<(Id, Id)>)
    ensures forall f :: f in r <==> f in favorites && f.1 !in gone
  {
    set f | f in favorites && f.1 !in gone
  }

  function KeepRatings(ratings: map<(Id, Id), int>, gone: set<Id>): (r: map<(Id, Id), int>)
    ensures forall k :: k in r <==> k in ratings && k.1 !in gone
    ensures forall k :: k in r ==> r[k] == ratings[k]
  {
    map k | k in ratings && k.1 !in gone :: ratings[k]
  }

  /** Nothing in the store refers to song `id` any more. */
  predicate SongUnreferenced(st: Store, id: Id)
  {
    && id !in st.songs
    && (forall f :: f in st.favorites ==> f.1 != id)
    && (forall k :: k in st.ratings ==> k.1 != id)
    && (forall c :: c in st.comments ==> c.song != id)
    && (forall p :: p in st.history ==> p.song != id)
    && (forall p :: p in st.playlists ==> id !in st.playlists[p].songs)
  }

  /** Removing songs with everything that points at them keeps the store valid. */
  lemma RemoveSongsKeepsValid(st: Store, gone: set<Id>)
    requires Valid(st)
    ensures Valid(RemoveSongs(st, gone))
  {
    var after := RemoveSongs(st, gone);
    assert CatalogOk(after) by {
      forall s | s in after.songs ensures SongRefsOk(after, after.songs[s]) {
        assert SongRefsOk(st, st.songs[s]);
      }
      forall p | p in after.playlists ensures PlaylistOk(after, after.playlists[p]) {
        assert PlaylistOk(st, st.playlists[p]);
      }
    }
    assert EngagementOk(after) by {
      forall c | c in after.comments ensures CommentOk(after, c) {
        assert CommentOk(st, c);
      }
      forall p | p in after.history ensures PlayOk(after, p) {
        assert PlayOk(st, p);
      }
    }
  }

  // ------------------------------------------------------------ delete_song

  /**
   * `delete_song`: the uploader or staff delete the song, and with it its
   * favorites, ratings, comments, plays and playlist entries.
   */
  function DeleteSong(st: Store, user: Id, id: Id): (r: Result<Store, Denial>)
    ensures id !in st.songs ==> r == Failure(NotFound)
    ensures id in st.songs && !Access.CanEditSong(st, st.songs[id], user) ==> r == Failure(PermissionDenied)
    ensures r.Success? <==> id in st.songs && Access.CanEditSong(st, st.songs[id], user)
    ensures r.Success? ==> SongUnreferenced(r.value, id)
    ensures r.Success? ==>
      && r.value.songs.Keys == st.songs.Keys - {id}
      && (forall s :: s in r.value.songs ==> r.value.songs[s] == st.songs[s])
      && (forall f :: f in r.value.favorites <==> f in st.favorites && f.1 != id)
      && (forall k :: k in r.value.ratings <==> k in st.ratings && k.1 != id)
      && (forall k :: k in r.value.ratings ==> r.value.ratings[k] == st.ratings[k])
      && r.value.comments == Filter(st.comments, CommentOff({id}))
      && r.value.history == Filter(st.history, PlayOff({id}))
      && r.value.playlists.Keys == st.playlists.Keys
      && (forall p :: p in r.value.playlists ==>
            r.value.playlists[p] == st.playlists[p].(songs := st.playlists[p].songs - {id}))
      && r.value.users == st.users && r.value.artists == st.artists
      && r.value.albums == st.albums && r.value.genres == st.genres
      && r.value.nextId == st.nextId && r.value.clock == st.clock
  {
    match Access.EditableSong(st, user, id)
    case Failure(e) => Failure(e)
    case Success(_) => Success(RemoveSongs(st, {id}))
  }

  lemma DeleteSongKeepsValid(st: Store, user: Id, id: Id)
    requires Valid(st) && DeleteSong(st, user, id).Success?
    ensures Valid(DeleteSong(st, user, id).value)
  {
    RemoveSongsKeepsValid(st, {id});
  }

  // ------------------------------------------------------------ albums and genres

  function ClearAlbum(s: Song, gone: set<Id>): (r: Song)
    ensures r.album.Some? ==> r.album.value !in gone
    ensures r.album.Some? ==> r.album == s.album
    ensures r == s.(album := r.album)
  {
    if s.album.Some? && s.album.value in gone then s.(album := None) else s
  }

  /** Deleting an album keeps its songs and sets their album to null. */
  function DeleteAlbum(st: Store, album: Id): (r: Store)
    ensures r.albums.Keys == st.albums.Keys - {album}
    ensures r.songs.Keys == st.songs.Keys
    ensures forall s :: s in r.songs ==> r.songs[s].album != Some(album)
    ensures forall s :: s in r.songs && st.songs[s].album != Some(album) ==> r.songs[s] == st.songs[s]
    ensures forall s :: s in r.songs ==> r.songs[s] == st.songs[s].(album := r.songs[s].album)
    ensures forall a :: a in r.albums ==> r.albums[a] == st.albums[a]
    ensures r == st.(albums := r.albums, songs := r.songs)
  {
    st.(albums := map a | a in st.albums && a != album :: st.albums[a],
        songs := map s | s in st.songs :: ClearAlbum(st.songs[s], {album}))
  }

  lemma DeleteAlbumKeepsValid(st: Store, album: Id)
    requires Valid(st)
    ensures Valid(DeleteAlbum(st, album))
  {
    var after := DeleteAlbum(st, album);
    forall s | s in after.songs ensures SongRefsOk(after, after.songs[s]) {
      assert SongRefsOk(st, st.songs[s]);
    }
    CatalogShrinkKeepsValid(st, after);
  }

  /** Deleting a genre keeps its songs and sets their genre to null. */
  function DeleteGenre(st: Store, genre: Id): (r: Store)
    ensures r.genres.Keys == st.genres.Keys - {genre}
    ensures r.songs.Keys == st.songs.Keys
    ensures forall s :: s in r.songs ==> r.songs[s].genre != Some(genre)
    ensures forall s :: s in r.songs && st.songs[s].genre != Some(genre) ==> r.songs[s] == st.songs[s]
    ensures forall s :: s in r.songs ==> r.songs[s] == st.songs[s].(genre := r.songs[s].genre)
    ensures forall g :: g in r.genres ==> r.genres[g] == st.genres[g]
    ensures r == st.(genres := r.genres, songs := r.songs)
  {
    st.(genres := map g | g in st.genres && g != genre :: st.genres[g],
        songs := map s | s in st.songs ::
          if st.songs[s].genre == Some(genre) then st.songs[s].(genre := None) else st.songs[s])
  }

  lemma DeleteGenreKeepsValid(st: Store, genre: Id)
    requires Valid(st)
    ensures Valid(DeleteGenre(st, genre))
  {
    var after := DeleteGenre(st, genre);
    forall s | s in after.songs ensures SongRefsOk(after, after.songs[s]) {
      assert SongRefsOk(st, st.songs[s]);
    }
    CatalogShrinkKeepsValid(st, after);
  }

  // ------------------------------------------------------------ artists

  function SongsBy(st: Store, artist: Id): (r: set<Id>)
    ensures forall s :: s in r <==> s in st.songs && st.songs[s].artist == artist
  {
    set s | s in st.songs && st.songs[s].artist == artist
  }

  function AlbumsBy(st: Store, artist: Id): (r: set<Id>)
    ensures forall a :: a in r <==> a in st.albums && st.albums[a].artist == artist
  {
    set a | a in st.albums && st.albums[a].artist == artist
  }

  /**
   * Deleting an artist deletes their albums and their songs (with everything
   * that points at those songs); another artist's song on one of those
   * albums stays, with its album set to null.
   */
  function DeleteArtist(st: Store, artist: Id): (r: Store)
    ensures artist !in r.artists && r.artists.Keys == st.artists.Keys - {artist}
    ensures forall s :: s in r.songs <==> s in st.songs && st.songs[s].artist != artist
    ensures forall a :: a in r.albums <==> a in st.albums && st.albums[a].artist != artist
    ensures forall s :: s in r.songs ==>
      && r.songs[s].artist != artist
      && r.songs[s] == st.songs[s].(album := r.songs[s].album)
      && (r.songs[s].album.Some? ==>
            r.songs[s].album == st.songs[s].album && r.songs[s].album.value !in AlbumsBy(st, artist))
      && (st.songs[s].album.Some? && st.songs[s].album.value !in AlbumsBy(st, artist) ==>
            r.songs[s].album == st.songs[s].album)
    ensures forall a :: a in r.albums ==> r.albums[a] == st.albums[a]
    ensures forall a :: a in r.artists ==> r.artists[a] == st.artists[a]
    ensures forall s :: s in st.songs && st.songs[s].artist == artist ==> SongUnreferenced(r, s)
    ensures forall f :: f in r.favorites <==> f in st.favorites && f.1 !in SongsBy(st, artist)
    ensures forall k :: k in r.ratings <==> k in st.ratings && k.1 !in SongsBy(st, artist)
    ensures forall k :: k in r.ratings ==> r.ratings[k] == st.ratings[k]
    ensures r.comments == Filter(st.comments, CommentOff(SongsBy(st, artist)))
    ensures r.history == Filter(st.history, PlayOff(SongsBy(st, artist)))
    ensures r.playlists.Keys == st.playlists.Keys
    ensures forall p :: p in r.playlists ==>
      r.playlists[p] == st.playlists[p].(songs := st.playlists[p].songs - SongsBy(st, artist))
    ensures r.users == st.users && r.genres == st.genres
  {
    DropArtist(RemoveSongs(st, SongsBy(st, artist)), artist)
  }

  /** The artist row and their albums removed; songs on those albums keep a null album. */
  function DropArtist(mid: Store, artist: Id): (r: Store)
    ensures r.artists.Keys == mid.artists.Keys - {artist}
    ensures forall a :: a in r.artists ==> r.artists[a] == mid.artists[a]
    ensures forall a :: a in r.albums <==> a in mid.albums && mid.albums[a].artist != artist
    ensures forall a :: a in r.albums ==> r.albums[a] == mid.albums[a]
    ensures r.songs.Keys == mid.songs.Keys
    ensures forall s :: s in r.songs ==> r.songs[s] == ClearAlbum(mid.songs[s], AlbumsBy(mid, artist))
    ensures r == mid.(artists := r.artists, albums := r.albums, songs := r.songs)
  {
    var gone := AlbumsBy(mid, artist);
    mid.(artists := map a | a in mid.artists && a != artist :: mid.artists[a],
         albums := map a | a in mid.albums && a !in gone :: mid.albums[a],
         songs := map s | s in mid.songs :: ClearAlbum(mid.songs[s], gone))
  }

  lemma DeleteArtistKeepsValid(st: Store, artist: Id)
    requires Valid(st)
    ensures Valid(DeleteArtist(st, artist))
  {
    RemoveSongsKeepsValid(st, SongsBy(st, artist));
    DropArtistKeepsValid(RemoveSongs(st, SongsBy(st, artist)), artist);
  }

  /** Dropping an artist none of whose songs remain keeps the store valid. */
  lemma DropArtistKeepsValid(mid: Store, artist: Id)
    requires Valid(mid)
    requires forall s :: s in mid.songs ==> mid.songs[s].artist != artist
    ensures Valid(DropArtist(mid, artist))
  {
    var after := DropArtist(mid, artist);
    assert CatalogOk(after) by {
      forall a | a in after.albums ensures after.albums[a].artist in after.artists {
        assert mid.albums[a].artist in mid.artists;
      }
      forall s | s in after.songs ensures SongRefsOk(after, after.songs[s]) {
        assert SongRefsOk(mid, mid.songs[s]);
      }
      forall p | p in after.playlists ensures PlaylistOk(after, after.playlists[p]) {
        assert PlaylistOk(mid, mid.playlists[p]);
      }
    }
    assert EngagementOk(after) by {
      forall c | c in after.comments ensures CommentOk(after, c) {
        assert CommentOk(mid, c);
      }
      forall p | p in after.history ensures PlayOk(after, p) {
        assert PlayOk(mid, p);
      }
    }
  }

  // ------------------------------------------------------------ users

  function UploadsOf(st: Store, user: Id): (r: set<Id>)
    ensures forall s :: s in r <==> s in st.songs && st.songs[s].uploadedBy == user
  {
    set s | s in st.songs && st.songs[s].uploadedBy == user
  }

  function CommentBy(user: Id): Comment -> bool
  {
    (c: Comment) => c.user != user
  }

  function PlayBy(user: Id): Play -> bool
  {
    (p: Play) => p.user != user
  }

  /** Nothing in the store refers to user `id` any more. */
  predicate UserUnreferenced(st: Store, id: Id)
  {
    && id !in st.users
    && (forall s :: s in st.songs ==> st.songs[s].uploadedBy != id)
    && (forall p :: p in st.playlists ==> st.playlists[p].owner != id)
    && (forall f :: f in st.favorites ==> f.0 != id)
    && (forall k :: k in st.ratings ==> k.0 != id)
    && (forall c :: c in st.comments ==> c.user != id)
    && (forall p :: p in st.history ==> p.user != id)
  }

  /**
   * Deleting a user deletes their songs (with everything pointing at those),
   * their playlists, favorites, ratings, comments and plays.
   */
  function DeleteUser(st: Store, user: Id): (r: Store)
    ensures UserUnreferenced(r, user)
    ensures r.users.Keys == st.users.Keys - {user}
    ensures forall s :: s in r.songs <==> s in st.songs && st.songs[s].uploadedBy != user
    ensures forall s :: s in st.songs && st.songs[s].uploadedBy == user ==> SongUnreferenced(r, s)
    ensures forall p :: p in r.playlists <==> p in st.playlists && st.playlists[p].owner != user
    ensures forall f :: f in r.favorites <==>
      f in st.favorites && f.0 != user && f.1 !in UploadsOf(st, user)
    ensures forall u :: u in r.users ==> r.users[u] == st.users[u]
    ensures forall s :: s in r.songs ==> r.songs[s] == st.songs[s]
    ensures forall p :: p in r.playlists ==>
      r.playlists[p] == st.playlists[p].(songs := st.playlists[p].songs - UploadsOf(st, user))
    ensures forall k :: k in r.ratings <==> k in st.ratings && k.0 != user && k.1 !in UploadsOf(st, user)
    ensures forall k :: k in r.ratings ==> r.ratings[k] == st.ratings[k]
    ensures forall c :: c in r.comments <==> c in st.comments && c.user != user && c.song !in UploadsOf(st, user)
    ensures forall p :: p in r.history <==> p in st.history && p.user != user && p.song !in UploadsOf(st, user)
    ensures r.comments == Filter(Filter(st.comments, CommentOff(UploadsOf(st, user))), CommentBy(user))
    ensures r.history == Filter(Filter(st.history, PlayOff(UploadsOf(st, user))), PlayBy(user))
    ensures r.artists == st.artists && r.albums == st.albums && r.genres == st.genres
    ensures r.nextId == st.nextId && r.clock == st.clock
  {
    RemoveUserRows(RemoveSongs(st, UploadsOf(st, user)), user)
  }

  /** The user's own rows removed; their songs are assumed gone already. */
  function RemoveUserRows(st: Store, user: Id): (r: Store)
    ensures r.users.Keys == st.users.Keys - {user}
    ensures forall u :: u in r.users ==> r.users[u] == st.users[u]
    ensures forall p :: p in r.playlists <==> p in st.playlists && st.playlists[p].owner != user
    ensures forall p :: p in r.playlists ==> r.playlists[p] == st.playlists[p]
    ensures forall f :: f in r.favorites <==> f in st.favorites && f.0 != user
    ensures forall k :: k in r.ratings <==> k in st.ratings && k.0 != user
    ensures forall k :: k in r.ratings ==> r.ratings[k] == st.ratings[k]
    ensures forall c :: c in r.comments <==> c in st.comments && c.user != user
    ensures forall p :: p in r.history <==> p in st.history && p.user != user
    ensures r.comments == Filter(st.comments, CommentBy(user))
    ensures r.history == Filter(st.history, PlayBy(user))
    ensures r.songs == st.songs && r.artists == st.artists && r.albums == st.albums && r.genres == st.genres
    ensures r.nextId == st.nextId && r.clock == st.clock
  {
    st.(users := KeepUsers(st.users, user),
        playlists := KeepPlaylists(st.playlists, user),
        favorites := KeepFavoritesOf(st.favorites, user),
        ratings := KeepRatingsOf(st.ratings, user),
        comments := Filter(st.comments, CommentBy(user)),
        history := Filter(st.history, PlayBy(user)))
  }

  function KeepUsers(users: map<Id, User>, user: Id): (r: map<Id, User>)
    ensures r.Keys == users.Keys - {user}
    ensures forall u :: u in r ==> r[u] == users[u]
  {
    map u | u in users && u != user :: users[u]
  }

  function KeepPlaylists(playlists: map<Id, Playlist>, user: Id): (r: map<Id, Playlist>)
    ensures forall p :: p in r <==> p in playlists && playlists[p].owner != user
    ensures forall p :: p in r ==> r[p] == playlists[p]
  {
    map p | p in playlists && playlists[p].owner != user :: playlists[p]
  }

  function KeepFavoritesOf(favorites: set<(Id, Id)>, user: Id): (r: set<(Id, Id)>)
    ensures forall f :: f in r <==> f in favorites && f.0 != user
  {
    set f | f in favorites && f.0 != user
  }

  function KeepRatingsOf(ratings: map<(Id, Id), int>, user: Id): (r: map<(Id, Id), int>)
    ensures forall k :: k in r <==> k in ratings && k.0 != user
    ensures forall k :: k in r ==> r[k] == ratings[k]
  {
    map k | k in ratings && k.0 != user :: ratings[k]
  }

  lemma DeleteUserKeepsValid(st: Store, user: Id)
    requires Valid(st)
    ensures Valid(DeleteUser(st, user))
  {
    var mid := RemoveSongs(st, UploadsOf(st, user));
    RemoveSongsKeepsValid(st, UploadsOf(st, user));
    assert forall s :: s in mid.songs ==> mid.songs[s].uploadedBy != user;
    RemoveUserRowsKeepsValid(mid, user);
  }

  /** Removing a user who uploaded nothing, with their own rows, keeps the store valid. */
  lemma RemoveUserRowsKeepsValid(st: Store, user: Id)
    requires Valid(st)
    requires forall s :: s in st.songs ==> st.songs[s].uploadedBy != user
    ensures Valid(RemoveUserRows(st, user))
  {
    var after := RemoveUserRows(st, user);
    assert CatalogOk(after) by {
      forall s | s in after.songs ensures SongRefsOk(after, after.songs[s]) {
        assert SongRefsOk(st, st.songs[s]);
      }
      forall p | p in after.playlists ensures PlaylistOk(after, after.playlists[p]) {
        assert PlaylistOk(st, st.playlists[p]);
      }
    }
    assert EngagementOk(after) by {
      forall c | c in after.comments ensures CommentOk(after, c) {
        assert CommentOk(st, c);
      }
      forall p | p in after.history ensures PlayOk(after, p) {
        assert PlayOk(st, p);
      }
    }
  }
}
