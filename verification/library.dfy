/**
 * The persisted state of the music library, with the ORM replaced by an
 * immutable in-memory store: one map per model from id to row, the
 * many-to-many and `unique_together` tables as sets and maps, and the
 * append-only tables (comments, play history) as sequences.
 */
module Library {
  import opened Wrappers

  type Id = nat

  /** accounts.User, reduced to the fields the rules read. */
  datatype User = User(
    username: string, email: string, firstName: string, lastName: string,
    bio: string, picture: Option<Upload>, isStaff: bool)

  /** An uploaded file as the forms see it: its name, size in bytes and declared content type. */
  datatype Upload = Upload(name: string, size: nat, contentType: string)

  datatype Genre = Genre(name: string)

  datatype Artist = Artist(name: string)

  /** An album; `releaseDate` is a day number, `None` when unknown (the column is nullable). */
  datatype Album = Album(title: string, artist: Id, releaseDate: Option<nat>)

  /** A song; `duration` is a whole number of seconds, `uploadedAt` a clock reading. */
  datatype Song = Song(
    title: string, artist: Id, album: Option<Id>, genre: Option<Id>,
    audio: Upload, duration: Option<nat>, lyrics: string,
    uploadedBy: Id, uploadedAt: nat,
    playCount: nat, downloadCount: nat, isPublic: bool, isFeatured: bool)

  /** A playlist; `songs` is its many-to-many membership table. */
  datatype Playlist = Playlist(
    name: string, description: string, owner: Id, songs: set<Id>,
    cover: Option<Upload>, isPublic: bool, isCollaborative: bool, createdAt: nat)

  datatype Comment = Comment(song: Id, user: Id, text: string, isEdited: bool)

  /** One PlayHistory row: who played what, and when. */
  datatype Play = Play(user: Id, song: Id, playedAt: nat)

  /**
   * The whole database. `favorites` and `ratings` are keyed by (user, song),
   * which is their `unique_together` constraint; `clock` is an abstract
   * monotonic clock for the auto-now timestamps and `nextId` the id allocator.
   */
  datatype Store = Store(
    users: map<Id, User>,
    genres: map<Id, Genre>,
    artists: map<Id, Artist>,
    albums: map<Id, Album>,
    songs: map<Id, Song>,
    playlists: map<Id, Playlist>,
    favorites: set<(Id, Id)>,
    ratings: map<(Id, Id), int>,
    comments: seq<Comment>,
    history: seq<Play>,
    clock: nat,
    nextId: nat)

  /** The result of a transition: the new store and what the view reports. */
  datatype Step<T> = Step(store: Store, out: T)

  /**
   * Why a view does not carry out a request: a 404, a 403, a form shown again
   * with its errors, or an exception nothing catches (a 500).
   */
  datatype Denial = NotFound | PermissionDenied | Rejected(errors: set<FormError>) | ServerError(error: FormError)

  /** The form fields that carry a rule. */
  datatype Field =
    | TitleField | ArtistField | ArtistNameField | AlbumField | AlbumTitleField
    | GenreField | GenreNameField | AudioField | AudioFilesField
    | NameField | CoverField | TextField | RatingField
    | UsernameField | EmailField | FirstNameField | LastNameField | BioField | PictureField

  /**
   * Field-level and form-level validation errors. `InvalidFile` and
   * `EmptyFile` are a file field's 'invalid' and 'empty' codes.
   * `MultipleMatches` is not a form error in the source but the
   * `MultipleObjectsReturned` exception a `get_or_create` raises when two
   * rows already match; it aborts the request.
   */
  datatype FormError =
    | Required(field: Field)
    | InvalidChoice(field: Field)
    | TooLong(field: Field)
    | InvalidFile(field: Field)
    | EmptyFile(field: Field)
    | BadExtension(field: Field)
    | NoArtist
    | AudioTooLarge
    | ImageTooLarge(field: Field)
    | BadImageType(field: Field)
    | CommentTooShort
    | AlreadyTaken(field: Field)
    | MultipleMatches(field: Field)

  const EmptyStore := Store(map[], map[], map[], map[], map[], map[], {}, map[], [], [], 0, 0)

  /** Every id in use was handed out by the allocator. */
  predicate IdsBelow(st: Store)
  {
    && (forall id :: id in st.users ==> id < st.nextId)
    && (forall id :: id in st.genres ==> id < st.nextId)
    && (forall id :: id in st.artists ==> id < st.nextId)
    && (forall id :: id in st.albums ==> id < st.nextId)
    && (forall id :: id in st.songs ==> id < st.nextId)
    && (forall id :: id in st.playlists ==> id < st.nextId)
  }

  predicate SongRefsOk(st: Store, s: Song)
  {
    && s.artist in st.artists
    && (s.album.Some? ==> s.album.value in st.albums)
    && (s.genre.Some? ==> s.genre.value in st.genres)
    && s.uploadedBy in st.users
  }

  predicate PlaylistOk(st: Store, p: Playlist)
  {
    && p.owner in st.users
    && (forall s :: s in p.songs ==> s in st.songs)
  }

  predicate CommentOk(st: Store, c: Comment)
  {
    c.song in st.songs && c.user in st.users && |c.text| <= 1000
  }

  predicate PlayOk(st: Store, p: Play)
  {
    p.song in st.songs && p.user in st.users
  }

  /** Every foreign key points at an existing row (the catalog and the playlists). */
  predicate CatalogOk(st: Store)
  {
    && (forall a :: a in st.albums ==> st.albums[a].artist in st.artists)
    && (forall s :: s in st.songs ==> SongRefsOk(st, st.songs[s]))
    && (forall p :: p in st.playlists ==> PlaylistOk(st, st.playlists[p]))
  }

  /** The engagement tables reference existing rows and keep their value constraints. */
  predicate EngagementOk(st: Store)
  {
    && (forall f :: f in st.favorites ==> f.0 in st.users && f.1 in st.songs)
    && (forall k :: k in st.ratings ==> k.0 in st.users && k.1 in st.songs && 1 <= st.ratings[k] <= 5)
    && (forall c :: c in st.comments ==> CommentOk(st, c))
    && (forall p :: p in st.history ==> PlayOk(st, p))
  }

  /** The unique columns: User.username, User.email and Genre.name. */
  predicate UniqueKeys(st: Store)
  {
    && (forall a, b :: a in st.users && b in st.users && st.users[a].username == st.users[b].username ==> a == b)
    && (forall a, b :: a in st.users && b in st.users && st.users[a].email == st.users[b].email ==> a == b)
    && (forall a, b :: a in st.genres && b in st.genres && st.genres[a].name == st.genres[b].name ==> a == b)
  }

  /** The database's constraints, all of which every transition keeps. */
  predicate Valid(st: Store)
  {
    IdsBelow(st) && CatalogOk(st) && EngagementOk(st) && UniqueKeys(st)
  }

  /**
   * The ids below `hi` satisfying `p`, in increasing order: a table scan in
   * primary-key order.
   */
  function IdsWhere(hi: nat, p: Id -> bool): (r: seq<Id>)
    ensures forall id: Id {:trigger id in r} :: id in r <==> id < hi && p(id)
    ensures forall i, j :: 0 <= i < j < |r| ==> r[i] < r[j]
  {
    if hi == 0 then []
    else
      var rest := IdsWhere(hi - 1, p);
      if p(hi - 1) then
        assert forall i :: 0 <= i < |rest| ==> rest[i] in rest;
        rest + [hi - 1]
      else rest
  }

  /** A scan that nothing below `hi` satisfies is empty. */
  lemma {:induction false} IdsWhereNone(hi: nat, p: Id -> bool)
    requires forall id: Id :: id < hi ==> !p(id)
    ensures IdsWhere(hi, p) == []
  {
    if hi > 0 {
      IdsWhereNone(hi - 1, p);
    }
  }

  /** A scan finds as many rows as there are ids below `hi` satisfying `p`. */
  lemma {:induction false} IdsWhereCount(hi: nat, p: Id -> bool)
    ensures |IdsWhere(hi, p)| == |set id: Id | id < hi && p(id)|
  {
    if hi > 0 {
      IdsWhereCount(hi - 1, p);
      var below := set id: Id | id < hi - 1 && p(id);
      var all := set id: Id | id < hi && p(id);
      if p(hi - 1) {
        assert |IdsWhere(hi, p)| == |IdsWhere(hi - 1, p)| + 1;
        assert all == below + {hi - 1};
        assert hi - 1 !in below;
      } else {
        assert IdsWhere(hi, p) == IdsWhere(hi - 1, p);
        assert all == below;
      }
    } else {
      assert (set id: Id | id < hi && p(id)) == {};
    }
  }

  /** One more id scanned is appended when it qualifies. */
  lemma IdsWhereSnoc(hi: nat, p: Id -> bool)
    requires hi > 0
    ensures IdsWhere(hi, p) == IdsWhere(hi - 1, p) + (if p(hi - 1) then [hi - 1] else [])
  {
  }

  /** Scans with predicates that agree below `hi` return the same ids. */
  lemma {:induction false} IdsWhereSame(hi: nat, p: Id -> bool, q: Id -> bool)
    requires forall id: Id :: id < hi ==> p(id) == q(id)
    ensures IdsWhere(hi, p) == IdsWhere(hi, q)
  {
    if hi > 0 {
      IdsWhereSame(hi - 1, p, q);
    }
  }

  /** Ids handed out above `lo` that the predicate rejects leave the scan as it was. */
  lemma {:induction false} IdsWhereBeyond(lo: nat, hi: nat, p: Id -> bool)
    requires lo <= hi
    requires forall id: Id :: lo <= id < hi ==> !p(id)
    ensures IdsWhere(hi, p) == IdsWhere(lo, p)
    decreases hi - lo
  {
    if lo < hi {
      IdsWhereBeyond(lo, hi - 1, p);
    }
  }

  /** A predicate that holds at one more id below `hi` finds one more row. */
  lemma {:induction false} IdsWhereAdd(hi: nat, p: Id -> bool, q: Id -> bool, x: Id)
    requires x < hi && !p(x) && q(x)
    requires forall id: Id :: id != x ==> p(id) == q(id)
    ensures |IdsWhere(hi, q)| == |IdsWhere(hi, p)| + 1
  {
    if hi - 1 == x {
      IdsWhereSame(hi - 1, p, q);
    } else {
      IdsWhereAdd(hi - 1, p, q, x);
    }
  }

  /**
   * A change confined to the engagement tables (and the clock) keeps the
   * store valid when every row of the new tables references existing rows.
   */
  lemma EngagementChangeKeepsValid(st: Store, after: Store)
    requires Valid(st)
    requires after == st.(favorites := after.favorites, ratings := after.ratings, comments := after.comments,
                          history := after.history, clock := after.clock)
    requires forall f :: f in after.favorites ==> f.0 in st.users && f.1 in st.songs
    requires forall k :: k in after.ratings ==> k.0 in st.users && k.1 in st.songs && 1 <= after.ratings[k] <= 5
    requires forall c :: c in after.comments ==> CommentOk(st, c)
    requires forall p :: p in after.history ==> PlayOk(st, p)
    ensures Valid(after)
  {
    assert CatalogOk(after) by {
      forall s | s in after.songs ensures SongRefsOk(after, after.songs[s]) {
        assert SongRefsOk(st, st.songs[s]);
      }
      forall p | p in after.playlists ensures PlaylistOk(after, after.playlists[p]) {
        assert PlaylistOk(st, st.playlists[p]);
      }
    }
    assert EngagementOk(after) by {
      forall c | c in after.comments ensures CommentOk(after, c) {
        assert CommentOk(st, c);
      }
      forall p | p in after.history ensures PlayOk(after, p) {
        assert PlayOk(st, p);
      }
    }
  }

  /** Changing only the favorites keeps the store valid when each references an existing user and song. */
  lemma FavoritesChangeKeepsValid(st: Store, after: Store)
    requires Valid(st)
    requires after == st.(favorites := after.favorites)
    requires forall f :: f in after.favorites ==> f.0 in st.users && f.1 in st.songs
    ensures Valid(after)
  {
    EngagementChangeKeepsValid(st, after);
  }

  /** Changing only the ratings keeps the store valid when each references existing rows and lies in 1..5. */
  lemma RatingsChangeKeepsValid(st: Store, after: Store)
    requires Valid(st)
    requires after == st.(ratings := after.ratings)
    requires forall k :: k in after.ratings ==> k.0 in st.users && k.1 in st.songs && 1 <= after.ratings[k] <= 5
    ensures Valid(after)
  {
    EngagementChangeKeepsValid(st, after);
  }

  /** Changing only the comments keeps the store valid when each is well formed. */
  lemma CommentsChangeKeepsValid(st: Store, after: Store)
    requires Valid(st)
    requires after == st.(comments := after.comments)
    requires forall c :: c in after.comments ==> CommentOk(st, c)
    ensures Valid(after)
  {
    EngagementChangeKeepsValid(st, after);
  }

  /** Two versions of a song row that reference the same rows. */
  predicate SameRefs(a: Song, b: Song)
  {
    a.artist == b.artist && a.album == b.album && a.genre == b.genre && a.uploadedBy == b.uploadedBy
  }

  /**
   * Rewriting song rows without touching their references, and changing
   * the history, keeps the store valid when the history stays well formed.
   */
  lemma SongFieldsChangeKeepsValid(st: Store, after: Store)
    requires Valid(st)
    requires after == st.(songs := after.songs, history := after.history, clock := after.clock)
    requires after.songs.Keys == st.songs.Keys
    requires forall s :: s in after.songs ==> SameRefs(after.songs[s], st.songs[s])
    requires forall p :: p in after.history ==> PlayOk(st, p)
    ensures Valid(after)
  {
    assert IdsBelow(after) by {
      assert forall id :: id in after.songs ==> id in st.songs;
    }
    assert CatalogOk(after) by {
      forall s | s in after.songs ensures SongRefsOk(after, after.songs[s]) {
        assert SongRefsOk(st, st.songs[s]);
      }
      forall p | p in after.playlists ensures PlaylistOk(after, after.playlists[p]) {
        assert PlaylistOk(st, st.playlists[p]);
      }
    }
    assert EngagementOk(after) by {
      forall c | c in after.comments ensures CommentOk(after, c) {
        assert CommentOk(st, c);
      }
      forall p | p in after.history ensures PlayOk(after, p) {
        assert PlayOk(st, p);
      }
    }
    assert UniqueKeys(after);
  }

  /**
   * Replacing the playlist table (and advancing the allocator and clock)
   * keeps the store valid when every playlist is well formed and every id
   * was handed out.
   */
  lemma PlaylistsChangeKeepsValid(st: Store, after: Store)
    requires Valid(st)
    requires after == st.(playlists := after.playlists, nextId := after.nextId, clock := after.clock)
    requires st.nextId <= after.nextId
    requires forall p :: p in after.playlists ==> p < after.nextId && PlaylistOk(st, after.playlists[p])
    ensures Valid(after)
  {
    assert CatalogOk(after) by {
      forall s | s in after.songs ensures SongRefsOk(after, after.songs[s]) {
        assert SongRefsOk(st, st.songs[s]);
      }
      forall p | p in after.playlists ensures PlaylistOk(after, after.playlists[p]) {
        assert PlaylistOk(st, after.playlists[p]);
      }
    }
    assert EngagementOk(after) by {
      forall c | c in after.comments ensures CommentOk(after, c) {
        assert CommentOk(st, c);
      }
      forall p | p in after.history ensures PlayOk(after, p) {
        assert PlayOk(st, p);
      }
    }
  }

  /** Engagement rows stay well formed when no user or song goes and the engagement tables stay. */
  lemma EngagementOkWhenRowsGrow(st: Store, after: Store)
    requires EngagementOk(st)
    requires after.favorites == st.favorites && after.ratings == st.ratings
    requires after.comments == st.comments && after.history == st.history
    requires st.users.Keys <= after.users.Keys && st.songs.Keys <= after.songs.Keys
    ensures EngagementOk(after)
  {
    forall c | c in after.comments ensures CommentOk(after, c) {
      assert CommentOk(st, c);
    }
    forall p | p in after.history ensures PlayOk(after, p) {
      assert PlayOk(st, p);
    }
  }

  /** Playlists stay well formed when no user or song goes and the playlist table stays. */
  lemma PlaylistsOkWhenRowsGrow(st: Store, after: Store)
    requires forall p :: p in st.playlists ==> PlaylistOk(st, st.playlists[p])
    requires after.playlists == st.playlists
    requires st.users.Keys <= after.users.Keys && st.songs.Keys <= after.songs.Keys
    ensures forall p :: p in after.playlists ==> PlaylistOk(after, after.playlists[p])
  {
    forall p | p in after.playlists ensures PlaylistOk(after, after.playlists[p]) {
      assert PlaylistOk(st, st.playlists[p]);
    }
  }

  /**
   * Dropping genres or albums and rewriting song rows keeps the store valid
   * when every song still references existing rows and no song goes.
   */
  lemma CatalogShrinkKeepsValid(st: Store, after: Store)
    requires Valid(st)
    requires after == st.(genres := after.genres, albums := after.albums, songs := after.songs)
    requires after.songs.Keys == st.songs.Keys
    requires forall g :: g in after.genres ==> g in st.genres && after.genres[g] == st.genres[g]
    requires forall a :: a in after.albums ==> a in st.albums && after.albums[a] == st.albums[a]
    requires forall s :: s in after.songs ==> SongRefsOk(after, after.songs[s])
    ensures Valid(after)
  {
    assert CatalogOk(after) by {
      forall a | a in after.albums ensures after.albums[a].artist in after.artists {
        assert st.albums[a].artist in st.artists;
      }
      forall p | p in after.playlists ensures PlaylistOk(after, after.playlists[p]) {
        assert PlaylistOk(st, st.playlists[p]);
      }
    }
    assert EngagementOk(after) by {
      forall c | c in after.comments ensures CommentOk(after, c) {
        assert CommentOk(st, c);
      }
      forall p | p in after.history ensures PlayOk(after, p) {
        assert PlayOk(st, p);
      }
    }
    assert UniqueKeys(after) by {
      forall a, b | a in after.genres && b in after.genres && after.genres[a].name == after.genres[b].name
        ensures a == b
      {
        assert st.genres[a].name == st.genres[b].name;
      }
    }
  }

  /** Handing out id `hi` to a row the new predicate holds for finds one more row. */
  lemma IdsWhereFresh(hi: nat, p: Id -> bool, q: Id -> bool)
    requires forall id: Id :: id < hi ==> p(id) == q(id)
    requires q(hi)
    ensures |IdsWhere(hi + 1, q)| == |IdsWhere(hi, p)| + 1
  {
    IdsWhereSame(hi, p, q);
  }
}
