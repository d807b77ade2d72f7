/**
 * The song catalog's write path: the `get_or_create` calls that turn a typed
 * artist, album or genre name into a row, `SongUploadForm` with its field
 * rules and its `clean()`, the upload and edit views built on that form, and
 * `BulkUploadForm.clean`.
 */
module Catalog {
  import opened Wrappers
  import opened Library
  import Text
  import Forms
  import Access
  import Models
  import Stats

  const MaxTitleLength: nat := 200
  const MaxArtistNameLength: nat := 200
  const MaxAlbumTitleLength: nat := 200
  const MaxGenreNameLength: nat := 100
  /** `Song.audio_file`'s `max_length`, the default of a model `FileField`. */
  const MaxAudioNameLength: nat := 100

  // ------------------------------------------------------------ get_or_create

  /** What a `get` finds: no row, exactly one, or several. */
  datatype Found = NoMatch | Match(id: Id) | Several

  /** The rows of `table` whose value satisfies `key`, found by a scan in id order. */
  function Find<T>(table: map<Id, T>, hi: nat, key: T -> bool): (r: Found)
    requires forall id :: id in table ==> id < hi
    ensures r.NoMatch? <==> forall id :: id in table ==> !key(table[id])
    ensures r.Match? ==>
      r.id in table && key(table[r.id]) && forall id :: id in table && key(table[id]) ==> id == r.id
    ensures r.Several? <==> exists a, b :: a in table && b in table && a != b && key(table[a]) && key(table[b])
  {
    var p := (id: Id) => id in table && key(table[id]);
    var m := IdsWhere(hi, p);
    assert forall id :: id in m <==> id in table && key(table[id]) by {
      forall id: Id ensures id in m <==> id in table && key(table[id]) {
        assert id in m <==> id < hi && p(id);
      }
    }
    if |m| == 0 then NoMatch
    else if |m| == 1 then
      assert m == [m[0]];
      assert forall id :: id in m ==> id == m[0];
      assert m[0] in m;
      Match(m[0])
    else
      assert m[0] in m && m[1] in m && m[0] < m[1];
      Several
  }

  /** The outcome of a `get_or_create` that did not raise: the table after it, the row's id, and `created`. */
  datatype Got<T> = Got(table: map<Id, T>, id: Id, created: bool)

  /**
   * `Model.objects.get_or_create`: the one matching row, or `row` inserted
   * under the next id when none matches; `None` is `MultipleObjectsReturned`.
   */
  function GetOrCreate<T>(table: map<Id, T>, nextId: nat, key: T -> bool, row: T): (r: Option<Got<T>>)
    requires forall id :: id in table ==> id < nextId
    requires key(row)
    ensures r.None? <==> exists a, b :: a in table && b in table && a != b && key(table[a]) && key(table[b])
    ensures r.Some? ==> r.value.id in r.value.table && key(r.value.table[r.value.id])
    ensures r.Some? ==> (r.value.created <==> forall id :: id in table ==> !key(table[id]))
    ensures r.Some? && !r.value.created ==> r.value.table == table
    ensures r.Some? && r.value.created ==> r.value.id == nextId && r.value.table == table[nextId := row]
  {
    match Find(table, nextId, key)
    case NoMatch => Some(Got(table[nextId := row], nextId, true))
    case Match(id) => Some(Got(table, id, false))
    case Several => None
  }

  /** The allocator after a `get_or_create`: one id used when it created a row. */
  function NextAfter<T>(nextId: nat, g: Got<T>): nat
  {
    if g.created then nextId + 1 else nextId
  }

  /**
   * A second `get_or_create` with the same key finds the row the first one
   * returned and writes nothing: resolving a name twice makes no duplicate.
   */
  lemma GetOrCreateTwice<T>(table: map<Id, T>, nextId: nat, key: T -> bool, row: T)
    requires forall id :: id in table ==> id < nextId
    requires key(row)
    requires GetOrCreate(table, nextId, key, row).Some?
    ensures var g := GetOrCreate(table, nextId, key, row).value;
      GetOrCreate(g.table, NextAfter(nextId, g), key, row) == Some(Got(g.table, g.id, false))
  {
    var g := GetOrCreate(table, nextId, key, row).value;
    assert forall id :: id in g.table && key(g.table[id]) ==> id == g.id;
  }

  /** After a `get_or_create` that did not raise, its row is the only one with the key. */
  lemma GetOrCreateLeavesOne<T>(table: map<Id, T>, nextId: nat, key: T -> bool, row: T)
    requires forall id :: id in table ==> id < nextId
    requires key(row)
    requires GetOrCreate(table, nextId, key, row).Some?
    ensures var g := GetOrCreate(table, nextId, key, row).value;
      forall id :: id in g.table && key(g.table[id]) ==> id == g.id
  {
  }

  function ArtistKey(name: string): Artist -> bool
  {
    (a: Artist) => a.name == name
  }

  function AlbumKey(title: string, artist: Id): Album -> bool
  {
    (a: Album) => a.title == title && a.artist == artist
  }

  function GenreKey(name: string): Genre -> bool
  {
    (g: Genre) => g.name == name
  }

  /** `after` only adds artist, album and genre rows to `st`, under ids handed out for them. */
  predicate CatalogExtends(st: Store, after: Store)
  {
    && after.users == st.users && after.songs == st.songs && after.playlists == st.playlists
    && after.favorites == st.favorites && after.ratings == st.ratings
    && after.comments == st.comments && after.history == st.history && after.clock == st.clock
    && st.nextId <= after.nextId
    && (forall id :: id in st.artists ==> id in after.artists && after.artists[id] == st.artists[id])
    && (forall id :: id in st.albums ==> id in after.albums && after.albums[id] == st.albums[id])
    && (forall id :: id in st.genres ==> id in after.genres && after.genres[id] == st.genres[id])
  }

  /** An exception escaping `clean()`, and the store as the writes before it left it. */
  datatype Raise = Raise(store: Store, error: FormError)

  /**
   * The artist step of `clean()`: the selected artist, or `get_or_create`
   * on the (already stripped) new name.
   */
  function ResolveArtist(st: Store, chosen: Option<Id>, name: Option<string>): (r: Result<(Store, Id), Raise>)
    requires IdsBelow(st)
    requires chosen.Some? || name.Some?
    ensures chosen.Some? ==> r == Success((st, chosen.value))
    ensures r.Failure? ==> r.error == Raise(st, MultipleMatches(ArtistNameField))
    ensures r.Success? ==> CatalogExtends(st, r.value.0) && IdsBelow(r.value.0)
    ensures r.Success? ==> r.value.0.albums == st.albums && r.value.0.genres == st.genres
    ensures r.Success? && chosen.None? ==>
      r.value.1 in r.value.0.artists && r.value.0.artists[r.value.1].name == name.value
    ensures r.Success? && chosen.None? && r.value.1 !in st.artists ==>
      forall a :: a in st.artists ==> st.artists[a].name != name.value
  {
    if chosen.Some? then Success((st, chosen.value))
    else
      match GetOrCreate(st.artists, st.nextId, ArtistKey(name.value), Artist(name.value))
      case None => Failure(Raise(st, MultipleMatches(ArtistNameField)))
      case Some(g) => Success((st.(artists := g.table, nextId := NextAfter(st.nextId, g)), g.id))
  }

  /**
   * The album step: the selected album, nothing when no title was typed, or
   * `get_or_create` on the stripped title together with the resolved artist.
   */
  function ResolveAlbum(st: Store, chosen: Option<Id>, title: Option<string>, artist: Id)
    : (r: Result<(Store, Option<Id>), Raise>)
    requires IdsBelow(st)
    ensures chosen.Some? ==> r == Success((st, chosen))
    ensures chosen.None? && title.None? ==> r == Success((st, None))
    ensures r.Failure? ==> r.error == Raise(st, MultipleMatches(AlbumTitleField))
    ensures r.Success? ==> CatalogExtends(st, r.value.0) && IdsBelow(r.value.0)
    ensures r.Success? ==> r.value.0.artists == st.artists && r.value.0.genres == st.genres
    ensures r.Success? && chosen.None? && title.Some? ==>
      && r.value.1.Some? && r.value.1.value in r.value.0.albums
      && r.value.0.albums[r.value.1.value].title == title.value
      && r.value.0.albums[r.value.1.value].artist == artist
    ensures r.Success? ==> forall a :: a in r.value.0.albums && a !in st.albums ==>
      r.value.0.albums[a] == Album(title.value, artist, None)
  {
    if chosen.Some? then Success((st, chosen))
    else if title.None? then Success((st, None))
    else
      match GetOrCreate(st.albums, st.nextId, AlbumKey(title.value, artist), Album(title.value, artist, None))
      case None => Failure(Raise(st, MultipleMatches(AlbumTitleField)))
      case Some(g) => Success((st.(albums := g.table, nextId := NextAfter(st.nextId, g)), Some(g.id)))
  }

  /** The genre step: the selected genre, nothing, or `get_or_create` on the stripped name. */
  function ResolveGenre(st: Store, chosen: Option<Id>, name: Option<string>): (r: Result<(Store, Option<Id>), Raise>)
    requires IdsBelow(st)
    ensures chosen.Some? ==> r == Success((st, chosen))
    ensures chosen.None? && name.None? ==> r == Success((st, None))
    ensures r.Failure? ==> r.error == Raise(st, MultipleMatches(GenreNameField))
    ensures r.Success? ==> CatalogExtends(st, r.value.0) && IdsBelow(r.value.0)
    ensures r.Success? ==> r.value.0.artists == st.artists && r.value.0.albums == st.albums
    ensures r.Success? && chosen.None? && name.Some? ==>
      && r.value.1.Some? && r.value.1.value in r.value.0.genres
      && r.value.0.genres[r.value.1.value] == Genre(name.value)
    ensures r.Success? ==> forall g :: g in r.value.0.genres && g !in st.genres ==>
      forall h :: h in st.genres ==> st.genres[h].name != r.value.0.genres[g].name
  {
    if chosen.Some? then Success((st, chosen))
    else if name.None? then Success((st, None))
    else
      match GetOrCreate(st.genres, st.nextId, GenreKey(name.value), Genre(name.value))
      case None => Failure(Raise(st, MultipleMatches(GenreNameField)))
      case Some(g) => Success((st.(genres := g.table, nextId := NextAfter(st.nextId, g)), Some(g.id)))
  }

  /** Resolving the same new artist name twice returns the same artist and writes nothing the second time. */
  lemma ResolveArtistTwice(st: Store, name: string)
    requires IdsBelow(st)
    requires ResolveArtist(st, None, Some(name)).Success?
    ensures var (after, id) := ResolveArtist(st, None, Some(name)).value;
      && ResolveArtist(after, None, Some(name)) == Success((after, id))
      && forall a :: a in after.artists && after.artists[a].name == name ==> a == id
  {
    GetOrCreateTwice(st.artists, st.nextId, ArtistKey(name), Artist(name));
    GetOrCreateLeavesOne(st.artists, st.nextId, ArtistKey(name), Artist(name));
  }

  /** Genre names are unique, so in a valid store the genre step never raises. */
  lemma ResolveGenreNeverRaises(st: Store, chosen: Option<Id>, name: Option<string>)
    requires Valid(st)
    ensures ResolveGenre(st, chosen, name).Success?
  {
    if chosen.None? && name.Some? {
      var key := GenreKey(name.value);
      assert forall a, b :: a in st.genres && b in st.genres && key(st.genres[a]) && key(st.genres[b]) ==> a == b;
    }
  }

  /**
   * Adding catalog rows keeps the store valid when every album points at an
   * artist and genre names stay unique.
   */
  lemma CatalogExtendsKeepsValid(st: Store, after: Store)
    requires Valid(st) && CatalogExtends(st, after) && IdsBelow(after)
    requires forall a :: a in after.albums ==> after.albums[a].artist in after.artists
    requires forall a, b :: a in after.genres && b in after.genres && after.genres[a].name == after.genres[b].name ==> a == b
    ensures Valid(after)
  {
    assert CatalogOk(after) by {
      forall s | s in after.songs ensures SongRefsOk(after, after.songs[s]) {
        assert SongRefsOk(st, st.songs[s]);
      }
      forall p | p in after.playlists ensures PlaylistOk(after, after.playlists[p]) {
        assert PlaylistOk(st, st.playlists[p]);
      }
    }
    assert EngagementOk(after) by {
      forall c | c in after.comments ensures CommentOk(after, c) {
        assert CommentOk(st, c);
      }
      forall p | p in after.history ensures PlayOk(after, p) {
        assert PlayOk(st, p);
      }
    }
  }

  // ------------------------------------------------------------ SongUploadForm fields

  /** What `SongUploadForm` submits; a `None` choice is the empty selection. */
  datatype SongInput = SongInput(
    title: string, artist: Option<Id>, artistName: string,
    album: Option<Id>, albumTitle: string, genre: Option<Id>, genreName: string,
    audio: Forms.FileValue, duration: Option<nat>, lyrics: string, isPublic: bool)

  /** A `ModelChoiceField` that is not required: no selection is `None`, an unknown id is refused. */
  function Choice<T>(table: map<Id, T>, v: Option<Id>, field: Field): (r: Result<Option<Id>, FormError>)
    ensures r.Success? <==> v.None? || v.value in table
    ensures r.Success? ==> r.value == v
    ensures r.Failure? ==> r.error == InvalidChoice(field)
  {
    if v.Some? && v.value !in table then Failure(InvalidChoice(field)) else Success(v)
  }

  /** An optional `CharField`: stripped, then at most `max` characters; a blank value is `None`. */
  function OptionalText(raw: string, max: nat, field: Field): (r: Result<Option<string>, FormError>)
    ensures r.Success? <==> |Text.Strip(raw)| <= max
    ensures r.Failure? ==> r.error == TooLong(field)
    ensures r.Success? ==> (r.value.None? <==> Text.AllSpace(raw))
    ensures r.Success? && r.value.Some? ==> r.value.value == Text.Strip(raw)
  {
    var t := Text.Strip(raw);
    if |t| > max then Failure(TooLong(field))
    else if t == [] then Success(None)
    else Success(Some(t))
  }

  /** The title: stripped, required and at most 200 characters. */
  function CleanTitle(raw: string): (r: Result<string, FormError>)
    ensures r.Success? <==> 0 < |Text.Strip(raw)| <= MaxTitleLength
    ensures r.Success? ==> r.value == Text.Strip(raw)
    ensures Text.AllSpace(raw) ==> r == Failure(Required(TitleField))
    ensures |Text.Strip(raw)| > MaxTitleLength ==> r == Failure(TooLong(TitleField))
  {
    var t := Text.Strip(raw);
    if t == [] then Failure(Required(TitleField))
    else if |t| > MaxTitleLength then Failure(TooLong(TitleField))
    else Success(t)
  }

  /**
   * The required audio file (`FileField.clean`): on an edit without a new
   * file, the file the song already has, unchecked; a new upload must have a
   * name of at most 100 characters and must not be empty, checked in that
   * order.
   */
  function CleanAudio(v: Forms.FileValue): (r: Result<Upload, FormError>)
    ensures r.Success? <==> v.Stored? || (v.Uploaded? && AudioFileOk(v.file))
    ensures r.Success? ==> r.value == v.file
    ensures v.NoFile? ==> r == Failure(Required(AudioField))
    ensures v.Uploaded? && |v.file.name| > MaxAudioNameLength ==> r == Failure(TooLong(AudioField))
    ensures v.Uploaded? && v.file.name == [] ==> r == Failure(InvalidFile(AudioField))
    ensures v.Uploaded? && 0 < |v.file.name| <= MaxAudioNameLength && v.file.size == 0 ==>
      r == Failure(EmptyFile(AudioField))
  {
    match v
    case NoFile => Failure(Required(AudioField))
    case Stored(f) => Success(f)
    case Uploaded(f) =>
      if |f.name| > MaxAudioNameLength then Failure(TooLong(AudioField))
      else if f.name == [] then Failure(InvalidFile(AudioField))
      else if f.size == 0 then Failure(EmptyFile(AudioField))
      else Success(f)
  }

  /** A new upload `FileField` accepts: a name, at most 100 characters long, and some content. */
  predicate AudioFileOk(f: Upload)
  {
    0 < |f.name| <= MaxAudioNameLength && f.size > 0
  }

  /** Every field after `_clean_fields`: its cleaned value or its error. */
  datatype FieldValues = FieldValues(
    title: Result<string, FormError>, artist: Result<Option<Id>, FormError>,
    artistName: Result<Option<string>, FormError>, album: Result<Option<Id>, FormError>,
    albumTitle: Result<Option<string>, FormError>, genre: Result<Option<Id>, FormError>,
    genreName: Result<Option<string>, FormError>, audio: Result<Upload, FormError>)

  /** The kinds of error a single field reports. */
  predicate IsFieldError(e: FormError)
  {
    e.Required? || e.InvalidChoice? || e.TooLong? || e.InvalidFile? || e.EmptyFile?
  }

  /** The ids the choice fields hold exist: a `ModelChoiceField` only yields existing rows. */
  predicate ChoicesExist(st: Store, v: FieldValues)
  {
    && (Present(v.artist).Some? ==> Present(v.artist).value in st.artists)
    && (Present(v.album).Some? ==> Present(v.album).value in st.albums)
    && (Present(v.genre).Some? ==> Present(v.genre).value in st.genres)
  }

  /** Every failed field failed with a field-level error. */
  predicate OnlyFieldErrors(v: FieldValues)
  {
    && (v.title.Failure? ==> IsFieldError(v.title.error))
    && (v.artist.Failure? ==> IsFieldError(v.artist.error))
    && (v.artistName.Failure? ==> IsFieldError(v.artistName.error))
    && (v.album.Failure? ==> IsFieldError(v.album.error))
    && (v.albumTitle.Failure? ==> IsFieldError(v.albumTitle.error))
    && (v.genre.Failure? ==> IsFieldError(v.genre.error))
    && (v.genreName.Failure? ==> IsFieldError(v.genreName.error))
    && (v.audio.Failure? ==> IsFieldError(v.audio.error))
  }

  function CleanFields(st: Store, input: SongInput): (v: FieldValues)
    ensures OnlyFieldErrors(v)
    ensures ChoicesExist(st, v)
  {
    FieldValues(
      CleanTitle(input.title),
      Choice(st.artists, input.artist, ArtistField),
      OptionalText(input.artistName, MaxArtistNameLength, ArtistNameField),
      Choice(st.albums, input.album, AlbumField),
      OptionalText(input.albumTitle, MaxAlbumTitleLength, AlbumTitleField),
      Choice(st.genres, input.genre, GenreField),
      OptionalText(input.genreName, MaxGenreNameLength, GenreNameField),
      CleanAudio(input.audio))
  }

  function ErrorOf<T>(r: Result<T, FormError>): (e: set<FormError>)
    ensures e == {} <==> r.Success?
    ensures r.Failure? ==> e == {r.error}
  {
    if r.Failure? then {r.error} else {}
  }

  /** The field errors of the form, all reported together. */
  function FieldErrors(v: FieldValues): (e: set<FormError>)
    ensures e == {} <==>
      && v.title.Success? && v.artist.Success? && v.artistName.Success? && v.album.Success?
      && v.albumTitle.Success? && v.genre.Success? && v.genreName.Success? && v.audio.Success?
    ensures OnlyFieldErrors(v) ==> NoArtist !in e && AudioTooLarge !in e
  {
    ErrorOf(v.title) + ErrorOf(v.artist) + ErrorOf(v.artistName) + ErrorOf(v.album)
      + ErrorOf(v.albumTitle) + ErrorOf(v.genre) + ErrorOf(v.genreName) + ErrorOf(v.audio)
  }

  /** A field's cleaned value as `cleaned_data.get` sees it: a field that failed is missing. */
  function Present<T>(r: Result<Option<T>, FormError>): (o: Option<T>)
    ensures o.Some? ==> r == Success(o)
  {
    if r.Success? then r.value else None
  }

  /** `clean()` has an artist to go on: one selected, or a new non-blank name. */
  predicate HasArtist(v: FieldValues)
  {
    Present(v.artist).Some? || Present(v.artistName).Some?
  }

  /** The 50MB limit on the audio file. */
  function SizeErrors(audio: Result<Upload, FormError>): (e: set<FormError>)
    ensures e == {} <==> audio.Failure? || audio.value.size <= Forms.MaxAudioBytes
    ensures e != {} ==> e == {AudioTooLarge}
  {
    if audio.Success? && audio.value.size > Forms.MaxAudioBytes then {AudioTooLarge} else {}
  }

  /** The model's extension validator, which `_post_clean` runs on a file that passed its field. */
  function ExtensionErrors(audio: Result<Upload, FormError>): (e: set<FormError>)
    ensures e == {} <==> audio.Failure? || Forms.ExtensionAllowed(audio.value.name, Forms.AudioExtensions)
    ensures e != {} ==> e == {BadExtension(AudioField)}
  {
    if audio.Success? && !Forms.ExtensionAllowed(audio.value.name, Forms.AudioExtensions)
    then {BadExtension(AudioField)} else {}
  }

  /**
   * Every error `is_valid()` reports: the field errors, then `clean()`'s
   * (no artist, which stops it before the size check, or a file over 50MB),
   * then the extension validator.
   */
  function SongFormErrors(st: Store, input: SongInput): (e: set<FormError>)
    ensures var v := CleanFields(st, input);
      && (NoArtist in e <==> !HasArtist(v))
      && (AudioTooLarge in e <==> HasArtist(v) && v.audio.Success? && v.audio.value.size > Forms.MaxAudioBytes)
    ensures var v := CleanFields(st, input);
      e == {} <==>
        && FieldErrors(v) == {} && HasArtist(v)
        && v.audio.value.size <= Forms.MaxAudioBytes
        && Forms.ExtensionAllowed(v.audio.value.name, Forms.AudioExtensions)
  {
    var v := CleanFields(st, input);
    var field := FieldErrors(v);
    field + (if HasArtist(v) then SizeErrors(v.audio) else {NoArtist}) + ExtensionErrors(v.audio)
  }

  // ------------------------------------------------------------ SongUploadForm.clean

  /** The artist, album and genre `clean()` settles on, and the store after its writes. */
  datatype Resolution = Resolution(store: Store, artist: Id, album: Option<Id>, genre: Option<Id>)

  /** The three `get_or_create` steps of `clean()`, in order; the first that raises ends it. */
  function Resolve(st: Store, v: FieldValues): (r: Result<Resolution, Raise>)
    requires IdsBelow(st) && HasArtist(v) && ChoicesExist(st, v)
    ensures r.Success? ==> CatalogExtends(st, r.value.store) && IdsBelow(r.value.store)
    ensures r.Failure? ==> CatalogExtends(st, r.error.store) && IdsBelow(r.error.store)
    ensures r.Failure? ==> r.error.error.MultipleMatches?
    ensures r.Success? ==>
      && r.value.artist in r.value.store.artists
      && (r.value.album.Some? ==> r.value.album.value in r.value.store.albums)
      && (r.value.genre.Some? ==> r.value.genre.value in r.value.store.genres)
    ensures r.Success? && Present(v.artist).None? ==>
      r.value.store.artists[r.value.artist].name == Present(v.artistName).value
    ensures r.Success? && Present(v.artist).Some? ==> r.value.artist == Present(v.artist).value
  {
    var chosenArtist := Present(v.artist);
    match ResolveArtist(st, chosenArtist, Present(v.artistName))
    case Failure(x) => Failure(x)
    case Success((st1, artist)) =>
      match ResolveAlbum(st1, Present(v.album), Present(v.albumTitle), artist)
      case Failure(x) => Failure(x)
      case Success((st2, album)) =>
        match ResolveGenre(st2, Present(v.genre), Present(v.genreName))
        case Failure(x) => Failure(x)
        case Success((st3, genre)) =>
          Success(Resolution(st3, artist, album, genre))
  }

  /** The album and genre `Resolve` settles on, from the cleaned album and genre fields. */
  lemma ResolveAlbumGenre(st: Store, v: FieldValues)
    requires IdsBelow(st) && HasArtist(v) && ChoicesExist(st, v) && Resolve(st, v).Success?
    ensures var res := Resolve(st, v).value;
      && (Present(v.album).Some? ==> res.album == Present(v.album))
      && (Present(v.album).None? && Present(v.albumTitle).None? ==> res.album.None?)
      && (Present(v.album).None? && Present(v.albumTitle).Some? ==>
            res.album.Some? && res.album.value in res.store.albums
            && res.store.albums[res.album.value].title == Present(v.albumTitle).value
            && res.store.albums[res.album.value].artist == res.artist)
      && (Present(v.genre).Some? ==> res.genre == Present(v.genre))
      && (Present(v.genre).None? && Present(v.genreName).None? ==> res.genre.None?)
      && (Present(v.genre).None? && Present(v.genreName).Some? ==>
            res.genre.Some? && res.genre.value in res.store.genres
            && res.store.genres[res.genre.value].name == Present(v.genreName).value)
  {
    var (st1, artist) := ResolveArtist(st, Present(v.artist), Present(v.artistName)).value;
    var (st2, album) := ResolveAlbum(st1, Present(v.album), Present(v.albumTitle), artist).value;
    var (st3, genre) := ResolveGenre(st2, Present(v.genre), Present(v.genreName)).value;
    assert Resolve(st, v).value == Resolution(st3, artist, album, genre);
  }

  /** The values the form saves into the song row. */
  datatype SongFields = SongFields(
    title: string, artist: Id, album: Option<Id>, genre: Option<Id>, audio: Upload,
    duration: Option<nat>, lyrics: string, isPublic: bool)

  /** What one run of `is_valid()` ends in. */
  datatype Outcome = Accepted(fields: SongFields) | Refused(errors: set<FormError>) | Raised(error: FormError)

  /** The outcome, and the store as the run left it. */
  datatype FormRun = FormRun(store: Store, outcome: Outcome)

  function Saved(input: SongInput, v: FieldValues, res: Resolution): SongFields
    requires v.title.Success? && v.audio.Success?
  {
    SongFields(v.title.value, res.artist, res.album, res.genre, v.audio.value,
      input.duration, Text.Strip(input.lyrics), input.isPublic)
  }

  /**
   * `SongUploadForm.is_valid()` as written: `clean()` runs its
   * `get_or_create` calls before the size check and whatever the other
   * fields' errors, so a refused form can still have written rows.
   */
  function CleanSongAsWritten(st: Store, input: SongInput): (r: FormRun)
    requires IdsBelow(st)
    ensures CatalogExtends(st, r.store) && IdsBelow(r.store)
    ensures !HasArtist(CleanFields(st, input)) ==> r == FormRun(st, Refused(SongFormErrors(st, input)))
    ensures r.outcome.Refused? ==> r.outcome.errors == SongFormErrors(st, input) != {}
    ensures r.outcome.Accepted? ==> SongFormErrors(st, input) == {}
  {
    var v := CleanFields(st, input);
    if !HasArtist(v) then FormRun(st, Refused(SongFormErrors(st, input)))
    else
      match Resolve(st, v)
      case Failure(x) => FormRun(x.store, Raised(x.error))
      case Success(res) =>
        var errors := SongFormErrors(st, input);
        if errors == {} then FormRun(res.store, Accepted(Saved(input, v, res)))
        else FormRun(res.store, Refused(errors))
  }

  /**
   * The evident intent: validate everything first and write only for a form
   * that will be saved. A refused form, or one whose lookup raises, leaves
   * the store untouched.
   */
  function CleanSong(st: Store, input: SongInput): (r: FormRun)
    requires IdsBelow(st)
    ensures !r.outcome.Accepted? ==> r.store == st
    ensures r.outcome.Refused? <==> SongFormErrors(st, input) != {}
    ensures r.outcome.Refused? ==> r.outcome.errors == SongFormErrors(st, input)
    ensures r.outcome.Raised? ==> r.outcome.error.MultipleMatches?
    ensures r.outcome.Accepted? ==>
      var f := r.outcome.fields;
      && CatalogExtends(st, r.store) && IdsBelow(r.store)
      && f.artist in r.store.artists
      && (f.album.Some? ==> f.album.value in r.store.albums)
      && (f.genre.Some? ==> f.genre.value in r.store.genres)
  {
    var v := CleanFields(st, input);
    var errors := SongFormErrors(st, input);
    if errors != {} then FormRun(st, Refused(errors))
    else
      match Resolve(st, v)
      case Failure(x) => FormRun(st, Raised(x.error))
      case Success(res) => FormRun(res.store, Accepted(Saved(input, v, res)))
  }

  /**
   * What an accepted form saves: the stripped title, the audio file (within
   * 50MB and with an allowed extension), the visibility and duration as
   * submitted, the stripped lyrics, and the selected artist or the one named.
   */
  lemma CleanSongSaves(st: Store, input: SongInput)
    requires IdsBelow(st) && CleanSong(st, input).outcome.Accepted?
    ensures var r := CleanSong(st, input);
      var f := r.outcome.fields;
      && f.title == Text.Strip(input.title) && 0 < |f.title| <= MaxTitleLength
      && !input.audio.NoFile? && f.audio == input.audio.file
      && f.audio.size <= Forms.MaxAudioBytes && Forms.ExtensionAllowed(f.audio.name, Forms.AudioExtensions)
      && f.isPublic == input.isPublic && f.duration == input.duration
      && f.lyrics == Text.Strip(input.lyrics)
      && (input.artist.Some? ==> f.artist == input.artist.value)
      && (input.artist.None? ==> r.store.artists[f.artist].name == Text.Strip(input.artistName))
  {
    var v := CleanFields(st, input);
    assert SongFormErrors(st, input) == {};
    assert FieldErrors(v) == {};
    var res := Resolve(st, v).value;
    assert CleanSong(st, input) == FormRun(res.store, Accepted(Saved(input, v, res)));
    assert v.artist == Success(input.artist);
    assert input.artist.None? ==> Present(v.artistName) == Some(Text.Strip(input.artistName));
  }

  /**
   * The album and genre an accepted form saves: the one selected, none when
   * neither a selection nor a name was given, or else a row of the typed
   * name (for the album, under the saved artist).
   */
  lemma CleanSongSavesAlbumGenre(st: Store, input: SongInput)
    requires IdsBelow(st) && CleanSong(st, input).outcome.Accepted?
    ensures var r := CleanSong(st, input);
      var f := r.outcome.fields;
      && (input.album.Some? ==> f.album == input.album)
      && (input.album.None? && Text.AllSpace(input.albumTitle) ==> f.album.None?)
      && (input.album.None? && !Text.AllSpace(input.albumTitle) ==>
            f.album.Some? && f.album.value in r.store.albums
            && r.store.albums[f.album.value].title == Text.Strip(input.albumTitle)
            && r.store.albums[f.album.value].artist == f.artist)
      && (input.genre.Some? ==> f.genre == input.genre)
      && (input.genre.None? && Text.AllSpace(input.genreName) ==> f.genre.None?)
      && (input.genre.None? && !Text.AllSpace(input.genreName) ==>
            f.genre.Some? && f.genre.value in r.store.genres
            && r.store.genres[f.genre.value].name == Text.Strip(input.genreName))
  {
    var v := CleanFields(st, input);
    assert SongFormErrors(st, input) == {};
    assert FieldErrors(v) == {};
    var res := Resolve(st, v).value;
    assert CleanSong(st, input) == FormRun(res.store, Accepted(Saved(input, v, res)));
    ResolveAlbumGenre(st, v);
  }

  /**
   * Where the original saves or refuses, the correction decides the same:
   * the same fields and writes when it accepts, the same errors (and no
   * writes) when it refuses.
   */
  lemma CleanSongAgrees(st: Store, input: SongInput)
    requires IdsBelow(st)
    ensures CleanSongAsWritten(st, input).outcome.Accepted? ==> CleanSong(st, input) == CleanSongAsWritten(st, input)
    ensures CleanSongAsWritten(st, input).outcome.Refused? ==>
      CleanSong(st, input) == FormRun(st, CleanSongAsWritten(st, input).outcome)
    ensures CleanSong(st, input).outcome.Accepted? ==> CleanSongAsWritten(st, input) == CleanSong(st, input)
  {
    var v := CleanFields(st, input);
    var errors := SongFormErrors(st, input);
    if !HasArtist(v) {
      assert NoArtist in errors;
      assert CleanSong(st, input) == FormRun(st, Refused(errors));
    } else if errors != {} {
      assert CleanSong(st, input) == FormRun(st, Refused(errors));
    } else {
      match Resolve(st, v)
      case Success(x) =>
        assert CleanSong(st, input) == FormRun(x.store, Accepted(Saved(input, v, x)));
        assert CleanSongAsWritten(st, input) == FormRun(x.store, Accepted(Saved(input, v, x)));
      case Failure(x) =>
        assert CleanSongAsWritten(st, input).outcome == Raised(x.error);
        assert CleanSong(st, input).outcome == Raised(x.error);
    }
  }

  /** A form naming a new artist, with a 60MB MP3 file and every other field valid. */
  const NewBandUpload := SongInput("Song", None, "New Band", None, "", None, "",
    Forms.Uploaded(Upload("a.mp3", 60 * 1024 * 1024, "audio/mpeg")), None, "", true)

  /** The fields of that form, as `_clean_fields` leaves them on an empty store. */
  lemma NewBandUploadFields()
    ensures CleanFields(EmptyStore, NewBandUpload) == FieldValues(
      Success("Song"), Success(None), Success(Some("New Band")), Success(None), Success(None),
      Success(None), Success(None), Success(Upload("a.mp3", 60 * 1024 * 1024, "audio/mpeg")))
  {
    NewBandTextFields();
    NewBandAudio();
  }

  lemma NewBandTextFields()
    ensures CleanTitle(NewBandUpload.title) == Success("Song")
    ensures OptionalText(NewBandUpload.artistName, MaxArtistNameLength, ArtistNameField) == Success(Some("New Band"))
    ensures Text.AllSpace(NewBandUpload.albumTitle) && Text.AllSpace(NewBandUpload.genreName)
  {
    Text.StripUntrimmed("Song");
    Text.StripUntrimmed("New Band");
  }

  lemma NewBandAudio()
    ensures CleanAudio(NewBandUpload.audio) == Success(NewBandUpload.audio.file)
  {
    assert |NewBandUpload.audio.file.name| == 5;
  }

  lemma Mp3Allowed()
    ensures Forms.ExtensionAllowed("a.mp3", Forms.AudioExtensions)
  {
    var stem, ext := "a", "mp3";
    assert ext == Forms.AudioExtensions[0];
    Forms.AllowedOfJoin(stem, ext, Forms.AudioExtensions);
    assert stem + ['.'] + ext == "a.mp3";
  }

  /** On an empty store that form fails only the 50MB limit. */
  lemma NewBandUploadErrors()
    ensures SongFormErrors(EmptyStore, NewBandUpload) == {AudioTooLarge}
  {
    NewBandUploadFields();
    Mp3Allowed();
  }

  /** The original refuses that form for its size and still creates the artist "New Band". */
  lemma RefusedUploadCreatesArtist()
    ensures CleanSongAsWritten(EmptyStore, NewBandUpload) ==
      FormRun(EmptyStore.(artists := map[0 := Artist("New Band")], nextId := 1), Refused({AudioTooLarge}))
  {
    NewBandUploadFields();
    NewBandUploadErrors();
    var g := GetOrCreate(EmptyStore.artists, 0, ArtistKey("New Band"), Artist("New Band"));
    assert g == Some(Got(map[0 := Artist("New Band")], 0, true));
  }

  /** The correction refuses the same form with the same error and writes nothing. */
  lemma RefusedUploadWritesNothing()
    ensures CleanSong(EmptyStore, NewBandUpload) == FormRun(EmptyStore, Refused({AudioTooLarge}))
  {
    NewBandUploadErrors();
  }

  // ------------------------------------------------------------ the views

  /** The row `upload_song` saves: the form's values, the uploader, and the model's defaults. */
  function NewSongFrom(f: SongFields, user: Id, at: nat): (s: Song)
    ensures s.uploadedBy == user && s.artist == f.artist && s.album == f.album && s.genre == f.genre
  {
    Models.NewSong(f.title, f.artist, f.album, f.genre, f.audio, f.duration, f.lyrics, user, at)
      .(isPublic := f.isPublic)
  }

  /**
   * `upload_song`: a valid form saves a new song uploaded by the requester,
   * after the artist, album and genre rows `clean()` resolved.
   */
  function UploadSong(st: Store, user: Id, input: SongInput): (r: Result<Step<Id>, Denial>)
    requires IdsBelow(st) && Forms.FromRow(input.audio, None)
    ensures r.Success? <==> CleanSong(st, input).outcome.Accepted?
    ensures CleanSong(st, input).outcome.Refused? ==> r == Failure(Rejected(CleanSong(st, input).outcome.errors))
    ensures CleanSong(st, input).outcome.Raised? ==> r == Failure(ServerError(CleanSong(st, input).outcome.error))
    ensures r.Success? ==>
      && r.value.out !in st.songs
      && r.value.store.songs.Keys == st.songs.Keys + {r.value.out}
      && (forall s :: s in st.songs ==> r.value.store.songs[s] == st.songs[s])
      && r.value.store.users == st.users && r.value.store.playlists == st.playlists
  {
    var run := CleanSong(st, input);
    match run.outcome
    case Refused(e) => Failure(Rejected(e))
    case Raised(e) => Failure(ServerError(e))
    case Accepted(f) =>
      var s := NewSongFrom(f, user, run.store.clock);
      InsertSongAfterCatalog(st, run.store, s);
      Success(InsertSong(run.store, s))
  }

  /** A song row saved under the next id; the clock advances. */
  function InsertSong(st: Store, s: Song): Step<Id>
  {
    Step(st.(songs := st.songs[st.nextId := s], nextId := st.nextId + 1, clock := st.clock + 1), st.nextId)
  }

  lemma InsertSongAfterCatalog(st: Store, mid: Store, s: Song)
    requires IdsBelow(st) && CatalogExtends(st, mid)
    ensures var r := InsertSong(mid, s);
      && r.out !in st.songs && r.out >= st.nextId
      && r.store.songs.Keys == st.songs.Keys + {r.out} && r.store.songs[r.out] == s
      && (forall x :: x in st.songs ==> r.store.songs[x] == st.songs[x])
      && r.store.users == st.users && r.store.playlists == st.playlists
  {
  }

  /**
   * The uploaded song: owned by the requester, with zeroed counters, not
   * featured, and the title, file and visibility the form gave.
   */
  lemma UploadedSong(st: Store, user: Id, input: SongInput)
    requires IdsBelow(st) && Forms.FromRow(input.audio, None) && UploadSong(st, user, input).Success?
    ensures var r := UploadSong(st, user, input).value;
      var s := r.store.songs[r.out];
      && s.uploadedBy == user && s.playCount == 0 && s.downloadCount == 0 && !s.isFeatured
      && s.isPublic == input.isPublic && s.title == Text.Strip(input.title)
      && s.audio == input.audio.file
  {
    var run := CleanSong(st, input);
    CleanSongSaves(st, input);
    var s := NewSongFrom(run.outcome.fields, user, run.store.clock);
    assert UploadSong(st, user, input).value.store.songs[run.store.nextId] == s;
  }

  lemma UploadSongInserts(st: Store, user: Id, input: SongInput)
    requires IdsBelow(st) && Forms.FromRow(input.audio, None) && UploadSong(st, user, input).Success?
    ensures var run := CleanSong(st, input);
      && run.outcome.Accepted? && CatalogExtends(st, run.store) && IdsBelow(run.store)
      && UploadSong(st, user, input).value == InsertSong(run.store, NewSongFrom(run.outcome.fields, user, run.store.clock))
  {
  }

  /** Uploading a song raises the uploader's `total_uploads` by one. */
  lemma UploadSongCount(st: Store, user: Id, input: SongInput)
    requires IdsBelow(st) && Forms.FromRow(input.audio, None) && UploadSong(st, user, input).Success?
    ensures Stats.TotalUploads(UploadSong(st, user, input).value.store, user) == Stats.TotalUploads(st, user) + 1
  {
    UploadSongInserts(st, user, input);
    var run := CleanSong(st, input);
    InsertSongCount(st, run.store, NewSongFrom(run.outcome.fields, user, run.store.clock));
  }

  /** A song saved after the catalog writes counts once for its uploader. */
  lemma InsertSongCount(st: Store, mid: Store, s: Song)
    requires IdsBelow(st) && CatalogExtends(st, mid) && IdsBelow(mid)
    ensures Stats.TotalUploads(InsertSong(mid, s).store, s.uploadedBy) == Stats.TotalUploads(st, s.uploadedBy) + 1
  {
    CatalogWritesCountForNobody(st, mid, s.uploadedBy);
    Stats.NewSongCounts(mid, s, mid.clock + 1);
  }

  /** The artist, album and genre rows `clean()` adds count as nobody's upload. */
  lemma CatalogWritesCountForNobody(st: Store, mid: Store, u: Id)
    requires IdsBelow(st) && CatalogExtends(st, mid)
    ensures Stats.TotalUploads(mid, u) == Stats.TotalUploads(st, u)
  {
    var p := Stats.UploadedBy(st.songs, u);
    forall id: Id | st.nextId <= id < mid.nextId ensures !p(id) {
      assert id !in st.songs;
    }
    IdsWhereBeyond(st.nextId, mid.nextId, p);
    assert Stats.UploadedBy(mid.songs, u) == p;
  }

  lemma UploadSongKeepsValid(st: Store, user: Id, input: SongInput)
    requires Valid(st) && user in st.users && Forms.FromRow(input.audio, None)
    requires UploadSong(st, user, input).Success?
    ensures Valid(UploadSong(st, user, input).value.store)
  {
    UploadSongInserts(st, user, input);
    var run := CleanSong(st, input);
    CleanSongKeepsValid(st, input);
    SavedSongRefsOk(st, input, user);
    InsertSongKeepsValid(run.store, NewSongFrom(run.outcome.fields, user, run.store.clock));
  }

  /** The row an accepted form saves references rows that exist after `clean()`. */
  lemma SavedSongRefsOk(st: Store, input: SongInput, user: Id)
    requires IdsBelow(st) && CleanSong(st, input).outcome.Accepted? && user in st.users
    ensures var run := CleanSong(st, input);
      SongRefsOk(run.store, NewSongFrom(run.outcome.fields, user, run.store.clock))
  {
  }

  lemma InsertSongKeepsValid(st: Store, s: Song)
    requires Valid(st) && SongRefsOk(st, s)
    ensures Valid(InsertSong(st, s).store)
  {
    NewSongKeepsValid(st, s, st.clock + 1);
    assert InsertSong(st, s).store == st.(songs := st.songs[st.nextId := s], nextId := st.nextId + 1, clock := st.clock + 1);
  }

  /** The writes of an accepted form keep a valid store valid. */
  lemma CleanSongKeepsValid(st: Store, input: SongInput)
    requires Valid(st) && CleanSong(st, input).outcome.Accepted?
    ensures Valid(CleanSong(st, input).store)
  {
    var v := CleanFields(st, input);
    assert SongFormErrors(st, input) == {};
    assert CleanSong(st, input).store == Resolve(st, v).value.store;
    ResolveKeepsValid(st, v);
  }

  /** The writes of `clean()` keep a valid store valid. */
  lemma ResolveKeepsValid(st: Store, v: FieldValues)
    requires Valid(st) && HasArtist(v) && ChoicesExist(st, v) && Resolve(st, v).Success?
    ensures Valid(Resolve(st, v).value.store)
  {
    var r1 := ResolveArtist(st, Present(v.artist), Present(v.artistName));
    assert r1.Success?;
    var (st1, artist) := r1.value;
    ArtistStepKeepsValid(st, Present(v.artist), Present(v.artistName));
    var r2 := ResolveAlbum(st1, Present(v.album), Present(v.albumTitle), artist);
    assert r2.Success?;
    var (st2, album) := r2.value;
    AlbumStepKeepsValid(st1, Present(v.album), Present(v.albumTitle), artist);
    var r3 := ResolveGenre(st2, Present(v.genre), Present(v.genreName));
    assert r3.Success?;
    GenreStepKeepsValid(st2, Present(v.genre), Present(v.genreName));
    assert Resolve(st, v).value.store == r3.value.0;
  }

  lemma ArtistStepKeepsValid(st: Store, chosen: Option<Id>, name: Option<string>)
    requires Valid(st) && (chosen.Some? || name.Some?)
    requires ResolveArtist(st, chosen, name).Success?
    ensures Valid(ResolveArtist(st, chosen, name).value.0)
  {
    var after := ResolveArtist(st, chosen, name).value.0;
    assert forall a :: a in after.albums ==> after.albums[a].artist in after.artists by {
      forall a | a in after.albums ensures after.albums[a].artist in after.artists {
        assert st.albums[a].artist in st.artists;
      }
    }
    CatalogExtendsKeepsValid(st, after);
  }

  lemma AlbumStepKeepsValid(st: Store, chosen: Option<Id>, title: Option<string>, artist: Id)
    requires Valid(st) && artist in st.artists
    requires ResolveAlbum(st, chosen, title, artist).Success?
    ensures Valid(ResolveAlbum(st, chosen, title, artist).value.0)
  {
    var after := ResolveAlbum(st, chosen, title, artist).value.0;
    assert forall a :: a in after.albums ==> after.albums[a].artist in after.artists by {
      forall a | a in after.albums ensures after.albums[a].artist in after.artists {
        if a in st.albums {
          assert st.albums[a].artist in st.artists;
        }
      }
    }
    CatalogExtendsKeepsValid(st, after);
  }

  lemma GenreStepKeepsValid(st: Store, chosen: Option<Id>, name: Option<string>)
    requires Valid(st)
    requires ResolveGenre(st, chosen, name).Success?
    ensures Valid(ResolveGenre(st, chosen, name).value.0)
  {
    var after := ResolveGenre(st, chosen, name).value.0;
    assert forall a :: a in after.albums ==> after.albums[a].artist in after.artists by {
      forall a | a in after.albums ensures after.albums[a].artist in after.artists {
        assert st.albums[a].artist in st.artists;
      }
    }
    CatalogExtendsKeepsValid(st, after);
  }

  /** A new song whose references exist, under the next id, keeps the store valid. */
  lemma NewSongKeepsValid(st: Store, s: Song, clock: nat)
    requires Valid(st) && SongRefsOk(st, s)
    ensures Valid(st.(songs := st.songs[st.nextId := s], nextId := st.nextId + 1, clock := clock))
  {
    var after := st.(songs := st.songs[st.nextId := s], nextId := st.nextId + 1, clock := clock);
    NewSongCatalogOk(st, s, after);
    EngagementOkWhenRowsGrow(st, after);
  }

  lemma NewSongCatalogOk(st: Store, s: Song, after: Store)
    requires CatalogOk(st) && SongRefsOk(st, s)
    requires after == st.(songs := st.songs[st.nextId := s], nextId := after.nextId, clock := after.clock)
    ensures CatalogOk(after)
  {
    forall x | x in after.songs ensures SongRefsOk(after, after.songs[x]) {
      if x != st.nextId {
        assert SongRefsOk(st, st.songs[x]);
      }
    }
    PlaylistsOkWhenRowsGrow(st, after);
  }

  /** The form's values written over an existing song; counters, uploader and upload time stay. */
  function Edited(s: Song, f: SongFields): (r: Song)
    ensures r.uploadedBy == s.uploadedBy && r.uploadedAt == s.uploadedAt
    ensures r.playCount == s.playCount && r.downloadCount == s.downloadCount && r.isFeatured == s.isFeatured
    ensures r.title == f.title && r.artist == f.artist && r.album == f.album && r.genre == f.genre
    ensures r.audio == f.audio && r.duration == f.duration && r.lyrics == f.lyrics && r.isPublic == f.isPublic
  {
    s.(title := f.title, artist := f.artist, album := f.album, genre := f.genre, audio := f.audio,
       duration := f.duration, lyrics := f.lyrics, isPublic := f.isPublic)
  }

  /** `edit_song`: only the uploader or staff may save the form over the song. */
  function EditSong(st: Store, user: Id, id: Id, input: SongInput): (r: Result<Store, Denial>)
    requires IdsBelow(st) && (id in st.songs ==> Forms.FromRow(input.audio, Some(st.songs[id].audio)))
    ensures id !in st.songs ==> r == Failure(NotFound)
    ensures id in st.songs && !Access.CanEditSong(st, st.songs[id], user) ==> r == Failure(PermissionDenied)
    ensures id in st.songs && Access.CanEditSong(st, st.songs[id], user) ==>
      (r.Success? <==> CleanSong(st, input).outcome.Accepted?)
    ensures id in st.songs && Access.CanEditSong(st, st.songs[id], user) && CleanSong(st, input).outcome.Refused? ==>
      r == Failure(Rejected(CleanSong(st, input).outcome.errors))
    ensures id in st.songs && Access.CanEditSong(st, st.songs[id], user) && CleanSong(st, input).outcome.Raised? ==>
      r == Failure(ServerError(CleanSong(st, input).outcome.error))
    ensures r.Success? ==>
      && id in st.songs && Access.CanEditSong(st, st.songs[id], user)
      && r.value.songs.Keys == st.songs.Keys
      && (forall s :: s in st.songs && s != id ==> r.value.songs[s] == st.songs[s])
      && r.value.songs[id] == Edited(st.songs[id], CleanSong(st, input).outcome.fields)
      && r.value.users == st.users && r.value.playlists == st.playlists && r.value.history == st.history
  {
    match Access.EditableSong(st, user, id)
    case Failure(e) => Failure(e)
    case Success(before) =>
      var run := CleanSong(st, input);
      match run.outcome
      case Refused(e) => Failure(Rejected(e))
      case Raised(e) => Failure(ServerError(e))
      case Accepted(f) =>
        ReplaceSongAfterCatalog(st, run.store, id, Edited(before, f));
        Success(ReplaceSong(run.store, id, Edited(before, f)))
  }

  /** An edit keeps the song's audio file unless a new one is uploaded. */
  lemma EditSongAudio(st: Store, user: Id, id: Id, input: SongInput)
    requires IdsBelow(st) && (id in st.songs ==> Forms.FromRow(input.audio, Some(st.songs[id].audio)))
    requires EditSong(st, user, id, input).Success?
    ensures EditSong(st, user, id, input).value.songs[id].audio ==
      if input.audio.Uploaded? then input.audio.file else st.songs[id].audio
  {
    CleanSongSaves(st, input);
  }

  function ReplaceSong(st: Store, id: Id, s: Song): Store
  {
    st.(songs := st.songs[id := s])
  }

  lemma ReplaceSongAfterCatalog(st: Store, mid: Store, id: Id, s: Song)
    requires CatalogExtends(st, mid) && id in st.songs
    ensures var after := ReplaceSong(mid, id, s);
      && after.songs.Keys == st.songs.Keys && after.songs[id] == s
      && (forall x :: x in st.songs && x != id ==> after.songs[x] == st.songs[x])
      && after.users == st.users && after.playlists == st.playlists && after.history == st.history
  {
  }

  lemma EditSongKeepsValid(st: Store, user: Id, id: Id, input: SongInput)
    requires Valid(st) && (id in st.songs ==> Forms.FromRow(input.audio, Some(st.songs[id].audio)))
    requires EditSong(st, user, id, input).Success?
    ensures Valid(EditSong(st, user, id, input).value)
  {
    var run := CleanSong(st, input);
    var mid := run.store;
    ResolveKeepsValid(st, CleanFields(st, input));
    var after := EditSong(st, user, id, input).value;
    assert SongRefsOk(mid, after.songs[id]) by {
      assert SongRefsOk(st, st.songs[id]);
    }
    assert CatalogOk(after) by {
      forall x | x in after.songs ensures SongRefsOk(after, after.songs[x]) {
        if x != id {
          assert SongRefsOk(mid, mid.songs[x]);
        }
      }
      forall p | p in after.playlists ensures PlaylistOk(after, after.playlists[p]) {
        assert PlaylistOk(mid, mid.playlists[p]);
      }
    }
    assert EngagementOk(after) by {
      forall c | c in after.comments ensures CommentOk(after, c) {
        assert CommentOk(mid, c);
      }
      forall p | p in after.history ensures PlayOk(after, p) {
        assert PlayOk(mid, p);
      }
    }
  }

  // ------------------------------------------------------------ BulkUploadForm

  /** What `BulkUploadForm` submits. */
  datatype BulkInput = BulkInput(
    files: seq<Upload>, artist: Option<Id>, artistName: string, album: Option<Id>, genre: Option<Id>,
    isPublic: bool)

  /**
   * `BulkUploadForm.is_valid()`, with each chosen file cleaned as a single
   * file field would clean it: the files are required and each must have a
   * name and some content, the choices must exist, the new artist name is at
   * most 200 characters, and `clean()` requires an artist or a new artist
   * name.
   */
  function BulkErrors(st: Store, input: BulkInput): (e: set<FormError>)
    ensures NoArtist in e <==>
      Present(Choice(st.artists, input.artist, ArtistField)).None? &&
      Present(OptionalText(input.artistName, MaxArtistNameLength, ArtistNameField)).None?
    ensures Required(AudioFilesField) in e <==> input.files == []
    ensures e == {} <==>
      && input.files != []
      && FilesOk(input.files)
      && (input.artist.Some? || !Text.AllSpace(input.artistName))
      && (input.artist.None? || input.artist.value in st.artists)
      && |Text.Strip(input.artistName)| <= MaxArtistNameLength
      && (input.album.None? || input.album.value in st.albums)
      && (input.genre.None? || input.genre.value in st.genres)
  {
    var artist := Choice(st.artists, input.artist, ArtistField);
    var name := OptionalText(input.artistName, MaxArtistNameLength, ArtistNameField);
    BulkFieldErrors(st, input) + (if Present(artist).None? && Present(name).None? then {NoArtist} else {})
  }

  /** The errors of `BulkUploadForm`'s fields, before `clean()`. */
  function BulkFieldErrors(st: Store, input: BulkInput): (e: set<FormError>)
    ensures NoArtist !in e
    ensures Required(AudioFilesField) in e <==> input.files == []
    ensures e == {} <==> input.files != [] && FilesOk(input.files) && BulkOtherErrors(st, input) == {}
  {
    UnionEmpty(FilesFieldErrors(input.files), BulkOtherErrors(st, input));
    FilesFieldErrors(input.files) + BulkOtherErrors(st, input)
  }

  /** The errors of the files field: none chosen, or the first chosen file's. */
  function FilesFieldErrors(files: seq<Upload>): (e: set<FormError>)
    ensures e <= {Required(AudioFilesField), InvalidFile(AudioFilesField), EmptyFile(AudioFilesField)}
    ensures Required(AudioFilesField) in e <==> files == []
    ensures e == {} <==> files != [] && FilesOk(files)
  {
    if files == [] then {Required(AudioFilesField)} else FilesErrors(files)
  }

  lemma UnionEmpty(a: set<FormError>, b: set<FormError>)
    ensures a + b == {} <==> a == {} && b == {}
  {
    if a != {} {
      var x :| x in a;
      assert x in a + b;
    } else if b != {} {
      var x :| x in b;
      assert x in a + b;
    }
  }

  /** The errors of the bulk form's choice and name fields. */
  function BulkOtherErrors(st: Store, input: BulkInput): (e: set<FormError>)
    ensures e <= {InvalidChoice(ArtistField), TooLong(ArtistNameField), InvalidChoice(AlbumField), InvalidChoice(GenreField)}
    ensures e == {} <==>
      && (input.artist.None? || input.artist.value in st.artists)
      && |Text.Strip(input.artistName)| <= MaxArtistNameLength
      && (input.album.None? || input.album.value in st.albums)
      && (input.genre.None? || input.genre.value in st.genres)
  {
    var a := Choice(st.artists, input.artist, ArtistField);
    var n := OptionalText(input.artistName, MaxArtistNameLength, ArtistNameField);
    var b := Choice(st.albums, input.album, AlbumField);
    var g := Choice(st.genres, input.genre, GenreField);
    ErrorOf(a) + ErrorOf(n) + ErrorOf(b) + ErrorOf(g)
  }

  /** A file a form `FileField` without a length limit accepts: it has a name and some content. */
  predicate BulkFileOk(f: Upload)
  {
    f.name != [] && f.size > 0
  }

  /** The error cleaning one chosen file raises: no name, then no content. */
  function FileError(f: Upload): (r: Option<FormError>)
    ensures r.None? <==> BulkFileOk(f)
  {
    if f.name == [] then Some(InvalidFile(AudioFilesField))
    else if f.size == 0 then Some(EmptyFile(AudioFilesField))
    else None
  }

  predicate FilesOk(files: seq<Upload>)
  {
    forall i :: 0 <= i < |files| ==> BulkFileOk(files[i])
  }

  /**
   * Cleaning the chosen files one after another: the first file that fails
   * stops the cleaning, so the one error reported is that file's.
   */
  function FilesErrors(files: seq<Upload>): (e: set<FormError>)
    ensures e <= {InvalidFile(AudioFilesField), EmptyFile(AudioFilesField)}
    ensures e == {} <==> FilesOk(files)
    ensures e != {} ==> exists i :: FirstBadFile(files, i) && e == {FileError(files[i]).value}
  {
    if files == [] then {}
    else if FileError(files[0]).Some? then
      assert FirstBadFile(files, 0);
      {FileError(files[0]).value}
    else
      var rest := FilesErrors(files[1..]);
      assert forall i :: 0 < i < |files| ==> files[i] == files[1..][i - 1];
      if rest != {} then
        var j :| FirstBadFile(files[1..], j) && rest == {FileError(files[1..][j]).value};
        assert FirstBadFile(files, j + 1);
        rest
      else rest
  }

  /** File `i` is the first of `files` the field refuses. */
  predicate FirstBadFile(files: seq<Upload>, i: int)
  {
    0 <= i < |files| && !BulkFileOk(files[i]) && forall j :: 0 <= j < i ==> BulkFileOk(files[j])
  }

  /**
   * The files field as written: a plain `FileField` under a widget that
   * returns the list of chosen files. An empty list is reported as missing;
   * any other list has no `name`, so it is refused as not a file.
   */
  function BulkFieldErrorsAsWritten(st: Store, input: BulkInput): (e: set<FormError>)
    ensures input.files == [] ==> Required(AudioFilesField) in e
    ensures input.files != [] ==> InvalidFile(AudioFilesField) in e
  {
    (if input.files == [] then {Required(AudioFilesField)} else {InvalidFile(AudioFilesField)})
      + BulkOtherErrors(st, input)
  }

  /** `BulkUploadForm.is_valid()` as written. */
  function BulkErrorsAsWritten(st: Store, input: BulkInput): (e: set<FormError>)
    ensures BulkFieldErrorsAsWritten(st, input) <= e
    ensures NoArtist in e <==>
      Present(Choice(st.artists, input.artist, ArtistField)).None? &&
      Present(OptionalText(input.artistName, MaxArtistNameLength, ArtistNameField)).None?
  {
    var artist := Choice(st.artists, input.artist, ArtistField);
    var name := OptionalText(input.artistName, MaxArtistNameLength, ArtistNameField);
    BulkFieldErrorsAsWritten(st, input) + (if Present(artist).None? && Present(name).None? then {NoArtist} else {})
  }

  /** As written, the bulk form never validates, whatever is chosen. */
  lemma BulkNeverValidAsWritten(st: Store, input: BulkInput)
    ensures BulkErrorsAsWritten(st, input) != {}
  {
  }

  /** One file under an existing artist, nothing else chosen. */
  function OneFileBulk(artist: Id, f: Upload): BulkInput
  {
    BulkInput([f], Some(artist), "", None, None, true)
  }

  /** The corrected form accepts one file with a name and some content, under an existing artist. */
  lemma OneFileBulkAccepted(st: Store, artist: Id, f: Upload)
    requires artist in st.artists && BulkFileOk(f)
    ensures BulkErrors(st, OneFileBulk(artist, f)) == {}
  {
    var input := OneFileBulk(artist, f);
    assert FilesOk(input.files) by { assert input.files[0] == f; }
    assert |Text.Strip(input.artistName)| <= MaxArtistNameLength;
  }

  /** The form as written refuses the same upload, for its files field alone. */
  lemma OneFileBulkRefusedAsWritten(st: Store, artist: Id, f: Upload)
    requires artist in st.artists
    ensures BulkErrorsAsWritten(st, OneFileBulk(artist, f)) == {InvalidFile(AudioFilesField)}
  {
    var input := OneFileBulk(artist, f);
    ExistingArtistOnly(st, artist, input);
    assert BulkFieldErrorsAsWritten(st, input) == {InvalidFile(AudioFilesField)};
    assert Present(Choice(st.artists, input.artist, ArtistField)).Some?;
  }

  /** An existing artist, no new name and no album or genre: the other fields pass. */
  lemma ExistingArtistOnly(st: Store, artist: Id, input: BulkInput)
    requires artist in st.artists && input.artist == Some(artist) && input.artistName == ""
    requires input.album.None? && input.genre.None?
    ensures BulkOtherErrors(st, input) == {}
  {
    assert |Text.Strip(input.artistName)| <= MaxArtistNameLength;
  }

  /** Apart from the files field, the corrected form and the form as written report the same errors. */
  lemma BulkAgreesOffFiles(st: Store, input: BulkInput)
    ensures BulkErrors(st, input) - {Required(AudioFilesField), InvalidFile(AudioFilesField), EmptyFile(AudioFilesField)}
         == BulkErrorsAsWritten(st, input) - {Required(AudioFilesField), InvalidFile(AudioFilesField), EmptyFile(AudioFilesField)}
  {
    var f := FilesErrors(input.files);
    if f != {} {
      var i :| FirstBadFile(input.files, i) && f == {FileError(input.files[i]).value};
    }
  }
}
