/**
 * The playlist transitions: create, edit and delete through `PlaylistForm`,
 * and adding and removing songs. Every mutation looks the playlist up
 * together with its owner, so another user's playlist is reported missing.
 */
module Playlists {
  import opened Wrappers
  import opened Library
  import Text
  import Models
  import Forms
  import Access
  import Stats

  const MaxNameLength: nat := 200

  /** What `PlaylistForm` submits. */
  datatype PlaylistInput = PlaylistInput(
    name: string, description: string, cover: Forms.FileValue, isPublic: bool, isCollaborative: bool)

  /** The values `PlaylistForm` saves. */
  datatype PlaylistFields = PlaylistFields(
    name: string, description: string, cover: Option<Upload>, isPublic: bool, isCollaborative: bool)

  /** The name is stripped, required and at most 200 characters. */
  function NameErrors(raw: string): (e: set<FormError>)
    ensures e == {} <==> 0 < |Text.Strip(raw)| <= MaxNameLength
  {
    var t := Text.Strip(raw);
    if t == [] then {Required(NameField)}
    else if |t| > MaxNameLength then {TooLong(NameField)}
    else {}
  }

  /** `clean_cover_image`'s verdict as a set of errors: at most 5MB, and an image content type. */
  function CoverErrors(v: Forms.FileValue): (e: set<FormError>)
    ensures e == {} <==> Forms.CleanImage(CoverField, v).Success?
  {
    match Forms.CleanImage(CoverField, v)
    case Success(_) => {}
    case Failure(x) => {x}
  }

  /** `PlaylistForm.is_valid()`: each field's errors, all reported together. */
  function CleanPlaylistForm(input: PlaylistInput): (r: Result<PlaylistFields, set<FormError>>)
    ensures r.Failure? ==> r.error != {}
    ensures r.Success? <==>
      0 < |Text.Strip(input.name)| <= MaxNameLength && Forms.CleanImage(CoverField, input.cover).Success?
    ensures r.Success? ==>
      && r.value.name == Text.Strip(input.name)
      && r.value.description == Text.Strip(input.description)
      && r.value.cover == Forms.FileOf(input.cover)
      && r.value.isPublic == input.isPublic && r.value.isCollaborative == input.isCollaborative
  {
    var errors := NameErrors(input.name) + CoverErrors(input.cover);
    if errors != {} then Failure(errors)
    else Success(PlaylistFields(Text.Strip(input.name), Text.Strip(input.description),
      Forms.FileOf(input.cover), input.isPublic, input.isCollaborative))
  }

  /**
   * `create_playlist`: a valid form adds a playlist owned by the requester,
   * with no songs. A new form has no stored cover to keep.
   */
  function CreatePlaylist(st: Store, user: Id, input: PlaylistInput): (r: Result<Step<Id>, Denial>)
    requires IdsBelow(st) && Forms.FromRow(input.cover, None)
    ensures CleanPlaylistForm(input).Failure? ==> r == Failure(Rejected(CleanPlaylistForm(input).error))
    ensures CleanPlaylistForm(input).Success? ==> r.Success?
    ensures r.Success? ==>
      && r.value.out == st.nextId
      && r.value.out !in st.playlists
      && r.value.store.playlists.Keys == st.playlists.Keys + {r.value.out}
      && (forall p :: p in st.playlists ==> r.value.store.playlists[p] == st.playlists[p])
      && r.value.store == st.(playlists := r.value.store.playlists, nextId := st.nextId + 1, clock := st.clock + 1)
    ensures r.Success? ==>
      var p := r.value.store.playlists[r.value.out];
      && p.owner == user && p.songs == {} && p.createdAt == st.clock
      && p.name == Text.Strip(input.name) && p.description == Text.Strip(input.description)
      && p.cover == (if input.cover.Uploaded? then Some(input.cover.file) else None)
      && p.isPublic == input.isPublic && p.isCollaborative == input.isCollaborative
  {
    match CleanPlaylistForm(input)
    case Failure(e) => Failure(Rejected(e))
    case Success(f) =>
      var p := Models.NewPlaylist(f.name, f.description, user, st.clock)
        .(cover := f.cover, isPublic := f.isPublic, isCollaborative := f.isCollaborative);
      Success(Step(st.(playlists := st.playlists[st.nextId := p], nextId := st.nextId + 1, clock := st.clock + 1),
        st.nextId))
  }

  /** Creating a playlist raises the owner's `total_playlists` by one. */
  lemma CreatePlaylistCount(st: Store, user: Id, input: PlaylistInput)
    requires IdsBelow(st) && Forms.FromRow(input.cover, None) && CreatePlaylist(st, user, input).Success?
    ensures Stats.TotalPlaylists(CreatePlaylist(st, user, input).value.store, user) == Stats.TotalPlaylists(st, user) + 1
  {
    var r := CreatePlaylist(st, user, input).value;
    var p := r.store.playlists[st.nextId];
    assert p.owner == user;
    assert r.store.playlists == st.playlists[st.nextId := p] by {
      assert r.store.playlists.Keys == st.playlists[st.nextId := p].Keys;
    }
    Stats.NewPlaylistCounts(st, p, st.clock + 1);
  }

  lemma CreatePlaylistKeepsValid(st: Store, user: Id, input: PlaylistInput)
    requires Valid(st) && user in st.users && Forms.FromRow(input.cover, None)
    requires CreatePlaylist(st, user, input).Success?
    ensures Valid(CreatePlaylist(st, user, input).value.store)
  {
    var after := CreatePlaylist(st, user, input).value.store;
    forall p | p in after.playlists ensures p < after.nextId && PlaylistOk(st, after.playlists[p]) {
      if p in st.playlists { assert PlaylistOk(st, st.playlists[p]); }
    }
    PlaylistsChangeKeepsValid(st, after);
  }

  /**
   * `edit_playlist`: the owner's valid form replaces the form fields; songs,
   * owner and creation time stay. Without a new upload the form carries the
   * cover the playlist already has.
   */
  function EditPlaylist(st: Store, user: Id, id: Id, input: PlaylistInput): (r: Result<Store, Denial>)
    requires id in st.playlists ==> Forms.FromRow(input.cover, st.playlists[id].cover)
    ensures Access.OwnedPlaylist(st, user, id).Failure? ==> r == Failure(NotFound)
    ensures Access.OwnedPlaylist(st, user, id).Success? && CleanPlaylistForm(input).Failure? ==>
      r == Failure(Rejected(CleanPlaylistForm(input).error))
    ensures Access.OwnedPlaylist(st, user, id).Success? && CleanPlaylistForm(input).Success? ==> r.Success?
    ensures r.Success? ==>
      && id in st.playlists && st.playlists[id].owner == user
      && CleanPlaylistForm(input).Success?
      && r.value.playlists.Keys == st.playlists.Keys
      && (forall p :: p in st.playlists && p != id ==> r.value.playlists[p] == st.playlists[p])
      && r.value == st.(playlists := r.value.playlists)
    ensures r.Success? ==>
      var f := CleanPlaylistForm(input).value;
      r.value.playlists[id] == st.playlists[id].(name := f.name, description := f.description, cover := f.cover,
                                                 isPublic := f.isPublic, isCollaborative := f.isCollaborative)
    ensures r.Success? ==>
      r.value.playlists[id].cover == if input.cover.Uploaded? then Some(input.cover.file) else st.playlists[id].cover
  {
    match Access.OwnedPlaylist(st, user, id)
    case Failure(e) => Failure(e)
    case Success(before) =>
      match CleanPlaylistForm(input)
      case Failure(e) => Failure(Rejected(e))
      case Success(f) =>
        Success(st.(playlists := st.playlists[id := before.(name := f.name, description := f.description,
          cover := f.cover, isPublic := f.isPublic, isCollaborative := f.isCollaborative)]))
  }

  lemma EditPlaylistKeepsValid(st: Store, user: Id, id: Id, input: PlaylistInput)
    requires Valid(st) && (id in st.playlists ==> Forms.FromRow(input.cover, st.playlists[id].cover))
    requires EditPlaylist(st, user, id, input).Success?
    ensures Valid(EditPlaylist(st, user, id, input).value)
  {
    var after := EditPlaylist(st, user, id, input).value;
    var q := after.playlists[id];
    assert after.playlists == st.playlists[id := q];
    RewritePlaylistKeepsValid(st, id, q);
  }

  /** Rewriting one playlist's fields, with its owner and songs as they were, keeps the store valid. */
  lemma RewritePlaylistKeepsValid(st: Store, id: Id, q: Playlist)
    requires Valid(st) && id in st.playlists
    requires q.owner == st.playlists[id].owner && q.songs == st.playlists[id].songs
    ensures Valid(st.(playlists := st.playlists[id := q]))
  {
    var after := st.(playlists := st.playlists[id := q]);
    forall p | p in after.playlists ensures p < after.nextId && PlaylistOk(st, after.playlists[p]) {
      assert PlaylistOk(st, st.playlists[p]);
    }
    PlaylistsChangeKeepsValid(st, after);
  }

  /** `delete_playlist`: the owner's playlist goes, with its membership rows. */
  function DeletePlaylist(st: Store, user: Id, id: Id): (r: Result<Store, Denial>)
    ensures r.Success? <==> id in st.playlists && st.playlists[id].owner == user
    ensures r.Failure? ==> r.error == NotFound
    ensures r.Success? ==> r.value.playlists == st.playlists - {id} && r.value == st.(playlists := r.value.playlists)
  {
    match Access.OwnedPlaylist(st, user, id)
    case Failure(e) => Failure(e)
    case Success(_) => Success(st.(playlists := st.playlists - {id}))
  }

  lemma DeletePlaylistKeepsValid(st: Store, user: Id, id: Id)
    requires Valid(st)
    requires DeletePlaylist(st, user, id).Success?
    ensures Valid(DeletePlaylist(st, user, id).value)
  {
    PlaylistsChangeKeepsValid(st, DeletePlaylist(st, user, id).value);
  }

  /**
   * `add_to_playlist`: the song must exist, then the playlist must be the
   * requester's own; a song already there is left alone. The result says
   * whether the song was added.
   */
  function AddToPlaylist(st: Store, user: Id, song: Id, playlist: Option<Id>): (r: Result<Step<bool>, Denial>)
    ensures song !in st.songs ==> r == Failure(NotFound)
    ensures song in st.songs ==>
      (r.Success? <==> playlist.Some? && Access.OwnedPlaylist(st, user, playlist.value).Success?)
    ensures r.Failure? ==> r.error == NotFound
    ensures r.Success? ==>
      && playlist.Some? && playlist.value in st.playlists
      && r.value.store == st.(playlists := r.value.store.playlists)
    ensures r.Success? ==>
      var id := playlist.value;
      && (r.value.out <==> song !in st.playlists[id].songs)
      && r.value.store.playlists == st.playlists[id := st.playlists[id].(songs := st.playlists[id].songs + {song})]
  {
    if song !in st.songs || playlist.None? then Failure(NotFound)
    else
      match Access.OwnedPlaylist(st, user, playlist.value)
      case Failure(e) => Failure(e)
      case Success(p) =>
        if song in p.songs then
          assert p.(songs := p.songs + {song}) == p;
          assert st.playlists[playlist.value := p] == st.playlists;
          Success(Step(st, false))
        else Success(Step(st.(playlists := st.playlists[playlist.value := p.(songs := p.songs + {song})]), true))
  }

  /** Adding a song that is already in the playlist changes nothing. */
  lemma AddExistingUnchanged(st: Store, user: Id, song: Id, id: Id)
    requires song in st.songs && id in st.playlists && st.playlists[id].owner == user
    requires song in st.playlists[id].songs
    ensures AddToPlaylist(st, user, song, Some(id)) == Success(Step(st, false))
  {
  }

  /** Someone else's playlist can be neither changed nor deleted: every mutation reports it missing. */
  lemma ForeignPlaylistUntouchable(st: Store, user: Id, id: Id, song: Id, input: PlaylistInput)
    requires id in st.playlists && st.playlists[id].owner != user
    requires Forms.FromRow(input.cover, st.playlists[id].cover)
    ensures EditPlaylist(st, user, id, input) == Failure(NotFound)
    ensures DeletePlaylist(st, user, id) == Failure(NotFound)
    ensures AddToPlaylist(st, user, song, Some(id)).Failure?
    ensures RemoveFromPlaylist(st, user, id, song) == Failure(NotFound)
  {
  }

  lemma AddToPlaylistKeepsValid(st: Store, user: Id, song: Id, playlist: Option<Id>)
    requires Valid(st)
    requires AddToPlaylist(st, user, song, playlist).Success?
    ensures Valid(AddToPlaylist(st, user, song, playlist).value.store)
  {
    var after := AddToPlaylist(st, user, song, playlist).value.store;
    forall p | p in after.playlists ensures p < after.nextId && PlaylistOk(st, after.playlists[p]) {
      assert PlaylistOk(st, st.playlists[p]);
    }
    PlaylistsChangeKeepsValid(st, after);
  }

  /**
   * `remove_from_playlist`: the playlist must be the requester's own, then
   * the song must exist; removing a song that is not there is harmless.
   */
  function RemoveFromPlaylist(st: Store, user: Id, id: Id, song: Id): (r: Result<Store, Denial>)
    ensures Access.OwnedPlaylist(st, user, id).Failure? ==> r == Failure(NotFound)
    ensures r.Success? <==> Access.OwnedPlaylist(st, user, id).Success? && song in st.songs
    ensures r.Failure? ==> r.error == NotFound
    ensures r.Success? ==>
      && r.value.playlists == st.playlists[id := st.playlists[id].(songs := st.playlists[id].songs - {song})]
      && r.value == st.(playlists := r.value.playlists)
  {
    match Access.OwnedPlaylist(st, user, id)
    case Failure(e) => Failure(e)
    case Success(p) =>
      if song !in st.songs then Failure(NotFound)
      else Success(st.(playlists := st.playlists[id := p.(songs := p.songs - {song})]))
  }

  /** Adding a song and removing it again restores the store. */
  lemma AddThenRemove(st: Store, user: Id, song: Id, id: Id)
    requires song in st.songs && id in st.playlists && st.playlists[id].owner == user
    requires song !in st.playlists[id].songs
    ensures var added := AddToPlaylist(st, user, song, Some(id));
      added.Success? && added.value.out &&
      RemoveFromPlaylist(added.value.store, user, id, song) == Success(st)
  {
    var p := st.playlists[id];
    var added := AddToPlaylist(st, user, song, Some(id)).value.store;
    assert added.playlists[id] == p.(songs := p.songs + {song});
    assert p.songs + {song} - {song} == p.songs;
    assert p.(songs := p.songs + {song}).(songs := p.songs + {song} - {song}) == p;
    assert added.playlists[id := p] == st.playlists;
    assert RemoveFromPlaylist(added, user, id, song) == Success(added.(playlists := st.playlists));
  }

  lemma RemoveFromPlaylistKeepsValid(st: Store, user: Id, id: Id, song: Id)
    requires Valid(st)
    requires RemoveFromPlaylist(st, user, id, song).Success?
    ensures Valid(RemoveFromPlaylist(st, user, id, song).value)
  {
    var after := RemoveFromPlaylist(st, user, id, song).value;
    forall p | p in after.playlists ensures p < after.nextId && PlaylistOk(st, after.playlists[p]) {
      assert PlaylistOk(st, st.playlists[p]);
    }
    PlaylistsChangeKeepsValid(st, after);
  }

  // ---------------------------------------------------------------- durations

  /** The durations of the songs in `ids`, in order. */
  function DurationsOf(st: Store, ids: seq<Id>): (ds: seq<Option<nat>>)
    ensures |ds| == |ids|
    ensures forall i :: 0 <= i < |ids| ==> ds[i] == (if ids[i] in st.songs then st.songs[ids[i]].duration else None)
  {
    if ids == [] then []
    else [if ids[0] in st.songs then st.songs[ids[0]].duration else None] + DurationsOf(st, ids[1..])
  }

  /** The songs of playlist `id`. */
  function InPlaylist(st: Store, id: Id): Id -> bool
    requires id in st.playlists
  {
    s => s in st.playlists[id].songs
  }

  /** The songs of `album`. */
  function OnAlbum(st: Store, album: Id): Id -> bool
  {
    s => s in st.songs && st.songs[s].album == Some(album)
  }

  /**
   * The seconds of the songs below `hi` that `p` selects, summed id by id:
   * the total `total_duration` promises, independent of how the rows are
   * collected.
   */
  function SecondsBelow(st: Store, hi: nat, p: Id -> bool): nat
  {
    if hi == 0 then 0 else SecondsBelow(st, hi - 1, p) + SecondsAt(st, p, hi - 1)
  }

  /** The seconds song `id` contributes when `p` selects it. */
  function SecondsAt(st: Store, p: Id -> bool, id: Id): nat
  {
    if p(id) then SongSeconds(st, id) else 0
  }

  function SongSeconds(st: Store, id: Id): nat
  {
    if id in st.songs then Models.Seconds(st.songs[id].duration) else 0
  }

  /** Summing the durations of the scanned rows gives the id-by-id total. */
  lemma ScanSeconds(st: Store, hi: nat, p: Id -> bool)
    ensures Models.TotalDuration(DurationsOf(st, IdsWhere(hi, p))) == SecondsBelow(st, hi, p)
  {
    DurationsSum(st, IdsWhere(hi, p));
    ScanSum(st, hi, p);
  }

  /** The seconds of the rows `ids`, added row by row. */
  function SumSeconds(st: Store, ids: seq<Id>): nat
  {
    if ids == [] then 0 else SumSeconds(st, ids[..|ids| - 1]) + SongSeconds(st, ids[|ids| - 1])
  }

  /** `TotalDuration` over the rows' durations is their row-by-row sum. */
  lemma {:induction false} DurationsSum(st: Store, ids: seq<Id>)
    ensures Models.TotalDuration(DurationsOf(st, ids)) == SumSeconds(st, ids)
    decreases |ids|
  {
    if ids != [] {
      var init, x := ids[..|ids| - 1], ids[|ids| - 1];
      DurationsSum(st, init);
      assert ids == init + [x];
      DurationsSnoc(st, init, x);
    } else {
      var none: seq<Option<nat>> := [];
      assert DurationsOf(st, ids) == none;
    }
  }

  /** Summing the selected ids in scan order gives the id-by-id total. */
  lemma {:induction false} ScanSum(st: Store, hi: nat, p: Id -> bool)
    ensures SumSeconds(st, IdsWhere(hi, p)) == SecondsBelow(st, hi, p)
    decreases hi
  {
    if hi > 0 {
      ScanSum(st, hi - 1, p);
      IdsWhereSnoc(hi, p);
      ScanSumStep(st, IdsWhere(hi - 1, p), SecondsBelow(st, hi - 1, p), hi - 1, p);
    } else {
      assert IdsWhere(hi, p) == [];
    }
  }

  /** Appending id `x` when `p` selects it adds the seconds `x` contributes. */
  lemma ScanSumStep(st: Store, ids: seq<Id>, below: nat, x: Id, p: Id -> bool)
    requires SumSeconds(st, ids) == below
    ensures SumSeconds(st, ids + (if p(x) then [x] else [])) == below + SecondsAt(st, p, x)
  {
    if p(x) {
      SumSnoc(st, ids, x);
    } else {
      assert ids + [] == ids;
    }
  }

  lemma SumSnoc(st: Store, ids: seq<Id>, x: Id)
    ensures SumSeconds(st, ids + [x]) == SumSeconds(st, ids) + SongSeconds(st, x)
  {
    assert (ids + [x])[..|ids|] == ids;
  }

  /** One more row adds its seconds to the total. */
  lemma DurationsSnoc(st: Store, ids: seq<Id>, x: Id)
    ensures Models.TotalDuration(DurationsOf(st, ids + [x])) == Models.TotalDuration(DurationsOf(st, ids)) + SongSeconds(st, x)
  {
    var d := if x in st.songs then st.songs[x].duration else None;
    DurationsOfSnoc(st, ids, x);
    Models.TotalDurationAppend(DurationsOf(st, ids), [d]);
    var none: seq<Option<nat>> := [];
    assert [d][..0] == none;
  }

  lemma DurationsOfSnoc(st: Store, ids: seq<Id>, x: Id)
    ensures DurationsOf(st, ids + [x]) == DurationsOf(st, ids) + [if x in st.songs then st.songs[x].duration else None]
  {
    var l, r := DurationsOf(st, ids + [x]), DurationsOf(st, ids) + [if x in st.songs then st.songs[x].duration else None];
    forall i | 0 <= i < |l| ensures l[i] == r[i] {
      if i < |ids| { assert (ids + [x])[i] == ids[i]; }
    }
  }

  /** `Playlist.total_duration`: the sum of its songs' known durations, in seconds. */
  function PlaylistTotalDuration(st: Store, id: Id): (total: nat)
    requires id in st.playlists
    ensures total == SecondsBelow(st, st.nextId, InPlaylist(st, id))
    ensures forall s :: s in st.playlists[id].songs && s < st.nextId && s in st.songs ==>
      Models.Seconds(st.songs[s].duration) <= total
  {
    var ids := IdsWhere(st.nextId, InPlaylist(st, id));
    var ds := DurationsOf(st, ids);
    forall s | s in st.playlists[id].songs && s < st.nextId && s in st.songs
      ensures Models.Seconds(st.songs[s].duration) <= Models.TotalDuration(ds)
    {
      assert s in ids;
      var i :| 0 <= i < |ids| && ids[i] == s;
      assert ds[i] == st.songs[s].duration;
    }
    ScanSeconds(st, st.nextId, InPlaylist(st, id));
    Models.TotalDuration(ds)
  }

  /** `Album.total_duration`: the sum of the known durations of the album's songs. */
  function AlbumTotalDuration(st: Store, album: Id): (total: nat)
    ensures total == SecondsBelow(st, st.nextId, OnAlbum(st, album))
    ensures forall s :: s in st.songs && s < st.nextId && st.songs[s].album == Some(album) ==>
      Models.Seconds(st.songs[s].duration) <= total
  {
    var ids := IdsWhere(st.nextId, OnAlbum(st, album));
    var ds := DurationsOf(st, ids);
    forall s | s in st.songs && s < st.nextId && st.songs[s].album == Some(album)
      ensures Models.Seconds(st.songs[s].duration) <= Models.TotalDuration(ds)
    {
      assert s in ids;
      var i :| 0 <= i < |ids| && ids[i] == s;
      assert ds[i] == st.songs[s].duration;
    }
    ScanSeconds(st, st.nextId, OnAlbum(st, album));
    Models.TotalDuration(ds)
  }

  /**
   * `Playlist.total_duration_formatted`: reads back as the total's whole
   * hours and the minutes below 60 left over.
   */
  function PlaylistDurationFormatted(st: Store, id: Id): (s: string)
    requires id in st.playlists
    ensures var total := SecondsBelow(st, st.nextId, InPlaylist(st, id));
      Models.ParseHoursMinutes(s) == Some((total / 3600, (total % 3600) / 60))
  {
    Models.TotalDurationFormattedRoundTrip(PlaylistTotalDuration(st, id));
    Models.TotalDurationFormatted(PlaylistTotalDuration(st, id))
  }
}
