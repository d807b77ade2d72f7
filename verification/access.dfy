/**
 * Who may see and who may change what. A song or playlist is visible when it
 * is public or belongs to the requester; a song may be edited or deleted by
 * its uploader or a staff user; a playlist may be changed by its owner only.
 */
module Access {
  import opened Wrappers
  import opened Library

  predicate CanViewSong(s: Song, user: Id)
  {
    s.isPublic || s.uploadedBy == user
  }

  predicate CanViewPlaylist(p: Playlist, user: Id)
  {
    p.isPublic || p.owner == user
  }

  predicate IsStaff(st: Store, user: Id)
  {
    user in st.users && st.users[user].isStaff
  }

  predicate CanEditSong(st: Store, s: Song, user: Id)
  {
    s.uploadedBy == user || IsStaff(st, user)
  }

  /** `get_object_or_404(Song, pk=id)`. */
  function FindSong(st: Store, id: Id): (r: Result<Song, Denial>)
    ensures r.Success? <==> id in st.songs
    ensures r.Success? ==> r.value == st.songs[id]
    ensures r.Failure? ==> r.error == NotFound
  {
    if id in st.songs then Success(st.songs[id]) else Failure(NotFound)
  }

  /** The gate of `song_detail` and `download_song`: a private song is refused to everyone but its uploader. */
  function VisibleSong(st: Store, user: Id, id: Id): (r: Result<Song, Denial>)
    ensures id !in st.songs ==> r == Failure(NotFound)
    ensures id in st.songs ==>
      (r == Failure(PermissionDenied) <==> !st.songs[id].isPublic && st.songs[id].uploadedBy != user)
    ensures r.Success? ==> id in st.songs && r.value == st.songs[id]
  {
    match FindSong(st, id)
    case Failure(e) => Failure(e)
    case Success(s) => if CanViewSong(s, user) then Success(s) else Failure(PermissionDenied)
  }

  /** The gate of `edit_song` and `delete_song`: the uploader or a staff user. */
  function EditableSong(st: Store, user: Id, id: Id): (r: Result<Song, Denial>)
    ensures id !in st.songs ==> r == Failure(NotFound)
    ensures id in st.songs ==>
      (r == Failure(PermissionDenied) <==>
        st.songs[id].uploadedBy != user && !(user in st.users && st.users[user].isStaff))
    ensures r.Success? ==> id in st.songs && r.value == st.songs[id]
  {
    match FindSong(st, id)
    case Failure(e) => Failure(e)
    case Success(s) => if CanEditSong(st, s, user) then Success(s) else Failure(PermissionDenied)
  }

  /**
   * `get_object_or_404(Playlist, pk=id, user=request.user)`: someone else's
   * playlist is indistinguishable from a missing one.
   */
  function OwnedPlaylist(st: Store, user: Id, id: Id): (r: Result<Playlist, Denial>)
    ensures r.Success? <==> id in st.playlists && st.playlists[id].owner == user
    ensures r.Success? ==> r.value == st.playlists[id]
    ensures r.Failure? ==> r.error == NotFound
  {
    if id in st.playlists && st.playlists[id].owner == user then Success(st.playlists[id])
    else Failure(NotFound)
  }

  /** The gate of `playlist_detail`: a private playlist is refused to everyone but its owner. */
  function VisiblePlaylist(st: Store, user: Id, id: Id): (r: Result<Playlist, Denial>)
    ensures id !in st.playlists ==> r == Failure(NotFound)
    ensures id in st.playlists ==>
      (r == Failure(PermissionDenied) <==> !st.playlists[id].isPublic && st.playlists[id].owner != user)
    ensures r.Success? ==> id in st.playlists && r.value == st.playlists[id]
  {
    if id !in st.playlists then Failure(NotFound)
    else if CanViewPlaylist(st.playlists[id], user) then Success(st.playlists[id])
    else Failure(PermissionDenied)
  }

  /** A user may always see their own songs, whatever the flag says. */
  lemma OwnerSeesOwnSong(st: Store, user: Id, id: Id)
    requires id in st.songs && st.songs[id].uploadedBy == user
    ensures VisibleSong(st, user, id) == Success(st.songs[id])
    ensures EditableSong(st, user, id) == Success(st.songs[id])
  {
  }

  /** Whoever may see a song may edit it only as its uploader or as staff: seeing a public song grants nothing. */
  lemma ViewingDoesNotGrantEditing(st: Store, user: Id, id: Id)
    requires id in st.songs && st.songs[id].isPublic && st.songs[id].uploadedBy != user
    requires !IsStaff(st, user)
    ensures VisibleSong(st, user, id).Success?
    ensures EditableSong(st, user, id) == Failure(PermissionDenied)
  {
  }
}
