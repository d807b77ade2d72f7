# Music Library — a Dafny model

This project models the core rules of the Music Library, a Django web app.
In the app, users upload songs, organise them into playlists, mark favorites,
rate, comment, play and download songs, and browse by artist, album and genre.
The database is an immutable `Store` record with these parts:

- maps from ids to users, genres, artists, albums, songs and playlists;
- the favorite pairs;
- the ratings, keyed by (user, song);
- the comment and play-history tables as sequences;
- an abstract clock;
- one id allocator shared by every table.

Every view and form is modelled as a pure function from the store and the
request's inputs. The result is a new store, or a refusal: `NotFound` for a 404,
`PermissionDenied`, `Rejected` with a set of form errors, or `ServerError` for
the 500 an upload or edit raises when `get_or_create` finds several rows.
`Library.Valid` is the database's constraints:

- every foreign key points at a row;
- ratings lie in 1..5;
- comments are at most 1000 characters;
- username, email and genre name are unique;
- every id was handed out by the allocator.

Every transition that writes is proved to keep `Valid`.

Modules, in dependency order:

- `Wrappers`: the `Option` and `Result` types.
- `Text`: Python's `str.strip`, ASCII case folding and `icontains`.
- `Decimal`: integer text, as in `int(...)` and f-string formatting.
- `Sorting`: a stable sort on a (number, text) key, and `[:n]`.
- `Paging`: Django's `Paginator`, together with the views' fallbacks for a bad page number.
- `Library`: the entities, the store and its invariants, and the id-ordered table scan.
- `Models`: model defaults, the counter methods and the duration formatters.
- `Access`: visibility and permission gates.
- `Listing`: `song_list`, `search`, `artist_list`, `artist_detail` and `album_detail`.
- `Details`: `song_detail`, `playlist_detail` and `playlist_list`.
- `Stats`: `play_history`, `user_stats` and the `total_*` counters.
- `Forms`: the comment, rating, bio and image validators, and file extensions.
- `Engagement`: favorites, ratings, plays, downloads and comments.
- `Playlists`: `PlaylistForm` and the playlist views.
- `Catalog`: `SongUploadForm` with its artist, album and genre `get_or_create`, plus `upload_song`, `edit_song` and `BulkUploadForm`.
- `Cascade`: what deleting a song, album, genre, artist or user does to the rows that point at it.
- `Accounts`: the custom `User` model, `UserRegisterForm` and `UserUpdateForm`.

## Model

| member | source | states |
|---|---|---|
| Access.VisibleSong | music_library/music/views.py:135-140 | A missing song is NotFound. A private song is refused exactly when the requester is not its uploader. Otherwise the song is returned. `download_song` (lines 269-274) uses the same gate. |
| Access.EditableSong | music_library/music/views.py:205-210 | A missing song is NotFound. Editing is refused exactly when the requester is neither the uploader nor a staff user. `delete_song` (lines 231-236) uses the same gate. |
| Access.OwnedPlaylist | music_library/music/views.py:403 | The lookup succeeds exactly for a playlist the requester owns. Someone else's playlist reports NotFound, like a missing one. |
| Access.VisiblePlaylist | music_library/music/views.py:361-366 | A private playlist is refused exactly when the requester is not its owner. |
| Access.OwnerSeesOwnSong | music_library/music/views.py:138 | An uploader may always view and edit their own song, whatever its visibility flag says. |
| Access.ViewingDoesNotGrantEditing | music_library/music/views.py:234 | A non-staff user who is not the uploader may view a public song but is refused when editing or deleting it. |
| Models.NewSong | music_library/music/models.py:180-191 | A new song starts with zero plays and downloads, public and not featured, stamped with its uploader and upload time. |
| Models.NewPlaylist | music_library/music/models.py:269-276 | A new playlist starts private, not collaborative, with no songs and no cover. |
| Models.IncrementPlayCount | music_library/music/models.py:208-211 | The play count rises by exactly one and no other field changes. |
| Models.IncrementDownloadCount | music_library/music/models.py:213-216 | The download count rises by exactly one and no other field changes. |
| Models.TotalDuration | music_library/music/models.py:119-126 | Each set duration is at most the total, and the total is zero exactly when no duration contributes. |
| Models.TotalDurationAppend | music_library/music/models.py:122-125 | The total of two lists of songs is the sum of their totals. |
| Models.SumDurations | music_library/music/models.py:122-126 | The loop that accumulates the set durations computes the total. |
| Models.DurationFormattedRoundTrip | music_library/music/models.py:236-243 | The "m:ss" text reads back as the duration in seconds. An absent duration gives "0:00", which reads back as zero. |
| Models.TotalDurationFormattedRoundTrip | music_library/music/models.py:306-314 | "Hh Mm" (or "Mm" below one hour) reads back as whole hours and minutes under 60, which account for the total to within the dropped seconds. |
| Text.Strip | music_library/music/views.py:294 | `str.strip()` gives the slice of the text that neither starts nor ends with whitespace and has only whitespace around it. It is empty exactly when the text is all whitespace. |
| Text.StripIdempotent | music_library/music/views.py:294 | Stripping an already stripped text changes nothing. |
| Decimal.ParseInt | music_library/music/views.py:104-107 | A number is read only from a stripped text that is one optional sign followed by digits, and a negative number has a minus sign. |
| Decimal.ParseIntShowNat | music_library/music/views.py:104-105 | The decimal text of a number reads back as that number. |
| Decimal.ParseIntNegative | music_library/music/views.py:104-105 | A minus sign before the digits reads back as the negated number. |
| Decimal.ParseIntStrip | music_library/music/views.py:104-105 | Whitespace around the text never changes what is read. |
| Sorting.NoDupCard | music_library/music/views.py:522-524 | A list without repeats has as many elements as its set of elements. The artist scan's count rests on this. |
| Sorting.SortBy | music_library/music/views.py:98 | `order_by` returns the same rows, each as often as before, sorted by the key. |
| Paging.NumPages | music_library/music/views.py:101 | The page count is the fewest pages that hold all the items, and at least one. |
| Paging.PageNumber | music_library/music/views.py:104-109 | An absent or non-integer page gives page 1. An integer outside 1..num_pages gives the last page. Otherwise the page asked for is served. |
| Paging.Paginate | music_library/music/views.py:101-109 | A page is the consecutive slice of the listing at the page's offset. Every page but the last is full, and the last one ends the listing. |
| Paging.PageNumberStable | music_library/music/views.py:104-109 | Asking again for the page number that was served serves the same page. |
| Paging.ItemOnItsPage | music_library/music/views.py:101-105 | Item (k-1)·size+j of the listing is at position j of page k. |
| Paging.NonNumericPage | music_library/music/views.py:106-107 | A page parameter that is not an integer serves page 1. |
| Paging.ThreeSongsOnePage | music_library/music/views.py:108-109 | With three songs, any page number past 1 serves the single page with all three. |
| Paging.PageFromItems | music_library/music/views.py:104-109 | A page holds only items of the listing, and no repeats when the listing has none. |
| Paging.PageKeepsOrder | music_library/music/views.py:104-109 | A page of a sorted listing is sorted. |
| Listing.SortKeyFor | music_library/music/views.py:96-97 | Exactly the four allow-listed `sort` values are accepted, each mapped to its own ordering. |
| Listing.ChosenSort | music_library/music/views.py:95-98 | A missing or unknown `sort` value leaves the default newest-first order. Otherwise the requested order applies. |
| Listing.RankMeansOrder | music_library/music/views.py:98 | Comparing two songs' sort keys is exactly the promised order: newest upload, title, most played, or artist name. |
| Listing.SongQuery | music_library/music/views.py:75-98 | A song is listed exactly when the requester may see it and it matches every filter given. Each song appears once, in the chosen order. |
| Listing.SongList | music_library/music/views.py:70-109 | The page is exactly the `Paginator` slice, for the requested page number, of the song query: the visible songs that match the filters, in the chosen order. So it shows at most 20 such songs, without repeats, with a page number between 1 and the page count. |
| Listing.FiltersNarrow | music_library/music/views.py:80-92 | Adding a genre, artist or album filter never brings a song into the list. |
| Listing.SortKeepsSongs | music_library/music/views.py:94-98 | The ordering never changes which songs are listed, nor how many. |
| Listing.PrivateSongsHidden | music_library/music/views.py:75-77 | Another user's private song is never listed. |
| Listing.SearchSongs | music_library/music/views.py:302-309 | At most 50 songs are found, each visible to the requester and matching the query in title, artist name, album title or lyrics, ignoring case. Below the limit every such song is found. Newest come first, and a matching song left out was uploaded no later than the last one shown, so the 50 kept are the newest. |
| Listing.SearchArtists | music_library/music/views.py:312 | At most 20 artists whose name contains the query, ignoring case, are found, sorted by name. Below the limit every such artist is found, and an artist left out sorts no earlier than the last one shown. |
| Listing.SearchAlbums | music_library/music/views.py:315-318 | At most 20 albums whose title or artist's name contains the query are found, in the album order: latest release first, then title. Below the limit every such album is found, and an album left out ranks no earlier than the last one shown. |
| Listing.Search | music_library/music/views.py:294-318 | The query is stripped. A blank query finds nothing. Otherwise the song, artist and album searches run on the stripped query. |
| Listing.SearchIgnoresBlanks | music_library/music/views.py:294 | Surrounding whitespace never changes what a search finds. |
| Listing.ArtistEntries | music_library/music/views.py:522-524 | Every artist appears exactly once, by name, with its song count. There are as many entries as artists. |
| Listing.WithCountsKeeps | music_library/music/views.py:522-524 | Annotating a name-ordered list of distinct artists with their song counts keeps the order and the one-entry-per-artist property, and every count is the artist's true song count. |
| Listing.ArtistIdsCount | music_library/music/views.py:522-524 | A duplicate-free scan over exactly the artist table has one entry per artist. |
| Listing.EntriesByName | music_library/music/views.py:524 | Entries ordered by the `order_by('name')` rank have their artists' names in non-decreasing order. |
| Listing.ArtistList | music_library/music/views.py:518-535 | The page is exactly the `Paginator` slice of the artist entries: every artist once, with its song count, in name order. So it shows at most 24 distinct artists, sorted by name, each with its true song count. |
| Listing.NewestWhere | music_library/music/models.py:194 | Exactly the songs the condition selects, each once, with every song listed before another uploaded no earlier. |
| Listing.ArtistDetail | music_library/music/views.py:546-548 | A missing artist is NotFound. Otherwise the page shows exactly the artist's songs the requester may see, newest first, and all of the artist's albums, latest release first and then by title. |
| Listing.ReleaseRankMeansOrder | music_library/music/models.py:103 | Comparing two albums' sort keys is exactly the `['-release_date', 'title']` order: the later release first, equal dates by title, and albums without a date after the dated ones. |
| Listing.TakeNewestTop | music_library/music/views.py:302-309 | Cutting a newest-first list at n keeps n songs, and any song cut off was uploaded no later than the last one kept. |
| Listing.ArtistsTop | music_library/music/views.py:312 | An artist that matches the query but is cut by `[:20]` sorts by name no earlier than the last artist kept. |
| Listing.AlbumsTop | music_library/music/views.py:315-318 | An album that matches the query but is cut by `[:20]` ranks no earlier than the last album kept. |
| Listing.AlbumDetail | music_library/music/views.py:563-564 | A missing album is NotFound. Otherwise the page shows exactly the album's songs the requester may see, newest first. |
| Details.RatingTotals | music_library/music/views.py:149-150 | The rating count is the number of users who rated the song, and the sum is the sum of those users' ratings, added user by user. |
| Details.RatingSumSnoc | music_library/music/views.py:149-150 | One more rater adds exactly that user's rating of the song to the sum, and a user without a rating adds nothing. |
| Details.RatingTotalsBounds | music_library/music/views.py:149 | With every rating in 1..5, the sum lies between the count and five times the count, so the average is between 1 and 5. |
| Details.NoRatingsNoTotal | music_library/music/views.py:149-150 | A song nobody rated has no sum and no count, so there is no average. |
| Details.CommentsOn | music_library/music/views.py:153 | The comments shown are the song's comment rows in reverse table order, so newest first. A comment posted twice is shown twice. A comment is shown exactly when it is a comment on the song. |
| Details.NewestCommentFirst | music_library/music/views.py:153 | A comment just added is shown first. |
| Details.RelatedSongs | music_library/music/views.py:156-158 | At most six other public songs are shown, each with the same artist or genre, newest upload first. Below the limit every such song is shown, and a related song left out was uploaded no later than the last one shown. |
| Details.SongDetail | music_library/music/views.py:135-158 | The visibility gate decides refusal. The page has the favorite flag, the requester's own rating, the rating count and sum, the song's comments newest first and the related songs. The song itself is never among the related songs. |
| Details.SongDetailAverage | music_library/music/views.py:149 | On a valid store the page's average lies between 1 and 5 whenever there is one. |
| Details.RatersAreRatings | music_library/music/views.py:150 | The raters counted are exactly the users with a rating row for the song. |
| Details.PlaylistDetail | music_library/music/views.py:361-373 | The visibility gate decides refusal. The page lists exactly the playlist's songs, once each, newest upload first, and says whether the requester owns it. |
| Details.MyPlaylists | music_library/music/views.py:342 | Exactly the requester's own playlists are listed, newest first. |
| Details.OthersPublicPlaylists | music_library/music/views.py:345-347 | At most ten public playlists of other users are listed, newest first. Below the limit every such playlist is listed, and a playlist left out was created no later than the last one listed. |
| Details.OthersPublicTop | music_library/music/views.py:345-347 | A public playlist of another user that `[:10]` cuts off was created no later than the last playlist listed, and the list is then full. |
| Details.PlaylistList | music_library/music/views.py:337-353 | "My playlists" are exactly the requester's own, each once, newest first. "Public playlists" are at most ten distinct public playlists of other users, newest first, none of them the requester's. If fewer than ten are shown, every such playlist is shown. Otherwise any left out is no newer than the last one shown. |
| Stats.PlaysBy | music_library/music/views.py:632-634 | The history shown is the requester's play rows in reverse table order, so every play appears as often as it was recorded. A row is shown exactly when it is one of the requester's plays. |
| Stats.PlaysByNewestFirst | music_library/music/views.py:634 | On a history recorded in time order, the requester's plays come newest first. |
| Stats.HistoryPage | music_library/music/views.py:632-645 | The page is exactly the `Paginator` slice of the requester's plays, newest first. So it holds at most 50 of the requester's plays, and the page count follows the requester's total number of plays. |
| Stats.TotalPlays | music_library/music/views.py:659 | `total_plays` is the number of history rows of the requester. |
| Stats.PlayCount | music_library/music/views.py:662-666 | A song's play count for the user is the number of history rows for that user and song, and never more than the history holds. |
| Stats.UploadsCounted | music_library/music/views.py:656 | `total_uploads` is the number of songs the user uploaded. |
| Stats.PlaylistsCounted | music_library/music/views.py:657 | `total_playlists` is the number of playlists the user owns. |
| Stats.FavoritesCounted | music_library/music/views.py:658 | `total_favorites` is the number of the user's favorite rows. |
| Stats.PlayCountPositive | music_library/music/views.py:662-665 | A song the user played has a row of theirs in the history. |
| Stats.PlayCountAppend | music_library/music/views.py:662-665 | One more play raises that (user, song) count by one and leaves every other count alone. |
| Stats.PlayedSongs | music_library/music/views.py:662-666 | The grouped rows are exactly the songs the requester played, once each, most played first. |
| Stats.TopPlayed | music_library/music/views.py:662-666 | At most ten songs, most played first. A played song left out was played no more often than the last one shown. |
| Stats.MostPlayed | music_library/music/views.py:661-674 | Each entry carries the song's true play count for the requester, in non-increasing order without repeats. No song left out beats the last entry. |
| Stats.NewPlaylistCounts | music_library/accounts/models.py:66-69 | A playlist saved under a fresh id raises its owner's `total_playlists` by one. |
| Stats.NewSongCounts | music_library/accounts/models.py:61-64 | A song saved under a fresh id raises its uploader's `total_uploads` by one. |
| Forms.CleanComment | music_library/music/forms.py:271-278 | Text is accepted exactly when its stripped length is 2..1000, and is saved stripped. Blank text is Required, one character is too short, and more than 1000 is too long. |
| Forms.CleanCommentIdempotent | music_library/music/forms.py:271-278 | Cleaning an accepted comment again accepts it unchanged. |
| Forms.CleanRating | music_library/music/forms.py:281-288 | Only the choices "1" to "5" are accepted, each as its number. An empty value is Required, and any other value is an invalid choice. |
| Forms.CleanRatingAccepts | music_library/music/models.py:435-438 | Every star value 1..5, submitted as its digit, is accepted as that value. |
| Forms.CleanBio | music_library/accounts/forms.py:173-178 | The bio is accepted exactly when it is at most 500 characters once stripped, and is saved stripped. Otherwise it is TooLong. |
| Forms.CleanBioIdempotent | music_library/accounts/forms.py:173-178 | Cleaning an accepted bio again accepts it unchanged. |
| Forms.Extension | music_library/music/models.py:154-162 | The extension is the text after the last dot of the file name, containing no dot or slash. |
| Forms.ExtensionOfJoin | music_library/music/models.py:157-159 | The extension of "stem.ext" is "ext". |
| Forms.CleanImageAsWritten | music_library/music/forms.py:186-199 | As written: a present image over 5MB is refused. A stored image then raises AttributeError. An upload passes exactly when its content type is one of the four image types. |
| Forms.CleanImage | music_library/music/forms.py:186-199 | Corrected: only a new upload is checked, first by the 5MB size limit and then by the four image content types. No file, or the stored file, passes unchanged. |
| Forms.CleanImageAgrees | music_library/music/forms.py:186-199 | On no file and on a fresh upload, the correction decides exactly as the original. |
| Forms.StoredCoverRaises | music_library/music/forms.py:196 | Editing a playlist that keeps its 100KB PNG cover raises in the original and passes once corrected. |
| Engagement.ToggleFavorite | music_library/music/views.py:484-493 | A missing song is NotFound. Otherwise the pair is created when absent and deleted when present, and the result says whether it is now a favorite. Every other pair and table is unchanged. |
| Engagement.ToggleTwice | music_library/music/views.py:485-489 | Two toggles restore the store and report opposite results. |
| Engagement.ToggleFavoriteCount | music_library/accounts/models.py:71-74 | `total_favorites` moves by exactly one in the direction the toggle reports. |
| Engagement.ToggleFavoriteKeepsValid | music_library/music/models.py:335 | Toggling keeps the store valid, with each (user, song) pair at most once. |
| Engagement.AddRating | music_library/music/views.py:604-613 | A missing song is NotFound and an invalid value is Rejected. Otherwise exactly one rating for (user, song) holds the submitted value, `created` holds exactly when none existed, and all other ratings are unchanged. |
| Engagement.RatingLastWins | music_library/music/views.py:609-613 | Rating again keeps the later value, is reported as an update, and adds no row. |
| Engagement.AddRatingKeepsValid | music_library/music/models.py:435-443 | Ratings stay unique per (user, song) and within 1..5. |
| Engagement.PlaySong | music_library/music/views.py:249-259 | The song's play count rises by exactly one, one history row (user, song, now) is appended, and the new count is returned. Nothing else changes. |
| Engagement.PlaySongKeepsCounters | music_library/music/views.py:252-255 | If every song's counter equals its number of history rows, a play keeps it so. |
| Engagement.PlaySongCountsForPlayer | music_library/music/views.py:655-665 | A play raises the player's count for that song, and their total plays, by one. |
| Engagement.PlayTimes | music_library/music/views.py:252-255 | n plays raise the counter by n and add n history rows for the song. |
| Engagement.PlaySongKeepsValid | music_library/music/models.py:352-359 | The appended history row references an existing user and song. |
| Engagement.DownloadSong | music_library/music/views.py:269-282 | The visibility gate decides refusal. Otherwise the song's file is served and its download count rises by one, with nothing else changed. |
| Engagement.DownloadSongKeepsValid | music_library/music/views.py:277 | Downloading keeps the store valid. |
| Engagement.AddComment | music_library/music/views.py:583-590 | A missing song is NotFound and invalid text is Rejected. Otherwise exactly one comment with the stripped text is appended, not marked edited. |
| Engagement.AddCommentKeepsValid | music_library/music/models.py:403 | Every stored comment stays within 1000 characters and references existing rows. |
| Playlists.NameErrors | music_library/music/models.py:251 | The name is valid exactly when it is 1..200 characters once stripped. |
| Playlists.CleanPlaylistForm | music_library/music/forms.py:152-199 | The form is accepted exactly when the stripped name has 1..200 characters and the cover passes. The saved values are the stripped name and description, the cover, and both the public and the collaborative flag. |
| Playlists.CoverErrors | music_library/music/forms.py:186-199 | The cover passes exactly when the image check passes: no file or the stored file always passes, and a new file must be at most 5MB with a JPEG, PNG or GIF content type. |
| Playlists.CreatePlaylist | music_library/music/views.py:383-388 | An invalid form is Rejected with its errors. A valid one adds one playlist under a fresh id, owned by the requester, with no songs. It holds the form's stripped name and description, the uploaded cover or none, and both flags. Other playlists are unchanged. |
| Playlists.CreatePlaylistCount | music_library/accounts/models.py:66-69 | Creating a playlist raises the owner's `total_playlists` by one. |
| Playlists.CreatePlaylistKeepsValid | music_library/music/models.py:253-257 | The new playlist's owner exists, so the store stays valid. |
| Playlists.EditPlaylist | music_library/music/views.py:403-408 | Someone else's playlist is NotFound and an invalid form is Rejected. An owned playlist with a valid form is always saved. Only the form's fields change, and songs, owner and creation time stay. The cover is kept unless a new file is uploaded. |
| Playlists.EditPlaylistKeepsValid | music_library/music/views.py:406-408 | Editing keeps the store valid. |
| Playlists.DeletePlaylist | music_library/music/views.py:424-426 | Deletion succeeds exactly for one's own playlist, and removes only that playlist. |
| Playlists.DeletePlaylistKeepsValid | music_library/music/views.py:426 | Deleting a playlist keeps the store valid. |
| Playlists.AddToPlaylist | music_library/music/views.py:436-448 | The song must exist and the playlist must be one's own, else NotFound. The song joins the playlist, and the result says whether it was new there. |
| Playlists.AddExistingUnchanged | music_library/music/views.py:444-445 | Adding a song already in the playlist changes nothing. |
| Playlists.ForeignPlaylistUntouchable | music_library/music/views.py:441 | Editing, deleting, adding to or removing from someone else's playlist all fail, changing nothing. |
| Playlists.AddToPlaylistKeepsValid | music_library/music/views.py:447 | Adding keeps every playlist's songs existing. |
| Playlists.RemoveFromPlaylist | music_library/music/views.py:465-468 | One's own playlist and an existing song are required, else NotFound. The song leaves that playlist and nothing else changes. |
| Playlists.AddThenRemove | music_library/music/views.py:447-468 | Adding a new song and removing it again restores the store. |
| Playlists.RemoveFromPlaylistKeepsValid | music_library/music/views.py:468 | Removing keeps the store valid. |
| Playlists.PlaylistTotalDuration | music_library/music/models.py:296-303 | The total is the sum, over the song ids in order, of the seconds of each song in the playlist. So each member song's duration is at most the total. |
| Playlists.AlbumTotalDuration | music_library/music/models.py:119-126 | The total is the sum, over the song ids in order, of the seconds of each song on the album. So each album song's duration is at most the total. |
| Playlists.ScanSeconds | music_library/music/models.py:296-303 | Adding up the durations of the rows the scan collects gives the same total as summing the selected songs' seconds id by id. |
| Playlists.PlaylistDurationFormatted | music_library/music/models.py:306-314 | The text reads back as the whole hours and the remaining whole minutes of the playlist's total seconds. |
| Catalog.Find | music_library/music/forms.py:119-121 | A lookup finds no row, exactly one matching row, or several distinct matching rows. |
| Catalog.GetOrCreate | music_library/music/forms.py:119-121 | `get_or_create` raises exactly when two rows match. It returns the match unchanged when there is one, and otherwise inserts the row under the next id. |
| Catalog.GetOrCreateTwice | music_library/music/forms.py:118-122 | A second `get_or_create` with the same key finds the row the first returned and writes nothing. |
| Catalog.GetOrCreateLeavesOne | music_library/music/forms.py:118-122 | After a `get_or_create` that did not raise, its row is the only one with the key. |
| Catalog.ResolveArtist | music_library/music/forms.py:117-122 | The artist is the selected one, or the one named by the stripped name, created when missing. Only an artist row may be added. |
| Catalog.ResolveAlbum | music_library/music/forms.py:124-132 | The album is the selected one, none when no title was typed, or the one keyed by (stripped title, artist), created when missing. |
| Catalog.ResolveGenre | music_library/music/forms.py:134-141 | The genre is the selected one, none, or the one with the stripped name, created when missing, and genre names stay unique. |
| Catalog.ResolveArtistTwice | music_library/music/forms.py:118-122 | Resolving the same new artist name twice returns the same artist and creates no duplicate. |
| Catalog.ResolveGenreNeverRaises | music_library/music/models.py:20 | Genre names are unique, so in a valid store the genre step never raises. |
| Catalog.CatalogExtendsKeepsValid | music_library/music/models.py:85-89 | Adding artist, album and genre rows keeps a valid store valid. |
| Catalog.Choice | music_library/music/forms.py:99-101 | An optional choice accepts nothing or an existing id, and refuses an unknown id. |
| Catalog.OptionalText | music_library/music/forms.py:21-49 | The new-name fields are stripped and at most 200 (genre: 100) characters. A blank value counts as absent. |
| Catalog.CleanTitle | music_library/music/models.py:134 | The title is required and at most 200 characters once stripped. |
| Catalog.CleanAudio | music_library/music/models.py:154-162 | The audio file is required: a new upload, or the file the song already has when editing, which passes as it is. A new upload is refused as too long when its name exceeds 100 characters, as invalid when it has no name, and as empty when it has no bytes. |
| Catalog.CleanFields | music_library/music/forms.py:96-109 | Every field fails only with a field-level error, and every selected id exists. |
| Catalog.SongFormErrors | music_library/music/forms.py:108-149 | NoArtist is reported exactly when neither an artist nor a name is given. The 50MB error appears exactly when there is an artist and the file is over 50·1024·1024 bytes. No error at all means every field is valid. |
| Catalog.Resolve | music_library/music/forms.py:117-141 | The three `get_or_create` steps run in order, and only MultipleObjectsReturned can stop them. |
| Catalog.CleanSongAsWritten | music_library/music/forms.py:108-149 | As written: the lookups write rows before the size check and whatever the other fields' errors. A refused form can therefore leave new rows behind. |
| Catalog.CleanSong | music_library/music/forms.py:108-149 | Corrected: a refused form is refused exactly when the errors are non-empty, with those errors, and writes nothing. An accepted form only adds catalog rows, and its artist, album and genre exist. |
| Catalog.CleanSongSaves | music_library/music/forms.py:108-149 | An accepted form saves the stripped title, a file within 50MB with an allowed extension, the duration, the stripped lyrics, the visibility as submitted, and the chosen or named artist. |
| Catalog.CleanSongSavesAlbumGenre | music_library/music/forms.py:125-141 | A chosen album or genre is saved as chosen. A blank title or name saves none. Otherwise the saved album is the one with the stripped title under the saved artist, and the saved genre the one with the stripped name. |
| Catalog.CleanSongAgrees | music_library/music/forms.py:108-149 | Where the original accepts, the correction accepts the same fields with the same writes. Where it refuses, the correction reports the same errors with no writes. |
| Catalog.RefusedUploadCreatesArtist | music_library/music/forms.py:118-147 | A 60MB MP3 under a new artist name is refused for its size, yet the original creates the artist. |
| Catalog.RefusedUploadWritesNothing | music_library/music/forms.py:143-147 | The correction refuses the same form with the same error and leaves the store unchanged. |
| Catalog.UploadSong | music_library/music/views.py:183-190 | An invalid form is Rejected with its errors, and MultipleObjectsReturned is a server error. A valid form saves one new song under a fresh id after the catalog writes. No other song, user or playlist changes. |
| Catalog.UploadedSong | music_library/music/views.py:186-188 | The uploaded song belongs to the requester, with zeroed counters, not featured, and the title, file and visibility the form gave. |
| Catalog.UploadSongCount | music_library/accounts/models.py:61-64 | An upload raises the uploader's `total_uploads` by one. |
| Catalog.UploadSongKeepsValid | music_library/music/views.py:183-188 | An upload keeps the store valid. |
| Catalog.EditSong | music_library/music/views.py:205-215 | A missing song is NotFound, and a non-uploader non-staff is refused. An invalid form is Rejected, and MultipleObjectsReturned is a server error. Otherwise a valid form rewrites the form's fields, including duration and lyrics, while counters, uploader and upload time stay. |
| Catalog.EditSongAudio | music_library/music/forms.py:66 | The plain `FileInput` has no clear box: an edit keeps the stored audio file unless a new file is uploaded. |
| Catalog.Edited | music_library/music/views.py:212-214 | The edited row takes the form's title, artist, album, genre, file, duration, lyrics and visibility, and keeps counters, uploader, upload time and the featured flag. |
| Catalog.EditSongKeepsValid | music_library/music/views.py:213-215 | An edit keeps the store valid. |
| Catalog.BulkFieldErrors | music_library/music/forms.py:384-430 | Corrected reading: each chosen file is cleaned on its own. The fields alone pass exactly when at least one file is sent, every file passes the file checks, every chosen artist, album and genre exists, and the new artist name is at most 200 characters. A missing file is reported exactly when none is sent. |
| Catalog.BulkErrors | music_library/music/forms.py:384-444 | Corrected reading: the form is accepted exactly when files are sent and each passes, every choice exists, the new artist name is at most 200 characters, and an artist or a name is given. NoArtist is reported exactly when neither an artist nor a name is given. |
| Catalog.FilesErrors | music_library/music/forms.py:389-397 | The files pass exactly when each one has a name of at most 100 characters and at least one byte. Otherwise the error is that of the first bad file. |
| Catalog.BulkFieldErrorsAsWritten | music_library/music/forms.py:389-397 | As written, a list from `MultipleFileInput` reaches `FileField.to_python`, which has no name to read: any non-empty list is invalid, and an empty one is missing. |
| Catalog.BulkErrorsAsWritten | music_library/music/forms.py:384-444 | As written, the form holds the field errors above, and NoArtist exactly when neither an artist nor a name is given. |
| Catalog.BulkNeverValidAsWritten | music_library/music/forms.py:389-397 | As written, no input at all makes the bulk form valid. |
| Catalog.OneFileBulkRefusedAsWritten | music_library/music/forms.py:389-397 | As written, one file with an existing artist is refused with only the invalid-file error. |
| Catalog.OneFileBulkAccepted | music_library/music/forms.py:384-444 | Under the corrected reading, one good file with an existing artist is accepted. |
| Catalog.BulkAgreesOffFiles | music_library/music/forms.py:399-444 | Apart from the file errors, the corrected and the as-written form report exactly the same errors. |
| Cascade.RemoveSongs | music_library/music/models.py:322-432 | Removing songs removes exactly their favorites, ratings, comments, plays and playlist entries, and nothing else. The comment and play tables keep every other row, in order and with repeats. |
| Cascade.RemoveSongsKeepsValid | music_library/music/models.py:322-432 | Removing songs together with everything that points at them keeps the store valid. |
| Cascade.DeleteSong | music_library/music/views.py:231-239 | A missing song is NotFound, and a non-uploader non-staff is refused. Otherwise nothing references the song afterwards. Exactly the favorites and ratings on other songs survive, ratings with their values. Every other song, comment and play survives in order. Each playlist loses only that song. The user, artist, album and genre tables, the id counter and the clock are unchanged. |
| Cascade.DeleteSongKeepsValid | music_library/music/views.py:239 | Deleting a song keeps the store valid. |
| Cascade.DeleteAlbum | music_library/music/models.py:140-145 | The album goes and every other album is unchanged. Its songs stay, with album set to null, and nothing else about any song changes. |
| Cascade.DeleteAlbumKeepsValid | music_library/music/models.py:140-145 | Deleting an album keeps the store valid. |
| Cascade.DeleteGenre | music_library/music/models.py:147-152 | The genre goes and every other genre is unchanged. Its songs stay, with genre set to null, and nothing else about any song changes. |
| Cascade.DeleteGenreKeepsValid | music_library/music/models.py:147-152 | Deleting a genre keeps the store valid. |
| Cascade.DeleteArtist | music_library/music/models.py:85-89 | The artist's albums and songs go, and nothing references the removed songs. Another artist's song on a removed album stays, with album set to null; every other surviving song keeps its album and all its other fields. The remaining artists and albums are unchanged. Exactly the favorites, ratings, comments, plays and playlist entries of the removed songs go, the rest survive in order, and the user and genre tables are unchanged. |
| Cascade.DropArtist | music_library/music/models.py:85-89 | The artist row and exactly their albums go, the other artists and albums unchanged. Every song stays, its album set to null exactly when it was one of the artist's albums. |
| Cascade.DropArtistKeepsValid | music_library/music/models.py:135-145 | Once none of an artist's songs remain, dropping the artist and their albums keeps the store valid. |
| Cascade.DeleteArtistKeepsValid | music_library/music/models.py:135-139 | Deleting an artist keeps the store valid. |
| Cascade.DeleteUser | music_library/music/models.py:172-176 | Nothing references the user afterwards. Their songs (with everything pointing at those), playlists, favorites, ratings, comments and plays are gone. Exactly the other users' rows on the remaining songs survive: users, songs and ratings unchanged, playlists minus the removed songs. Comments and plays keep their order, and the id counter and the clock are unchanged. |
| Cascade.RemoveUserRows | music_library/music/models.py:253-257 | Exactly the user's own playlists, favorites, ratings, comments and plays are removed. Everything else is unchanged, and the comment and play tables keep their other rows in order. |
| Cascade.DeleteUserKeepsValid | music_library/music/models.py:172-176 | Deleting a user keeps the store valid. |
| Accounts.FullName | music_library/accounts/models.py:52-59 | Without a first name the username is shown, even when a last name is set. With a first name the full name begins with it, and is just the first name when there is no last name. |
| Accounts.FullNameSplits | music_library/accounts/models.py:55-56 | With both names set and no space in the first name, "first last" splits back into the two names. |
| Accounts.LastAt | music_library/accounts/models.py:12-17 | The position found holds '@' and no '@' follows it; there is none exactly when the address has no '@'. |
| Accounts.NormalizeEmail | music_library/accounts/models.py:12-17 | The email the inherited `AbstractUser.clean` stores: same length, everything up to the last '@' kept, every later character lower-cased; an address without '@' unchanged. |
| Accounts.NormalizeKeepsAts | music_library/accounts/models.py:12-17 | Normalising keeps every '@' where it was, and adds none. |
| Accounts.NormalizeEmailIdempotent | music_library/accounts/models.py:12-17 | Normalising a normalised address changes nothing. |
| Accounts.NormalizeEmailExample | music_library/accounts/models.py:17 | "Bob@EXAMPLE.com" is stored as "Bob@example.com": the name part keeps its case. |
| Accounts.DomainCaseRefused | music_library/accounts/models.py:17 | An address whose normal form another user already has is refused with AlreadyTaken, although `clean_email`'s exact comparison lets it through. |
| Accounts.SavedEmailsNormal | music_library/accounts/models.py:12-17 | Every row registration or a profile update saves holds its email in normal form. |
| Accounts.UsernameErrors | music_library/accounts/forms.py:78-83 | The username is accepted exactly when it is 1..150 characters once stripped and belongs to no user other than the excepted one. AlreadyTaken is reported exactly when such a user exists. |
| Accounts.EmailErrors | music_library/accounts/forms.py:71-76 | The email is accepted exactly when it is present, at most 254 characters, and neither it nor its normalised form belongs to a user other than the excepted one. AlreadyTaken is reported exactly when the exact value is taken, or when the normalised one is and the length check passed. |
| Accounts.RegisterErrors | music_library/accounts/forms.py:29-83 | The form is accepted exactly when the stripped username is 1..150 characters and nobody has it, the stripped email is 1..254 characters and nobody has it or its normalised form, and both names are at most 100 characters. |
| Accounts.NamesErrors | music_library/accounts/forms.py:29-45 | The optional first and last names are accepted exactly when both are within the length limit once stripped. They never cause an AlreadyTaken error. |
| Accounts.Register | music_library/accounts/views.py:24-26 | Registration is refused exactly when the form has errors, and reports those errors. Otherwise the new user is saved as a row added under a fresh id. |
| Accounts.RegisteredUser | music_library/accounts/forms.py:15-49 | The registered user has the stripped username and names, the stripped email with its domain lower-cased, an empty bio and no picture, and is not staff. |
| Accounts.NewUser | music_library/accounts/forms.py:47-49 | The saved row carries the form's stripped fields with the email normalised, an empty bio and no picture, and is not staff. |
| Accounts.AddUser | music_library/accounts/views.py:26 | The new row gets the next id, which no user had. Every other user stays as it was, and only the user table and the id counter change. |
| Accounts.AddUserKeepsValid | music_library/accounts/models.py:17 | Adding a user whose username and email nobody has keeps usernames and emails unique. |
| Accounts.RegisterKeepsValid | music_library/accounts/models.py:17 | Registration keeps usernames and emails unique. |
| Accounts.PictureErrors | music_library/accounts/models.py:23-33 | The picture passes exactly when the corrected image check passes and the file's extension is jpg, jpeg, png or gif. With no file, or with the stored picture, the image check always passes. |
| Accounts.ProfileErrors | music_library/accounts/forms.py:144-178 | The update is valid exactly when the username and email are well formed and free among the other users (the email also in its normalised form), and the names, bio and picture pass. AlreadyTaken is reported exactly when another user has the value, or the normalised email. |
| Accounts.UpdateProfile | music_library/accounts/views.py:93-104 | A profile update is refused exactly when the form has errors, and reports those errors. Otherwise only the requester's row changes: every other user and every other table stays as it was. The picture is a new upload or the stored one. |
| Accounts.ProfileSaved | music_library/accounts/forms.py:86-178 | The saved row holds the form's stripped username, names and bio, and the stripped email with its domain lower-cased. It holds the new picture when one is uploaded and the stored picture otherwise. The requester's staff status is kept. |
| Accounts.Updated | music_library/accounts/forms.py:99-109 | The form's stripped fields overwrite the row, the email normalised. The picture changes only when a new file is uploaded, and staff status is kept. |
| Accounts.KeepingOwnValuesPasses | music_library/accounts/forms.py:144-156 | Submitting one's own current username never collides. One's own current email collides exactly when another user holds its normalised form, and so never when it is stored normalised. |
| Accounts.OthersValuesRefused | music_library/accounts/forms.py:147-155 | Taking another user's username or email is refused. |
| Accounts.UpdateProfileKeepsValid | music_library/accounts/models.py:17 | A profile update keeps usernames and emails unique. |

## Left out

- Templates, flash messages, redirects, `JsonResponse`, `FileResponse` and opening the audio file are I/O. A refusal that the source answers with a redirect is modelled as `PermissionDenied`.
- Login, logout, sessions, the `next` redirect and passwords in `UserCreationForm` are authentication plumbing that Django provides. The model's `Register` covers only the form's own fields.
- The `home` view, the `favorites` listing and `ArtistForm`, `AlbumForm` and `GenreForm` are not part of this model. They are plain reads or admin-style forms with no rule of their own.
- `SongSearchForm`, `AdvancedSearchForm` and `PlaylistAddSongsForm` declare fields that no view checks.
- `file_size` uses float division and `round`. The average rating is a float aggregate. `Details.RatingTotals` gives the (sum, count) pair instead.
- `file_name` (`os.path.basename`) is left out. `Forms.BaseName` models the same split only for the extension check.
- Timestamps are an abstract clock. Creation order is id order. `updated_at` and `date_joined` are not modelled.
- The lost update in the read-modify-write of `play_count` is a concurrency concern. The operations are modelled one after the other.
- Case-insensitive search folds ASCII letters only. Database collation is not modelled: names and titles are ordered by code point.
- The database's per-column length limits beyond those the forms check are left out, as is the `release_year` field.
- `is_collaborative` is stored but never enforced, and so it is only stored.
- Durations are whole seconds. The upload form's HH:MM:SS parsing is left out.
- Models.TotalDuration: durations are non-negative. The source's `DurationField` also accepts a negative value such as "-30", and `total_duration` adds it in, so there a song's duration can exceed the total. Negative durations are not modelled.
- Models.DurationFormattedRoundTrip: stated for non-negative durations only. For a negative one the source floors, showing -90 seconds as "-2:30", and the model has no such duration.
- Models.TotalDurationFormattedRoundTrip: stated for non-negative totals only, for the same reason as Models.TotalDuration.
- Playlists.PlaylistTotalDuration: the bound "each song's duration is at most the total" holds because durations are non-negative here; with the source's negative durations it does not.
- Playlists.AlbumTotalDuration: the same non-negative-duration gap as Playlists.PlaylistTotalDuration.
- Playlists.PlaylistDurationFormatted: stated for non-negative totals only, as Models.TotalDurationFormattedRoundTrip.
- Forms.CleanComment: Django's `CharField` also refuses a value holding a null character ("Null characters are not allowed."). No cleaner in the model checks for it, so "hi\x00there" is accepted here and refused by the source.
- Forms.CleanBio: the same null-character refusal as Forms.CleanComment is not modelled.
- Playlists.NameErrors: the same null-character refusal as Forms.CleanComment is not modelled, here or for the description.
- Catalog.OptionalText: the same null-character refusal as Forms.CleanComment is not modelled.
- Catalog.CleanTitle: the same null-character refusal as Forms.CleanComment is not modelled, here or for the lyrics.
- Accounts.NamesErrors: the same null-character refusal as Forms.CleanComment is not modelled, here or for the username and email.
- Accounts.UsernameErrors: the username character check (`UnicodeUsernameValidator`: letters, digits and @/./+/-/_) and the NFKC normalisation `AbstractBaseUser.clean` applies are not modelled. The uniqueness checks compare the stripped text as it is.
- Decimal.ParseInt: Python's `int()` also accepts underscores between digits ("1_0") and non-ASCII decimal digits. The model reads only an optional sign and ASCII digits.
- Playlists.AddToPlaylist: the playlist is an optional id. In the source, a non-numeric `playlist_id` such as "abc" or "" makes `get_object_or_404` raise ValueError, a 500; the model cannot express that input. An absent value is a 404 in both.
- Catalog.BulkErrors: models the form's validation only, in the corrected reading that cleans each chosen file. The view that would save the files is not part of this model. The form as written is Catalog.BulkErrorsAsWritten (see Findings).
- Catalog.UploadSong: built on the corrected Catalog.CleanSong, so a refused upload writes no rows. As written, the source keeps the artist, album and genre rows that `clean()` created before refusing (Catalog.CleanSongAsWritten, Catalog.RefusedUploadCreatesArtist). When `get_or_create` finds several rows, the model answers ServerError with the store unchanged. The source also answers with a 500, but keeps the rows written before the error.
- Catalog.EditSong: built on the corrected Catalog.CleanSong, with the same two differences as Catalog.UploadSong.
- Playlists.EditPlaylist: built on the corrected Forms.CleanImage, so keeping the stored cover succeeds. As written, the source raises AttributeError there (Forms.CleanImageAsWritten, Forms.StoredCoverRaises).
- Accounts.UpdateProfile: built on the corrected Forms.CleanImage through Accounts.PictureErrors, so keeping the stored picture succeeds where the source raises AttributeError.
- Catalog.GetOrCreate: when `get_or_create` raises MultipleObjectsReturned, the request is aborted. Catalog.CleanSongAsWritten keeps the rows written by the earlier steps, while the corrected Catalog.CleanSong leaves the store unchanged.
- Accounts.EmailErrors: the e-mail syntax check (`EmailValidator`) is not modelled. `normalize_email` lower-cases the domain with Python's full Unicode `str.lower`; Accounts.NormalizeEmail folds ASCII letters only.
- Accounts.PictureErrors: `ImageField`'s own checks, which run before `clean_profile_picture`, are not modelled. These are the 100-character limit on a new file's name (the model field has the default `max_length`), the refusal of a nameless or empty file, and the Pillow decoding. (The field's own extension validator, which is stricter than ImageField's default one, is modelled.) Nor is `ImageField.to_python`'s replacement of the declared content type by the one Pillow detects. So a valid 1KB PNG named with 120 "a"s and ".png" passes the model but not the source. The check is the corrected Forms.CleanImage, so a kept picture passes where the source raises AttributeError.
- Playlists.CoverErrors: `ImageField`'s own checks, which run before `clean_cover_image`, are not modelled. The file is not decoded with Pillow. The content type is the one the upload declares, not the one Pillow detects. The default image-extension validator is not applied. So a file "x.txt" declared as image/png passes the model but not the source.
- Playlists.CleanPlaylistForm: has the same cover gap as Playlists.CoverErrors.
- Listing.SongList: the genre, artist and album filters are modelled as ids. The source passes the raw GET strings to the query, so a non-numeric value such as `?genre=abc` raises ValueError (a 500). The model cannot express that input.
- Paging.PageNumber: Python's `int()` also accepts underscores between digits ("1_0") and non-ASCII decimal digits. The model reads only an optional sign and ASCII digits, so it serves page 1 for such a value where the source serves the page named.
- Listing.SearchAlbums: an album without a release date is placed after the dated ones. That is how SQLite sorts NULL in a descending order; PostgreSQL would put it first. Release dates are day numbers.
- `date_of_birth` is an optional date with no rule, and is not modelled.

## Findings

| source | as written | input that shows it | evidently intended | confidence | as-written member | corrected member |
|---|---|---|---|---|---|---|
| music_library/music/forms.py:108-149 | `clean()` runs the artist, album and genre `get_or_create` calls before the 50MB check, and whatever the other fields' errors | a new artist name "New Band" with a 60MB MP3 | a refused upload writes no rows | not executed | Catalog.RefusedUploadCreatesArtist | Catalog.RefusedUploadWritesNothing |
| music_library/music/forms.py:186-199 | `clean_cover_image` reads `.content_type` on the stored file when the user keeps the existing cover, which raises AttributeError (so does `clean_profile_picture`, music_library/accounts/forms.py:158-171) | editing a playlist with a 100KB PNG cover and no new file | only a new upload is checked; the stored file passes | not executed | Forms.CleanImageAsWritten | Forms.CleanImage |
| music_library/music/forms.py:389-397 | `audio_files` is a plain `FileField` whose widget, `MultipleFileInput`, hands it the list of chosen files. `FileField.to_python` reads `.name` and `.size` of what it gets, and a list has neither | one MP3 chosen with an existing artist | every chosen file is cleaned on its own, and good files pass | not executed | Catalog.BulkErrorsAsWritten | Catalog.BulkErrors |
