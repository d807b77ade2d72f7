/**
 * The behaviour the music models carry themselves: field defaults, the two
 * counters, and the duration properties and formatters.
 */
module Models {
  import opened Wrappers
  import opened Library
  import Decimal

  /** A Song row created with the model's defaults for every field the caller does not give. */
  function NewSong(
    title: string, artist: Id, album: Option<Id>, genre: Option<Id>, audio: Upload,
    duration: Option<nat>, lyrics: string, uploader: Id, at: nat): (s: Song)
    ensures s.playCount == 0 && s.downloadCount == 0
    ensures s.isPublic && !s.isFeatured
    ensures s.uploadedBy == uploader && s.uploadedAt == at
    ensures s.title == title && s.artist == artist && s.album == album && s.genre == genre
  {
    Song(title, artist, album, genre, audio, duration, lyrics, uploader, at, 0, 0, true, false)
  }

  /** A Playlist row created with the model's defaults: private, not collaborative, empty. */
  function NewPlaylist(name: string, description: string, owner: Id, at: nat): (p: Playlist)
    ensures !p.isPublic && !p.isCollaborative && p.songs == {} && p.cover.None?
    ensures p.owner == owner && p.name == name && p.createdAt == at
  {
    Playlist(name, description, owner, {}, None, false, false, at)
  }

  /** `Song.increment_play_count`: one more play, every other field as it was. */
  function IncrementPlayCount(s: Song): (r: Song)
    ensures r.playCount == s.playCount + 1
    ensures r.(playCount := s.playCount) == s
  {
    s.(playCount := s.playCount + 1)
  }

  /** `Song.increment_download_count`: one more download, every other field as it was. */
  function IncrementDownloadCount(s: Song): (r: Song)
    ensures r.downloadCount == s.downloadCount + 1
    ensures r.(downloadCount := s.downloadCount) == s
  {
    s.(downloadCount := s.downloadCount + 1)
  }

  /** The seconds a duration contributes to a total: nothing when it is null or zero. */
  function Seconds(d: Option<nat>): nat
  {
    if d.Some? then d.value else 0
  }

  /** Sum of the durations that are set, the loop of `total_duration`. */
  function TotalDuration(ds: seq<Option<nat>>): (total: nat)
    ensures forall i :: 0 <= i < |ds| && ds[i].Some? ==> ds[i].value <= total
    ensures total == 0 <==> forall i :: 0 <= i < |ds| ==> Seconds(ds[i]) == 0
  {
    if ds == [] then 0
    else
      var init := ds[..|ds| - 1];
      assert forall i :: 0 <= i < |init| ==> init[i] == ds[i];
      TotalDuration(init) + Seconds(ds[|ds| - 1])
  }

  lemma {:induction false} TotalDurationAppend(a: seq<Option<nat>>, b: seq<Option<nat>>)
    ensures TotalDuration(a + b) == TotalDuration(a) + TotalDuration(b)
    decreases |b|
  {
    if b == [] {
      assert a + b == a;
    } else {
      var b' := b[..|b| - 1];
      assert (a + b)[..|a + b| - 1] == a + b';
      assert (a + b)[|a + b| - 1] == b[|b| - 1];
      TotalDurationAppend(a, b');
    }
  }

  /** `total_duration` as the model computes it: a running total over the rows. */
  method SumDurations(ds: seq<Option<nat>>) returns (total: nat)
    ensures total == TotalDuration(ds)
  {
    total := 0;
    var i := 0;
    while i < |ds|
      invariant 0 <= i <= |ds|
      invariant total == TotalDuration(ds[..i])
    {
      assert ds[..i + 1][..i] == ds[..i];
      if ds[i].Some? {
        total := total + ds[i].value;
      }
      i := i + 1;
    }
    assert ds[..|ds|] == ds;
  }

  /** `duration_formatted`: "m:ss" with the seconds zero-padded, "0:00" when there is no duration. */
  function DurationFormatted(d: Option<nat>): string
  {
    if d.Some? && d.value != 0 then
      var total := d.value;
      Decimal.ShowNat(total / 60) + ":" + Decimal.Pad2(total % 60)
    else "0:00"
  }

  /** Reads "m:ss" back: whole minutes, a colon, exactly two digits of seconds below 60. */
  function ParseMinutesSeconds(s: string): Option<nat>
  {
    match Decimal.SplitAt(s, ':')
    case None => None
    case Some((m, sec)) =>
      match (Decimal.ParseNat(m), Decimal.ParseNat(sec))
      case (Some(minutes), Some(seconds)) =>
        if |sec| == 2 && seconds < 60 then Some(minutes * 60 + seconds) else None
      case _ => None
  }

  /** Reading a formatted duration back gives the duration (zero when there is none). */
  lemma DurationFormattedRoundTrip(d: Option<nat>)
    ensures ParseMinutesSeconds(DurationFormatted(d)) == Some(Seconds(d))
  {
    var t := Seconds(d);
    var m := Decimal.ShowNat(t / 60);
    var sec := Decimal.Pad2(t % 60);
    Decimal.ParseShowNat(t / 60);
    NoSeparator(m, ':');
    Decimal.SplitAtJoin(m, ':', sec);
    if t == 0 {
      assert m == "0";
      assert sec == "00";
    }
    assert DurationFormatted(d) == m + [':'] + sec;
  }

  /** `total_duration_formatted`: "Hh Mm" when there is at least one hour, else "Mm"; seconds dropped. */
  function TotalDurationFormatted(total: nat): string
  {
    var hours := total / 3600;
    var minutes := (total % 3600) / 60;
    if hours > 0 then Decimal.ShowNat(hours) + "h " + Decimal.ShowNat(minutes) + "m"
    else Decimal.ShowNat(minutes) + "m"
  }

  /** Reads "Hh Mm" or "Mm" back into (hours, minutes). */
  function ParseHoursMinutes(s: string): Option<(nat, nat)>
  {
    if |s| == 0 || s[|s| - 1] != 'm' then None
    else
      var body := s[..|s| - 1];
      match Decimal.SplitAt(body, 'h')
      case Some((h, rest)) =>
        if |rest| > 0 && rest[0] == ' ' then
          match (Decimal.ParseNat(h), Decimal.ParseNat(rest[1..]))
          case (Some(hours), Some(minutes)) => Some((hours, minutes))
          case _ => None
        else None
      case None =>
        match Decimal.ParseNat(body)
        case Some(minutes) => Some((0, minutes))
        case None => None
  }

  lemma NoSeparator(s: string, c: char)
    requires Decimal.AllDigits(s) && !Decimal.IsDigit(c)
    ensures c !in s
  {
  }

  /**
   * The formatted total reads back as whole hours and minutes below 60 that
   * account for the total to within the dropped seconds.
   */
  lemma TotalDurationFormattedRoundTrip(total: nat)
    ensures ParseHoursMinutes(TotalDurationFormatted(total)) == Some((total / 3600, (total % 3600) / 60))
    ensures var h, m := total / 3600, (total % 3600) / 60;
      m < 60 && h * 3600 + m * 60 <= total < h * 3600 + m * 60 + 60
  {
    var hours := total / 3600;
    var minutes := (total % 3600) / 60;
    var hs := Decimal.ShowNat(hours);
    var ms := Decimal.ShowNat(minutes);
    Decimal.ParseShowNat(hours);
    Decimal.ParseShowNat(minutes);
    NoSeparator(ms, 'h');
    var s := TotalDurationFormatted(total);
    if hours > 0 {
      NoSeparator(hs, 'h');
      assert s[..|s| - 1] == hs + ['h'] + (" " + ms);
      Decimal.SplitAtJoin(hs, 'h', " " + ms);
      assert (" " + ms)[1..] == ms;
    } else {
      assert s[..|s| - 1] == ms;
    }
  }
}
