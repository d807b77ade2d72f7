/**
 * The field validators of the forms: comment text, rating choice, bio,
 * image uploads and file-name extensions. Each cleans one submitted value
 * into either the value that is saved or the error shown to the user.
 */
module Forms {
  import opened Wrappers
  import opened Library
  import Text
  import Decimal

  const MaxAudioBytes: nat := 50 * 1024 * 1024
  const MaxImageBytes: nat := 5 * 1024 * 1024
  const ImageTypes: seq<string> := ["image/jpeg", "image/jpg", "image/png", "image/gif"]
  const AudioExtensions: seq<string> := ["mp3", "wav", "ogg", "m4a", "flac"]
  const PictureExtensions: seq<string> := ["jpg", "jpeg", "png", "gif"]
  const MaxCommentLength: nat := 1000
  const MinCommentLength: nat := 2
  const MaxBioLength: nat := 500

  // ---------------------------------------------------------------- comments

  /**
   * `CommentForm`: the text field strips its value, is required and holds at
   * most 1000 characters; `clean_text` then refuses fewer than two.
   */
  function CleanComment(raw: string): (r: Result<string, FormError>)
    ensures r.Success? <==> MinCommentLength <= |Text.Strip(raw)| <= MaxCommentLength
    ensures r.Success? ==> r.value == Text.Strip(raw)
    ensures Text.AllSpace(raw) ==> r == Failure(Required(TextField))
    ensures |Text.Strip(raw)| == 1 ==> r == Failure(CommentTooShort)
    ensures |Text.Strip(raw)| > MaxCommentLength ==> r == Failure(TooLong(TextField))
  {
    var t := Text.Strip(raw);
    if t == [] then Failure(Required(TextField))
    else if |t| > MaxCommentLength then Failure(TooLong(TextField))
    else if |t| < MinCommentLength then Failure(CommentTooShort)
    else Success(t)
  }

  /** Cleaning is stable: an accepted comment, submitted again, is accepted as it is. */
  lemma CleanCommentIdempotent(raw: string)
    requires CleanComment(raw).Success?
    ensures CleanComment(CleanComment(raw).value) == CleanComment(raw)
  {
    Text.StripIdempotent(raw);
  }

  // ------------------------------------------------------------------ rating

  /**
   * `RatingForm`: a choice among "1" to "5" compared as text (no stripping),
   * coerced to an integer; an absent or empty value is required.
   */
  function CleanRating(raw: Option<string>): (r: Result<int, FormError>)
    ensures raw.None? || raw == Some("") ==> r == Failure(Required(RatingField))
    ensures r.Success? ==> 1 <= r.value <= 5 && raw == Some(Decimal.ShowNat(r.value))
    ensures r.Failure? && raw.Some? && raw.value != "" ==> r == Failure(InvalidChoice(RatingField))
  {
    if raw.None? || raw.value == "" then Failure(Required(RatingField))
    else if raw.value == "1" then Success(1)
    else if raw.value == "2" then Success(2)
    else if raw.value == "3" then Success(3)
    else if raw.value == "4" then Success(4)
    else if raw.value == "5" then Success(5)
    else Failure(InvalidChoice(RatingField))
  }

  /** Every star value is accepted when submitted as its digit. */
  lemma CleanRatingAccepts(v: int)
    requires 1 <= v <= 5
    ensures CleanRating(Some(Decimal.ShowNat(v))) == Success(v)
  {
    assert Decimal.ShowNat(v) == [Decimal.DigitChar(v)];
  }

  // --------------------------------------------------------------------- bio

  /**
   * `UserUpdateForm`'s bio: stripped, optional, at most 500 characters. The
   * model field's length check runs before `clean_bio` and makes the same
   * decision, so a single error is reported.
   */
  function CleanBio(raw: string): (r: Result<string, FormError>)
    ensures r.Success? <==> |Text.Strip(raw)| <= MaxBioLength
    ensures r.Success? ==> r.value == Text.Strip(raw)
    ensures r.Failure? ==> r.error == TooLong(BioField)
  {
    var t := Text.Strip(raw);
    if |t| > MaxBioLength then Failure(TooLong(BioField)) else Success(t)
  }

  /** Cleaning is stable: an accepted bio, submitted again, is accepted as it is. */
  lemma CleanBioIdempotent(raw: string)
    requires CleanBio(raw).Success?
    ensures CleanBio(CleanBio(raw).value) == CleanBio(raw)
  {
    Text.StripIdempotent(raw);
  }

  // -------------------------------------------------------------- extensions

  /** The position of the last `c` in `s`, if any. */
  function LastIndexOf(s: string, c: char): (r: Option<nat>)
    ensures r.None? <==> c !in s
    ensures r.Some? ==> r.value < |s| && s[r.value] == c && c !in s[r.value + 1..]
  {
    if s == [] then None
    else if s[|s| - 1] == c then Some(|s| - 1)
    else
      var r := LastIndexOf(s[..|s| - 1], c);
      assert s == s[..|s| - 1] + [s[|s| - 1]];
      r
  }

  /** The last component of a slash-separated path. */
  function BaseName(name: string): (b: string)
    ensures '/' !in b
    ensures |b| <= |name| && name[|name| - |b|..] == b
  {
    match LastIndexOf(name, '/')
    case None => name
    case Some(i) => name[i + 1..]
  }

  /**
   * The extension `FileExtensionValidator` reads: the text after the last dot
   * of the last path component, empty when that dot is the first or the last
   * character of the component (the `suffix` of a `pathlib` path).
   */
  function Extension(name: string): (ext: string)
    ensures '.' !in ext && '/' !in ext
    ensures ext != [] ==> |ext| < |name| && name[|name| - |ext|..] == ext && name[|name| - |ext| - 1] == '.'
  {
    var b := BaseName(name);
    match LastIndexOf(b, '.')
    case None => []
    case Some(i) =>
      if 0 < i < |b| - 1 then
        SuffixOfSuffix(name, b, i);
        b[i + 1..]
      else []
  }

  /** What follows position `i` of a suffix `b` of `name` is a suffix of `name`, preceded by `b[i]`. */
  lemma SuffixOfSuffix(name: string, b: string, i: nat)
    requires |b| <= |name| && name[|name| - |b|..] == b && i < |b|
    ensures b[i + 1..] == name[|name| - (|b| - i - 1)..]
    ensures name[|name| - (|b| - i - 1) - 1] == b[i]
  {
    var k := |name| - |b|;
    assert name[k + i] == b[i];
    assert b[i + 1..] == name[k..][i + 1..];
  }

  /** The extension of `stem.ext` is `ext` when the stem is a non-empty file name. */
  lemma ExtensionOfJoin(stem: string, ext: string)
    requires stem != [] && '/' !in stem
    requires ext != [] && '.' !in ext && '/' !in ext
    ensures Extension(stem + ['.'] + ext) == ext
  {
    var name := stem + ['.'] + ext;
    assert '/' !in name;
    assert BaseName(name) == name;
    assert name[|stem|] == '.';
    assert name[|stem| + 1..] == ext;
  }

  /** The validator's decision: the lower-cased extension is in the allowed list. */
  predicate ExtensionAllowed(name: string, allowed: seq<string>)
  {
    Text.Fold(Extension(name)) in allowed
  }

  /** A lower-case extension from the list, after a plain stem, is accepted. */
  lemma AllowedOfJoin(stem: string, ext: string, allowed: seq<string>)
    requires stem != [] && '/' !in stem
    requires ext != [] && '.' !in ext && '/' !in ext
    requires forall i :: 0 <= i < |ext| ==> !('A' <= ext[i] <= 'Z')
    requires ext in allowed
    ensures ExtensionAllowed(stem + ['.'] + ext, allowed)
  {
    ExtensionOfJoin(stem, ext);
    Text.FoldUnchanged(ext);
  }

  // ------------------------------------------------------------------ images

  /**
   * What a file field holds once cleaned: nothing, the file the row already
   * stores (when the user sends no new one), or a fresh upload. An upload's
   * content type stands for the one the image field reports; Pillow's
   * decoding, which sets it in the source, is not modelled.
   */
  datatype FileValue = NoFile | Stored(file: Upload) | Uploaded(file: Upload)

  /** The file the row keeps once the form is saved. */
  function FileOf(v: FileValue): Option<Upload>
  {
    if v.NoFile? then None else Some(v.file)
  }

  /**
   * The value a `FileInput` gives the field of a row that stores `stored`.
   * The widget has no "clear" checkbox, so a request without a new file
   * leaves exactly the stored file (or nothing, when there is none).
   */
  predicate FromRow(v: FileValue, stored: Option<Upload>)
  {
    v.Uploaded? || FileOf(v) == stored
  }

  /** Under a `FileInput` the saved file is the new upload, or else the one the row had. */
  lemma FromRowKeeps(v: FileValue, stored: Option<Upload>)
    requires FromRow(v, stored)
    ensures FileOf(v) == if v.Uploaded? then Some(v.file) else stored
    ensures v.Stored? ==> stored == Some(v.file)
    ensures v.NoFile? ==> stored.None?
  {
  }

  /**
   * `clean_cover_image` and `clean_profile_picture` as they run: a present
   * file over 5MB is refused, then its content type is read. A stored file
   * has no content type, so reading it raises `AttributeError`.
   */
  datatype ImageOutcome = Kept(value: FileValue) | Invalid(error: FormError) | RaisesAttributeError

  function CleanImageAsWritten(field: Field, v: FileValue): (r: ImageOutcome)
    ensures v.NoFile? ==> r == Kept(v)
    ensures !v.NoFile? && v.file.size > MaxImageBytes ==> r == Invalid(ImageTooLarge(field))
    ensures v.Stored? && v.file.size <= MaxImageBytes ==> r == RaisesAttributeError
    ensures v.Uploaded? && v.file.size <= MaxImageBytes ==>
      (r == Kept(v) <==> v.file.contentType in ImageTypes) &&
      (r.Invalid? <==> v.file.contentType !in ImageTypes)
  {
    match v
    case NoFile => Kept(v)
    case Stored(f) => if f.size > MaxImageBytes then Invalid(ImageTooLarge(field)) else RaisesAttributeError
    case Uploaded(f) =>
      if f.size > MaxImageBytes then Invalid(ImageTooLarge(field))
      else if f.contentType !in ImageTypes then Invalid(BadImageType(field))
      else Kept(v)
  }

  /**
   * The evident intent: only a new upload is checked, by size first and then
   * by content type; no file, or the file already stored, passes unchanged.
   */
  function CleanImage(field: Field, v: FileValue): (r: Result<FileValue, FormError>)
    ensures r.Success? ==> r.value == v
    ensures !v.Uploaded? ==> r.Success?
    ensures v.Uploaded? ==>
      (r.Success? <==> v.file.size <= MaxImageBytes && v.file.contentType in ImageTypes)
    ensures v.Uploaded? && v.file.size > MaxImageBytes ==> r == Failure(ImageTooLarge(field))
    ensures v.Uploaded? && v.file.size <= MaxImageBytes && v.file.contentType !in ImageTypes ==>
      r == Failure(BadImageType(field))
  {
    match v
    case Uploaded(f) =>
      if f.size > MaxImageBytes then Failure(ImageTooLarge(field))
      else if f.contentType !in ImageTypes then Failure(BadImageType(field))
      else Success(v)
    case _ => Success(v)
  }

  /** On a fresh upload, and on no file, the correction decides exactly as the original. */
  lemma CleanImageAgrees(field: Field, v: FileValue)
    requires !v.Stored?
    ensures CleanImageAsWritten(field, v) ==
      match CleanImage(field, v)
      case Success(x) => Kept(x)
      case Failure(e) => Invalid(e)
  {
  }

  /**
   * Editing a playlist that has a 100KB PNG cover, without choosing a new
   * file, raises in the original and passes once corrected.
   */
  lemma StoredCoverRaises()
    ensures var cover := Stored(Upload("playlist_covers/a.png", 100 * 1024, ""));
      CleanImageAsWritten(CoverField, cover) == RaisesAttributeError &&
      CleanImage(CoverField, cover) == Success(cover)
  {
  }
}
