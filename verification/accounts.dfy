/**
 * The custom `User` model and its two forms: registration, which refuses a
 * username or email any user already has, and the profile update, which
 * refuses them only when a different user has them.
 */
module Accounts {
  import opened Wrappers
  import opened Library
  import Text
  import Decimal
  import Forms

  const MaxUsernameLength: nat := 150
  const MaxEmailLength: nat := 254
  /** The registration form declares its own, shorter name fields. */
  const MaxRegisterNameLength: nat := 100
  const MaxNameLength: nat := 150

  // --------------------------------------------------------------- full_name

  /**
   * `full_name`: "first last" when both are set, the first name alone when
   * only it is set, and otherwise the username, even when a last name is set.
   */
  function FullName(u: User): (r: string)
    ensures u.firstName == [] ==> r == u.username
    ensures u.firstName != [] ==> |u.firstName| <= |r| && r[..|u.firstName|] == u.firstName
    ensures u.firstName != [] && u.lastName == [] ==> r == u.firstName
  {
    if u.firstName != [] && u.lastName != [] then u.firstName + " " + u.lastName
    else if u.firstName != [] then u.firstName
    else u.username
  }

  /** When the first name has no space, the full name splits back into the two names. */
  lemma FullNameSplits(u: User)
    requires u.firstName != [] && u.lastName != [] && ' ' !in u.firstName
    ensures Decimal.SplitAt(FullName(u), ' ') == Some((u.firstName, u.lastName))
  {
    Decimal.SplitAtJoin(u.firstName, ' ', u.lastName);
  }

  // ------------------------------------------------------------ field checks

  /** A `CharField`: stripped, then `Required` when blank and required, `TooLong` past `max`. */
  function CleanChar(raw: string, required: bool, max: nat, field: Field): (r: Result<string, FormError>)
    ensures r.Success? <==> (required ==> Text.Strip(raw) != []) && |Text.Strip(raw)| <= max
    ensures r.Success? ==> r.value == Text.Strip(raw)
    ensures r.Failure? && Text.Strip(raw) == [] ==> r.error == Required(field)
    ensures r.Failure? && Text.Strip(raw) != [] ==> r.error == TooLong(field)
  {
    var t := Text.Strip(raw);
    if required && t == [] then Failure(Required(field))
    else if |t| > max then Failure(TooLong(field))
    else Success(t)
  }

  function ErrorsOf<T>(r: Result<T, FormError>): (e: set<FormError>)
    ensures e == {} <==> r.Success?
    ensures r.Failure? ==> e == {r.error}
  {
    match r
    case Success(_) => {}
    case Failure(x) => {x}
  }

  /** Some user other than `except` already has this username. */
  predicate UsernameTaken(st: Store, name: string, except: Option<Id>)
  {
    exists u :: u in st.users && Some(u) != except && st.users[u].username == name
  }

  /** Some user other than `except` already has this email. */
  predicate EmailTaken(st: Store, email: string, except: Option<Id>)
  {
    exists u :: u in st.users && Some(u) != except && st.users[u].email == email
  }

  /** The position of the last '@' in `s`, if any (what `rsplit("@", 1)` splits at). */
  function LastAt(s: string): (r: Option<nat>)
    ensures r.None? <==> forall j :: 0 <= j < |s| ==> s[j] != '@'
    ensures r.Some? ==> r.value < |s| && s[r.value] == '@'
    ensures r.Some? ==> forall j :: r.value < j < |s| ==> s[j] != '@'
  {
    if s == [] then None
    else if s[|s| - 1] == '@' then Some(|s| - 1)
    else LastAt(s[..|s| - 1])
  }

  /**
   * `BaseUserManager.normalize_email`, which `AbstractUser.clean` applies
   * before the row is checked for uniqueness and saved: the part after the
   * last '@' is lower-cased, the part before it kept. An address without
   * '@' is left as it is.
   */
  function NormalizeEmail(e: string): (r: string)
    ensures |r| == |e|
    ensures LastAt(e).None? ==> r == e
    ensures LastAt(e).Some? ==>
      var i := LastAt(e).value;
      r[..i + 1] == e[..i + 1] && forall j :: i < j < |e| ==> r[j] == Text.LowerChar(e[j])
  {
    match LastAt(e)
    case None => e
    case Some(i) => e[..i + 1] + Text.Fold(e[i + 1..])
  }

  /** Normalising keeps every '@' where it was. */
  lemma NormalizeKeepsAts(e: string)
    ensures forall j :: 0 <= j < |e| ==> (NormalizeEmail(e)[j] == '@' <==> e[j] == '@')
  {
    var r := NormalizeEmail(e);
    if LastAt(e).Some? {
      var i := LastAt(e).value;
      forall j | 0 <= j < |e| ensures r[j] == '@' <==> e[j] == '@' {
        if j <= i { assert r[j] == r[..i + 1][j] && e[j] == e[..i + 1][j]; }
      }
    }
  }

  /** A normalised address is its own normal form. */
  lemma NormalizeEmailIdempotent(e: string)
    ensures NormalizeEmail(NormalizeEmail(e)) == NormalizeEmail(e)
  {
    var r := NormalizeEmail(e);
    NormalizeKeepsAts(e);
    if LastAt(e).Some? {
      var i := LastAt(e).value;
      assert LastAt(r).Some? by { assert r[i] == '@'; }
      var k := LastAt(r).value;
      assert r[i] == '@' && e[k] == '@';
      assert k == i;
      var rr := NormalizeEmail(r);
      forall j | 0 <= j < |e| ensures rr[j] == r[j] {
        if j <= i { assert rr[j] == rr[..i + 1][j] && r[j] == r[..i + 1][j]; }
      }
    } else {
      assert LastAt(r).None?;
    }
  }

  /** Only the domain's upper-case letters change: `bob@EXAMPLE.com` becomes `bob@example.com`. */
  lemma NormalizeEmailExample()
    ensures NormalizeEmail("Bob@EXAMPLE.com") == "Bob@example.com"
  {
    var e := "Bob@EXAMPLE.com";
    assert e[3] == '@';
    assert forall j :: 0 <= j < |e| && j != 3 ==> e[j] != '@';
    assert LastAt(e) == Some(3);
    var r := NormalizeEmail(e);
    assert forall j :: 3 < j < |e| ==> r[j] == Text.LowerChar(e[j]);
    assert r == "Bob@example.com";
  }

  /**
   * The username field and `clean_username`: required, at most 150
   * characters, and not a username of anyone but `except`.
   */
  function UsernameErrors(st: Store, raw: string, except: Option<Id>): (e: set<FormError>)
    ensures e == {} <==>
      0 < |Text.Strip(raw)| <= MaxUsernameLength && !UsernameTaken(st, Text.Strip(raw), except)
    ensures AlreadyTaken(UsernameField) in e <==>
      0 < |Text.Strip(raw)| <= MaxUsernameLength && UsernameTaken(st, Text.Strip(raw), except)
    ensures AlreadyTaken(EmailField) !in e
  {
    var t := Text.Strip(raw);
    if t == [] then {Required(UsernameField)}
    else if |t| > MaxUsernameLength then {TooLong(UsernameField)}
    else if UsernameTaken(st, t, except) then {AlreadyTaken(UsernameField)}
    else {}
  }

  /**
   * The email field and `clean_email`: required and not the email of anyone
   * but `except`. Then the model's own checks: the 254-character limit, and
   * the unique column, which compares the normalised address. Both uniqueness
   * refusals are reported as `AlreadyTaken`.
   */
  function EmailErrors(st: Store, raw: string, except: Option<Id>): (e: set<FormError>)
    ensures e == {} <==>
      && 0 < |Text.Strip(raw)| <= MaxEmailLength
      && !EmailTaken(st, Text.Strip(raw), except)
      && !EmailTaken(st, NormalizeEmail(Text.Strip(raw)), except)
    ensures AlreadyTaken(EmailField) in e <==>
      && Text.Strip(raw) != []
      && (|| EmailTaken(st, Text.Strip(raw), except)
          || (|Text.Strip(raw)| <= MaxEmailLength && EmailTaken(st, NormalizeEmail(Text.Strip(raw)), except)))
    ensures AlreadyTaken(UsernameField) !in e
  {
    var t := Text.Strip(raw);
    if t == [] then {Required(EmailField)}
    else if EmailTaken(st, t, except) then {AlreadyTaken(EmailField)}
    else if |t| > MaxEmailLength then {TooLong(EmailField)}
    else if EmailTaken(st, NormalizeEmail(t), except) then {AlreadyTaken(EmailField)}
    else {}
  }

  /** An address that differs from a stored one only in the domain's case is refused. */
  lemma DomainCaseRefused(st: Store, raw: string, other: Id, except: Option<Id>)
    requires other in st.users && Some(other) != except
    requires 0 < |Text.Strip(raw)| <= MaxEmailLength
    requires NormalizeEmail(Text.Strip(raw)) == st.users[other].email
    ensures AlreadyTaken(EmailField) in EmailErrors(st, raw, except)
  {
    assert EmailTaken(st, NormalizeEmail(Text.Strip(raw)), except);
  }

  // ------------------------------------------------------------ registration

  /** What `UserRegisterForm` submits, passwords aside. */
  datatype Registration = Registration(username: string, email: string, firstName: string, lastName: string)

  /** The optional first and last name fields, each at most `max` characters once stripped. */
  function NamesErrors(first: string, last: string, max: nat): (e: set<FormError>)
    ensures e == {} <==> |Text.Strip(first)| <= max && |Text.Strip(last)| <= max
    ensures forall f :: AlreadyTaken(f) !in e
  {
    ErrorsOf(CleanChar(first, false, max, FirstNameField)) + ErrorsOf(CleanChar(last, false, max, LastNameField))
  }

  function RegisterErrors(st: Store, input: Registration): (e: set<FormError>)
    ensures e == {} <==>
      && 0 < |Text.Strip(input.username)| <= MaxUsernameLength
      && !UsernameTaken(st, Text.Strip(input.username), None)
      && 0 < |Text.Strip(input.email)| <= MaxEmailLength
      && !EmailTaken(st, Text.Strip(input.email), None)
      && !EmailTaken(st, NormalizeEmail(Text.Strip(input.email)), None)
      && |Text.Strip(input.firstName)| <= MaxRegisterNameLength
      && |Text.Strip(input.lastName)| <= MaxRegisterNameLength
  {
    UsernameErrors(st, input.username, None) + EmailErrors(st, input.email, None)
      + NamesErrors(input.firstName, input.lastName, MaxRegisterNameLength)
  }

  /** `register`: a valid form saves a new, non-staff user with an empty bio and no picture. */
  function Register(st: Store, input: Registration): (r: Result<Step<Id>, Denial>)
    requires IdsBelow(st)
    ensures r.Failure? <==> RegisterErrors(st, input) != {}
    ensures r.Failure? ==> r.error == Rejected(RegisterErrors(st, input))
    ensures r.Success? ==> r.value == AddUser(st, NewUser(input))
  {
    var errors := RegisterErrors(st, input);
    if errors != {} then Failure(Rejected(errors))
    else Success(AddUser(st, NewUser(input)))
  }

  /**
   * The registered user is a non-staff account with the form's stripped
   * values (the email normalised), an empty bio and no picture.
   */
  lemma RegisteredUser(st: Store, input: Registration)
    requires IdsBelow(st) && Register(st, input).Success?
    ensures var r := Register(st, input).value;
      var u := r.store.users[r.out];
      && u.username == Text.Strip(input.username) && u.email == NormalizeEmail(Text.Strip(input.email))
      && u.firstName == Text.Strip(input.firstName) && u.lastName == Text.Strip(input.lastName)
      && u.bio == [] && u.picture.None? && !u.isStaff
  {
    assert Register(st, input).value == AddUser(st, NewUser(input));
  }

  /** The row `UserRegisterForm.save()` builds, after the model's `clean` normalised the email. */
  function NewUser(input: Registration): (u: User)
    ensures u.username == Text.Strip(input.username) && u.email == NormalizeEmail(Text.Strip(input.email))
    ensures u.firstName == Text.Strip(input.firstName) && u.lastName == Text.Strip(input.lastName)
    ensures u.bio == [] && u.picture.None? && !u.isStaff
  {
    User(Text.Strip(input.username), NormalizeEmail(Text.Strip(input.email)),
      Text.Strip(input.firstName), Text.Strip(input.lastName), [], None, false)
  }

  /** Saves a new user row under the next id. */
  function AddUser(st: Store, u: User): (r: Step<Id>)
    requires IdsBelow(st)
    ensures r.out == st.nextId && r.out !in st.users
    ensures r.store.users.Keys == st.users.Keys + {r.out} && r.store.users[r.out] == u
    ensures forall v :: v in st.users ==> r.store.users[v] == st.users[v]
    ensures r.store == st.(users := r.store.users, nextId := st.nextId + 1)
  {
    Step(st.(users := st.users[st.nextId := u], nextId := st.nextId + 1), st.nextId)
  }

  /** A new user whose username and email nobody has keeps the store valid. */
  lemma AddUserKeepsValid(st: Store, u: User)
    requires Valid(st)
    requires !UsernameTaken(st, u.username, None) && !EmailTaken(st, u.email, None)
    ensures Valid(AddUser(st, u).store)
  {
    var after := AddUser(st, u).store;
    var id := st.nextId;
    forall a, b | a in after.users && b in after.users && after.users[a].username == after.users[b].username
      ensures a == b
    {
      if a != id && b != id {
        assert after.users[a] == st.users[a] && after.users[b] == st.users[b];
      }
    }
    forall a, b | a in after.users && b in after.users && after.users[a].email == after.users[b].email
      ensures a == b
    {
      if a != id && b != id {
        assert after.users[a] == st.users[a] && after.users[b] == st.users[b];
      }
    }
    UsersChangeKeepsValid(st, after.users, after.nextId);
  }

  /** A user row replaced or added under the same constraints keeps the store valid. */
  lemma UsersChangeKeepsValid(st: Store, users: map<Id, User>, nextId: nat)
    requires Valid(st) && st.nextId <= nextId
    requires st.users.Keys <= users.Keys && forall u :: u in users ==> u < nextId
    requires forall a, b :: a in users && b in users && users[a].username == users[b].username ==> a == b
    requires forall a, b :: a in users && b in users && users[a].email == users[b].email ==> a == b
    ensures Valid(st.(users := users, nextId := nextId))
  {
    var after := st.(users := users, nextId := nextId);
    assert CatalogOk(after) by {
      forall s | s in after.songs ensures SongRefsOk(after, after.songs[s]) {
        assert SongRefsOk(st, st.songs[s]);
      }
      forall p | p in after.playlists ensures PlaylistOk(after, after.playlists[p]) {
        assert PlaylistOk(st, st.playlists[p]);
      }
    }
    assert EngagementOk(after) by {
      forall c | c in after.comments ensures CommentOk(after, c) {
        assert CommentOk(st, c);
      }
      forall p | p in after.history ensures PlayOk(after, p) {
        assert PlayOk(st, p);
      }
    }
  }

  /** Registration keeps usernames and emails unique. */
  lemma RegisterKeepsValid(st: Store, input: Registration)
    requires Valid(st) && Register(st, input).Success?
    ensures Valid(Register(st, input).value.store)
  {
    AddUserKeepsValid(st, NewUser(input));
  }


  // ---------------------------------------------------------- profile update

  /** What `UserUpdateForm` submits; `picture` is the stored file when no new one is sent. */
  datatype ProfileInput = ProfileInput(
    username: string, email: string, firstName: string, lastName: string,
    bio: string, picture: Forms.FileValue)

  /**
   * `clean_profile_picture` (with stored files passed through), then the
   * model's extension validator on whatever file the field holds.
   */
  function PictureErrors(v: Forms.FileValue): (e: set<FormError>)
    ensures e == {} <==>
      Forms.CleanImage(PictureField, v).Success? &&
      (!v.NoFile? ==> Forms.ExtensionAllowed(v.file.name, Forms.PictureExtensions))
    ensures v.NoFile? ==> e == {}
    ensures forall f :: AlreadyTaken(f) !in e
  {
    match Forms.CleanImage(PictureField, v)
    case Failure(x) => {x}
    case Success(_) =>
      if !v.NoFile? && !Forms.ExtensionAllowed(v.file.name, Forms.PictureExtensions)
      then {BadExtension(PictureField)} else {}
  }

  /** The fields of `UserUpdateForm` that no other user's row can affect. */
  function OwnFieldErrors(input: ProfileInput): (e: set<FormError>)
    ensures e == {} <==>
      && |Text.Strip(input.firstName)| <= MaxNameLength
      && |Text.Strip(input.lastName)| <= MaxNameLength
      && Forms.CleanBio(input.bio).Success?
      && PictureErrors(input.picture) == {}
    ensures forall f :: AlreadyTaken(f) !in e
  {
    NamesErrors(input.firstName, input.lastName, MaxNameLength)
      + ErrorsOf(Forms.CleanBio(input.bio))
      + PictureErrors(input.picture)
  }

  function ProfileErrors(st: Store, user: Id, input: ProfileInput): (e: set<FormError>)
    ensures e == {} <==>
      && 0 < |Text.Strip(input.username)| <= MaxUsernameLength
      && !UsernameTaken(st, Text.Strip(input.username), Some(user))
      && 0 < |Text.Strip(input.email)| <= MaxEmailLength
      && !EmailTaken(st, Text.Strip(input.email), Some(user))
      && !EmailTaken(st, NormalizeEmail(Text.Strip(input.email)), Some(user))
      && OwnFieldErrors(input) == {}
    ensures AlreadyTaken(UsernameField) in e <==>
      0 < |Text.Strip(input.username)| <= MaxUsernameLength && UsernameTaken(st, Text.Strip(input.username), Some(user))
    ensures AlreadyTaken(EmailField) in e <==>
      && Text.Strip(input.email) != []
      && (|| EmailTaken(st, Text.Strip(input.email), Some(user))
          || (|Text.Strip(input.email)| <= MaxEmailLength
              && EmailTaken(st, NormalizeEmail(Text.Strip(input.email)), Some(user))))
  {
    UsernameErrors(st, input.username, Some(user)) + EmailErrors(st, input.email, Some(user))
      + OwnFieldErrors(input)
  }

  /**
   * `profile`: a valid form rewrites the requester's own row and nothing else.
   * The picture widget is a plain `FileInput`, so the picture the form holds
   * is a new upload or the one the row already stores.
   */
  function UpdateProfile(st: Store, user: Id, input: ProfileInput): (r: Result<Store, Denial>)
    requires user in st.users && Forms.FromRow(input.picture, st.users[user].picture)
    ensures r.Failure? <==> ProfileErrors(st, user, input) != {}
    ensures r.Failure? ==> r.error == Rejected(ProfileErrors(st, user, input))
    ensures r.Success? ==>
      && r.value == st.(users := r.value.users)
      && r.value.users.Keys == st.users.Keys
      && (forall u :: u in st.users && u != user ==> r.value.users[u] == st.users[u])
  {
    var errors := ProfileErrors(st, user, input);
    if errors != {} then Failure(Rejected(errors))
    else Success(st.(users := st.users[user := Updated(st.users[user], input)]))
  }

  /** A saved profile holds the form's stripped values (the email normalised) and keeps the requester's staff status. */
  lemma ProfileSaved(st: Store, user: Id, input: ProfileInput)
    requires user in st.users && Forms.FromRow(input.picture, st.users[user].picture)
    requires UpdateProfile(st, user, input).Success?
    ensures var u := UpdateProfile(st, user, input).value.users[user];
      && u.username == Text.Strip(input.username) && u.email == NormalizeEmail(Text.Strip(input.email))
      && u.firstName == Text.Strip(input.firstName) && u.lastName == Text.Strip(input.lastName)
      && u.bio == Text.Strip(input.bio)
      && u.picture == (if input.picture.Uploaded? then Some(input.picture.file) else st.users[user].picture)
      && u.isStaff == st.users[user].isStaff
  {
    assert UpdateProfile(st, user, input).value.users[user] == Updated(st.users[user], input);
  }

  /**
   * The row `UserUpdateForm.save()` leaves: the form's stripped values (the
   * email normalised by the model's `clean`), everything else kept.
   */
  function Updated(prev: User, input: ProfileInput): (u: User)
    requires Forms.FromRow(input.picture, prev.picture)
    ensures u.username == Text.Strip(input.username) && u.email == NormalizeEmail(Text.Strip(input.email))
    ensures u.firstName == Text.Strip(input.firstName) && u.lastName == Text.Strip(input.lastName)
    ensures u.bio == Text.Strip(input.bio)
    ensures u.picture == (if input.picture.Uploaded? then Some(input.picture.file) else prev.picture)
    ensures u.isStaff == prev.isStaff
  {
    prev.(username := Text.Strip(input.username), email := NormalizeEmail(Text.Strip(input.email)),
      firstName := Text.Strip(input.firstName), lastName := Text.Strip(input.lastName),
      bio := Text.Strip(input.bio), picture := Forms.FileOf(input.picture))
  }

  /**
   * Submitting one's own current username never collides. One's own current
   * email collides exactly when another user holds its normal form, which
   * cannot happen when the stored email is already normalised, as every
   * row these forms save is.
   */
  lemma KeepingOwnValuesPasses(st: Store, user: Id, input: ProfileInput)
    requires UniqueKeys(st) && user in st.users
    requires Text.Strip(input.username) == st.users[user].username
    requires Text.Strip(input.email) == st.users[user].email
    ensures AlreadyTaken(UsernameField) !in ProfileErrors(st, user, input)
    ensures var t := st.users[user].email;
      AlreadyTaken(EmailField) in ProfileErrors(st, user, input) <==>
        0 < |t| <= MaxEmailLength && EmailTaken(st, NormalizeEmail(t), Some(user))
    ensures NormalizeEmail(st.users[user].email) == st.users[user].email ==>
      AlreadyTaken(EmailField) !in ProfileErrors(st, user, input)
  {
    assert !UsernameTaken(st, Text.Strip(input.username), Some(user));
    assert !EmailTaken(st, Text.Strip(input.email), Some(user));
  }

  /** Every row a form saves holds its email in normal form. */
  lemma SavedEmailsNormal(input: Registration, prev: User, update: ProfileInput)
    requires Forms.FromRow(update.picture, prev.picture)
    ensures NormalizeEmail(NewUser(input).email) == NewUser(input).email
    ensures NormalizeEmail(Updated(prev, update).email) == Updated(prev, update).email
  {
    NormalizeEmailIdempotent(Text.Strip(input.email));
    NormalizeEmailIdempotent(Text.Strip(update.email));
  }

  /** Taking another user's username or email is refused. */
  lemma OthersValuesRefused(st: Store, user: Id, other: Id, input: ProfileInput)
    requires user in st.users && other in st.users && other != user
    requires Forms.FromRow(input.picture, st.users[user].picture)
    requires Text.Strip(input.username) == st.users[other].username ||
             Text.Strip(input.email) == st.users[other].email
    ensures UpdateProfile(st, user, input).Failure?
  {
  }

  /** A profile update keeps usernames and emails unique. */
  lemma UpdateProfileKeepsValid(st: Store, user: Id, input: ProfileInput)
    requires Valid(st) && user in st.users && Forms.FromRow(input.picture, st.users[user].picture)
    requires UpdateProfile(st, user, input).Success?
    ensures Valid(UpdateProfile(st, user, input).value)
  {
    var after := UpdateProfile(st, user, input).value;
    assert !UsernameTaken(st, Text.Strip(input.username), Some(user));
    assert !EmailTaken(st, NormalizeEmail(Text.Strip(input.email)), Some(user));
    forall a, b | a in after.users && b in after.users && after.users[a].username == after.users[b].username
      ensures a == b
    {
      if a != user && b != user {
        assert after.users[a] == st.users[a] && after.users[b] == st.users[b];
      }
    }
    forall a, b | a in after.users && b in after.users && after.users[a].email == after.users[b].email
      ensures a == b
    {
      if a != user && b != user {
        assert after.users[a] == st.users[a] && after.users[b] == st.users[b];
      }
    }
    UsersChangeKeepsValid(st, after.users, after.nextId);
  }
}
