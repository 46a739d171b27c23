/**
 * The Google sign-in verify callback: find the user by Google id, else link
 * the Google id to the user with the profile's first email, else create a
 * new user from the profile.
 */
module Passport {
  import opened Wrappers
  import opened Accounts

  /** The parts of a Google profile the callback reads. `photos` is empty when
      the profile has none. */
  datatype Profile = Profile(id: string, emails: seq<string>, displayName: Option<string>, photos: seq<string>)

  /** What the callback hands to `done`: a user, or an error and no user. */
  datatype Done = Done(user: User) | DoneError

  /** `!user.avatar`. */
  predicate NoAvatar(a: Option<string>) {
    a.None? || a.value == []
  }

  /** The first photo, or `null`. */
  function FirstPhoto(p: Profile): (a: Option<string>)
    ensures a.Some? <==> p.photos != []
    ensures a.Some? ==> a.value == p.photos[0]
  {
    if p.photos != [] then Some(p.photos[0]) else None
  }

  /** Linking an existing account: set the Google id, and fill the avatar only
      when it is empty and the profile has a photo. */
  function Link(u: User, p: Profile): (v: User)
    ensures v.googleId == Some(p.id)
    ensures v.id == u.id && v.email == u.email && v.name == u.name && v.passwordHash == u.passwordHash
    ensures !NoAvatar(u.avatar) || p.photos == [] ==> v.avatar == u.avatar
    ensures NoAvatar(u.avatar) && p.photos != [] ==> v.avatar == Some(p.photos[0])
  {
    var linked := u.(googleId := Some(p.id));
    if NoAvatar(u.avatar) && p.photos != [] then linked.(avatar := Some(p.photos[0])) else linked
  }

  predicate KnownGoogleId(s: Store, gid: string) {
    FindByGoogleId(s.users, gid).Some?
  }

  /** The verify callback. An empty email list (reading `emails[0]` throws) and
      a missing display name (the name column is required) end in an error. */
  function Verify(s: Store, p: Profile): (r: (Store, Done))
    ensures KnownGoogleId(s, p.id) ==> r == (s, Done(s.users[FindByGoogleId(s.users, p.id).value]))
    ensures r.1.DoneError? ==> r.0 == s
    ensures r.1.Done? ==> r.1.user.googleId == Some(p.id)
    ensures !KnownGoogleId(s, p.id) && r.1.Done? ==> p.emails != [] && r.1.user.email == p.emails[0]
    ensures !KnownGoogleId(s, p.id) && p.emails != [] && EmailTaken(s, p.emails[0]) ==>
              r.1.Done? && |r.0.users| == |s.users| && r.0.tokens == s.tokens
    ensures !KnownGoogleId(s, p.id) && p.emails != [] && !EmailTaken(s, p.emails[0]) && p.displayName.Some? ==>
              && r.1 == Done(User(|s.users| + 1, p.emails[0], None, Some(p.id), p.displayName.value, FirstPhoto(p)))
              && r.0 == Store(s.users + [r.1.user], s.tokens)
    ensures !KnownGoogleId(s, p.id) && (p.emails == [] || (!EmailTaken(s, p.emails[0]) && p.displayName.None?)) ==>
              r == (s, DoneError)
  {
    match FindByGoogleId(s.users, p.id)
    case Some(k) => (s, Done(s.users[k]))
    case None =>
      if p.emails == [] then (s, DoneError)
      else
        match FindByEmail(s.users, p.emails[0])
        case Some(k) =>
          var u := Link(s.users[k], p);
          (SaveUser(s, k, u), Done(u))
        case None =>
          if p.displayName.None? then (s, DoneError)
          else
            var (s1, u) := AddUser(s, p.emails[0], None, Some(p.id), p.displayName.value, FirstPhoto(p));
            (s1, Done(u))
  }

  /** The callback keeps the schema's constraints: in particular it never adds a
      second user with an email already stored, nor a second holder of a Google
      id, and the user it returns is a stored row. */
  lemma VerifyValid(s: Store, p: Profile)
    requires Valid(s)
    ensures Valid(Verify(s, p).0)
    ensures Verify(s, p).1.Done? ==>
              var u := Verify(s, p).1.user;
              1 <= u.id <= |Verify(s, p).0.users| && Verify(s, p).0.users[u.id - 1] == u
  {
    if FindByGoogleId(s.users, p.id).None? && p.emails != [] {
      match FindByEmail(s.users, p.emails[0])
      case Some(k) =>
        var u := Link(s.users[k], p);
        var s' := SaveUser(s, k, u);
        forall i, j | 0 <= i < j < |s'.users| ensures s'.users[i].email != s'.users[j].email {
          assert s'.users[i].email == s.users[i].email && s'.users[j].email == s.users[j].email;
        }
        forall i, j | 0 <= i < j < |s'.users| && s'.users[i].googleId.Some?
          ensures s'.users[i].googleId != s'.users[j].googleId
        {
          if i != k && j != k {
            assert s'.users[i] == s.users[i] && s'.users[j] == s.users[j];
          } else if i == k {
            assert s'.users[j] == s.users[j];
          } else {
            assert s'.users[i] == s.users[i];
          }
        }
      case None =>
        if p.displayName.Some? {
          AddUserValid(s, p.emails[0], None, Some(p.id), p.displayName.value, FirstPhoto(p));
        }
    }
  }

  /** Signing in twice with the same profile returns the same user the second
      time and changes nothing. */
  lemma VerifyIdempotent(s: Store, p: Profile)
    requires Valid(s) && Verify(s, p).1.Done?
    ensures var (s1, d) := Verify(s, p);
            Verify(s1, p) == (s1, d)
  {
    VerifyValid(s, p);
    var (s1, d) := Verify(s, p);
    var k := d.user.id - 1;
    assert s1.users[k].googleId == Some(p.id);
    var j := FindByGoogleId(s1.users, p.id).value;
    SameGoogleIdSameRow(s1.users, j, k);
  }
}
