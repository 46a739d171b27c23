/**
 * The account records: users (email/password or Google) and stored refresh
 * tokens, with the uniqueness and reference constraints the schema declares.
 */
module Accounts {
  import opened Wrappers

  /** A user row. `passwordHash` is absent for accounts created through Google. */
  datatype User = User(id: nat, email: string, passwordHash: Option<string>,
                       googleId: Option<string>, name: string, avatar: Option<string>)

  /** A stored refresh token with its expiry, in milliseconds since the epoch. */
  datatype TokenRecord = TokenRecord(userId: nat, token: string, expiresAt: int)

  /** Users in insertion order (ids are assigned 1, 2, 3, …) and the token rows. */
  datatype Store = Store(users: seq<User>, tokens: seq<TokenRecord>)

  const EmptyStore := Store([], [])

  const DayMs := 86400000

  /** Refresh tokens are stored with an expiry thirty days ahead. */
  const RefreshDays := 30

  function Expiry(now: int): (t: int)
    ensures t > now
  {
    now + RefreshDays * DayMs
  }

  predicate EmailsUnique(users: seq<User>) {
    forall i, j :: 0 <= i < j < |users| ==> users[i].email != users[j].email
  }

  predicate GoogleIdsUnique(users: seq<User>) {
    forall i, j :: 0 <= i < j < |users| && users[i].googleId.Some? ==> users[i].googleId != users[j].googleId
  }

  predicate TokensUnique(tokens: seq<TokenRecord>) {
    forall i, j :: 0 <= i < j < |tokens| ==> tokens[i].token != tokens[j].token
  }

  /** The schema's constraints: sequential ids, unique email, unique Google id,
      unique token, and every token referring to an existing user. */
  predicate Valid(s: Store) {
    && (forall i :: 0 <= i < |s.users| ==> s.users[i].id == i + 1)
    && EmailsUnique(s.users)
    && GoogleIdsUnique(s.users)
    && TokensUnique(s.tokens)
    && (forall i :: 0 <= i < |s.tokens| ==> 1 <= s.tokens[i].userId <= |s.users|)
  }

  predicate EmailTaken(s: Store, email: string) {
    exists i :: 0 <= i < |s.users| && s.users[i].email == email
  }

  /** Look a user up by email. */
  function FindByEmail(users: seq<User>, email: string): (r: Option<nat>)
    ensures r.Some? <==> exists i :: 0 <= i < |users| && users[i].email == email
    ensures r.Some? ==> r.value < |users| && users[r.value].email == email
  {
    if users == [] then None
    else if users[|users| - 1].email == email then Some(|users| - 1)
    else FindByEmail(users[..|users| - 1], email)
  }

  /** Look a user up by Google id. */
  function FindByGoogleId(users: seq<User>, gid: string): (r: Option<nat>)
    ensures r.Some? <==> exists i :: 0 <= i < |users| && users[i].googleId == Some(gid)
    ensures r.Some? ==> r.value < |users| && users[r.value].googleId == Some(gid)
  {
    if users == [] then None
    else if users[|users| - 1].googleId == Some(gid) then Some(|users| - 1)
    else FindByGoogleId(users[..|users| - 1], gid)
  }

  predicate TokenStored(tokens: seq<TokenRecord>, token: string) {
    exists i :: 0 <= i < |tokens| && tokens[i].token == token
  }

  /** The row holding `token` for `userId`, if any. */
  function FindToken(tokens: seq<TokenRecord>, token: string, userId: nat): (r: Option<nat>)
    ensures r.Some? <==> exists i :: 0 <= i < |tokens| && tokens[i].token == token && tokens[i].userId == userId
    ensures r.Some? ==> r.value < |tokens| && tokens[r.value].token == token && tokens[r.value].userId == userId
  {
    if tokens == [] then None
    else if tokens[|tokens| - 1].token == token && tokens[|tokens| - 1].userId == userId then Some(|tokens| - 1)
    else FindToken(tokens[..|tokens| - 1], token, userId)
  }

  /** `User.create`: the new row gets the next id. */
  function AddUser(s: Store, email: string, passwordHash: Option<string>, googleId: Option<string>,
                   name: string, avatar: Option<string>): (r: (Store, User))
    ensures r.1 == User(|s.users| + 1, email, passwordHash, googleId, name, avatar)
    ensures r.0 == Store(s.users + [r.1], s.tokens)
  {
    var u := User(|s.users| + 1, email, passwordHash, googleId, name, avatar);
    (Store(s.users + [u], s.tokens), u)
  }

  lemma AddUserValid(s: Store, email: string, passwordHash: Option<string>, googleId: Option<string>,
                     name: string, avatar: Option<string>)
    ensures Valid(s) && !EmailTaken(s, email) && (googleId.Some? ==> FindByGoogleId(s.users, googleId.value).None?)
            ==> Valid(AddUser(s, email, passwordHash, googleId, name, avatar).0)
  {
    var s' := AddUser(s, email, passwordHash, googleId, name, avatar).0;
    assert forall i :: 0 <= i < |s.users| ==> s'.users[i] == s.users[i];
  }

  /** `RefreshToken.create`: fails, adding nothing, when the token is already stored. */
  function StoreToken(s: Store, userId: nat, token: string, now: int): (r: Option<Store>)
    ensures r.None? <==> TokenStored(s.tokens, token)
    ensures r.Some? ==> r.value == Store(s.users, s.tokens + [TokenRecord(userId, token, Expiry(now))])
  {
    if TokenStored(s.tokens, token) then None
    else Some(Store(s.users, s.tokens + [TokenRecord(userId, token, Expiry(now))]))
  }

  lemma StoreTokenValid(s: Store, userId: nat, token: string, now: int)
    requires StoreToken(s, userId, token, now).Some?
    ensures Valid(s) && 1 <= userId <= |s.users| ==> Valid(StoreToken(s, userId, token, now).value)
  {
    var t := StoreToken(s, userId, token, now).value.tokens;
    assert forall i :: 0 <= i < |s.tokens| ==> t[i] == s.tokens[i];
  }

  /** `record.destroy()`. */
  function DeleteToken(s: Store, k: nat): (r: Store)
    requires k < |s.tokens|
    ensures r.users == s.users && |r.tokens| == |s.tokens| - 1
    ensures multiset(r.tokens) + multiset{s.tokens[k]} == multiset(s.tokens)
  {
    assert s.tokens == s.tokens[..k] + [s.tokens[k]] + s.tokens[k + 1..];
    Store(s.users, s.tokens[..k] + s.tokens[k + 1..])
  }

  /** Row `i` after the deletion is row `i` before it, or row `i + 1` from `k` on. */
  lemma DeleteTokenShift(s: Store, k: nat)
    requires k < |s.tokens|
    ensures forall i :: 0 <= i < |DeleteToken(s, k).tokens| ==>
              DeleteToken(s, k).tokens[i] == s.tokens[if i < k then i else i + 1]
  {
  }

  /** Deleting a unique token removes it and keeps every other row. */
  lemma DeleteTokenValid(s: Store, k: nat)
    requires k < |s.tokens|
    ensures Valid(s) ==> Valid(DeleteToken(s, k)) && !TokenStored(DeleteToken(s, k).tokens, s.tokens[k].token)
    ensures forall i :: 0 <= i < |s.tokens| && i != k ==> s.tokens[i] in DeleteToken(s, k).tokens
  {
    var t := DeleteToken(s, k).tokens;
    DeleteTokenShift(s, k);
    forall i | 0 <= i < |s.tokens| && i != k ensures s.tokens[i] in t {
      var i' := if i < k then i else i - 1;
      assert t[i'] == s.tokens[i];
    }
    if Valid(s) {
      forall i, j | 0 <= i < j < |t| ensures t[i].token != t[j].token {
        var i' := if i < k then i else i + 1;
        var j' := if j < k then j else j + 1;
        assert t[i] == s.tokens[i'] && t[j] == s.tokens[j'];
      }
      forall i | 0 <= i < |t| ensures t[i].token != s.tokens[k].token {
        var i' := if i < k then i else i + 1;
        assert t[i] == s.tokens[i'];
      }
    }
  }

  /** Two rows with the same email are the same row. */
  lemma SameEmailSameRow(users: seq<User>, i: nat, k: nat)
    requires EmailsUnique(users) && i < |users| && k < |users| && users[i].email == users[k].email
    ensures i == k
  {
  }

  /** Two rows with the same Google id are the same row. */
  lemma SameGoogleIdSameRow(users: seq<User>, i: nat, k: nat)
    requires GoogleIdsUnique(users) && i < |users| && k < |users|
    requires users[i].googleId.Some? && users[i].googleId == users[k].googleId
    ensures i == k
  {
  }

  /** Two rows with the same token are the same row. */
  lemma SameTokenSameRow(tokens: seq<TokenRecord>, i: nat, k: nat)
    requires TokensUnique(tokens) && i < |tokens| && k < |tokens| && tokens[i].token == tokens[k].token
    ensures i == k
  {
  }

  /** A freshly stored token is found at the end of the table, and deleting it
      restores the store as it was. */
  lemma StoredTokenFound(s: Store, userId: nat, token: string, now: int)
    requires Valid(s) && 1 <= userId <= |s.users| && StoreToken(s, userId, token, now).Some?
    ensures var s' := StoreToken(s, userId, token, now).value;
            && FindToken(s'.tokens, token, userId) == Some(|s.tokens|)
            && DeleteToken(s', |s.tokens|) == s
  {
    StoreTokenValid(s, userId, token, now);
    var s' := StoreToken(s, userId, token, now).value;
    var j := FindToken(s'.tokens, token, userId).value;
    SameTokenSameRow(s'.tokens, j, |s.tokens|);
    assert s'.tokens[..|s.tokens|] + s'.tokens[|s.tokens| + 1..] == s.tokens;
  }

  /** A token absent from a table is absent from any prefix of it. */
  lemma NotStoredInPrefix(tokens: seq<TokenRecord>, extra: seq<TokenRecord>, token: string)
    requires !TokenStored(tokens + extra, token)
    ensures !TokenStored(tokens, token)
  {
    forall i | 0 <= i < |tokens| ensures tokens[i].token != token {
      assert (tokens + extra)[i] == tokens[i];
    }
  }

  /** `user.save()` for the row at index `k`. */
  function SaveUser(s: Store, k: nat, u: User): (r: Store)
    requires k < |s.users|
    ensures r.tokens == s.tokens && |r.users| == |s.users|
    ensures r.users[k] == u
    ensures forall i :: 0 <= i < |s.users| && i != k ==> r.users[i] == s.users[i]
  {
    Store(s.users[k := u], s.tokens)
  }
}
