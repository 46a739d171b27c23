/**
 * The client-side form and file validators: the email pattern, the password
 * length rule, the file-extension allow-list and the size limit.
 */
module Validation {
  import opened Text
  import Wrappers
  import Paths
  import Upload
  import Process

  /** `[A-Z0-9._%+-]` under the case-insensitive flag. */
  predicate LocalChar(c: char) {
    IsAsciiLetter(c) || IsDigit(c) || c == '.' || c == '_' || c == '%' || c == '+' || c == '-'
  }

  /** `[A-Z0-9.-]` under the case-insensitive flag. */
  predicate DomainChar(c: char) {
    IsAsciiLetter(c) || IsDigit(c) || c == '.' || c == '-'
  }

  predicate LocalPart(s: string) {
    |s| >= 1 && forall k :: 0 <= k < |s| ==> LocalChar(s[k])
  }

  predicate DomainPart(s: string) {
    |s| >= 1 && forall k :: 0 <= k < |s| ==> DomainChar(s[k])
  }

  predicate TopLevelPart(s: string) {
    |s| >= 2 && forall k :: 0 <= k < |s| ==> IsAsciiLetter(s[k])
  }

  /** The whole string reads as local part, `@` at `i`, domain, `.` at `j`,
      then two or more letters. */
  predicate MatchesAt(e: string, i: int, j: int) {
    0 <= i < j < |e| && e[i] == '@' && e[j] == '.'
    && LocalPart(e[..i]) && DomainPart(e[i + 1..j]) && TopLevelPart(e[j + 1..])
  }

  /** The email pattern, anchored at both ends: some way of cutting the string matches. */
  predicate EmailPattern(e: string) {
    exists i, j | 0 <= i < j < |e| :: MatchesAt(e, i, j)
  }

  /** `isValidEmail`: no character class admits `@`, and the final letters admit
      no `.`, so only the first `@` and the last `.` can be the cut points. */
  function IsValidEmail(email: string): bool {
    var i := IndexOf(email, '@');
    var j := LastIndexOf(email, '.');
    MatchesAt(email, i, j)
  }

  /** The cut-point search decides the pattern, in both directions. */
  lemma IsValidEmailMatchesPattern(email: string)
    ensures IsValidEmail(email) <==> EmailPattern(email)
  {
    if EmailPattern(email) {
      var i, j :| 0 <= i < j < |email| && MatchesAt(email, i, j);
      var local := email[..i];
      forall k | 0 <= k < i ensures email[k] != '@' {
        assert email[k] == local[k];
        assert LocalChar(local[k]);
      }
      assert IndexOf(email, '@') == i;
      var tld := email[j + 1..];
      forall k | j < k < |email| ensures email[k] != '.' {
        assert email[k] == tld[k - j - 1];
        assert IsAsciiLetter(tld[k - j - 1]);
      }
      LastIndexOfAt(email, '.', j);
    }
  }

  /** `isValidPassword`: the message for a password that is too short. */
  const PasswordTooShort := "密码至少6个字符"

  datatype PasswordCheck = PasswordCheck(isValid: bool, errors: seq<string>)

  /** `isValidPassword`, counting length in UTF-16 code units as JavaScript does. */
  function IsValidPassword(password: string): (r: PasswordCheck)
    ensures r.isValid <==> Utf16Length(password) >= 6
    ensures r.isValid <==> r.errors == []
    ensures !r.isValid ==> r.errors == [PasswordTooShort]
  {
    var errors := if Utf16Length(password) < 6 then [PasswordTooShort] else [];
    PasswordCheck(errors == [], errors)
  }

  /** Any six characters make a valid password; fewer than three never do. */
  lemma PasswordLengthBounds(password: string)
    ensures |password| >= 6 ==> IsValidPassword(password).isValid
    ensures |password| < 3 ==> !IsValidPassword(password).isValid
  {
  }

  /** `.${name.split('.').pop()?.toLowerCase()}`. */
  function FileExtension(name: string): string {
    "." + ToLower(LastPiece(name, '.'))
  }

  /** The extension is a dot and the lower-cased text after the last dot, or a
      dot and the whole lower-cased name when it has none. */
  lemma FileExtensionShape(name: string)
    ensures FileExtension(name) == "." + ToLower(name[LastIndexOf(name, '.') + 1..])
    ensures '.' !in name ==> FileExtension(name) == "." + ToLower(name)
  {
    LastOfSplit(name, '.');
    if '.' !in name {
      LastIndexOfAt(name, '.', -1);
      assert name[0..] == name;
    }
  }

  /** For a plain file name whose dot is not its first character, the client's
      extension is the lower-cased extension the server derives with `extname`. */
  lemma FileExtensionAgreesWithExtname(name: string)
    requires '/' !in name && name != ".."
    requires LastIndexOf(name, '.') > 0
    ensures FileExtension(name) == ToLower(Paths.Extname(name))
  {
    FileExtensionShape(name);
    Paths.BasenameOfPlain(name);
    var i := LastIndexOf(name, '.');
    var e := name[i..];
    assert Paths.Extname(name) == e;
    assert e == "." + name[i + 1..];
    ToLowerDot(name[i + 1..]);
  }

  /** `isValidFileType`: the accepted types as the record's values, in order. */
  function IsValidFileType(name: string, acceptedTypes: seq<(string, seq<string>)>): (ok: bool)
    ensures ok <==> exists k :: 0 <= k < |acceptedTypes| && FileExtension(name) in acceptedTypes[k].1
  {
    if acceptedTypes == [] then false
    else if FileExtension(name) in acceptedTypes[0].1 then true
    else
      var ok := IsValidFileType(name, acceptedTypes[1..]);
      assert forall k :: 1 <= k < |acceptedTypes| ==> acceptedTypes[k] == acceptedTypes[1..][k - 1];
      ok
  }

  /** `isValidFileSize`: the limit itself is allowed. */
  function IsValidFileSize(size: int, maxSize: int): (ok: bool) {
    size <= maxSize
  }

  /** With the same limit, the client's size check passes exactly the files the
      server's upload middleware does not refuse as too large. */
  lemma FileSizeAgreesWithServer(cfg: Process.Config, uuid: string, f: Upload.Incoming, limit: int)
    requires f.mimetype in Upload.AllowedMimes
    ensures IsValidFileSize(f.size, limit) <==> Upload.Receive(cfg, limit, uuid, f).Ok?
    ensures !IsValidFileSize(f.size, limit) ==> Upload.Receive(cfg, limit, uuid, f) == Wrappers.Err(Upload.TooLarge)
  {
  }
}
