/**
 * The parts of Node's `path` module the source uses, for POSIX paths:
 * `join` (without normalisation), `basename` and `extname`.
 */
module Paths {
  import opened Text

  /** `path.join(dir, name)` for a directory and a relative name. */
  function Join(dir: string, name: string): string {
    dir + "/" + name
  }

  /** `p` without its trailing slashes. */
  function TrimTrailingSlashes(p: string): (r: string)
    ensures |r| <= |p| && r == p[..|r|]
    ensures r == [] || r[|r| - 1] != '/'
    ensures forall i :: |r| <= i < |p| ==> p[i] == '/'
  {
    if p == [] || p[|p| - 1] != '/' then p else TrimTrailingSlashes(p[..|p| - 1])
  }

  /** `path.basename(p)`: trailing slashes are ignored, then the text after
      the last `/` is taken; a path of slashes alone has the empty base name. */
  function Basename(p: string): (r: string)
    ensures '/' !in r
    ensures var q := TrimTrailingSlashes(p); |r| <= |q| && r == q[|q| - |r|..]
    ensures r == [] ==> forall i :: 0 <= i < |p| ==> p[i] == '/'
  {
    var q := TrimTrailingSlashes(p);
    var i := LastIndexOf(q, '/');
    AbsentFromSuffix(q, i + 1, '/');
    q[i + 1..]
  }

  /** A path without a slash is its own base name. */
  lemma BasenameOfPlain(p: string)
    requires '/' !in p
    ensures Basename(p) == p
  {
    assert p == [] || p[|p| - 1] in p;
    assert TrimTrailingSlashes(p) == p;
    LastIndexOfAt(p, '/', -1);
    assert p[0..] == p;
  }

  /** A trailing slash does not change the base name: `basename("dir/x/")` is `x`. */
  lemma BasenameOfTrailingSlash(p: string)
    ensures Basename(p + "/") == Basename(p)
  {
    var q := p + "/";
    assert q[..|q| - 1] == p;
    assert TrimTrailingSlashes(q) == TrimTrailingSlashes(p);
  }

  /** An extension as `extname` returns it: empty, or a dot followed by
      text with no further dot and no slash. */
  predicate IsExtension(e: string) {
    e == [] || (e[0] == '.' && '.' !in e[1..] && '/' !in e)
  }

  /** `path.extname(p)`: from the last dot of the base name to its end; a base
      name whose only dot is its first character, or that is `..`, has none. */
  function Extname(p: string): (r: string)
    ensures IsExtension(r)
    ensures var b := Basename(p); |r| <= |b| && r == b[|b| - |r|..]
  {
    var b := Basename(p);
    var i := LastIndexOf(b, '.');
    if i <= 0 || b == ".." then []
    else
      ExtensionAfterLastDot(b, i);
      b[i..]
  }

  /** The text from the last dot of a slash-free name on is an extension. */
  lemma ExtensionAfterLastDot(b: string, i: int)
    requires '/' !in b && 0 <= i < |b| && b[i] == '.' && i == LastIndexOf(b, '.')
    ensures IsExtension(b[i..])
  {
    AbsentFromSuffix(b, i + 1, '.');
    assert forall k :: i <= k < |b| ==> b[k] in b;
    AbsentFromSuffix(b, i, '/');
    assert b[i..][1..] == b[i + 1..];
  }

  /** Joining a non-empty, slash-free name onto a directory and taking the base name gives the name back. */
  lemma BasenameOfJoin(dir: string, name: string)
    requires '/' !in name && name != []
    ensures Basename(Join(dir, name)) == name
  {
    var p := Join(dir, name);
    assert p[|p| - 1] == name[|name| - 1] && name[|name| - 1] in name;
    assert TrimTrailingSlashes(p) == p;
    var i := LastIndexOf(p, '/');
    assert p[|dir|] == '/';
    forall k | |dir| < k < |p| ensures p[k] != '/' {
      assert p[k] == name[k - |dir| - 1];
    }
    assert p[|dir| + 1..] == name;
  }

  /** A base name made of a non-empty, dot-free, slash-free stem followed by an
      extension has exactly that extension. */
  lemma ExtnameOfStemAndExtension(stem: string, ext: string)
    requires stem != [] && '.' !in stem && '/' !in stem
    requires IsExtension(ext)
    ensures Extname(stem + ext) == ext
  {
    var p := stem + ext;
    assert '/' !in p by {
      forall k | 0 <= k < |p| ensures p[k] != '/' {
        if k < |stem| { assert p[k] == stem[k]; } else { assert p[k] == ext[k - |stem|]; }
      }
    }
    BasenameOfPlain(p);
    if ext == [] {
      assert p == stem;
      LastIndexOfAt(p, '.', -1);
    } else {
      assert p[|stem|] == '.';
      forall k | |stem| < k < |p| ensures p[k] != '.' {
        assert p[k] == ext[1..][k - |stem| - 1];
      }
      LastIndexOfAt(p, '.', |stem|);
      assert p[0] == stem[0] && p[0] != '.';
      assert p[|stem|..] == ext;
    }
  }
}
