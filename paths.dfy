/**
 * The two POSIX path operations the stub placement uses: `posixpath.dirname`
 * and `posixpath.join` with one relative component.
 */
module Paths {
  /** Index just past the last `/` of `p`, or 0 when there is none (`p.rfind('/') + 1`). */
  function AfterLastSlash(p: string): (i: nat)
    ensures i <= |p|
    ensures i > 0 ==> p[i - 1] == '/'
    ensures forall k :: i <= k < |p| ==> p[k] != '/'
  {
    if p == [] then 0
    else if p[|p| - 1] == '/' then |p|
    else AfterLastSlash(p[..|p| - 1])
  }

  predicate AllSlashes(s: string)
  {
    forall k :: 0 <= k < |s| ==> s[k] == '/'
  }

  /** `s.rstrip('/')`. */
  function StripTrailingSlashes(s: string): (r: string)
    ensures |r| <= |s| && r == s[..|r|]
    ensures r == [] || r[|r| - 1] != '/'
    ensures AllSlashes(s[|r|..])
  {
    if s == [] || s[|s| - 1] != '/' then s
    else
      var t := s[..|s| - 1];
      var r := StripTrailingSlashes(t);
      assert t[..|r|] == s[..|r|];
      assert forall k :: |r| <= k < |t| ==> t[|r|..][k - |r|] == t[k];
      r
  }

  /**
   * `posixpath.dirname`: everything up to the last `/`, with trailing
   * slashes removed unless the head is made of slashes only.
   */
  function DirName(p: string): string
  {
    var head := p[..AfterLastSlash(p)];
    if head != [] && !AllSlashes(head) then StripTrailingSlashes(head) else head
  }

  /** `posixpath.join(a, b)` for a `b` that does not start with `/`. */
  function Join(a: string, b: string): (r: string)
    requires b == [] || b[0] != '/'
    ensures a == [] ==> r == b
    ensures a != [] && a[|a| - 1] == '/' ==> r == a + b
    ensures a != [] && a[|a| - 1] != '/' ==> r == a + "/" + b
  {
    if a == [] || a[|a| - 1] == '/' then a + b else a + "/" + b
  }

  /** Where the stub of a model whose SQL file is `sqlPath` goes: `schema.yml` beside it. */
  function StubTarget(sqlPath: string): string
  {
    Join(DirName(sqlPath), "schema.yml")
  }

  /**
   * A SQL file `dir/file` (a non-empty directory without trailing slash, a
   * file name without slashes) gets its stub at `dir/schema.yml`.
   */
  lemma StubBesideSql(dir: string, file: string)
    requires dir != [] && dir[|dir| - 1] != '/'
    requires forall k :: 0 <= k < |file| ==> file[k] != '/'
    ensures StubTarget(dir + "/" + file) == dir + "/schema.yml"
  {
    var p := dir + "/" + file;
    LastSlashOf(dir + "/", file);
    assert p[..|dir| + 1] == dir + "/";
    assert !AllSlashes(dir + "/") by { assert (dir + "/")[|dir| - 1] == dir[|dir| - 1]; }
    assert (dir + "/")[..|dir|] == dir;
    assert StripTrailingSlashes(dir + "/") == dir;
  }

  lemma {:induction false} LastSlashOf(head: string, file: string)
    requires head != [] && head[|head| - 1] == '/'
    requires forall k :: 0 <= k < |file| ==> file[k] != '/'
    ensures AfterLastSlash(head + file) == |head|
    decreases |file|
  {
    if file != [] {
      var p := head + file;
      assert p[..|p| - 1] == head + file[..|file| - 1];
      LastSlashOf(head, file[..|file| - 1]);
    } else {
      assert head + file == head;
    }
  }

  /** A bare file name has an empty directory, so its stub is `schema.yml` itself. */
  lemma StubOfBareName(file: string)
    requires forall k :: 0 <= k < |file| ==> file[k] != '/'
    ensures StubTarget(file) == "schema.yml"
  {
    NoSlashNoHead(file);
  }

  lemma {:induction false} NoSlashNoHead(file: string)
    requires forall k :: 0 <= k < |file| ==> file[k] != '/'
    ensures AfterLastSlash(file) == 0
    decreases |file|
  {
    if file != [] {
      NoSlashNoHead(file[..|file| - 1]);
    }
  }
}
