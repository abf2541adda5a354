/** POSIX path helpers with the meaning of Python's `os.path.join`,
    `os.path.basename` and `os.path.dirname`. */
module Paths {
  import opened Strings

  /** Index just after the last '/', or 0 when there is none (`p.rfind('/') + 1`). */
  function AfterLastSlash(p: string): (i: nat)
    ensures i <= |p|
    ensures forall k :: i <= k < |p| ==> p[k] != '/'
    ensures i > 0 ==> p[i - 1] == '/'
    decreases |p|
  {
    if |p| == 0 then 0 else if p[|p| - 1] == '/' then |p| else AfterLastSlash(p[..|p| - 1])
  }

  predicate AllSlashes(s: string) {
    forall k :: 0 <= k < |s| ==> s[k] == '/'
  }

  /** `os.path.basename(p)`: what follows the last '/'. */
  function Basename(p: string): (r: string)
    ensures '/' !in r
    ensures EndsWith(p, r)
    ensures '/' !in p ==> r == p
  {
    var i := AfterLastSlash(p);
    assert '/' !in p[i..];
    p[i..]
  }

  /** A slash-free suffix of a path is a suffix of its basename. */
  lemma BasenameSuffix(p: string, s: string)
    requires EndsWith(p, s) && '/' !in s
    ensures EndsWith(Basename(p), s)
  {
  }

  /** `os.path.dirname(p)`: up to the last '/', with trailing slashes removed
      unless the head consists only of slashes. */
  function Dirname(p: string): string {
    var head := p[..AfterLastSlash(p)];
    if head != "" && !AllSlashes(head) then RStrip(head, '/') else head
  }

  /** `os.path.join(a, b)`: an absolute b replaces a, otherwise a separator is
      inserted unless a is empty or already ends with one. */
  function PathJoin(a: string, b: string): (r: string)
    ensures EndsWith(r, b)
    ensures !StartsWith(b, "/") && a != "" && !EndsWith(a, "/") ==> r == a + "/" + b
  {
    if StartsWith(b, "/") then b
    else if a == "" || EndsWith(a, "/") then a + b
    else a + "/" + b
  }

  /** Joining a relative name onto a directory without a trailing slash inserts one. */
  lemma JoinPlain(a: string, b: string)
    requires a != "" && a[|a| - 1] != '/'
    requires b == "" || b[0] != '/'
    ensures PathJoin(a, b) == a + "/" + b
  {
    assert !StartsWith(b, "/") by {
      if |b| > 0 {
        assert b[..1] == [b[0]];
      }
    }
  }

  lemma {:induction false} LastSlashOfJoin(a: string, b: string)
    requires '/' !in b
    ensures AfterLastSlash(a + "/" + b) == |a| + 1
    decreases |b|
  {
    var p := a + "/" + b;
    if |b| > 0 {
      assert p[|p| - 1] == b[|b| - 1];
      assert p[..|p| - 1] == a + "/" + b[..|b| - 1];
      LastSlashOfJoin(a, b[..|b| - 1]);
    }
  }

  /** Joining a plain name onto a directory and taking the basename gives the name back. */
  lemma BasenameOfJoin(a: string, b: string)
    requires '/' !in b
    requires a != "" && !EndsWith(a, "/")
    ensures Basename(PathJoin(a, b)) == b
  {
    var p := a + "/" + b;
    assert p[|a|] == '/';
    var i := AfterLastSlash(p);
    LastSlashOfJoin(a, b);
    assert p[i..] == b;
  }

  /** Joining a plain name onto a directory and taking the dirname gives the directory back. */
  lemma DirnameOfJoin(a: string, b: string)
    requires '/' !in b
    requires a != "" && !EndsWith(a, "/")
    ensures Dirname(PathJoin(a, b)) == a
  {
    var p := a + "/" + b;
    assert p[|a|] == '/';
    var i := AfterLastSlash(p);
    LastSlashOfJoin(a, b);
    var head := p[..i];
    assert head == a + "/";
    assert head[|a| - 1] != '/';
    assert !AllSlashes(head);
    assert head[..|head| - 1] == a;
  }
}
