/** The `posixpath` functions the scripts reach through `os.path`, on strings. */
module Paths {
  import opened Strings

  /** `os.path.join(a, b)`: an absolute `b` replaces `a`; otherwise one '/' is
      put between them unless `a` is empty or already ends with '/'. */
  function Join(a: string, b: string): string {
    if StartsWith(b, "/") then b
    else if a == [] || EndsWith(a, "/") then a + b
    else a + "/" + b
  }

  /** `os.path.basename(p)`: what follows the last '/'. */
  function BaseName(p: string): string {
    p[LastIndexOf(p, '/') + 1..]
  }

  predicate AllSlashes(s: string) {
    forall i :: 0 <= i < |s| ==> s[i] == '/'
  }

  /** `s.rstrip('/')`. */
  function RStripSlashes(s: string): string
    decreases |s|
  {
    if s != [] && s[|s| - 1] == '/' then RStripSlashes(s[..|s| - 1]) else s
  }

  /** `os.path.dirname(p)`: everything up to the last '/', with the trailing
      slashes removed unless the head consists of slashes only. */
  function DirName(p: string): string {
    var head := p[..LastIndexOf(p, '/') + 1];
    if head != [] && !AllSlashes(head) then RStripSlashes(head) else head
  }

  /** A single path component: non-empty and free of '/'. */
  predicate IsComponent(s: string) {
    s != [] && '/' !in s
  }

  /** A directory path `join` appends to with exactly one '/'. */
  predicate IsPlainDir(a: string) {
    a != [] && a[|a| - 1] != '/'
  }

  /** Joining a relative part onto a plain directory is "/"-concatenation. */
  lemma JoinPlain(a: string, b: string)
    requires IsPlainDir(a) && (b == [] || b[0] != '/')
    ensures Join(a, b) == a + "/" + b
  {
    assert !EndsWith(a, "/") by {
      assert a[|a| - 1..] == [a[|a| - 1]];
    }
  }

  /** The last '/' of `a + "/" + b` is the one put there, when `b` has none. */
  lemma {:induction false} LastSlash(a: string, b: string)
    requires '/' !in b
    ensures LastIndexOf(a + "/" + b, '/') == |a|
    decreases |b|
  {
    var s := a + "/" + b;
    if b != [] {
      var b' := b[..|b| - 1];
      assert s[|s| - 1] == b[|b| - 1];
      assert s[..|s| - 1] == a + "/" + b';
      LastSlash(a, b');
    }
  }

  /** `basename(a + "/" + b) == b` for a last component `b`. */
  lemma BaseNameAfterSlash(a: string, b: string)
    requires '/' !in b
    ensures BaseName(a + "/" + b) == b
  {
    LastSlash(a, b);
    assert (a + "/" + b)[|a| + 1..] == b;
  }

  /** `dirname(a + "/" + b) == a` for a last component `b` and a directory `a`
      that does not end in '/'. */
  lemma DirNameAfterSlash(a: string, b: string)
    requires IsPlainDir(a) && '/' !in b
    ensures DirName(a + "/" + b) == a
  {
    LastSlash(a, b);
    var head := (a + "/" + b)[..|a| + 1];
    assert head == a + "/";
    assert head[|a| - 1] == a[|a| - 1];
    assert !AllSlashes(head);
    assert head[..|head| - 1] == a;
    assert RStripSlashes(head) == RStripSlashes(a) == a;
  }

  /** `basename(p)` and `p.split('/')[-1]` are the same string. */
  lemma BaseNameIsLastPiece(p: string)
    ensures var parts := Split(p, '/'); BaseName(p) == parts[|parts| - 1]
  {
    LastField(p, '/');
  }
}
