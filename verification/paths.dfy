/**
 The path helpers `optimize` relies on: `os.path.basename`, `os.path.dirname`,
 `os.path.splitext` and `os.path.join`, with the semantics of Python's
 `posixpath` module (the separator is `/`, the extension separator is `.`).
 */
module Paths {

  const Sep: char := '/'
  const ExtSep: char := '.'

  /** Every character of `s` is `c` (true of the empty string). */
  predicate AllChars(s: string, c: char) {
    forall k :: 0 <= k < |s| ==> s[k] == c
  }

  /** Index of the last occurrence of `c` among the first `n` characters
      of `s`, or -1 when there is none. */
  function LastIndexBelow(s: string, c: char, n: nat): (i: int)
    requires n <= |s|
    ensures -1 <= i < n
    ensures i >= 0 ==> s[i] == c
    ensures forall k :: i < k < n ==> s[k] != c
  {
    if n == 0 then -1
    else if s[n - 1] == c then n - 1
    else LastIndexBelow(s, c, n - 1)
  }

  /** Index of the last occurrence of `c` in `s`, or -1 when there is none
      (Python's `str.rfind`). */
  function LastIndexOf(s: string, c: char): (i: int)
    ensures -1 <= i < |s|
    ensures i >= 0 ==> s[i] == c
    ensures forall k :: i < k < |s| ==> s[k] != c
  {
    LastIndexBelow(s, c, |s|)
  }

  /** The length of the first `n` characters of `s` without their trailing
      run of `c`. */
  function StrippedLength(s: string, c: char, n: nat): (m: nat)
    requires n <= |s|
    ensures m <= n
    ensures m == 0 || s[m - 1] != c
    ensures forall k :: m <= k < n ==> s[k] == c
  {
    if n == 0 || s[n - 1] != c then n
    else StrippedLength(s, c, n - 1)
  }

  /** `s.rstrip(c)`: `s` without its trailing run of `c`. */
  function RStrip(s: string, c: char): string {
    s[..StrippedLength(s, c, |s|)]
  }

  /** `os.path.basename`: the part after the last separator. */
  function Basename(p: string): string {
    p[LastIndexOf(p, Sep) + 1..]
  }

  /** The part of `p` up to and including its last separator. */
  function Head(p: string): string {
    p[..LastIndexOf(p, Sep) + 1]
  }

  /** `os.path.dirname`: the head with its trailing separators removed,
      unless the head consists of separators only (the root stays as is). */
  function Dirname(p: string): string {
    p[..DirnameLength(p)]
  }

  /** The length of `Dirname(p)`: the head's length without its trailing
      separators, or the whole head's length when nothing else is left. */
  function DirnameLength(p: string): nat {
    var headLength := LastIndexOf(p, Sep) + 1;
    var stripped := StrippedLength(p, Sep, headLength);
    if stripped == 0 then headLength else stripped
  }

  /** `os.path.splitext`: splits at the last dot of the last path component,
      provided some character before that dot in the component is not a dot
      (so `.bashrc` has no extension). */
  function SplitExt(p: string): (string, string) {
    var n := RootLength(p);
    (p[..n], p[n..])
  }

  /** Where `SplitExt` cuts: at the last dot when it lies in the last
      component and some character between the component's start and that
      dot is not a dot (the dots just before it are stripped, and something
      must be left); otherwise at the end. */
  function RootLength(p: string): nat {
    var sepIndex := LastIndexOf(p, Sep);
    var dotIndex := LastIndexOf(p, ExtSep);
    if dotIndex > sepIndex && StrippedLength(p, ExtSep, dotIndex) > sepIndex + 1 then dotIndex else |p|
  }

  /** `os.path.join(a, b)`: an absolute `b` replaces `a`; otherwise `b` is
      appended, with a separator unless `a` is empty or already ends in one. */
  function Join(a: string, b: string): string {
    if |b| > 0 && b[0] == Sep then b
    else if a == [] || a[|a| - 1] == Sep then a + b
    else a + [Sep] + b
  }

  /** `posixpath.dirname` as written in Python: the head, right-stripped of
      separators unless it is empty or made of separators only. */
  function DirnameReference(p: string): string {
    var head := Head(p);
    if head != [] && !AllChars(head, Sep) then RStrip(head, Sep) else head
  }

  /** `posixpath.splitext` as written in Python: cut at the last dot if it
      follows the last separator and a non-dot character precedes it within
      the last component. */
  function SplitExtReference(p: string): (string, string) {
    var sepIndex := LastIndexOf(p, Sep);
    var dotIndex := LastIndexOf(p, ExtSep);
    if dotIndex > sepIndex && !AllChars(p[sepIndex + 1..dotIndex], ExtSep) then
      (p[..dotIndex], p[dotIndex..])
    else
      (p, [])
  }

  /** The length-based `Dirname` is `posixpath.dirname`. */
  lemma DirnameAgrees(p: string)
    ensures Dirname(p) == DirnameReference(p)
  {
  }

  /** The length-based `SplitExt` is `posixpath.splitext`. */
  lemma SplitExtAgrees(p: string)
    ensures SplitExt(p) == SplitExtReference(p)
  {
    var sepIndex := LastIndexOf(p, Sep);
    var dotIndex := LastIndexOf(p, ExtSep);
    if dotIndex > sepIndex {
      RunOfChars(p, ExtSep, sepIndex + 1, dotIndex);
    }
    assert p[..|p|] == p && p[|p|..] == [];
  }

  /** A slice is a run of `c` exactly when stripping `c` from its end
      leaves nothing of it. */
  lemma RunOfChars(s: string, c: char, lo: nat, hi: nat)
    requires lo <= hi <= |s|
    ensures AllChars(s[lo..hi], c) <==> StrippedLength(s, c, hi) <= lo
  {
    var m := StrippedLength(s, c, hi);
    if m > lo {
      assert s[lo..hi][m - 1 - lo] != c;
    }
  }

  /** A path is its head followed by its basename. */
  lemma HeadBasename(p: string)
    ensures Head(p) + Basename(p) == p
  {
  }

  /** The basename holds no separator, and the head is empty or ends in
      one: the basename is the longest separator-free suffix. */
  lemma BasenameSpec(p: string)
    ensures Sep !in Basename(p)
    ensures Head(p) == [] || Head(p)[|Head(p)| - 1] == Sep
  {
  }

  /** The dirname is the head without its trailing separators, except that a
      head made only of separators is kept whole. */
  lemma DirnameSpec(p: string)
    ensures |Dirname(p)| <= |Head(p)| && Dirname(p) == Head(p)[..|Dirname(p)|]
    ensures AllChars(Head(p)[|Dirname(p)|..], Sep)
    ensures Dirname(p) == [] <==> Head(p) == []
    ensures Dirname(p) != [] && Dirname(p)[|Dirname(p)| - 1] == Sep ==>
              Dirname(p) == Head(p) && AllChars(Dirname(p), Sep)
  {
  }

  /** The root followed by the extension is the whole path; a non-empty
      extension is a dot followed by neither dot nor separator, and the
      root's last component then keeps a character other than a dot. */
  lemma SplitExtSpec(p: string)
    ensures SplitExt(p).0 + SplitExt(p).1 == p
    ensures SplitExt(p).1 != [] ==>
              SplitExt(p).1[0] == ExtSep && ExtSep !in SplitExt(p).1[1..] && Sep !in SplitExt(p).1
    ensures SplitExt(p).1 != [] ==> !AllChars(Basename(SplitExt(p).0), ExtSep)
  {
    var sepIndex := LastIndexOf(p, Sep);
    var dotIndex := LastIndexOf(p, ExtSep);
    if SplitExt(p).1 != [] {
      assert p[..dotIndex] + p[dotIndex..] == p;
      LastIndexOfFreeTail(p[..dotIndex], Sep, p[dotIndex..]);
      assert Basename(p[..dotIndex]) == p[sepIndex + 1..dotIndex];
    } else {
      assert p + [] == p;
    }
  }

  /** `LastIndexOf` finds a `c` followed by a `c`-free tail. */
  lemma {:induction false} LastIndexOfBeforeTail(s: string, c: char, t: string)
    requires c !in t
    ensures LastIndexOf(s + [c] + t, c) == |s|
  {
    var u := s + [c] + t;
    if t != [] {
      assert u[..|u| - 1] == s + [c] + t[..|t| - 1];
      LastIndexOfBeforeTail(s, c, t[..|t| - 1]);
    }
  }

  /** Appending a `c`-free tail does not move the last `c`. */
  lemma {:induction false} LastIndexOfFreeTail(s: string, c: char, t: string)
    requires c !in t
    ensures LastIndexOf(s + t, c) == LastIndexOf(s, c)
  {
    if t != [] {
      assert (s + t)[..|s + t| - 1] == s + t[..|t| - 1];
      LastIndexOfFreeTail(s, c, t[..|t| - 1]);
    } else {
      assert s + t == s;
    }
  }

  /** `LastIndexOf` of a string without `c`. */
  lemma LastIndexOfAbsent(s: string, c: char)
    requires c !in s
    ensures LastIndexOf(s, c) == -1
  {
    assert forall k :: 0 <= k < |s| ==> s[k] != c;
  }

  /** Joining a separator-free name onto a directory and taking the
      basename gives the name back. */
  lemma BasenameOfJoin(a: string, b: string)
    requires b != [] && Sep !in b
    ensures Basename(Join(a, b)) == b
  {
    var r := Join(a, b);
    if a == [] {
      assert r == b;
      LastIndexOfAbsent(b, Sep);
    } else if a[|a| - 1] == Sep {
      assert r == a[..|a| - 1] + [Sep] + b;
      LastIndexOfBeforeTail(a[..|a| - 1], Sep, b);
    } else {
      assert r == a + [Sep] + b;
      LastIndexOfBeforeTail(a, Sep, b);
    }
  }

  /** A directory as `Dirname` produces it: empty, not ending in a
      separator, or the root (separators only). */
  predicate IsDirname(a: string) {
    a == [] || a[|a| - 1] != Sep || AllChars(a, Sep)
  }

  lemma DirnameIsDirname(p: string)
    ensures IsDirname(Dirname(p))
  {
  }

  /** Joining a separator-free name onto a directory and taking the
      dirname gives the directory back. */
  lemma DirnameOfJoin(a: string, b: string)
    requires b != [] && Sep !in b && IsDirname(a)
    ensures Dirname(Join(a, b)) == a
  {
    var r := Join(a, b);
    if a == [] {
      assert r == b;
      LastIndexOfAbsent(b, Sep);
      assert Head(r) == [];
    } else if a[|a| - 1] == Sep {
      assert r == a[..|a| - 1] + [Sep] + b;
      LastIndexOfBeforeTail(a[..|a| - 1], Sep, b);
      assert Head(r) == a;
    } else {
      assert r == a + [Sep] + b;
      LastIndexOfBeforeTail(a, Sep, b);
      var head := a + [Sep];
      assert Head(r) == head;
      assert head[|a| - 1] != Sep;
      var d := RStrip(head, Sep);
      assert head[|a| - 1] != Sep && head[|a|] == Sep;
      assert d == a;
    }
  }

  /** `SplitExt` undoes appending a dot and a dot-free, separator-free
      extension to a root whose last component is not all dots. */
  lemma SplitExtInverse(root: string, ext: string)
    requires ExtSep !in ext && Sep !in ext
    requires !AllChars(Basename(root), ExtSep)
    ensures SplitExt(root + [ExtSep] + ext) == (root, [ExtSep] + ext)
  {
    var p := root + [ExtSep] + ext;
    LastIndexOfBeforeTail(root, ExtSep, ext);
    assert p == root + ([ExtSep] + ext);
    LastIndexOfFreeTail(root, Sep, [ExtSep] + ext);
    var sepIndex := LastIndexOf(p, Sep);
    assert p[sepIndex + 1..|root|] == Basename(root);
    assert p[..|root|] == root;
    assert p[|root|..] == [ExtSep] + ext;
  }
}
