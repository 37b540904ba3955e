/** POSIX path helpers: `os.path.basename` and `os.path.join` as used by the script. */
module Paths {

  const Sep: char := '/'

  predicate IsAbsolute(p: string) {
    |p| > 0 && p[0] == Sep
  }

  /** Index of the last separator among the first `n` characters, or -1. */
  function LastSep(p: string, n: nat): (k: int)
    requires n <= |p|
    ensures -1 <= k < n
    ensures k >= 0 ==> p[k] == Sep
    ensures forall j :: k < j < n ==> p[j] != Sep
    decreases n
  {
    if n == 0 then -1
    else if p[n - 1] == Sep then n - 1
    else LastSep(p, n - 1)
  }

  /** `posixpath.basename`: everything after the last '/'. */
  function Basename(p: string): (r: string)
    ensures |r| <= |p|
    ensures Sep !in r
  {
    p[LastSep(p, |p|) + 1..]
  }

  /** The basename is the longest separator-free suffix: a suffix of the path
      that is the whole path or is preceded by a separator. */
  lemma BasenameIsLastComponent(p: string)
    ensures var r := Basename(p);
            && |r| <= |p| && r == p[|p| - |r|..]
            && (|r| == |p| || p[|p| - |r| - 1] == Sep)
  {
  }

  /** Two-argument `posixpath.join`: an absolute `b` replaces `a`; otherwise one
      separator is inserted unless `a` is empty or already ends with one. */
  function Join(a: string, b: string): (r: string)
    ensures |r| <= |a| + 1 + |b|
    ensures |b| <= |r| && r[|r| - |b|..] == b
    ensures !IsAbsolute(b) ==> |a| <= |r| && r[..|a|] == a
    ensures IsAbsolute(b) ==> r == b
    ensures !IsAbsolute(b) ==> r == a + b || r == a + [Sep] + b
    // a separator is inserted exactly when `a` is non-empty and lacks one at
    // its end, so the directory part ends in one and none is doubled
    ensures !IsAbsolute(b) && a != [] && a[|a| - 1] != Sep ==> r == a + [Sep] + b
    ensures !IsAbsolute(b) && a != [] && a[|a| - 1] == Sep ==> r == a + b
    ensures a == [] ==> r == b
  {
    if IsAbsolute(b) then b
    else if a == [] || a[|a| - 1] == Sep then a + b
    else a + [Sep] + b
  }

  /** Three-argument `os.path.join(a, b, c)`, which folds left. */
  function Join3(a: string, b: string, c: string): string
  {
    Join(Join(a, b), c)
  }

  /** The basename of `x + b` is `b` when `b` holds no separator and `x` is
      empty or ends in one. */
  lemma BasenameOfSuffix(x: string, b: string)
    requires Sep !in b
    requires x == [] || x[|x| - 1] == Sep
    ensures Basename(x + b) == b
  {
    var s := x + b;
    forall j | |x| <= j < |s| ensures s[j] != Sep {
      assert s[j] == b[j - |x|];
    }
    LastSepIs(s, |s|, |x| - 1);
    assert s[|x|..] == b;
  }

  /** The last separator is the one with no separator after it. */
  lemma {:induction false} LastSepIs(p: string, n: nat, k: int)
    requires n <= |p| && -1 <= k < n
    requires k >= 0 ==> p[k] == Sep
    requires forall j :: k < j < n ==> p[j] != Sep
    ensures LastSep(p, n) == k
    decreases n
  {
    if n > 0 && n - 1 != k {
      LastSepIs(p, n - 1, k);
    }
  }

  /** Joining a plain file name onto any directory and taking the basename
      gives the file name back. */
  lemma BasenameOfJoin(a: string, b: string)
    requires Sep !in b
    ensures Basename(Join(a, b)) == b
  {
    assert !IsAbsolute(b) by { if b != [] { assert b[0] in b; } }
    if a == [] || a[|a| - 1] == Sep {
      BasenameOfSuffix(a, b);
    } else {
      assert a + [Sep] + b == (a + [Sep]) + b;
      BasenameOfSuffix(a + [Sep], b);
    }
  }

  /** Appending a suffix without separators to a joined path appends it to
      the basename. */
  lemma BasenameOfJoinExt(a: string, b: string, ext: string)
    requires Sep !in b && Sep !in ext
    ensures Basename(Join(a, b) + ext) == b + ext
  {
    assert !IsAbsolute(b) by { if b != [] { assert b[0] in b; } }
    NoSepConcat(b, ext);
    if a == [] || a[|a| - 1] == Sep {
      assert Join(a, b) + ext == a + (b + ext);
      BasenameOfSuffix(a, b + ext);
    } else {
      var x := a + [Sep];
      assert Join(a, b) + ext == x + (b + ext);
      BasenameOfSuffix(x, b + ext);
    }
  }

  lemma NoSepConcat(b: string, ext: string)
    requires Sep !in b && Sep !in ext
    ensures Sep !in b + ext
  {
    forall k | 0 <= k < |b + ext| ensures (b + ext)[k] != Sep {
      if k < |b| { assert (b + ext)[k] == b[k]; }
      else { assert (b + ext)[k] == ext[k - |b|]; }
    }
  }
}
