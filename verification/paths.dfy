/** Paths as sequences of name segments, and the two path operations the
    engine uses: joining a name and appending a suffix to the last segment. */
module Paths {

  /** A path relative to an implicit base directory that always exists. */
  type Path = seq<string>

  /** `p` is `q` or an ancestor of `q`. */
  predicate IsPrefix(p: Path, q: Path) {
    |p| <= |q| && q[..|p|] == p
  }

  /** The directory holding `p`. */
  function Parent(p: Path): (r: Path)
    requires |p| > 0
    ensures |r| == |p| - 1 && IsPrefix(r, p)
  {
    p[..|p| - 1]
  }

  /** `filepath.Join(base, name)` for a name that holds no separator, `.` or
      `..`: an empty name is dropped, any other name becomes one segment. */
  function Join(base: Path, name: string): (r: Path)
    ensures name == "" ==> r == base
    ensures name != "" ==> |r| == |base| + 1 && Parent(r) == base && r[|base|] == name
  {
    if name == "" then base else base + [name]
  }

  /** `path + suffix` on the textual path: the suffix lands on the last segment. */
  function WithSuffix(p: Path, suffix: string): (r: Path)
    ensures |r| == if |p| == 0 then 1 else |p|
    ensures |p| > 0 ==> Parent(r) == Parent(p) && r[|p| - 1] == p[|p| - 1] + suffix
  {
    if |p| == 0 then [suffix] else p[..|p| - 1] + [p[|p| - 1] + suffix]
  }

  /** A non-empty suffix always names a different path. */
  lemma WithSuffixDiffers(p: Path, suffix: string)
    requires suffix != ""
    ensures WithSuffix(p, suffix) != p
  {
    if |p| > 0 {
      assert |WithSuffix(p, suffix)[|p| - 1]| == |p[|p| - 1]| + |suffix|;
    }
  }
}
