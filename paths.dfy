/**
 * File-system paths as name sequences, and java.nio's relativize/resolve on them.
 * The visitor hands every filter the entry's path relative to the walk's base directory.
 */
module Paths {
  import opened Wrappers

  /** A path: absolute ("/a/b/c") or relative ("relative"), as its sequence of names. */
  datatype Path = Path(absolute: bool, names: seq<string>)

  /** Length of the longest common prefix of two name sequences. */
  function CommonPrefixLength(a: seq<string>, b: seq<string>): (k: nat)
    ensures k <= |a| && k <= |b| && a[..k] == b[..k]
    ensures k < |a| && k < |b| ==> a[k] != b[k]
  {
    if a == [] || b == [] || a[0] != b[0] then 0
    else
      var k := 1 + CommonPrefixLength(a[1..], b[1..]);
      assert a[..k] == [a[0]] + a[1..][..k - 1];
      assert b[..k] == [b[0]] + b[1..][..k - 1];
      k
  }

  /** n parent-directory names "..". */
  function Parents(n: nat): (r: seq<string>)
    ensures |r| == n && forall i | 0 <= i < n :: r[i] == ".."
  {
    if n == 0 then [] else Parents(n - 1) + [".."]
  }

  /**
   * base.relativize(other): the relative path that leads from base to other, climbing out of
   * base's names that other does not share. A relative and an absolute path cannot be
   * relativized against each other (Java throws IllegalArgumentException): None.
   */
  function Relativize(base: Path, other: Path): (r: Option<Path>)
    ensures r.Some? <==> base.absolute == other.absolute
    ensures r.Some? ==> !r.value.absolute
  {
    if base.absolute != other.absolute then None
    else
      var k := CommonPrefixLength(base.names, other.names);
      Some(Path(false, Parents(|base.names| - k) + other.names[k..]))
  }

  /** base.resolve(other): other itself when absolute, otherwise other's names appended to base. */
  function Resolve(base: Path, other: Path): (r: Path)
    ensures other.absolute ==> r == other
    ensures !other.absolute ==> r.absolute == base.absolute && |r.names| == |base.names| + |other.names|
    ensures !other.absolute ==> r.names[..|base.names|] == base.names && r.names[|base.names|..] == other.names
  {
    if other.absolute then other else Path(base.absolute, base.names + other.names)
  }

  /** Relativizing a resolved relative path gives the relative path back. */
  lemma RelativizeResolve(base: Path, rel: Path)
    requires !rel.absolute
    ensures Relativize(base, Resolve(base, rel)) == Some(rel)
  {
    var full := Resolve(base, rel).names;
    assert forall i | 0 <= i < |base.names| :: full[i] == base.names[i];
    var k := CommonPrefixLength(base.names, full);
    assert k == |base.names|;
    assert Parents(0) + full[k..] == rel.names;
  }

  /** A file outside the base is reached by climbing out of the names it does not share: /a/b/c against base /a/x is ../b/c. */
  lemma RelativizeOutsideBase()
    ensures Relativize(Path(true, ["a", "x"]), Path(true, ["a", "b", "c"])) == Some(Path(false, ["..", "b", "c"]))
  {
    assert CommonPrefixLength(["a", "x"], ["a", "b", "c"]) == 1 by {
      assert ["a", "x"][1..] == ["x"] && ["a", "b", "c"][1..] == ["b", "c"];
    }
    assert Parents(1) == [".."];
    assert ["a", "b", "c"][1..] == ["b", "c"];
    assert [".."] + ["b", "c"] == ["..", "b", "c"];
  }
}
