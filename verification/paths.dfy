/** Filesystem paths as sequences of components.

    A path is the list of its components below the filesystem root, so the
    root itself is the empty sequence. Rust's `Path::starts_with` compares
    whole components, which on this representation is the prefix relation,
    and `Path::ancestors` yields exactly the prefixes of a path. */
module Paths {

  type Name = string

  type Path = seq<Name>

  /** `p.starts_with(base)`: `base` is a (not necessarily proper) prefix of `p`. */
  predicate StartsWith(p: Path, base: Path) {
    |base| <= |p| && p[..|base|] == base
  }

  /** `a` is one of the ancestors of `p` other than `p` itself. */
  predicate IsProperAncestor(a: Path, p: Path) {
    |a| < |p| && p[..|a|] == a
  }

  /** `path.join(name)` for a single component. */
  function Join(p: Path, name: Name): (r: Path)
    ensures IsProperAncestor(p, r)
    ensures |r| == |p| + 1 && r[|p|] == name
  {
    p + [name]
  }
}
