/** The filesystem vocabulary shared by the package builder and the save agent.

    A path is the sequence of its cleaned segments, so "is inside" is the prefix
    order. A tree maps the path of each regular file to its bytes and permission
    bits; directories exist exactly when some file lies below them.

    SHA-256 is ideal: a digest carries the content it was computed from, so equal
    digests mean equal contents. `Blank` is the empty digest string. */
module Storage {

  newtype byte = x: int | 0 <= x < 256

  type Bytes = seq<byte>

  datatype Digest = Blank | Sha256(content: Bytes)

  type Path = seq<string>

  datatype File = File(bytes: Bytes, mode: nat)

  type Tree = map<Path, File>

  /** pathWithin: `target` is `base` itself or lies below it. */
  predicate Within(base: Path, target: Path) {
    base <= target
  }

  /** `Lstat` finds a directory here. */
  predicate IsDirectory(tree: Tree, p: Path) {
    exists q | q in tree :: p < q
  }

  /** `Lstat` finds something here. */
  predicate Exists(tree: Tree, p: Path) {
    p in tree || IsDirectory(tree, p)
  }

  /** A file can be put at `p`: no parent of `p` is a file and `p` is no directory. */
  predicate Writable(tree: Tree, p: Path) {
    forall q | q in tree :: !(q < p) && !(p < q)
  }

  /** What a real directory tree always satisfies: a file has no children. */
  ghost predicate WellFormed(tree: Tree) {
    forall p, q | p in tree && q in tree :: !(p < q)
  }

  /** sameFile: a regular file with this content is at `p`. */
  predicate SameFile(tree: Tree, p: Path, content: Bytes) {
    p in tree && tree[p].bytes == content
  }

  /** A path below both of two roots puts one root inside the other. */
  lemma PrefixesCompare(a: Path, b: Path, p: Path)
    requires Within(a, p) && Within(b, p)
    ensures Within(a, b) || Within(b, a)
  {
    assert p[..|a|] == a && p[..|b|] == b;
    if |a| <= |b| {
      assert b[..|a|] == p[..|b|][..|a|];
    } else {
      assert a[..|b|] == p[..|a|][..|b|];
    }
  }
}
