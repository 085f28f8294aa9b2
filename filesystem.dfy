/**
 * The part of the file system that linking and cleaning look at: absolute
 * paths (lists of parts) mapped to regular files, directories and symbolic
 * links with their targets.
 */
module FileSystem {
  import opened Wrappers

  type Path = seq<string>

  datatype FsNode = RegularFile | Directory | Symlink(target: Path)

  type Fs = map<Path, FsNode>

  /** Linux gives up resolving a path after this many symbolic links. */
  const MaxHops: nat := 40

  /** What `p` finally names once symbolic links are followed. */
  function Resolve(fs: Fs, p: Path, hops: nat): (r: Option<FsNode>)
    ensures r.Some? ==> !r.value.Symlink?
    ensures p !in fs ==> r.None?
    decreases hops
  {
    if p !in fs then None
    else if fs[p].Symlink? then (if hops == 0 then None else Resolve(fs, fs[p].target, hops - 1))
    else Some(fs[p])
  }

  /** `Path.exists`: the path names something once links are followed. */
  predicate Exists(fs: Fs, p: Path) {
    Resolve(fs, p, MaxHops).Some?
  }

  /** `Path.is_symlink` */
  predicate IsSymlink(fs: Fs, p: Path) {
    p in fs && fs[p].Symlink?
  }

  /** `Path.is_file`: a regular file once links are followed. */
  predicate IsFile(fs: Fs, p: Path) {
    Resolve(fs, p, MaxHops) == Some(RegularFile)
  }

  /** `Path.readlink` of a symbolic link. */
  function Readlink(fs: Fs, p: Path): Path
    requires IsSymlink(fs, p)
  {
    fs[p].target
  }

  /** A symbolic link whose target is missing does not exist. */
  lemma DanglingLink(fs: Fs, p: Path)
    requires IsSymlink(fs, p) && Readlink(fs, p) !in fs
    ensures !Exists(fs, p) && !IsFile(fs, p)
  {
    assert Resolve(fs, Readlink(fs, p), MaxHops - 1).None?;
  }

  /** A link is as good as its target. */
  lemma LinkResolves(fs: Fs, p: Path)
    requires IsSymlink(fs, p)
    ensures Exists(fs, p) ==> Resolve(fs, Readlink(fs, p), MaxHops - 1).Some?
    ensures IsFile(fs, p) <==> Resolve(fs, Readlink(fs, p), MaxHops - 1) == Some(RegularFile)
  {
  }

  /** A link at `target` pointing to `source`. */
  function LinkTo(fs: Fs, source: Path, target: Path): (r: Fs)
    ensures IsSymlink(r, target) && Readlink(r, target) == source
    ensures forall p :: p != target ==> (p in r <==> p in fs) && (p in fs ==> r[p] == fs[p])
  {
    fs[target := Symlink(source)]
  }

  /** `Path.unlink` */
  function Remove(fs: Fs, p: Path): (r: Fs)
    ensures p !in r && !IsSymlink(r, p) && !Exists(r, p)
    ensures forall q :: q != p ==> (q in r <==> q in fs) && (q in fs ==> r[q] == fs[q])
  {
    fs - {p}
  }

  /** `small` is `big` with some of its entries taken away. */
  predicate Shrunk(small: Fs, big: Fs) {
    forall p :: p in small ==> p in big && small[p] == big[p]
  }

  /**
   * Taking entries away never makes a path resolve to something new: what
   * still resolves, resolves as before.
   */
  lemma {:induction false} ResolveShrunk(small: Fs, big: Fs, p: Path, hops: nat)
    requires Shrunk(small, big)
    ensures Resolve(small, p, hops).Some? ==> Resolve(big, p, hops) == Resolve(small, p, hops)
    decreases hops
  {
    if p in small && small[p].Symlink? && hops > 0 {
      ResolveShrunk(small, big, small[p].target, hops - 1);
    }
  }

  /** In particular a path that is no regular file stays none once entries are removed. */
  lemma IsFileShrunk(small: Fs, big: Fs, p: Path)
    requires Shrunk(small, big)
    ensures IsFile(small, p) ==> IsFile(big, p)
  {
    ResolveShrunk(small, big, p, MaxHops);
  }

  /** Whether `p` lies below `root`: `p.is_relative_to(root)`. */
  predicate Below(p: Path, root: Path) {
    |root| <= |p| && p[..|root|] == root
  }

  /** `str` of an absolute path. */
  function AbsoluteString(p: Path): string {
    if p == [] then "/" else PartsString(p, true)
  }

  /** The parts, each after a `/` when `leading`, else joined by `/`. */
  function PartsString(p: Path, leading: bool): string {
    if p == [] then ""
    else (if leading then "/" else "") + p[0] + PartsString(p[1..], true)
  }

  /** `str` of a relative path. */
  function RelativeString(p: Path): string {
    if p == [] then "." else PartsString(p, false)
  }
}
