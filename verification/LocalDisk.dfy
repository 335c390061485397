/**
  The local file system under the synced root: a map from paths to files and directories,
  with the few system calls the engine makes. The root directory itself is implicit.
 */
module LocalDisk {
  import opened Base

  datatype Obj = Dir | File(bytes: Bytes, mtime: int)

  type Disk = map<Path, Obj>

  /** Every entry lies in an existing directory. */
  ghost predicate IsTree(d: Disk) {
    [] !in d && forall p {:trigger IsDir(d, Parent(p))} :: p in d ==> IsDir(d, Parent(p))
  }

  predicate IsDir(d: Disk, p: Path) {
    p == [] || (p in d && d[p].Dir?)
  }

  /** The non-root prefixes of a path, itself included. */
  function Prefixes(p: Path): set<Path> {
    set k | 1 <= k <= |p| :: p[..k]
  }

  /** A file stands on the way to `p`, or at `p` itself. */
  predicate FileOnTheWay(d: Disk, p: Path) {
    exists q | q in Prefixes(p) :: q in d && d[q].File?
  }

  /** Linux and macOS, or Windows: fixed when the client is built, and left open here. */
  const POSIX: bool

  /** Looking at `p` fails with an error other than "does not exist". With a file above `p` a POSIX
      system reports ENOTDIR, which os.IsNotExist does not accept; Windows reports a missing path. */
  predicate Barred(d: Disk, p: Path) {
    POSIX && FileOnTheWay(d, Parent(p))
  }

  /** os.MkdirAll; None when a component is a file, in which case nothing changed. */
  function MkdirAll(d: Disk, p: Path): Option<Disk> {
    if FileOnTheWay(d, p) then None
    else Some(map q | q in d.Keys + Prefixes(p) :: if q in d then d[q] else Dir)
  }

  datatype Renamed = Moved(disk: Disk) | NoSource | Refused

  /** os.Rename: a missing source is reported as such, unless a file bars the way to it; a directory
      is never replaced, and a directory replaces nothing and does not move into itself. */
  function Rename(d: Disk, src: Path, dst: Path): Renamed {
    if Barred(d, src) then Refused
    else if src !in d || dst == [] then NoSource
    else if dst in d && d[dst].Dir? then Refused
    else if !IsDir(d, Parent(dst)) then NoSource
    else if d[src].File? then Moved((d - {src})[dst := d[src]])
    else if Under(dst, src) || dst in d then Refused
    else Moved(MoveTree(d, src, dst))
  }

  function Relocate(p: Path, src: Path, dst: Path): Path
    requires Under(p, src)
  {
    dst + p[|src|..]
  }

  function MoveTree(d: Disk, src: Path, dst: Path): Disk {
    var moved := set q | q in d && Under(q, src) :: Relocate(q, src, dst);
    RelocateBack(d, src, dst);
    map r | r in d.Keys + moved && (r in moved || !Under(r, src)) ::
      if r in moved then d[Relocate(r, dst, src)] else d[r]
  }

  lemma RelocateInverse(p: Path, src: Path, dst: Path)
    requires Under(p, src)
    ensures Under(Relocate(p, src, dst), dst)
    ensures Relocate(Relocate(p, src, dst), dst, src) == p
  {
    assert p == src + p[|src|..];
  }

  lemma RelocateBack(d: Disk, src: Path, dst: Path)
    ensures forall q :: q in d && Under(q, src) ==>
              Under(Relocate(q, src, dst), dst) && Relocate(Relocate(q, src, dst), dst, src) == q
  {
    forall q | q in d && Under(q, src)
      ensures Under(Relocate(q, src, dst), dst) && Relocate(Relocate(q, src, dst), dst, src) == q
    {
      RelocateInverse(q, src, dst);
    }
  }

  /** What is left when a path and everything beneath it goes. */
  function Without(d: Disk, p: Path): Disk {
    map q | q in d && !Under(q, p) :: d[q]
  }

  /** os.RemoveAll; a missing path is no error, one beneath a file may be. */
  function RemoveAll(d: Disk, p: Path): Option<Disk> {
    if Barred(d, p) then None else Some(Without(d, p))
  }

  /** os.Remove with a missing file tolerated; None when a non-empty directory is in the way, or a
      file above. */
  function Remove(d: Disk, p: Path): Option<Disk> {
    if Barred(d, p) then None
    else if p in d && d[p].Dir? && exists q | q in d :: q != p && Under(q, p) then None
    else Some(d - {p})
  }

  // ---- the calls keep the tree a tree -----------------------------------------------

  /** In a tree everything above an entry is a directory. */
  lemma {:induction false} AncestorsAreDirs(d: Disk, p: Path, k: nat)
    requires IsTree(d) && p in d && k < |p|
    ensures IsDir(d, p[..k])
    decreases |p|
  {
    assert IsDir(d, Parent(p));
    if k < |p| - 1 {
      AncestorsAreDirs(d, Parent(p), k);
      assert Parent(p)[..k] == p[..k];
    }
  }

  /** Above what is there stand directories, so nothing bars the way to it. */
  lemma NotBarred(d: Disk, p: Path)
    requires IsTree(d) && p in d
    ensures !FileOnTheWay(d, Parent(p)) && !Barred(d, p)
  {
    forall q | q in Prefixes(Parent(p)) ensures q in d ==> d[q].Dir? {
      var k :| 1 <= k <= |Parent(p)| && q == Parent(p)[..k];
      assert q == p[..k];
      AncestorsAreDirs(d, p, k);
    }
  }

  lemma MkdirAllKeepsTree(d: Disk, p: Path)
    requires IsTree(d) && MkdirAll(d, p).Some?
    ensures var e := MkdirAll(d, p).value;
            IsTree(e) && IsDir(e, p) &&
            (forall q :: q in d ==> q in e && e[q] == d[q]) &&
            (forall q :: q in e && q !in d ==> e[q].Dir? && Under(p, q))
  {
    var e := MkdirAll(d, p).value;
    forall q | q in e ensures q != [] && IsDir(e, Parent(q)) {
      if q in d {
        assert IsDir(d, Parent(q));
      } else {
        var k :| 1 <= k <= |p| && q == p[..k];
        if k > 1 {
          assert Parent(q) == p[..k - 1];
          assert Parent(q) in Prefixes(p);
        }
      }
    }
    if p != [] {
      assert p[..|p|] == p;
      assert p in Prefixes(p);
    }
  }

  lemma RenameFileKeepsTree(d: Disk, src: Path, dst: Path)
    requires IsTree(d) && src in d && d[src].File? && Rename(d, src, dst).Moved?
    ensures IsTree(Rename(d, src, dst).disk)
  {
    var e := Rename(d, src, dst).disk;
    forall q | q in e ensures q != [] && IsDir(e, Parent(q)) {
      assert q != dst ==> IsDir(d, Parent(q));
      assert IsDir(d, Parent(q)) && Parent(q) != src;
    }
  }

  /** Nothing lies beneath a path that is not there. */
  lemma NothingBeneath(d: Disk, p: Path, q: Path)
    requires IsTree(d) && p != [] && p !in d && Under(q, p)
    ensures q !in d
  {
    assert q[..|p|] == p && q == q[..|q|];
    if q in d && |q| > |p| {
      AncestorsAreDirs(d, q, |p|);
    }
  }

  /** Membership after moving a directory. */
  lemma MoveTreeAt(d: Disk, src: Path, dst: Path, q: Path)
    requires IsTree(d) && src in d && dst != [] && dst !in d && !Under(dst, src)
    ensures var e := MoveTree(d, src, dst);
            q in e <==>
              (Under(q, dst) && Relocate(q, dst, src) in d) || (!Under(q, dst) && q in d && !Under(q, src))
    ensures var e := MoveTree(d, src, dst);
            q in e ==> (Under(q, dst) && e[q] == d[Relocate(q, dst, src)]) || (!Under(q, dst) && q in d && e[q] == d[q])
  {
    var moved := set r | r in d && Under(r, src) :: Relocate(r, src, dst);
    RelocateBack(d, src, dst);
    if Under(q, dst) {
      RelocateInverse(q, dst, src);
      NothingBeneath(d, dst, q);
      assert Relocate(q, dst, src) in d ==> q in moved;
    }
    assert q in moved ==> Under(q, dst) && Relocate(q, dst, src) in d;
  }

  lemma MoveTreeKeepsTree(d: Disk, src: Path, dst: Path)
    requires IsTree(d) && src in d && d[src].Dir? && Rename(d, src, dst).Moved?
    ensures IsTree(Rename(d, src, dst).disk)
  {
    var e := Rename(d, src, dst).disk;
    forall q | q in e ensures q != [] && IsDir(e, Parent(q)) {
      MoveTreeAt(d, src, dst, q);
      var up := Parent(q);
      MoveTreeAt(d, src, dst, up);
      if Under(q, dst) {
        var back := Relocate(q, dst, src);
        if q == dst {
          assert IsDir(d, Parent(dst));
          assert Under(up, src) ==> Under(dst, src);
        } else {
          assert |q| > |dst|;
          assert Relocate(up, dst, src) == Parent(back);
          assert IsDir(d, Parent(back));
        }
      } else {
        assert IsDir(d, up);
        assert Under(up, src) ==> Under(q, src);
        assert Under(up, dst) ==> Under(q, dst);
      }
    }
  }

  lemma RenameKeepsTree(d: Disk, src: Path, dst: Path)
    requires IsTree(d) && Rename(d, src, dst).Moved?
    ensures IsTree(Rename(d, src, dst).disk)
  {
    if d[src].File? {
      RenameFileKeepsTree(d, src, dst);
    } else {
      MoveTreeKeepsTree(d, src, dst);
    }
  }

  lemma WithoutKeepsTree(d: Disk, p: Path)
    requires IsTree(d)
    ensures IsTree(Without(d, p))
  {
    var e := Without(d, p);
    forall q | q in e ensures q != [] && IsDir(e, Parent(q)) {
      assert IsDir(d, Parent(q));
      assert Under(Parent(q), p) ==> Under(q, p);
    }
  }

  lemma RemoveKeepsTree(d: Disk, p: Path)
    requires IsTree(d) && Remove(d, p).Some?
    ensures IsTree(Remove(d, p).value)
  {
    var e := Remove(d, p).value;
    forall q | q in e ensures q != [] && IsDir(e, Parent(q)) {
      assert IsDir(d, Parent(q));
      assert Parent(q) == p ==> Under(q, p);
    }
  }
}
