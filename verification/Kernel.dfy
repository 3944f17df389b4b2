/** The filesystem as the server's system calls see it. Inodes are numbers; a
    snapshot gives every inode its node, and a world gives the snapshot that the
    t-th system call of a run meets, so anything may change between two calls. */
module Kernel {
  import opened Wrappers
  import opened Bytes

  type Ino = nat

  datatype Kind = Regular | Directory | Symlink | Special

  datatype Stat = Stat(kind: Kind, otherRead: bool, otherExec: bool, nlink: nat, dev: nat)

  /** `daemonRead` and `daemonSearch` say what the kernel lets the server process
      do, which the world bits alone do not decide. `stream` is the order in which
      enumeration yields the names, `parent` what `..` names in a directory. */
  datatype Node = Node(
    stat: Stat,
    daemonRead: bool,
    daemonSearch: bool,
    entries: map<Bytes, Ino>,
    stream: seq<Bytes>,
    content: Bytes,
    parent: Ino)

  type Fs = Ino -> Node

  type World = nat -> Fs

  /** The filesystem that never changes. */
  function Frozen(fs: Fs): World
  {
    t => fs
  }

  /** A value, and the time of the next system call. */
  datatype Timed<+T> = Timed(val: T, t: nat)

  /** How a platform opens a directory only to walk through it: Linux `O_PATH`,
      Darwin and BSD `O_SEARCH`, OpenBSD a plain read-only open. */
  datatype Platform = OPath | OSearch | ORdonly

  predicate TraverseOpens(v: Platform, n: Node)
  {
    && n.stat.kind == Directory
    && match v
       case OPath => true
       case OSearch => n.daemonSearch
       case ORdonly => n.daemonRead
  }

  /** `O_NOFOLLOW` refuses a symlink; what else opens is for the kernel to say. */
  predicate ProbeOpens(n: Node)
  {
    n.stat.kind != Symlink && n.daemonRead
  }

  function Lookup(fs: Fs, dir: Ino, name: Bytes): Option<Ino>
  {
    if fs(dir).daemonSearch && name in fs(dir).entries then Some(fs(dir).entries[name]) else None
  }

  function OpenProbe(fs: Fs, dir: Ino, name: Bytes): Option<Ino>
  {
    match Lookup(fs, dir, name)
    case Some(c) => if ProbeOpens(fs(c)) then Some(c) else None
    case None => None
  }

  function OpenTraverse(v: Platform, fs: Fs, dir: Ino, name: Bytes): Option<Ino>
  {
    match Lookup(fs, dir, name)
    case Some(c) => if TraverseOpens(v, fs(c)) then Some(c) else None
    case None => None
  }

  /** `openat(dir, ".")` with the traversal flags. */
  function OpenSelf(v: Platform, fs: Fs, dir: Ino): Option<Ino>
  {
    if fs(dir).daemonSearch && TraverseOpens(v, fs(dir)) then Some(dir) else None
  }

  /** `openat(dir, ".")` with the enumeration flags. */
  function OpenList(fs: Fs, dir: Ino): Option<Ino>
  {
    if fs(dir).stat.kind == Directory && fs(dir).daemonSearch && fs(dir).daemonRead then Some(dir) else None
  }

  function StatAt(fs: Fs, dir: Ino, name: Bytes): Option<Stat>
  {
    match Lookup(fs, dir, name)
    case Some(c) => Some(fs(c).stat)
    case None => None
  }
}
