/** The fd-relative, no-follow resolver and its diagnostic twin (src/root.rs).
    A descriptor is the inode it was opened on; every function threads the time
    of its next system call, so that the world may change under it. */
module Root {
  import opened Wrappers
  import opened Bytes
  import opened Kernel
  import opened Selector

  const INDEX: Bytes := [105, 110, 100, 101, 120]  // "index"

  datatype Root = Root(ino: Ino, dev: nat, platform: Platform)

  datatype Resolved = File(fd: Ino) | Dir(fd: Ino)

  datatype RejectReason =
    | Missing
    | SymlinkFound
    | SpecialFile
    | CrossDevice
    | Hardlink(count: nat)
    | NotWorldReadable
    | DirectoryNotWorldExecutable
    | DirectoryNotWorldReadable
    | NotADirectory
    | TrailingSlashOnFile
    | ListingTooManyEntries
    | ListingTooManyBytes

  datatype Context = Intermediate | Leaf | DirOnly

  predicate DirOk(st: Stat)
  {
    st.kind == Directory && st.otherExec
  }

  predicate Listable(st: Stat)
  {
    DirOk(st) && st.otherRead
  }

  predicate FileOk(st: Stat)
  {
    st.kind == Regular && st.otherRead && st.nlink == 1
  }

  function AcceptDir(r: Root, st: Stat): Option<RejectReason>
  {
    if st.dev != r.dev then Some(CrossDevice)
    else if st.kind != Directory then Some(SpecialFile)
    else if !st.otherExec then Some(DirectoryNotWorldExecutable)
    else None
  }

  function AcceptFile(r: Root, st: Stat): Option<RejectReason>
  {
    if st.dev != r.dev then Some(CrossDevice)
    else if st.kind != Regular then Some(SpecialFile)
    else if !st.otherRead then Some(NotWorldReadable)
    else if st.nlink != 1 then Some(Hardlink(st.nlink))
    else None
  }

  function Or(reason: Option<RejectReason>, default: RejectReason): RejectReason
  {
    match reason
    case Some(e) => e
    case None => default
  }

  function RejectForStat(r: Root, st: Stat, context: Context): RejectReason
  {
    if st.dev != r.dev then CrossDevice
    else
      match st.kind
      case Symlink => SymlinkFound
      case Directory => Or(AcceptDir(r, st), DirectoryNotWorldReadable)
      case Regular =>
        if context == Intermediate then NotADirectory
        else if context == DirOnly then Or(AcceptFile(r, st), TrailingSlashOnFile)
        else Or(AcceptFile(r, st), NotWorldReadable)
      case Special => SpecialFile
  }

  // ----------------------------------------------------------- serving twin

  function Open(platform: Platform, fs: Fs, ino: Ino): Option<Root>
  {
    if TraverseOpens(platform, fs(ino)) then Some(Root(ino, fs(ino).stat.dev, platform)) else None
  }

  function OpenRootDir(r: Root, w: World, t: nat): Timed<Option<Ino>>
  {
    match OpenSelf(r.platform, w(t), r.ino)
    case None => Timed(None, t + 1)
    case Some(fd) =>
      var st := w(t + 1)(fd).stat;
      Timed(if st.dev != r.dev || !DirOk(st) then None else Some(fd), t + 2)
  }

  function OpenChildDir(r: Root, w: World, dir: Ino, name: Bytes, t: nat): Timed<Option<Ino>>
  {
    match OpenTraverse(r.platform, w(t), dir, name)
    case None => Timed(None, t + 1)
    case Some(fd) =>
      var st := w(t + 1)(fd).stat;
      Timed(if st.dev != r.dev || !DirOk(st) then None else Some(fd), t + 2)
  }

  function OpenLeafDir(r: Root, w: World, dir: Ino, name: Bytes, t: nat): Timed<Option<Resolved>>
  {
    var child := OpenChildDir(r, w, dir, name, t);
    Timed(if child.val.Some? then Some(Dir(child.val.value)) else None, child.t)
  }

  function OpenLeaf(r: Root, w: World, dir: Ino, name: Bytes, dirOnly: bool, t: nat): Timed<Option<Resolved>>
  {
    if dirOnly then OpenLeafDir(r, w, dir, name, t)
    else
      match OpenProbe(w(t), dir, name)
      case None => OpenLeafDir(r, w, dir, name, t + 1)
      case Some(fd) =>
        var st := w(t + 1)(fd).stat;
        if st.dev != r.dev then Timed(None, t + 2)
        else if DirOk(st) then OpenLeafDir(r, w, dir, name, t + 2)
        else if FileOk(st) then Timed(Some(File(fd)), t + 2)
        else Timed(None, t + 2)
  }

  /** What resolving `components` below the open directory `cur` yields. */
  function ResolveFrom(r: Root, w: World, cur: Ino, components: seq<Bytes>, dirOnly: bool, t: nat)
    : Timed<Option<Resolved>>
    decreases |components|
  {
    if components == [] then Timed(Some(Dir(cur)), t)
    else if |components| == 1 then OpenLeaf(r, w, cur, components[0], dirOnly, t)
    else
      var child := OpenChildDir(r, w, cur, components[0], t);
      match child.val
      case None => Timed(None, child.t)
      case Some(fd) => ResolveFrom(r, w, fd, components[1..], dirOnly, child.t)
  }

  function ResolveRequest(r: Root, w: World, request: Request, t: nat): Timed<Option<Resolved>>
  {
    var top := OpenRootDir(r, w, t);
    match top.val
    case None => Timed(None, top.t)
    case Some(fd) => ResolveFrom(r, w, fd, request.components, request.dirOnly, top.t)
  }

  method Resolve(r: Root, w: World, request: Request, t: nat) returns (result: Option<Resolved>, now: nat)
    ensures Timed(result, now) == ResolveRequest(r, w, request, t)
  {
    var top := OpenRootDir(r, w, t);
    now := top.t;
    if top.val.None? {
      return None, now;
    }
    var cur := top.val.value;
    var total := |request.components|;
    for i := 0 to total
      invariant ResolveRequest(r, w, request, t) ==
                ResolveFrom(r, w, cur, request.components[i..], request.dirOnly, now)
      invariant i == total ==> total == 0
    {
      var name := request.components[i];
      assert request.components[i..][1..] == request.components[i + 1..];
      if i + 1 == total {
        var leaf := OpenLeaf(r, w, cur, name, request.dirOnly, now);
        return leaf.val, leaf.t;
      }
      var child := OpenChildDir(r, w, cur, name, now);
      now := child.t;
      match child.val {
        case None => return None, now;
        case Some(fd) => cur := fd;
      }
    }
    result := Some(Dir(cur));
  }

  /** A classified directory entry carries no descriptor in the server; the inode
      it has here says which directory was found. */
  function ClassifyReadableChild(r: Root, w: World, dir: Ino, name: Bytes, t: nat): Timed<Option<Resolved>>
  {
    match OpenProbe(w(t), dir, name)
    case None => Timed(None, t + 1)
    case Some(fd) =>
      var st := w(t + 1)(fd).stat;
      Timed(if st.dev != r.dev then None
            else if Listable(st) then Some(Dir(fd))
            else if FileOk(st) then Some(File(fd))
            else None, t + 2)
  }

  function ClassifyChild(r: Root, w: World, dir: Ino, name: Bytes, t: nat): Timed<Option<Resolved>>
  {
    var readable := ClassifyReadableChild(r, w, dir, name, t);
    if readable.val.Some? then readable
    else
      var child := OpenChildDir(r, w, dir, name, readable.t);
      match child.val
      case None => Timed(None, child.t)
      case Some(fd) =>
        Timed(if Listable(w(child.t)(fd).stat) then Some(Dir(fd)) else None, child.t + 1)
  }

  function OpenListableDir(r: Root, w: World, dir: Ino, t: nat): Timed<Option<Ino>>
  {
    var before := w(t)(dir).stat;
    if before.dev != r.dev || !Listable(before) then Timed(None, t + 1)
    else
      match OpenList(w(t + 1), dir)
      case None => Timed(None, t + 2)
      case Some(fd) =>
        var st := w(t + 2)(fd).stat;
        Timed(if st.dev == r.dev && Listable(st) then Some(fd) else None, t + 3)
  }

  // -------------------------------------------------------- diagnostic twin

  type Diagnosis<+T> = Result<T, RejectReason>

  function OpenRootDirDiagnostic(r: Root, w: World, t: nat): Timed<Diagnosis<Ino>>
  {
    match OpenSelf(r.platform, w(t), r.ino)
    case None => Timed(Err(Missing), t + 1)
    case Some(fd) =>
      match AcceptDir(r, w(t + 1)(fd).stat)
      case None => Timed(Ok(fd), t + 2)
      case Some(reason) => Timed(Err(reason), t + 2)
  }

  function DiagnoseChild(r: Root, w: World, dir: Ino, name: Bytes, context: Context, t: nat): Timed<RejectReason>
  {
    match StatAt(w(t), dir, name)
    case Some(st) => Timed(RejectForStat(r, st, context), t + 1)
    case None => Timed(Missing, t + 1)
  }

  function OpenChildDirDiagnostic(r: Root, w: World, dir: Ino, name: Bytes, t: nat): Timed<Diagnosis<Ino>>
  {
    match OpenTraverse(r.platform, w(t), dir, name)
    case None =>
      var reason := DiagnoseChild(r, w, dir, name, Intermediate, t + 1);
      Timed(Err(reason.val), reason.t)
    case Some(fd) =>
      match AcceptDir(r, w(t + 1)(fd).stat)
      case None => Timed(Ok(fd), t + 2)
      case Some(reason) => Timed(Err(reason), t + 2)
  }

  /** The directory route of a leaf: its own reason is dropped for a fresh one. */
  function LeafDirDiagnostic(r: Root, w: World, dir: Ino, name: Bytes, context: Context, t: nat)
    : Timed<Diagnosis<Resolved>>
  {
    var child := OpenChildDirDiagnostic(r, w, dir, name, t);
    match child.val
    case Ok(fd) => Timed(Ok(Dir(fd)), child.t)
    case Err(_) =>
      var reason := DiagnoseChild(r, w, dir, name, context, child.t);
      Timed(Err(reason.val), reason.t)
  }

  function OpenLeafDiagnostic(r: Root, w: World, dir: Ino, name: Bytes, dirOnly: bool, t: nat)
    : Timed<Diagnosis<Resolved>>
  {
    if dirOnly then LeafDirDiagnostic(r, w, dir, name, DirOnly, t)
    else
      match OpenProbe(w(t), dir, name)
      case None => LeafDirDiagnostic(r, w, dir, name, Leaf, t + 1)
      case Some(fd) =>
        var st := w(t + 1)(fd).stat;
        match st.kind
        case Directory =>
          (match AcceptDir(r, st)
           case Some(reason) => Timed(Err(reason), t + 2)
           case None => Timed(Ok(Dir(fd)), t + 2))
        case Regular =>
          (match AcceptFile(r, st)
           case Some(reason) => Timed(Err(reason), t + 2)
           case None => Timed(Ok(File(fd)), t + 2))
        case _ => Timed(Err(RejectForStat(r, st, Leaf)), t + 2)
  }

  function DiagnoseFrom(r: Root, w: World, cur: Ino, components: seq<Bytes>, dirOnly: bool, t: nat)
    : Timed<Diagnosis<Resolved>>
    decreases |components|
  {
    if components == [] then Timed(Ok(Dir(cur)), t)
    else if |components| == 1 then OpenLeafDiagnostic(r, w, cur, components[0], dirOnly, t)
    else
      var child := OpenChildDirDiagnostic(r, w, cur, components[0], t);
      match child.val
      case Err(reason) => Timed(Err(reason), child.t)
      case Ok(fd) => DiagnoseFrom(r, w, fd, components[1..], dirOnly, child.t)
  }

  function DiagnoseRequest(r: Root, w: World, request: Request, t: nat): Timed<Diagnosis<Resolved>>
  {
    var top := OpenRootDirDiagnostic(r, w, t);
    match top.val
    case Err(reason) => Timed(Err(reason), top.t)
    case Ok(fd) => DiagnoseFrom(r, w, fd, request.components, request.dirOnly, top.t)
  }

  method ResolveDiagnostic(r: Root, w: World, request: Request, t: nat)
    returns (result: Diagnosis<Resolved>, now: nat)
    ensures Timed(result, now) == DiagnoseRequest(r, w, request, t)
  {
    var top := OpenRootDirDiagnostic(r, w, t);
    now := top.t;
    if top.val.Err? {
      return Err(top.val.error), now;
    }
    var cur := top.val.value;
    var total := |request.components|;
    for i := 0 to total
      invariant DiagnoseRequest(r, w, request, t) ==
                DiagnoseFrom(r, w, cur, request.components[i..], request.dirOnly, now)
      invariant i == total ==> total == 0
    {
      var name := request.components[i];
      assert request.components[i..][1..] == request.components[i + 1..];
      if i + 1 == total {
        var leaf := OpenLeafDiagnostic(r, w, cur, name, request.dirOnly, now);
        return leaf.val, leaf.t;
      }
      var child := OpenChildDirDiagnostic(r, w, cur, name, now);
      now := child.t;
      match child.val {
        case Err(reason) => return Err(reason), now;
        case Ok(fd) => cur := fd;
      }
    }
    result := Ok(Dir(cur));
  }

  function ClassifyChildDiagnostic(r: Root, w: World, dir: Ino, name: Bytes, t: nat): Timed<Diagnosis<Resolved>>
  {
    match OpenProbe(w(t), dir, name)
    case Some(fd) =>
      var st := w(t + 1)(fd).stat;
      (match st.kind
       case Directory =>
         (match AcceptDir(r, st)
          case Some(reason) => Timed(Err(reason), t + 2)
          case None =>
            Timed(if !Listable(st) then Err(DirectoryNotWorldReadable) else Ok(Dir(fd)), t + 2))
       case Regular =>
         (match AcceptFile(r, st)
          case Some(reason) => Timed(Err(reason), t + 2)
          case None => Timed(Ok(File(fd)), t + 2))
       case _ => Timed(Err(RejectForStat(r, st, Leaf)), t + 2))
    case None =>
      var child := OpenChildDirDiagnostic(r, w, dir, name, t + 1);
      match child.val
      case Err(reason) => Timed(Err(reason), child.t)
      case Ok(fd) =>
        Timed(if !Listable(w(child.t)(fd).stat) then Err(DirectoryNotWorldReadable) else Ok(Dir(fd)),
              child.t + 1)
  }

  function OpenListableDirDiagnostic(r: Root, w: World, dir: Ino, t: nat): Timed<Diagnosis<Ino>>
  {
    var before := w(t)(dir).stat;
    match AcceptDir(r, before)
    case Some(reason) => Timed(Err(reason), t + 1)
    case None =>
      if !before.otherRead then Timed(Err(DirectoryNotWorldReadable), t + 1)
      else
        match OpenList(w(t + 1), dir)
        case None => Timed(Err(DirectoryNotWorldReadable), t + 2)
        case Some(fd) =>
          var st := w(t + 2)(fd).stat;
          match AcceptDir(r, st)
          case Some(reason) => Timed(Err(reason), t + 3)
          case None =>
            Timed(if st.otherRead then Ok(fd) else Err(DirectoryNotWorldReadable), t + 3)
  }
}
