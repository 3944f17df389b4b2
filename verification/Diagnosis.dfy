/** The reason `check` reports is a property of each component's node, whichever of
    the probe, the traversal or the stat route came upon it. */
module Diagnosis {
  import opened Wrappers
  import opened Bytes
  import opened Kernel
  import opened Selector
  import opened Root

  /** What stops a component: device, then kind, mode and link count, then what
      the kernel lets the process open. A directory that cannot be opened counts as
      unreadable; as a leaf, one that can be read need not be walked through. */
  function Obstacle(v: Platform, dev: nat, n: Node, context: Context): Option<RejectReason>
  {
    if n.stat.dev != dev then Some(CrossDevice)
    else
      match n.stat.kind
      case Symlink => Some(SymlinkFound)
      case Special => Some(SpecialFile)
      case Directory =>
        if !n.stat.otherExec then Some(DirectoryNotWorldExecutable)
        else if TraverseOpens(v, n) || (context == Leaf && n.daemonRead) then None
        else Some(DirectoryNotWorldReadable)
      case Regular =>
        if context == Intermediate then Some(NotADirectory)
        else if !n.stat.otherRead then Some(NotWorldReadable)
        else if n.stat.nlink != 1 then Some(Hardlink(n.stat.nlink))
        else if context == DirOnly then Some(TrailingSlashOnFile)
        else if !n.daemonRead then Some(NotWorldReadable)
        else None
  }

  function ContextOf(names: seq<Bytes>, dirOnly: bool): Context
  {
    if |names| > 1 then Intermediate else if dirOnly then DirOnly else Leaf
  }

  /** The obstacle of the first component that has one. */
  function FirstObstacle(r: Root, fs: Fs, cur: Ino, names: seq<Bytes>, dirOnly: bool): Option<RejectReason>
    decreases |names|
  {
    if names == [] then None
    else
      match Lookup(fs, cur, names[0])
      case None => Some(Missing)
      case Some(c) =>
        var obstacle := Obstacle(r.platform, r.dev, fs(c), ContextOf(names, dirOnly));
        if obstacle.Some? then obstacle else FirstObstacle(r, fs, c, names[1..], dirOnly)
  }

  /** A root that cannot be opened again is missing, whatever its metadata says. */
  function FirstObstacleOfRequest(r: Root, fs: Fs, request: Request): Option<RejectReason>
  {
    if OpenSelf(r.platform, fs, r.ino).None? then Some(Missing)
    else
      var obstacle := Obstacle(r.platform, r.dev, fs(r.ino), Intermediate);
      if obstacle.Some? then obstacle else FirstObstacle(r, fs, r.ino, request.components, request.dirOnly)
  }

  function Reason<T>(d: Diagnosis<T>): Option<RejectReason>
  {
    match d
    case Ok(_) => None
    case Err(e) => Some(e)
  }

  lemma ChildReason(r: Root, fs: Fs, cur: Ino, name: Bytes, t: nat)
    ensures var child := OpenChildDirDiagnostic(r, Frozen(fs), cur, name, t).val;
            match Lookup(fs, cur, name)
            case None => child == Err(Missing)
            case Some(c) =>
              && Reason(child) == Obstacle(r.platform, r.dev, fs(c), Intermediate)
              && (child.Ok? ==> child.value == c)
  {
  }

  lemma LeafReason(r: Root, fs: Fs, cur: Ino, name: Bytes, dirOnly: bool, t: nat)
    ensures var leaf := OpenLeafDiagnostic(r, Frozen(fs), cur, name, dirOnly, t).val;
            match Lookup(fs, cur, name)
            case None => leaf == Err(Missing)
            case Some(c) => Reason(leaf) == Obstacle(r.platform, r.dev, fs(c), if dirOnly then DirOnly else Leaf)
  {
  }

  /** What keeps an entry from being counted: if it can be read, its device, kind,
      modes and link count; if not, what an intermediate directory would be refused
      for; and a directory that passes has to be world-readable besides. */
  function EntryObstacle(v: Platform, dev: nat, n: Node): Option<RejectReason>
  {
    var unlisted := if n.stat.otherRead then None else Some(DirectoryNotWorldReadable);
    if n.stat.kind == Directory && n.stat.dev == dev && n.stat.otherExec && (n.daemonRead || TraverseOpens(v, n))
    then unlisted
    else if n.stat.kind == Regular && n.daemonRead then Obstacle(v, dev, n, Leaf)
    else Obstacle(v, dev, n, Intermediate)
  }

  lemma EntryReason(r: Root, fs: Fs, dir: Ino, name: Bytes, t: nat)
    ensures var entry := ClassifyChildDiagnostic(r, Frozen(fs), dir, name, t).val;
            match Lookup(fs, dir, name)
            case None => entry == Err(Missing)
            case Some(c) => Reason(entry) == EntryObstacle(r.platform, r.dev, fs(c))
  {
  }

  lemma {:induction false} WalkReason(
    r: Root, fs: Fs, cur: Ino, names: seq<Bytes>, dirOnly: bool, t: nat)
    ensures Reason(DiagnoseFrom(r, Frozen(fs), cur, names, dirOnly, t).val) ==
            FirstObstacle(r, fs, cur, names, dirOnly)
    decreases |names|
  {
    if |names| == 1 {
      LeafReason(r, fs, cur, names[0], dirOnly, t);
      assert names[1..] == [];
    } else if |names| > 1 {
      ChildReason(r, fs, cur, names[0], t);
      var child := OpenChildDirDiagnostic(r, Frozen(fs), cur, names[0], t);
      if child.val.Ok? {
        WalkReason(r, fs, child.val.value, names[1..], dirOnly, child.t);
      }
    }
  }

  /** On every static filesystem and platform the reported reason is that of the
      first component with an obstacle; with none, the request is accepted. */
  lemma ReasonIsFirstObstacle(r: Root, fs: Fs, request: Request, t: nat)
    ensures Reason(DiagnoseRequest(r, Frozen(fs), request, t).val) == FirstObstacleOfRequest(r, fs, request)
  {
    var top := OpenRootDirDiagnostic(r, Frozen(fs), t);
    if top.val.Ok? {
      WalkReason(r, fs, r.ino, request.components, request.dirOnly, top.t);
    }
  }

  // ------------------------------------------------- reasons from mode bits

  /** What the metadata alone finds wrong with a component. OpenBSD opens
      directories for reading even to walk through them, so there one that the
      process cannot read is unreadable, though its mode lets it be walked. */
  function Fault(v: Platform, dev: nat, n: Node, context: Context): Option<RejectReason>
  {
    var st := n.stat;
    if st.dev != dev then Some(CrossDevice)
    else if st.kind == Symlink then Some(SymlinkFound)
    else if st.kind == Special then Some(SpecialFile)
    else if st.kind == Directory then
      if !st.otherExec then Some(DirectoryNotWorldExecutable)
      else if v == ORdonly && !n.daemonRead then Some(DirectoryNotWorldReadable)
      else None
    else if context == Intermediate then Some(NotADirectory)
    else if !st.otherRead then Some(NotWorldReadable)
    else if st.nlink != 1 then Some(Hardlink(st.nlink))
    else if context == DirOnly then Some(TrailingSlashOnFile)
    else None
  }

  /** The fault of the first component that has one. */
  function FirstFault(r: Root, fs: Fs, cur: Ino, names: seq<Bytes>, dirOnly: bool): Option<RejectReason>
    decreases |names|
  {
    if names == [] then None
    else if names[0] !in fs(cur).entries then Some(Missing)
    else
      var c := fs(cur).entries[names[0]];
      var fault := Fault(r.platform, r.dev, fs(c), ContextOf(names, dirOnly));
      if fault.Some? then fault else FirstFault(r, fs, c, names[1..], dirOnly)
  }

  function FirstFaultOfRequest(r: Root, fs: Fs, request: Request): Option<RejectReason>
  {
    var fault := Fault(r.platform, r.dev, fs(r.ino), Intermediate);
    if fault.Some? then fault else FirstFault(r, fs, r.ino, request.components, request.dirOnly)
  }

  /** The world bits of this node grant the server process what they say. */
  predicate Granted(n: Node)
  {
    && (n.stat.kind in {Regular, Directory} && n.stat.otherRead ==> n.daemonRead)
    && (n.stat.kind == Directory && n.stat.otherExec ==> n.daemonSearch)
  }

  /** So do those of every component the names lead through. */
  predicate GrantedAlong(fs: Fs, cur: Ino, names: seq<Bytes>)
    decreases |names|
  {
    names != [] && names[0] in fs(cur).entries ==>
      var c := fs(cur).entries[names[0]];
      Granted(fs(c)) && GrantedAlong(fs, c, names[1..])
  }

  lemma {:induction false} ObstacleIsFault(r: Root, fs: Fs, cur: Ino, names: seq<Bytes>, dirOnly: bool)
    requires GrantedAlong(fs, cur, names) && fs(cur).daemonSearch
    ensures FirstObstacle(r, fs, cur, names, dirOnly) == FirstFault(r, fs, cur, names, dirOnly)
    decreases |names|
  {
    if names != [] && names[0] in fs(cur).entries {
      var c := fs(cur).entries[names[0]];
      var context := ContextOf(names, dirOnly);
      assert Obstacle(r.platform, r.dev, fs(c), context) == Fault(r.platform, r.dev, fs(c), context);
      if names[1..] != [] {
        if fs(c).daemonSearch {
          ObstacleIsFault(r, fs, c, names[1..], dirOnly);
        } else {
          assert context == Intermediate;
        }
      }
    }
  }

  /** Where the world bits along the path grant what they say, the reported reason
      is the first fault of the metadata, exactly when the root itself could be
      opened: an unopened root is reported missing, whatever its metadata says. */
  lemma ReasonIsFirstFault(r: Root, fs: Fs, request: Request, t: nat)
    requires Granted(fs(r.ino)) && GrantedAlong(fs, r.ino, request.components)
    ensures Reason(DiagnoseRequest(r, Frozen(fs), request, t).val) == FirstFaultOfRequest(r, fs, request)
            <==> OpenSelf(r.platform, fs, r.ino).Some?
    ensures OpenSelf(r.platform, fs, r.ino).None? ==>
              && DiagnoseRequest(r, Frozen(fs), request, t).val == Err(Missing)
              && FirstFaultOfRequest(r, fs, request) ==
                 Fault(r.platform, r.dev, fs(r.ino), Intermediate) != None
  {
    ReasonIsFirstObstacle(r, fs, request, t);
    if OpenSelf(r.platform, fs, r.ino).Some? {
      ObstacleIsFault(r, fs, r.ino, request.components, request.dirOnly);
    }
  }

  /** Everything readable, but the root may not be searched by anyone. */
  function ClosedRoot(i: Ino): Node
  {
    Node(Stat(Directory, true, false, 2, 7), true, false, map[], [HERE, PARENT], [], 0)
  }

  /** Asking for the root itself: its mode is at fault, yet it is reported missing. */
  lemma ClosedRootIsMissing()
    ensures var r, request := Root(0, 7, OPath), Request([], false);
            && Granted(ClosedRoot(0)) && GrantedAlong(ClosedRoot, 0, request.components)
            && FirstFaultOfRequest(r, ClosedRoot, request) == Some(DirectoryNotWorldExecutable)
            && DiagnoseRequest(r, Frozen(ClosedRoot), request, 0).val == Err(Missing)
  {
    ReasonIsFirstFault(Root(0, 7, OPath), ClosedRoot, Request([], false), 0);
  }
}
