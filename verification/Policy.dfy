/** The publishing policy on a filesystem that does not change, said once and
    without system calls, and the proof that both resolvers compute it. */
module Policy {
  import opened Wrappers
  import opened Bytes
  import opened Kernel
  import opened Selector
  import opened Root

  /** `c` is a directory of the served device that the process may walk through. */
  predicate Walkable(r: Root, fs: Fs, c: Ino)
  {
    && TraverseOpens(r.platform, fs(c))
    && fs(c).stat.dev == r.dev
    && fs(c).stat.otherExec
  }

  predicate PublicFile(r: Root, fs: Fs, c: Ino)
  {
    && fs(c).stat.kind == Regular
    && fs(c).stat.dev == r.dev
    && fs(c).stat.otherRead
    && fs(c).stat.nlink == 1
    && fs(c).daemonRead
  }

  predicate PublicListing(r: Root, fs: Fs, c: Ino)
  {
    && fs(c).stat.kind == Directory
    && fs(c).stat.dev == r.dev
    && fs(c).stat.otherExec
    && fs(c).stat.otherRead
    && (fs(c).daemonRead || TraverseOpens(r.platform, fs(c)))
  }

  function Step(r: Root, fs: Fs, dir: Ino, name: Bytes): Option<Ino>
  {
    match Lookup(fs, dir, name)
    case Some(c) => if Walkable(r, fs, c) then Some(c) else None
    case None => None
  }

  function StepLeaf(r: Root, fs: Fs, dir: Ino, name: Bytes, dirOnly: bool): Option<Resolved>
  {
    match Lookup(fs, dir, name)
    case Some(c) =>
      if Walkable(r, fs, c) then Some(Dir(c))
      else if !dirOnly && PublicFile(r, fs, c) then Some(File(c))
      else None
    case None => None
  }

  predicate RootWalkable(r: Root, fs: Fs)
  {
    Walkable(r, fs, r.ino) && fs(r.ino).daemonSearch
  }

  /** The directory the names lead to, read from the last name back. */
  function DirAt(r: Root, fs: Fs, names: seq<Bytes>): Option<Ino>
  {
    if names == [] then if RootWalkable(r, fs) then Some(r.ino) else None
    else
      match DirAt(r, fs, names[..|names| - 1])
      case Some(d) => Step(r, fs, d, names[|names| - 1])
      case None => None
  }

  /** What a request publishes. */
  function Published(r: Root, fs: Fs, request: Request): Option<Resolved>
  {
    var names := request.components;
    if names == [] then
      match DirAt(r, fs, [])
      case Some(d) => Some(Dir(d))
      case None => None
    else
      match DirAt(r, fs, names[..|names| - 1])
      case Some(d) => StepLeaf(r, fs, d, names[|names| - 1], request.dirOnly)
      case None => None
  }

  function PublishedChild(r: Root, fs: Fs, dir: Ino, name: Bytes): Option<Resolved>
  {
    match Lookup(fs, dir, name)
    case Some(c) =>
      if PublicFile(r, fs, c) then Some(File(c))
      else if PublicListing(r, fs, c) then Some(Dir(c))
      else None
    case None => None
  }

  predicate Enumerable(r: Root, fs: Fs, dir: Ino)
  {
    && fs(dir).stat.dev == r.dev
    && Listable(fs(dir).stat)
    && fs(dir).daemonSearch
    && fs(dir).daemonRead
  }

  // -------------------------------------------- the walk, from either end

  function WalkFrom(r: Root, fs: Fs, cur: Ino, names: seq<Bytes>): Option<Ino>
    decreases |names|
  {
    if names == [] then Some(cur)
    else
      match Step(r, fs, cur, names[0])
      case Some(d) => WalkFrom(r, fs, d, names[1..])
      case None => None
  }

  lemma {:induction false} WalkLast(r: Root, fs: Fs, cur: Ino, names: seq<Bytes>)
    requires names != []
    ensures WalkFrom(r, fs, cur, names) ==
            match WalkFrom(r, fs, cur, names[..|names| - 1])
            case Some(d) => Step(r, fs, d, names[|names| - 1])
            case None => None
    decreases |names|
  {
    var front := names[..|names| - 1];
    match Step(r, fs, cur, names[0]) {
      case None =>
      case Some(d) =>
        if |names| > 1 {
          WalkLast(r, fs, d, names[1..]);
          assert names[1..][..|names[1..]| - 1] == front[1..];
        } else {
          assert WalkFrom(r, fs, d, names[1..]) == Some(d);
        }
    }
  }

  lemma {:induction false} DirAtIsWalk(r: Root, fs: Fs, names: seq<Bytes>)
    ensures DirAt(r, fs, names) ==
            if RootWalkable(r, fs) then WalkFrom(r, fs, r.ino, names) else None
    decreases |names|
  {
    if names == [] {
    } else {
      DirAtIsWalk(r, fs, names[..|names| - 1]);
      WalkLast(r, fs, r.ino, names);
    }
  }

  /** A walkable directory is what any request for it resolves to. */
  lemma DirPublished(r: Root, fs: Fs, names: seq<Bytes>, dirOnly: bool)
    ensures var result := Published(r, fs, Request(names, dirOnly));
            && (DirAt(r, fs, names).Some? ==> result == Some(Dir(DirAt(r, fs, names).value)))
            && (result.Some? && result.value.Dir? ==> DirAt(r, fs, names) == Some(result.value.fd))
            && (result.Some? && result.value.File? ==> names != [] && !dirOnly)
  {
  }

  // ------------------------------------------------- the serving resolver

  lemma {:induction false} ResolveFromIsWalk(
    r: Root, fs: Fs, cur: Ino, names: seq<Bytes>, dirOnly: bool, t: nat)
    requires names != []
    ensures ResolveFrom(r, Frozen(fs), cur, names, dirOnly, t).val ==
            match WalkFrom(r, fs, cur, names[..|names| - 1])
            case Some(d) => StepLeaf(r, fs, d, names[|names| - 1], dirOnly)
            case None => None
    decreases |names|
  {
    if |names| > 1 {
      var child := OpenChildDir(r, Frozen(fs), cur, names[0], t);
      assert child.val == Step(r, fs, cur, names[0]);
      if child.val.Some? {
        ResolveFromIsWalk(r, fs, child.val.value, names[1..], dirOnly, child.t);
        assert names[1..][..|names[1..]| - 1] == names[..|names| - 1][1..];
      }
    }
  }

  /** On an unchanging filesystem the resolver publishes exactly the policy. */
  lemma ResolveIsPublished(r: Root, fs: Fs, request: Request, t: nat)
    ensures ResolveRequest(r, Frozen(fs), request, t).val == Published(r, fs, request)
  {
    var names := request.components;
    var top := OpenRootDir(r, Frozen(fs), t);
    assert top.val == DirAt(r, fs, []);
    if names != [] {
      DirAtIsWalk(r, fs, names[..|names| - 1]);
      if top.val.Some? {
        ResolveFromIsWalk(r, fs, r.ino, names, request.dirOnly, top.t);
      }
    }
  }

  lemma ClassifyIsPublished(r: Root, fs: Fs, dir: Ino, name: Bytes, t: nat)
    ensures ClassifyChild(r, Frozen(fs), dir, name, t).val == PublishedChild(r, fs, dir, name)
  {
  }

  lemma ListableIsEnumerable(r: Root, fs: Fs, dir: Ino, t: nat)
    ensures OpenListableDir(r, Frozen(fs), dir, t).val ==
            if Enumerable(r, fs, dir) then Some(dir) else None
  {
  }

  // ---------------------------------------------- the diagnostic resolver

  function Accepted<T>(d: Diagnosis<T>): Option<T>
  {
    match d
    case Ok(v) => Some(v)
    case Err(_) => None
  }

  /** A directory whose probe opens is accepted as a leaf even when the platform
      would not let the process walk through it. */
  predicate ProbedOnly(r: Root, fs: Fs, dir: Ino, name: Bytes, dirOnly: bool)
  {
    match Lookup(fs, dir, name)
    case Some(c) =>
      && !dirOnly
      && fs(c).stat.dev == r.dev
      && DirOk(fs(c).stat)
      && fs(c).daemonRead
      && !TraverseOpens(r.platform, fs(c))
    case None => false
  }

  lemma LeafDiagnosticAccepts(r: Root, fs: Fs, dir: Ino, name: Bytes, dirOnly: bool, t: nat)
    ensures Accepted(OpenLeafDiagnostic(r, Frozen(fs), dir, name, dirOnly, t).val) ==
            if ProbedOnly(r, fs, dir, name, dirOnly) then Some(Dir(fs(dir).entries[name]))
            else StepLeaf(r, fs, dir, name, dirOnly)
  {
  }

  lemma {:induction false} DiagnoseFromIsWalk(
    r: Root, fs: Fs, cur: Ino, names: seq<Bytes>, dirOnly: bool, t: nat)
    requires names != []
    ensures Accepted(DiagnoseFrom(r, Frozen(fs), cur, names, dirOnly, t).val) ==
            match WalkFrom(r, fs, cur, names[..|names| - 1])
            case Some(d) => Accepted(OpenLeafDiagnostic(r, Frozen(fs), d, names[|names| - 1], dirOnly, 0).val)
            case None => None
    decreases |names|
  {
    if |names| > 1 {
      var child := OpenChildDirDiagnostic(r, Frozen(fs), cur, names[0], t);
      assert Accepted(child.val) == Step(r, fs, cur, names[0]);
      if child.val.Ok? {
        DiagnoseFromIsWalk(r, fs, child.val.value, names[1..], dirOnly, child.t);
        assert names[1..][..|names[1..]| - 1] == names[..|names| - 1][1..];
      }
    } else {
      LeafDiagnosticAccepts(r, fs, cur, names[0], dirOnly, t);
      LeafDiagnosticAccepts(r, fs, cur, names[0], dirOnly, 0);
    }
  }

  /** The twins accept the same requests, but for a leaf directory that can only
      be probed. */
  lemma DiagnoseIsPublished(r: Root, fs: Fs, request: Request, t: nat)
    ensures var names := request.components;
            var verdict := Accepted(DiagnoseRequest(r, Frozen(fs), request, t).val);
            verdict == Published(r, fs, request) ||
            (&& names != []
             && DirAt(r, fs, names[..|names| - 1]).Some?
             && var d := DirAt(r, fs, names[..|names| - 1]).value;
                && ProbedOnly(r, fs, d, names[|names| - 1], request.dirOnly)
                && Published(r, fs, request) == None
                && verdict == Some(Dir(fs(d).entries[names[|names| - 1]])))
  {
    var names := request.components;
    var top := OpenRootDirDiagnostic(r, Frozen(fs), t);
    assert Accepted(top.val) == DirAt(r, fs, []);
    if names != [] {
      DirAtIsWalk(r, fs, names[..|names| - 1]);
      if top.val.Ok? {
        DiagnoseFromIsWalk(r, fs, r.ino, names, request.dirOnly, top.t);
        if DirAt(r, fs, names[..|names| - 1]).Some? {
          LeafDiagnosticAccepts(r, fs, DirAt(r, fs, names[..|names| - 1]).value,
                                names[|names| - 1], request.dirOnly, 0);
        }
      }
    }
  }

  /** For directory entries the two classifiers never differ. */
  lemma ClassifiersAgree(r: Root, fs: Fs, dir: Ino, name: Bytes, t: nat)
    ensures Accepted(ClassifyChildDiagnostic(r, Frozen(fs), dir, name, t).val) ==
            PublishedChild(r, fs, dir, name)
  {
  }

  lemma ListableDiagnosticAgrees(r: Root, fs: Fs, dir: Ino, t: nat)
    ensures Accepted(OpenListableDirDiagnostic(r, Frozen(fs), dir, t).val) ==
            if Enumerable(r, fs, dir) then Some(dir) else None
  {
  }
}
