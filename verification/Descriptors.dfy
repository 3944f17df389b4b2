/** What an opened file or directory is known to be when names, modes and whole
    subtrees change arbitrarily between any two system calls. */
module Descriptors {
  import opened Wrappers
  import opened Bytes
  import opened Kernel
  import opened Selector
  import opened Root

  function Front(names: seq<Bytes>): seq<Bytes>
    requires names != []
  {
    names[..|names| - 1]
  }

  function Last(names: seq<Bytes>): Bytes
    requires names != []
  {
    names[|names| - 1]
  }

  /** At this instant `name` was an entry of `dir` for `c`, and not a symlink. */
  predicate Link(fs: Fs, dir: Ino, name: Bytes, c: Ino)
  {
    name in fs(dir).entries && fs(dir).entries[name] == c && fs(c).stat.kind != Symlink
  }

  predicate DirChecked(r: Root, fs: Fs, d: Ino)
  {
    fs(d).stat.kind == Directory && fs(d).stat.otherExec && fs(d).stat.dev == r.dev
  }

  predicate FileChecked(r: Root, fs: Fs, f: Ino)
  {
    && fs(f).stat.kind == Regular
    && fs(f).stat.otherRead
    && fs(f).stat.nlink == 1
    && fs(f).stat.dev == r.dev
  }

  /** One opened component: a link at its `openat`, checked at a later `fstat`. */
  ghost predicate DirLink(r: Root, w: World, dir: Ino, name: Bytes, c: Ino, from: nat, to: nat)
  {
    exists open: nat, stat: nat ::
      from <= open < stat < to && Link(w(open), dir, name, c) && DirChecked(r, w(stat), c)
  }

  ghost predicate FileLink(r: Root, w: World, dir: Ino, name: Bytes, c: Ino, from: nat, to: nat)
  {
    exists open: nat, stat: nat ::
      from <= open < stat < to && Link(w(open), dir, name, c) && FileChecked(r, w(stat), c)
  }

  /** A directory so linked, that was also listable when it was checked. */
  ghost predicate ListedDirLink(r: Root, w: World, dir: Ino, name: Bytes, c: Ino, from: nat, to: nat)
  {
    && DirLink(r, w, dir, name, c, from, to)
    && exists stat: nat :: from < stat < to && Listable(w(stat)(c).stat)
  }

  /** The names lead from the root to `d`, each link taken from a directory that
      had already been checked, all between the times `from` and `to`. */
  ghost predicate Chain(r: Root, w: World, names: seq<Bytes>, d: Ino, from: nat, to: nat)
    decreases |names|
  {
    if names == [] then
      d == r.ino && exists stat: nat :: from <= stat < to && DirChecked(r, w(stat), d)
    else
      exists parent: Ino, mid: nat ::
        && from <= mid <= to
        && Chain(r, w, Front(names), parent, from, mid)
        && DirLink(r, w, parent, Last(names), d, mid, to)
  }

  lemma ChildDirLink(r: Root, w: World, dir: Ino, name: Bytes, t: nat)
    requires OpenChildDir(r, w, dir, name, t).val.Some?
    ensures var child := OpenChildDir(r, w, dir, name, t);
            DirLink(r, w, dir, name, child.val.value, t, child.t)
  {
  }

  /** The evidence for one name below an open directory. */
  ghost predicate LeafLinked(
    r: Root, w: World, dir: Ino, name: Bytes, dirOnly: bool, leaf: Resolved, from: nat, to: nat)
  {
    match leaf
    case File(f) => !dirOnly && FileLink(r, w, dir, name, f, from, to)
    case Dir(d) => DirLink(r, w, dir, name, d, from, to)
  }

  lemma LeafLink(r: Root, w: World, dir: Ino, name: Bytes, dirOnly: bool, t: nat)
    requires OpenLeaf(r, w, dir, name, dirOnly, t).val.Some?
    ensures var leaf := OpenLeaf(r, w, dir, name, dirOnly, t);
            t <= leaf.t && LeafLinked(r, w, dir, name, dirOnly, leaf.val.value, t, leaf.t)
  {
  }

  /** The evidence behind whatever a resolution returns. */
  ghost predicate Justified(
    r: Root, w: World, names: seq<Bytes>, dirOnly: bool, result: Resolved, from: nat, to: nat)
  {
    match result
    case Dir(d) => Chain(r, w, names, d, from, to)
    case File(f) =>
      && names != [] && !dirOnly
      && exists dir: Ino, mid: nat ::
           && from <= mid <= to
           && Chain(r, w, Front(names), dir, from, mid)
           && FileLink(r, w, dir, Last(names), f, mid, to)
  }

  lemma Extend(r: Root, w: World, done: seq<Bytes>, parent: Ino, name: Bytes, d: Ino, from: nat, mid: nat, to: nat)
    requires from <= mid <= to
    requires Chain(r, w, done, parent, from, mid) && DirLink(r, w, parent, name, d, mid, to)
    ensures Chain(r, w, done + [name], d, from, to)
  {
    assert Front(done + [name]) == done && Last(done + [name]) == name;
  }

  lemma LeafJustified(
    r: Root, w: World, done: seq<Bytes>, cur: Ino, name: Bytes, dirOnly: bool, leaf: Resolved,
    from: nat, t: nat, end: nat)
    requires from <= t <= end && Chain(r, w, done, cur, from, t)
    requires LeafLinked(r, w, cur, name, dirOnly, leaf, t, end)
    ensures Justified(r, w, done + [name], dirOnly, leaf, from, end)
  {
    assert Front(done + [name]) == done && Last(done + [name]) == name;
    if leaf.Dir? {
      Extend(r, w, done, cur, name, leaf.fd, from, t, end);
    }
  }

  lemma ExtendByChild(r: Root, w: World, done: seq<Bytes>, cur: Ino, name: Bytes, from: nat, t: nat)
    requires from <= t && Chain(r, w, done, cur, from, t)
    requires OpenChildDir(r, w, cur, name, t).val.Some?
    ensures var child := OpenChildDir(r, w, cur, name, t);
            t <= child.t && Chain(r, w, done + [name], child.val.value, from, child.t)
  {
    var child := OpenChildDir(r, w, cur, name, t);
    ChildDirLink(r, w, cur, name, t);
    Extend(r, w, done, cur, name, child.val.value, from, t, child.t);
  }

  lemma ResolveStep(r: Root, w: World, cur: Ino, names: seq<Bytes>, dirOnly: bool, t: nat)
    requires |names| > 1
    ensures var child := OpenChildDir(r, w, cur, names[0], t);
            ResolveFrom(r, w, cur, names, dirOnly, t) ==
            if child.val.Some? then ResolveFrom(r, w, child.val.value, names[1..], dirOnly, child.t)
            else Timed(None, child.t)
  {
  }

  lemma FromLeaf(
    r: Root, w: World, done: seq<Bytes>, cur: Ino, names: seq<Bytes>, dirOnly: bool, from: nat, t: nat)
    requires |names| == 1 && from <= t && Chain(r, w, done, cur, from, t)
    requires OpenLeaf(r, w, cur, names[0], dirOnly, t).val.Some?
    ensures var end := OpenLeaf(r, w, cur, names[0], dirOnly, t);
            Justified(r, w, done + names, dirOnly, end.val.value, from, end.t)
  {
    var end := OpenLeaf(r, w, cur, names[0], dirOnly, t);
    LeafLink(r, w, cur, names[0], dirOnly, t);
    LeafJustified(r, w, done, cur, names[0], dirOnly, end.val.value, from, t, end.t);
    assert names == [names[0]];
  }

  lemma {:induction false} FromStep(
    r: Root, w: World, all: seq<Bytes>, done: seq<Bytes>, cur: Ino, names: seq<Bytes>, dirOnly: bool,
    from: nat, t: nat, end: Timed<Option<Resolved>>)
    requires all == done + names && |names| > 1
    requires from <= t && Chain(r, w, done, cur, from, t)
    requires end == ResolveFrom(r, w, cur, names, dirOnly, t) && end.val.Some?
    ensures Justified(r, w, all, dirOnly, end.val.value, from, end.t)
    decreases |names|, 0
  {
    var child := OpenChildDir(r, w, cur, names[0], t);
    var longer := done + [names[0]];
    assert all == longer + names[1..];
    ResolveStep(r, w, cur, names, dirOnly, t);
    ExtendByChild(r, w, done, cur, names[0], from, t);
    FromChain(r, w, all, longer, child.val.value, names[1..], dirOnly, from, child.t, end);
  }

  lemma {:induction false} FromChain(
    r: Root, w: World, all: seq<Bytes>, done: seq<Bytes>, cur: Ino, names: seq<Bytes>, dirOnly: bool,
    from: nat, t: nat, end: Timed<Option<Resolved>>)
    requires all == done + names
    requires from <= t && Chain(r, w, done, cur, from, t)
    requires end == ResolveFrom(r, w, cur, names, dirOnly, t) && end.val.Some?
    ensures Justified(r, w, all, dirOnly, end.val.value, from, end.t)
    decreases |names|, 1
  {
    if names == [] {
      assert all == done;
    } else if |names| == 1 {
      FromLeaf(r, w, done, cur, names, dirOnly, from, t);
    } else {
      FromStep(r, w, all, done, cur, names, dirOnly, from, t, end);
    }
  }

  /** In any world, what `resolve` returns was reached from the root by one
      non-symlink link per component, every directory on the way passed its own
      check, and a file was regular, world-readable, unshared and on the root
      device when it was checked. */
  lemma ResolveJustified(r: Root, w: World, request: Request, t: nat)
    requires ResolveRequest(r, w, request, t).val.Some?
    ensures var end := ResolveRequest(r, w, request, t);
            Justified(r, w, request.components, request.dirOnly, end.val.value, t, end.t)
  {
    var top := OpenRootDir(r, w, t);
    assert DirChecked(r, w(t + 1), r.ino);
    assert Chain(r, w, [], r.ino, t, top.t);
    FromChain(r, w, request.components, [], r.ino, request.components, request.dirOnly, t, top.t,
              ResolveRequest(r, w, request, t));
    assert [] + request.components == request.components;
  }

  /** The same for a directory entry: an index file or a listed name. */
  lemma ClassifyJustified(r: Root, w: World, dir: Ino, name: Bytes, t: nat)
    requires ClassifyChild(r, w, dir, name, t).val.Some?
    ensures var end := ClassifyChild(r, w, dir, name, t);
            match end.val.value
            case File(f) => FileLink(r, w, dir, name, f, t, end.t)
            case Dir(d) => ListedDirLink(r, w, dir, name, d, t, end.t)
  {
  }

  /** Listable before it was reopened for enumeration, and again after. */
  ghost predicate Reopened(r: Root, w: World, dir: Ino, from: nat, to: nat)
  {
    exists before: nat, open: nat, after: nat ::
      && from <= before < open < after < to
      && DirChecked(r, w(before), dir) && Listable(w(before)(dir).stat)
      && OpenList(w(open), dir) == Some(dir)
      && DirChecked(r, w(after), dir) && Listable(w(after)(dir).stat)
  }

  /** A directory is enumerated only if it was listable before it was reopened
      and again after. */
  lemma ListableJustified(r: Root, w: World, dir: Ino, t: nat)
    requires OpenListableDir(r, w, dir, t).val.Some?
    ensures var end := OpenListableDir(r, w, dir, t);
            end.val.value == dir && Reopened(r, w, dir, t, end.t)
  {
    assert DirChecked(r, w(t), dir) && OpenList(w(t + 1), dir) == Some(dir) && DirChecked(r, w(t + 2), dir);
  }

  lemma LinksWiden(r: Root, w: World, dir: Ino, name: Bytes, c: Ino, from: nat, to: nat, earlier: nat, later: nat)
    requires earlier <= from && to <= later
    ensures DirLink(r, w, dir, name, c, from, to) ==> DirLink(r, w, dir, name, c, earlier, later)
    ensures FileLink(r, w, dir, name, c, from, to) ==> FileLink(r, w, dir, name, c, earlier, later)
    ensures ListedDirLink(r, w, dir, name, c, from, to) ==> ListedDirLink(r, w, dir, name, c, earlier, later)
  {
    if DirLink(r, w, dir, name, c, from, to) {
      var open: nat, stat: nat :|
        from <= open < stat < to && Link(w(open), dir, name, c) && DirChecked(r, w(stat), c);
      assert earlier <= open < stat < later;
    }
    if FileLink(r, w, dir, name, c, from, to) {
      var open: nat, stat: nat :|
        from <= open < stat < to && Link(w(open), dir, name, c) && FileChecked(r, w(stat), c);
      assert earlier <= open < stat < later;
    }
  }

  // ------------------------------------------- what the diagnostic twin accepts

  lemma LeafLinkDiagnostic(r: Root, w: World, dir: Ino, name: Bytes, dirOnly: bool, t: nat)
    requires OpenLeafDiagnostic(r, w, dir, name, dirOnly, t).val.Ok?
    ensures var leaf := OpenLeafDiagnostic(r, w, dir, name, dirOnly, t);
            t <= leaf.t && LeafLinked(r, w, dir, name, dirOnly, leaf.val.value, t, leaf.t)
  {
  }

  /** An intermediate directory that the twin accepts, the server opens as well. */
  lemma DiagnoseStep(
    r: Root, w: World, done: seq<Bytes>, cur: Ino, names: seq<Bytes>, dirOnly: bool, from: nat, t: nat)
    requires |names| > 1 && from <= t && Chain(r, w, done, cur, from, t)
    requires DiagnoseFrom(r, w, cur, names, dirOnly, t).val.Ok?
    ensures var child := OpenChildDir(r, w, cur, names[0], t);
            && child.val.Some? && t <= child.t
            && Chain(r, w, done + [names[0]], child.val.value, from, child.t)
            && DiagnoseFrom(r, w, cur, names, dirOnly, t) ==
               DiagnoseFrom(r, w, child.val.value, names[1..], dirOnly, child.t)
  {
    var child := OpenChildDirDiagnostic(r, w, cur, names[0], t);
    assert OpenChildDir(r, w, cur, names[0], t) == Timed(Some(child.val.value), child.t);
    ExtendByChild(r, w, done, cur, names[0], from, t);
  }

  lemma DiagnoseLeaf(
    r: Root, w: World, done: seq<Bytes>, cur: Ino, names: seq<Bytes>, dirOnly: bool, from: nat, t: nat)
    requires |names| == 1 && from <= t && Chain(r, w, done, cur, from, t)
    requires OpenLeafDiagnostic(r, w, cur, names[0], dirOnly, t).val.Ok?
    ensures var end := OpenLeafDiagnostic(r, w, cur, names[0], dirOnly, t);
            Justified(r, w, done + names, dirOnly, end.val.value, from, end.t)
  {
    var end := OpenLeafDiagnostic(r, w, cur, names[0], dirOnly, t);
    LeafLinkDiagnostic(r, w, cur, names[0], dirOnly, t);
    LeafJustified(r, w, done, cur, names[0], dirOnly, end.val.value, from, t, end.t);
    assert names == [names[0]];
  }

  lemma {:induction false} DiagnoseOneMore(
    r: Root, w: World, all: seq<Bytes>, done: seq<Bytes>, cur: Ino, names: seq<Bytes>, dirOnly: bool,
    from: nat, t: nat, end: Timed<Diagnosis<Resolved>>)
    requires all == done + names && |names| > 1
    requires from <= t && Chain(r, w, done, cur, from, t)
    requires end == DiagnoseFrom(r, w, cur, names, dirOnly, t) && end.val.Ok?
    ensures Justified(r, w, all, dirOnly, end.val.value, from, end.t)
    decreases |names|, 0
  {
    var child := OpenChildDir(r, w, cur, names[0], t);
    var longer := done + [names[0]];
    assert all == longer + names[1..];
    DiagnoseStep(r, w, done, cur, names, dirOnly, from, t);
    DiagnoseChain(r, w, all, longer, child.val.value, names[1..], dirOnly, from, child.t, end);
  }

  lemma {:induction false} DiagnoseChain(
    r: Root, w: World, all: seq<Bytes>, done: seq<Bytes>, cur: Ino, names: seq<Bytes>, dirOnly: bool,
    from: nat, t: nat, end: Timed<Diagnosis<Resolved>>)
    requires all == done + names
    requires from <= t && Chain(r, w, done, cur, from, t)
    requires end == DiagnoseFrom(r, w, cur, names, dirOnly, t) && end.val.Ok?
    ensures Justified(r, w, all, dirOnly, end.val.value, from, end.t)
    decreases |names|, 1
  {
    if names == [] {
      assert all == done;
    } else if |names| == 1 {
      DiagnoseLeaf(r, w, done, cur, names, dirOnly, from, t);
    } else {
      DiagnoseOneMore(r, w, all, done, cur, names, dirOnly, from, t, end);
    }
  }

  /** In any world, what `check` accepts was reached and checked just as what the
      server resolves. */
  lemma DiagnoseJustified(r: Root, w: World, request: Request, t: nat)
    requires DiagnoseRequest(r, w, request, t).val.Ok?
    ensures var end := DiagnoseRequest(r, w, request, t);
            Justified(r, w, request.components, request.dirOnly, end.val.value, t, end.t)
  {
    var top := OpenRootDirDiagnostic(r, w, t);
    assert DirChecked(r, w(t + 1), r.ino);
    assert Chain(r, w, [], r.ino, t, top.t);
    DiagnoseChain(r, w, request.components, [], r.ino, request.components, request.dirOnly, t, top.t,
                  DiagnoseRequest(r, w, request, t));
    assert [] + request.components == request.components;
  }

  /** So are the entries that `check` counts. */
  lemma ClassifyDiagnosticJustified(r: Root, w: World, dir: Ino, name: Bytes, t: nat)
    requires ClassifyChildDiagnostic(r, w, dir, name, t).val.Ok?
    ensures var end := ClassifyChildDiagnostic(r, w, dir, name, t);
            match end.val.value
            case File(f) => FileLink(r, w, dir, name, f, t, end.t)
            case Dir(d) => ListedDirLink(r, w, dir, name, d, t, end.t)
  {
  }
}
