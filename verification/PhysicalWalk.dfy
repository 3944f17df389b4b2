/** Resolving a selector one part at a time, `..` by the directory's real parent,
    and how that relates to normalising it lexically first. The walk follows
    section 4.13 of POSIX.1-2017 Base Definitions: every part but the last must
    be a directory, and a trailing slash makes the last one a directory too. `.`
    and `..` are looked up in a directory like names, which takes the right to
    search it; a slash by itself takes none. */
module PhysicalWalk {
  import opened Wrappers
  import opened Bytes
  import opened Kernel
  import opened Selector
  import opened Root
  import opened Policy

  /** A directory that published names lead to from the root. */
  ghost predicate Inside(r: Root, fs: Fs, d: Ino)
  {
    exists names :: DirAt(r, fs, names) == Some(d)
  }

  /** Directories that are entries of `d` name it as their parent; the root is none. */
  ghost predicate ParentOfEntries(r: Root, fs: Fs, d: Ino)
  {
    forall name :: name in fs(d).entries ==>
      var c := fs(d).entries[name];
      c != r.ino && (fs(c).stat.kind == Directory ==> fs(c).parent == d)
  }

  /** Below the root, a directory is an entry only of the one that its `..` names,
      and the root is an entry of none. Where the root itself hangs is open. */
  ghost predicate Tree(r: Root, fs: Fs)
  {
    forall d: Ino :: Inside(r, fs, d) ==> ParentOfEntries(r, fs, d)
  }

  function StepUp(r: Root, fs: Fs, cur: Ino): Option<Ino>
  {
    var d := fs(cur).parent;
    if cur != r.ino && fs(cur).daemonSearch && Walkable(r, fs, d) then Some(d) else None
  }

  function Walk(r: Root, fs: Fs, cur: Ino, parts: seq<Bytes>): Option<Resolved>
    decreases |parts|
  {
    if parts == [] then Some(Dir(cur))
    else
      var p := parts[0];
      if p == [] then Walk(r, fs, cur, parts[1..])
      else if p == HERE then
        if fs(cur).daemonSearch then Walk(r, fs, cur, parts[1..]) else None
      else if p == PARENT then
        match StepUp(r, fs, cur)
        case Some(d) => Walk(r, fs, d, parts[1..])
        case None => None
      else if IsDotfile(p) then None
      else if |parts| == 1 then StepLeaf(r, fs, cur, p, false)
      else
        match Step(r, fs, cur, p)
        case Some(d) => Walk(r, fs, d, parts[1..])
        case None => None
  }

  /** The node a selector physically reaches, under the server's own policy. */
  function Reaches(r: Root, fs: Fs, selector: Bytes): Option<Resolved>
  {
    var s := StripCr(selector);
    if |s| <= MAX_SELECTOR_BYTES && NUL !in s && CR !in s && RootWalkable(r, fs)
    then Walk(r, fs, r.ino, Split(s, SLASH))
    else None
  }

  function Serves(r: Root, fs: Fs, selector: Bytes): Option<Resolved>
  {
    match Parse(selector)
    case Err(_) => None
    case Ok(request) => ResolveRequest(r, Frozen(fs), request, 0).val
  }

  /** A directory intent is an empty last part after a slash. */
  predicate DirIntent(parts: seq<Bytes>)
  {
    parts != [] && parts[|parts| - 1] == []
  }

  lemma ParentIsBelow(r: Root, fs: Fs, stack: Stack, cur: Ino)
    requires Tree(r, fs)
    requires stack != [] && DirAt(r, fs, stack) == Some(cur)
    ensures cur != r.ino
    ensures DirAt(r, fs, stack[..|stack| - 1]) == Some(fs(cur).parent)
    ensures Walkable(r, fs, fs(cur).parent)
  {
    var d := DirAt(r, fs, stack[..|stack| - 1]).value;
    assert Inside(r, fs, d) && ParentOfEntries(r, fs, d);
  }

  lemma NameBelow(r: Root, fs: Fs, stack: Stack, cur: Ino, p: Bytes)
    requires DirAt(r, fs, stack) == Some(cur)
    ensures DirAt(r, fs, stack + [p]) == Step(r, fs, cur, p)
    ensures Published(r, fs, Request(stack + [p], false)) == StepLeaf(r, fs, cur, p, false)
  {
  }

  /** The walk over `parts` from `cur` agrees with the lexical reading of `parts`
      after `stack`. */
  predicate Agrees(r: Root, fs: Fs, stack: Stack, cur: Ino, parts: seq<Bytes>)
  {
    && Fold(stack, parts).Ok?
    && Published(r, fs, Request(Fold(stack, parts).value, DirIntent(parts))) == Walk(r, fs, cur, parts)
  }

  /** From `cur` part `p` leads to `d`, and from `stack` to `next`, which names `d`. */
  predicate Follows(r: Root, fs: Fs, stack: Stack, cur: Ino, p: Bytes, next: Stack, d: Ino)
  {
    && Apply(stack, p) == Ok(next)
    && DirAt(r, fs, next) == Some(d)
    && if p == [] then d == cur
       else if p == HERE then d == cur && fs(cur).daemonSearch
       else if p == PARENT then StepUp(r, fs, cur) == Some(d)
       else Step(r, fs, cur, p) == Some(d)
  }

  lemma AgreesStep(r: Root, fs: Fs, stack: Stack, cur: Ino, parts: seq<Bytes>, next: Stack, d: Ino)
    requires parts != [] && Follows(r, fs, stack, cur, parts[0], next, d)
    requires IsName(parts[0]) ==> |parts| > 1
    requires Agrees(r, fs, next, d, parts[1..])
    ensures Agrees(r, fs, stack, cur, parts)
  {
    if parts[1..] == [] {
      DirPublished(r, fs, next, DirIntent(parts));
    } else {
      assert DirIntent(parts) == DirIntent(parts[1..]);
    }
  }

  lemma AgreesLeaf(r: Root, fs: Fs, stack: Stack, cur: Ino, p: Bytes)
    requires DirAt(r, fs, stack) == Some(cur) && IsName(p)
    ensures Agrees(r, fs, stack, cur, [p])
  {
    NameBelow(r, fs, stack, cur, p);
    var none: seq<Bytes> := [];
    assert [p][1..] == none;
    assert Fold(stack + [p], none) == Ok(stack + [p]);
    assert Fold(stack, [p]) == Ok(stack + [p]);
  }

  lemma WalkFollows(r: Root, fs: Fs, stack: Stack, cur: Ino, parts: seq<Bytes>) returns (next: Stack, d: Ino)
    requires Tree(r, fs) && DirAt(r, fs, stack) == Some(cur)
    requires parts != [] && Walk(r, fs, cur, parts).Some?
    requires IsName(parts[0]) ==> |parts| > 1
    ensures Follows(r, fs, stack, cur, parts[0], next, d)
    ensures Walk(r, fs, cur, parts) == Walk(r, fs, d, parts[1..])
  {
    var p := parts[0];
    next, d := stack, cur;
    if p == PARENT {
      if stack == [] {
        assert false;
      } else {
        ParentIsBelow(r, fs, stack, cur);
        next, d := stack[..|stack| - 1], fs(cur).parent;
      }
    } else if IsName(p) {
      NameBelow(r, fs, stack, cur, p);
      next, d := stack + [p], Step(r, fs, cur, p).value;
    }
  }

  lemma {:induction false} WalkIsLexical(
    r: Root, fs: Fs, stack: Stack, cur: Ino, parts: seq<Bytes>)
    requires Tree(r, fs) && DirAt(r, fs, stack) == Some(cur)
    requires Walk(r, fs, cur, parts).Some?
    ensures Agrees(r, fs, stack, cur, parts)
    decreases |parts|
  {
    if parts == [] {
      DirPublished(r, fs, stack, false);
    } else if |parts| == 1 && IsName(parts[0]) {
      AgreesLeaf(r, fs, stack, cur, parts[0]);
      assert parts == [parts[0]];
    } else {
      var next, d := WalkFollows(r, fs, stack, cur, parts);
      WalkIsLexical(r, fs, next, d, parts[1..]);
      AgreesStep(r, fs, stack, cur, parts, next, d);
    }
  }

  lemma SelectorIntent(s: Bytes, components: Stack)
    requires Fold([], Split(s, SLASH)) == Ok(components)
    ensures EndsWithSlash(s) == DirIntent(Split(s, SLASH)) || components == []
  {
    SplitEnds(s, SLASH);
    if |Split(s, SLASH)| == 1 {
      SplitOne(s, SLASH);
    }
  }

  /** Whatever a selector physically reaches, parsing and resolving it reaches. */
  lemma NormalisationPreservesMeaning(r: Root, fs: Fs, selector: Bytes)
    requires Tree(r, fs)
    requires Reaches(r, fs, selector).Some?
    ensures Serves(r, fs, selector) == Reaches(r, fs, selector)
  {
    var s := StripCr(selector);
    var parts := Split(s, SLASH);
    assert DirAt(r, fs, []) == Some(r.ino);
    WalkIsLexical(r, fs, [], r.ino, parts);
    SelectorIntent(s, Fold([], parts).value);
    ResolveIsPublished(r, fs, Parse(selector).value, 0);
  }

  /** Taking part `k`, the parts before it, normalised, name a published
      directory, and one that the process may search if the part is `.` or `..`. */
  ghost predicate PassableAt(r: Root, fs: Fs, stack: Stack, parts: seq<Bytes>, k: nat)
    requires k < |parts|
  {
    var names := Fold(stack, parts[..k]);
    && names.Ok?
    && DirAt(r, fs, names.value).Some?
    && (parts[k] == HERE || parts[k] == PARENT ==> fs(DirAt(r, fs, names.value).value).daemonSearch)
  }

  ghost predicate Passable(r: Root, fs: Fs, stack: Stack, parts: seq<Bytes>)
  {
    forall k :: 0 <= k < |parts| ==> PassableAt(r, fs, stack, parts, k)
  }

  lemma PassableLater(r: Root, fs: Fs, stack: Stack, next: Stack, parts: seq<Bytes>, k: nat)
    requires 0 < k < |parts| && Apply(stack, parts[0]) == Ok(next)
    ensures PassableAt(r, fs, stack, parts, k) <==> PassableAt(r, fs, next, parts[1..], k - 1)
  {
    assert parts[..k][0] == parts[0] && parts[..k][1..] == parts[1..][..k - 1];
  }

  lemma PassableRest(r: Root, fs: Fs, stack: Stack, next: Stack, parts: seq<Bytes>)
    requires parts != [] && Apply(stack, parts[0]) == Ok(next)
    ensures Passable(r, fs, stack, parts) <==>
            PassableAt(r, fs, stack, parts, 0) && Passable(r, fs, next, parts[1..])
  {
    var rest := parts[1..];
    forall k | 0 < k < |parts|
      ensures PassableAt(r, fs, stack, parts, k) <==> PassableAt(r, fs, next, rest, k - 1)
    {
      PassableLater(r, fs, stack, next, parts, k);
    }
    if Passable(r, fs, stack, parts) {
      forall k | 0 <= k < |rest| ensures PassableAt(r, fs, next, rest, k) {
        assert PassableAt(r, fs, stack, parts, k + 1);
      }
    }
    if PassableAt(r, fs, stack, parts, 0) && Passable(r, fs, next, rest) {
      forall k | 0 <= k < |parts| ensures PassableAt(r, fs, stack, parts, k) {
        assert k > 0 ==> PassableAt(r, fs, next, rest, k - 1);
      }
    }
  }

  lemma {:induction false} LexicalIsWalk(
    r: Root, fs: Fs, stack: Stack, cur: Ino, parts: seq<Bytes>, dirOnly: bool)
    requires Tree(r, fs) && DirAt(r, fs, stack) == Some(cur)
    requires Fold(stack, parts).Ok?
    requires dirOnly == DirIntent(parts) || Fold(stack, parts).value == []
    requires Published(r, fs, Request(Fold(stack, parts).value, dirOnly)).Some?
    ensures Walk(r, fs, cur, parts).Some? <==>
            Passable(r, fs, stack, parts) &&
            (parts != [] && !IsName(parts[|parts| - 1]) ==> DirAt(r, fs, Fold(stack, parts).value).Some?)
    decreases |parts|
  {
    if parts == [] {
    } else {
      var p, rest := parts[0], parts[1..];
      var next := Apply(stack, p).value;
      PassableRest(r, fs, stack, next, parts);
      assert Fold(stack, parts[..0]) == Ok(stack);
      assert rest != [] ==> DirIntent(parts) == DirIntent(rest);
      assert rest != [] ==> rest[|rest| - 1] == parts[|parts| - 1];
      if p == PARENT {
        ParentIsBelow(r, fs, stack, cur);
      }
      if IsName(p) {
        assert next[..|next| - 1] == stack && next[|next| - 1] == p;
        assert DirAt(r, fs, next) == Step(r, fs, cur, p);
      }
      if rest == [] {
        assert Fold(stack, parts) == Ok(next);
      } else if DirAt(r, fs, next).Some? {
        LexicalIsWalk(r, fs, next, DirAt(r, fs, next).value, rest, dirOnly);
      } else {
        assert Fold(next, rest[..0]) == Ok(next);
        assert !PassableAt(r, fs, next, rest, 0);
      }
    }
  }

  /** The converse fails exactly where a part that is followed by another, or that
      must itself be a directory, is not a published one, or where a `.` or `..` is
      taken from a directory the process may not search: then the lexical reading
      reaches a node the physical walk never gets to. */
  lemma PhysicalExactly(r: Root, fs: Fs, selector: Bytes)
    requires Tree(r, fs)
    requires Serves(r, fs, selector).Some?
    ensures var parts := Split(StripCr(selector), SLASH);
            Reaches(r, fs, selector) == Serves(r, fs, selector) <==>
            && Passable(r, fs, [], parts)
            && (!IsName(parts[|parts| - 1]) ==> DirAt(r, fs, Fold([], parts).value).Some?)
  {
    var s := StripCr(selector);
    var parts := Split(s, SLASH);
    var request := Parse(selector).value;
    ResolveIsPublished(r, fs, request, 0);
    SelectorIntent(s, request.components);
    var top := OpenRootDir(r, Frozen(fs), 0);
    assert RootWalkable(r, fs);
    LexicalIsWalk(r, fs, [], r.ino, parts, request.dirOnly);
    if Reaches(r, fs, selector).Some? {
      NormalisationPreservesMeaning(r, fs, selector);
    }
  }

  /** A root that holds one public file named `a`, and is itself the entry `s` of
      a directory outside. */
  function OneFile(i: Ino): Node
  {
    var a: Bytes := [97];
    if i == 0
    then Node(Stat(Directory, true, true, 2, 7), true, true, map[a := 1], [HERE, PARENT, a], [], 2)
    else if i == 2
    then Node(Stat(Directory, true, true, 3, 7), true, true, map[[115] := 0], [HERE, PARENT, [115]], [], 2)
    else Node(Stat(Regular, true, false, 1, 7), true, false, map[], [], [104, 105], 0)
  }

  lemma {:induction false} OneFileInside(names: seq<Bytes>)
    ensures names != [] ==> DirAt(Root(0, 7, OPath), OneFile, names) == None
    decreases |names|
  {
    if names == [] {
    } else {
      OneFileInside(names[..|names| - 1]);
    }
  }

  lemma OneFileTree()
    ensures Tree(Root(0, 7, OPath), OneFile)
  {
    var r := Root(0, 7, OPath);
    forall d: Ino | Inside(r, OneFile, d) ensures d == 0 {
      var names :| DirAt(r, OneFile, names) == Some(d);
      OneFileInside(names);
    }
  }

  const DETOUR: Bytes := [120, 47, 46, 46, 47, 97]  // "x/../a"

  lemma DetourParts()
    ensures Split(DETOUR, SLASH) == [[120], PARENT, [97]]
  {
    var parts: seq<Bytes> := [[120], PARENT, [97]];
    var tail: seq<Bytes> := [PARENT, [97]];
    var last: seq<Bytes> := [[97]];
    assert parts[1..] == tail && tail[1..] == last;
    assert Join(tail, SLASH) == [46, 46, 47, 97];
    assert Join(parts, SLASH) == DETOUR;
    SplitJoin(parts, SLASH);
  }

  lemma DetourFold()
    ensures Fold([], [[120], PARENT, [97]]) == Ok([[97]])
  {
    var none: Stack, x: Stack, a: Stack := [], [[120]], [[97]];
    var parts: seq<Bytes>, back: seq<Bytes> := [[120], PARENT, [97]], [[120], PARENT];
    assert none + x == x && none + a == a;
    FoldNames(none, x);
    assert back[..1] == x && parts[..2] == back;
    FoldLast(none, back);
    FoldLast(none, parts);
  }

  lemma DetourParses()
    ensures Parse(DETOUR) == Ok(Request([[97]], false))
  {
    assert StripCr(DETOUR) == DETOUR && !EndsWithSlash(DETOUR);
    assert NUL !in DETOUR && CR !in DETOUR;
    DetourParts();
    DetourFold();
  }

  lemma DetourServed(fs: Fs)
    requires RootWalkable(Root(0, 7, OPath), fs)
    requires StepLeaf(Root(0, 7, OPath), fs, 0, [97], false) == Some(File(1))
    ensures Serves(Root(0, 7, OPath), fs, DETOUR) == Some(File(1))
  {
    var r, request := Root(0, 7, OPath), Request([[97]], false);
    DetourParses();
    ResolveIsPublished(r, fs, request, 0);
    assert request.components[..0] == [];
    assert DirAt(r, fs, []) == Some(0);
  }

  lemma DetourUnreached()
    ensures Reaches(Root(0, 7, OPath), OneFile, DETOUR) == None
  {
  }

  /** `x/../a` where nothing is named `x`: served, though no walk reaches it. */
  lemma LexicalReachesMore()
    ensures var r := Root(0, 7, OPath);
            && Tree(r, OneFile)
            && Serves(r, OneFile, DETOUR) == Some(File(1))
            && Reaches(r, OneFile, DETOUR) == None
  {
    OneFileTree();
    DetourServed(OneFile);
    DetourUnreached();
  }

  /** A root that holds a public file `a`, and a directory `x` that the mode bits
      publish but the server process may not search. */
  function Unsearchable(i: Ino): Node
  {
    var a: Bytes, x: Bytes := [97], [120];
    if i == 0
    then Node(Stat(Directory, true, true, 2, 7), true, true, map[a := 1, x := 2], [HERE, PARENT, a, x], [], 0)
    else if i == 2
    then Node(Stat(Directory, true, true, 2, 7), true, false, map[], [HERE, PARENT], [], 0)
    else Node(Stat(Regular, true, false, 1, 7), true, false, map[], [], [104, 105], 0)
  }

  lemma DetourThrough()
    ensures Step(Root(0, 7, OPath), Unsearchable, 0, [120]) == Some(2)
    ensures Reaches(Root(0, 7, OPath), Unsearchable, DETOUR) == None
  {
    var r := Root(0, 7, OPath);
    var parts: seq<Bytes>, back: seq<Bytes> := [[120], PARENT, [97]], [PARENT, [97]];
    DetourParts();
    assert parts[1..] == back;
    assert Step(r, Unsearchable, 0, [120]) == Some(2);
    assert Walk(r, Unsearchable, 2, back) == None;
  }

  lemma UnsearchableTree()
    ensures Tree(Root(0, 7, OPath), Unsearchable)
  {
  }

  /** The same selector with `x` a published directory: every proper prefix names
      one, and still no walk that may not search `x` gets back out of it. */
  lemma LexicalLeavesMore()
    ensures var r := Root(0, 7, OPath);
            && Tree(r, Unsearchable)
            && DirAt(r, Unsearchable, [[120]]) == Some(2)
            && Serves(r, Unsearchable, DETOUR) == Some(File(1))
            && Reaches(r, Unsearchable, DETOUR) == None
  {
    var r := Root(0, 7, OPath);
    UnsearchableTree();
    DetourServed(Unsearchable);
    DetourThrough();
    assert DirAt(r, Unsearchable, []) == Some(0);
    NameBelow(r, Unsearchable, [], 0, [120]);
    var none: Stack, x: Stack := [], [[120]];
    assert none + x == x;
  }

  const STAY: Bytes := [120, 47, 46]  // "x/."

  lemma StayParts()
    ensures Split(STAY, SLASH) == [[120], HERE]
  {
    var parts: seq<Bytes> := [[120], HERE];
    assert parts[1..] == [HERE];
    assert Join(parts, SLASH) == STAY;
    SplitJoin(parts, SLASH);
  }

  lemma StayParses()
    ensures Parse(STAY) == Ok(Request([[120]], false))
  {
    var none: Stack, x: Stack := [], [[120]];
    var parts: seq<Bytes> := [[120], HERE];
    assert StripCr(STAY) == STAY && !EndsWithSlash(STAY);
    assert NUL !in STAY && CR !in STAY;
    StayParts();
    assert none + x == x && parts[..1] == x;
    FoldNames(none, x);
    FoldLast(none, parts);
  }

  lemma StayServed()
    ensures Serves(Root(0, 7, OPath), Unsearchable, STAY) == Some(Dir(2))
  {
    var r, request := Root(0, 7, OPath), Request([[120]], false);
    StayParses();
    ResolveIsPublished(r, Unsearchable, request, 0);
    assert request.components[..0] == [];
    assert DirAt(r, Unsearchable, []) == Some(0);
  }

  lemma StayUnreached()
    ensures Reaches(Root(0, 7, OPath), Unsearchable, STAY) == None
  {
    var r := Root(0, 7, OPath);
    var parts: seq<Bytes>, here: seq<Bytes> := [[120], HERE], [HERE];
    StayParts();
    assert parts[1..] == here;
    assert Step(r, Unsearchable, 0, [120]) == Some(2);
    assert Walk(r, Unsearchable, 2, here) == None;
  }

  /** `x/.` likewise: the directory is served, though its `.` may not be looked up. */
  lemma LexicalStaysMore()
    ensures var r := Root(0, 7, OPath);
            && Tree(r, Unsearchable)
            && Serves(r, Unsearchable, STAY) == Some(Dir(2))
            && Reaches(r, Unsearchable, STAY) == None
  {
    UnsearchableTree();
    StayServed();
    StayUnreached();
  }
}
