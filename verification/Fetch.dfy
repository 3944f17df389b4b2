/** Following a listing: what is listed can be fetched, and what can be fetched
    but is not listed. */
module Fetch {
  import opened Wrappers
  import opened Bytes
  import opened Kernel
  import opened Selector
  import opened Root
  import opened Policy
  import opened Listing
  import opened ListingFacts
  import opened Conn
  import Utf8

  /** A name as a directory can hold it. */
  predicate FileName(name: Bytes)
  {
    name != [] && SLASH !in name && NUL !in name
  }

  /** Components a client can have asked for over the wire. */
  predicate Askable(names: seq<Bytes>)
  {
    forall p :: p in names ==> IsComponent(p) && Utf8.Valid(p) && LF !in p
  }

  /** Enumeration yields the entries, and the two names every directory has. */
  ghost predicate Enumerates(n: Node)
  {
    && (forall name :: name in n.entries ==> name in n.stream && FileName(name))
    && (forall name :: name in n.stream ==> name in n.entries || name in {HERE, PARENT})
  }

  lemma PrintTransmissible(request: Request)
    requires Askable(request.components)
    ensures LF !in Print(request) && Utf8.Valid(Print(request))
  {
    var parts := PrintParts(request);
    assert forall p :: p in parts ==> p == [] || p in request.components;
    JoinMembers(parts, SLASH);
    Utf8.JoinValid(parts, SLASH);
  }

  /** A request sent as its printed line arrives as the same request. */
  lemma LineArrives(request: Request)
    requires Askable(request.components)
    requires |Print(request)| <= MAX_SELECTOR_BYTES
    ensures BoundedLine(Print(request) + [LF], false) == Ok(Some(Print(request)))
    ensures Asked(BoundedLine(Print(request) + [LF], false)) == Ok(Some(request))
  {
    var selector := Print(request);
    PrintTransmissible(request);
    ParsePrint(request);
    FirstLineIs(selector, []);
    assert selector + [LF] + [] == selector + [LF];
    assert LF in selector + [LF];
  }

  /** What arrives and parses at all is safe, short enough and without newlines. */
  lemma ArrivedIsAskable(sent: Bytes, request: Request)
    requires Asked(BoundedLine(sent, false)) == Ok(Some(request))
    ensures forall p :: p in request.components ==> IsComponent(p) && LF !in p
    ensures |Print(request)| <= MAX_SELECTOR_BYTES
  {
    var selector := FirstLine(sent);
    var s := StripCr(selector);
    FirstLineEnds(sent);
    ParseCanonical(selector);
    PrintNoLonger(s, request.components);
    FoldKeepsNames([], Split(s, SLASH));
    SplitPieces(s, SLASH);
  }

  lemma ChildPublished(r: Root, fs: Fs, names: seq<Bytes>, dir: Ino, name: Bytes, dirOnly: bool)
    requires DirAt(r, fs, names) == Some(dir)
    ensures ResolveRequest(r, Frozen(fs), Request(names + [name], dirOnly), 0).val ==
            StepLeaf(r, fs, dir, name, dirOnly)
  {
    var request := Request(names + [name], dirOnly);
    ResolveIsPublished(r, fs, request, 0);
    assert request.components[..|request.components| - 1] == names;
  }

  /** The link a listing shows for an entry: a directory's ends in a slash. */
  function LinkOf(names: seq<Bytes>, e: Entry): Request
  {
    Request(names + [e.name], e.isDir)
  }

  /** A listed entry, put after the names of its directory, is asked for exactly
      if its name has no CR or LF and the whole is within the selector bound. */
  lemma ListedIsAskable(names: seq<Bytes>, e: Entry)
    requires Askable(names) && Showable(e.name) && FileName(e.name)
    ensures Asked(BoundedLine(Print(LinkOf(names, e)) + [LF], false)) == Ok(Some(LinkOf(names, e))) <==>
            CR !in e.name && LF !in e.name && |Print(LinkOf(names, e))| <= MAX_SELECTOR_BYTES
  {
    var request := LinkOf(names, e);
    assert e.name in request.components;
    assert forall p :: p in request.components ==> p in names || p == e.name;
    if CR !in e.name && LF !in e.name && |Print(request)| <= MAX_SELECTOR_BYTES {
      LineArrives(request);
    }
    if Asked(BoundedLine(Print(request) + [LF], false)) == Ok(Some(request)) {
      ArrivedIsAskable(Print(request) + [LF], request);
    }
  }

  /** What a directory is answered with: its index, else its listing if it has one. */
  function DirAnswer(r: Root, fs: Fs, dir: Ino): Bytes
  {
    if HasIndex(r, fs, dir) then fs(PublishedChild(r, fs, dir, INDEX).value.fd).content
    else if ListingObstacle(r, fs, dir).Some? then NOT_FOUND
    else Render(Sort(Listed(r, fs, dir, fs(dir).stream)))
  }

  /** A directory gets the fallback exactly if it has no index and something
      stands in the way of its listing. */
  lemma DirAnswered(r: Root, fs: Fs, dir: Ino, t: nat)
    ensures Contents(fs, RespondDir(r, Frozen(fs), dir, t)) == DirAnswer(r, fs, dir)
    ensures RespondDir(r, Frozen(fs), dir, t) != BytesResponse(NOT_FOUND) <==>
            HasIndex(r, fs, dir) || ListingObstacle(r, fs, dir) == None
  {
    var index := ClassifyChild(r, Frozen(fs), dir, INDEX, t);
    ClassifyIsPublished(r, fs, dir, INDEX, t);
    GeneratedIsBody(r, fs, dir, index.t);
    ListingIsNotNotFound(Sort(Listed(r, fs, dir, fs(dir).stream)));
  }

  /** Whatever the link resolves to is what is answered. */
  lemma AnswerToLink(r: Root, fs: Fs, request: Request)
    requires Askable(request.components) && |Print(request)| <= MAX_SELECTOR_BYTES
    ensures Answer(r, fs, Print(request) + [LF], false) ==
            Ok(match ResolveRequest(r, Frozen(fs), request, 0).val
               case Some(File(f)) => fs(f).content
               case Some(Dir(d)) => DirAnswer(r, fs, d)
               case None => NOT_FOUND)
  {
    LineArrives(request);
    ParsePrint(request);
    var resolved := ResolveRequest(r, Frozen(fs), request, 0);
    if resolved.val.Some? && resolved.val.value.Dir? {
      DirAnswered(r, fs, resolved.val.value.fd, resolved.t);
    }
  }

  /** And that is the fallback if nothing is reached, or a directory with neither
      an index nor a listing. */
  lemma ResponseToLink(r: Root, fs: Fs, request: Request)
    requires forall p :: p in request.components ==> IsComponent(p)
    requires |Print(request)| <= MAX_SELECTOR_BYTES
    ensures Respond(r, Frozen(fs), Print(request), 0) != BytesResponse(NOT_FOUND) <==>
            match ResolveRequest(r, Frozen(fs), request, 0).val
            case Some(File(_)) => true
            case Some(Dir(d)) => HasIndex(r, fs, d) || ListingObstacle(r, fs, d) == None
            case None => false
  {
    ParsePrint(request);
    var resolved := ResolveRequest(r, Frozen(fs), request, 0);
    if resolved.val.Some? && resolved.val.value.Dir? {
      DirAnswered(r, fs, resolved.val.value.fd, resolved.t);
    }
  }

  /** Following the link of a listed entry, if it can be asked for at all, reaches
      the entry as the kind it was listed as, except that a listed directory is
      not reached if the process may not walk into it. A file is answered with its
      contents; a directory that was reached gets its index or its listing exactly
      if it has an index or nothing stands in the way of listing it. */
  lemma ListedIsFetchable(r: Root, fs: Fs, names: seq<Bytes>, dir: Ino, e: Entry)
    requires DirAt(r, fs, names) == Some(dir) && Askable(names)
    requires Enumerates(fs(dir)) && e in Listed(r, fs, dir, fs(dir).stream)
    ensures e.name in fs(dir).entries
    ensures var request := LinkOf(names, e);
            Asked(BoundedLine(Print(request) + [LF], false)) == Ok(Some(request)) <==>
            CR !in e.name && LF !in e.name && |Print(request)| <= MAX_SELECTOR_BYTES
    ensures var c := fs(dir).entries[e.name];
            ResolveRequest(r, Frozen(fs), LinkOf(names, e), 0).val ==
            if !e.isDir then Some(File(c)) else if TraverseOpens(r.platform, fs(c)) then Some(Dir(c)) else None
    ensures var c, request := fs(dir).entries[e.name], LinkOf(names, e);
            CR !in e.name && LF !in e.name && |Print(request)| <= MAX_SELECTOR_BYTES ==>
              Answer(r, fs, Print(request) + [LF], false) ==
              Ok(if !e.isDir then fs(c).content
                 else if TraverseOpens(r.platform, fs(c)) then DirAnswer(r, fs, c)
                 else NOT_FOUND)
    ensures var c, request := fs(dir).entries[e.name], LinkOf(names, e);
            |Print(request)| <= MAX_SELECTOR_BYTES && CR !in e.name ==>
              (Respond(r, Frozen(fs), Print(request), 0) != BytesResponse(NOT_FOUND) <==>
               e.isDir ==> && TraverseOpens(r.platform, fs(c))
                           && (HasIndex(r, fs, c) || ListingObstacle(r, fs, c) == None))
  {
    var request := LinkOf(names, e);
    ListedMembers(r, fs, dir, fs(dir).stream);
    ListedIsAskable(names, e);
    ChildPublished(r, fs, names, dir, e.name, e.isDir);
    assert forall p :: p in request.components ==> p in names || p == e.name;
    if CR !in e.name && |Print(request)| <= MAX_SELECTOR_BYTES {
      ResponseToLink(r, fs, request);
      if LF !in e.name {
        AnswerToLink(r, fs, request);
      }
    }
  }

  /** A root that holds one directory `d`, open to all by its mode, which the
      server process may read but not search. */
  function LockedDir(i: Ino): Node
  {
    var d: Bytes := [100];
    if i == 0
    then Node(Stat(Directory, true, true, 3, 7), true, true, map[d := 1], [HERE, PARENT, d], [], 0)
    else Node(Stat(Directory, true, true, 2, 7), true, false, map[], [HERE, PARENT], [], 0)
  }

  lemma LockedDirListed(r: Root, d: Bytes)
    requires r.dev == 7 && d == [100]
    ensures Listed(r, LockedDir, 0, LockedDir(0).stream) == [Entry(d, true)]
  {
    var stream := [HERE, PARENT, d];
    assert stream[1..] == [PARENT, d] && stream[1..][1..] == [d] && [d][1..] == [];
    assert Utf8.Valid(d) by { assert d[1..] == []; }
    assert Listed(r, LockedDir, 0, [d]) == [Entry(d, true)];
  }

  lemma LockedDirUnfetched(r: Root, d: Bytes)
    requires r == Root(0, 7, OSearch) && d == [100]
    ensures ResolveRequest(r, Frozen(LockedDir), LinkOf([], Entry(d, true)), 0).val == None
  {
    assert DirAt(r, LockedDir, []) == Some(0);
    ChildPublished(r, LockedDir, [], 0, d, true);
  }

  lemma LockedDirShown(r: Root, e: Entry)
    requires r.dev == 7 && e == Entry([100], true)
    ensures Enumerates(LockedDir(0))
    ensures e in Listed(r, LockedDir, 0, LockedDir(0).stream)
    ensures Generated(r, Frozen(LockedDir), 0, 0) != NOT_FOUND
  {
    assert LockedDir(0).stream[2] == e.name;
    LockedDirListed(r, e.name);
    assert [e][..0] == [];
    ListingRefusedExactly(r, LockedDir, 0, 0);
  }

  /** It is listed, and cannot be fetched, where a walk needs search permission. */
  lemma ListedButNotFetchable()
    ensures var r, e := Root(0, 7, OSearch), Entry([100], true);
            && Enumerates(LockedDir(0))
            && e in Listed(r, LockedDir, 0, LockedDir(0).stream)
            && Generated(r, Frozen(LockedDir), 0, 0) != NOT_FOUND
            && ResolveRequest(r, Frozen(LockedDir), LinkOf([], e), 0).val == None
  {
    var r, e := Root(0, 7, OSearch), Entry([100], true);
    LockedDirShown(r, e);
    LockedDirUnfetched(r, e.name);
  }

  lemma PrintLocked(e: Entry)
    requires e == Entry([100], true)
    ensures Print(LinkOf([], e)) == [100, SLASH]
    ensures Askable(LinkOf([], e).components)
  {
    var none: seq<Bytes>, parts: seq<Bytes> := [], [[100], []];
    assert none + [e.name] == [e.name] && PrintParts(LinkOf([], e)) == parts;
    assert parts[1..] == [[]];
    assert Utf8.Valid(e.name) by { assert e.name[1..] == []; }
  }

  lemma LockedDirReached(r: Root, e: Entry)
    requires r == Root(0, 7, OPath) && e == Entry([100], true)
    ensures ResolveRequest(r, Frozen(LockedDir), LinkOf([], e), 0).val == Some(Dir(1))
  {
    assert DirAt(r, LockedDir, []) == Some(0);
    ChildPublished(r, LockedDir, [], 0, e.name, true);
  }

  lemma LockedDirUnlisted(r: Root)
    requires r == Root(0, 7, OPath)
    ensures DirAnswer(r, LockedDir, 1) == NOT_FOUND
  {
    assert ListingObstacle(r, LockedDir, 1) == Some(DirectoryNotWorldReadable);
  }

  /** On Linux a walk does get into it, and finds neither an index nor a listing. */
  lemma ListedButNotAnswered()
    ensures var r, e := Root(0, 7, OPath), Entry([100], true);
            && e in Listed(r, LockedDir, 0, LockedDir(0).stream)
            && Generated(r, Frozen(LockedDir), 0, 0) != NOT_FOUND
            && ResolveRequest(r, Frozen(LockedDir), LinkOf([], e), 0).val == Some(Dir(1))
            && Answer(r, LockedDir, Print(LinkOf([], e)) + [LF], false) == Ok(NOT_FOUND)
  {
    var r, e := Root(0, 7, OPath), Entry([100], true);
    LockedDirShown(r, e);
    LockedDirReached(r, e);
    LockedDirUnlisted(r);
    PrintLocked(e);
    AnswerToLink(r, LockedDir, LinkOf([], e));
  }

  /** Within the bounds, the showable entries that resolve but are not listed are
      exactly the directories one may walk through but not read. */
  lemma UnlistedButFetchable(r: Root, fs: Fs, names: seq<Bytes>, dir: Ino, name: Bytes)
    requires DirAt(r, fs, names) == Some(dir)
    requires Enumerates(fs(dir)) && name in fs(dir).entries && Showable(name)
    requires Generated(r, Frozen(fs), dir, 0) != NOT_FOUND
    ensures var c := fs(dir).entries[name];
            var resolved := ResolveRequest(r, Frozen(fs), Request(names + [name], false), 0).val;
            && (resolved.Some? && (forall e :: e in Listed(r, fs, dir, fs(dir).stream) ==> e.name != name)
                <==> Walkable(r, fs, c) && !fs(c).stat.otherRead)
  {
    ListedMembers(r, fs, dir, fs(dir).stream);
    ChildPublished(r, fs, names, dir, name, false);
    GeneratedIsBody(r, fs, dir, 0);
    var child := PublishedChild(r, fs, dir, name);
    if child.Some? {
      assert Entry(name, child.value.Dir?) in Listed(r, fs, dir, fs(dir).stream);
    }
  }
}
