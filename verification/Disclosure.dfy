/** What a client can be sent the contents of, in a world that may change between
    any two system calls. */
module Disclosure {
  import opened Wrappers
  import opened Bytes
  import opened Kernel
  import opened Selector
  import opened Root
  import opened Descriptors
  import opened Listing
  import opened ListingFacts
  import opened Conn

  /** The file was linked by `name` from a directory chained to the root by
      `names`, and every one of these is a plain, visible component. */
  ghost predicate Reached(
    r: Root, w: World, names: seq<Bytes>, name: Bytes, f: Ino, from: nat, to: nat)
  {
    && (forall p :: p in names + [name] ==> IsComponent(p))
    && exists dir: Ino, mid: nat ::
         from <= mid <= to && Chain(r, w, names, dir, from, mid) && FileLink(r, w, dir, name, f, mid, to)
  }

  function EndOfResponse(r: Root, w: World, request: Request, t: nat): nat
  {
    var resolved := ResolveRequest(r, w, request, t);
    match resolved.val
    case Some(Dir(d)) => ClassifyChild(r, w, d, INDEX, resolved.t).t
    case _ => resolved.t
  }

  lemma DirectJustified(r: Root, w: World, request: Request, t: nat, f: Ino)
    requires forall p :: p in request.components ==> IsComponent(p)
    requires ResolveRequest(r, w, request, t).val == Some(File(f))
    ensures request.components != [] && !request.dirOnly
    ensures Reached(r, w, Front(request.components), Last(request.components), f, t,
                    ResolveRequest(r, w, request, t).t)
  {
    ResolveJustified(r, w, request, t);
    assert Front(request.components) + [Last(request.components)] == request.components;
  }

  lemma IndexLink(r: Root, w: World, d: Ino, f: Ino, t: nat)
    requires RespondDir(r, w, d, t) == FileResponse(f)
    ensures var end := ClassifyChild(r, w, d, INDEX, t).t;
            t <= end && FileLink(r, w, d, INDEX, f, t, end)
  {
  }

  lemma DirChained(r: Root, w: World, request: Request, t: nat, d: Ino, mid: nat)
    requires ResolveRequest(r, w, request, t) == Timed(Some(Dir(d)), mid)
    ensures t <= mid && Chain(r, w, request.components, d, t, mid)
  {
    ResolveJustified(r, w, request, t);
    ChainLasts(r, w, request.components, d, t, mid);
  }

  lemma IndexIsComponent(names: seq<Bytes>)
    requires forall p :: p in names ==> IsComponent(p)
    ensures forall p :: p in names + [INDEX] ==> IsComponent(p)
  {
  }

  lemma IndexJustified(
    r: Root, w: World, names: seq<Bytes>, d: Ino, f: Ino, from: nat, mid: nat, to: nat)
    requires forall p :: p in names ==> IsComponent(p)
    requires from <= mid <= to && Chain(r, w, names, d, from, mid)
    requires FileLink(r, w, d, INDEX, f, mid, to)
    ensures Reached(r, w, names, INDEX, f, from, to)
  {
    IndexIsComponent(names);
  }

  lemma ChainLasts(r: Root, w: World, names: seq<Bytes>, d: Ino, from: nat, to: nat)
    requires Chain(r, w, names, d, from, to)
    ensures from <= to
  {
  }

  /** A file that is streamed is the one the parsed components lead to, or the
      `index` of the directory they lead to, and passed the policy on the way. */
  lemma StreamedFileJustified(r: Root, w: World, selector: Bytes, t: nat)
    requires Respond(r, w, selector, t).FileResponse?
    ensures Parse(selector).Ok?
    ensures var request := Parse(selector).value;
            var f, end := Respond(r, w, selector, t).fd, EndOfResponse(r, w, request, t);
            || (&& request.components != [] && !request.dirOnly
                && Reached(r, w, Front(request.components), Last(request.components), f, t, end))
            || Reached(r, w, request.components, INDEX, f, t, end)
  {
    var request := Parse(selector).value;
    var f := Respond(r, w, selector, t).fd;
    ParseCanonical(selector);
    match ResolveRequest(r, w, request, t).val.value {
      case File(_) => DirectJustified(r, w, request, t, f);
      case Dir(d) =>
        var mid := ResolveRequest(r, w, request, t).t;
        IndexLink(r, w, d, f, mid);
        DirChained(r, w, request, t, d, mid);
        IndexJustified(r, w, request.components, d, f, t, mid, ClassifyChild(r, w, d, INDEX, mid).t);
    }
  }

  /** The shown entry was, at some instant, linked as the kind it is shown as; a
      directory was listable, and not only one to walk through. */
  ghost predicate ShownLink(r: Root, w: World, dir: Ino, e: Entry, c: Ino, from: nat, to: nat)
  {
    if e.isDir then ListedDirLink(r, w, dir, e.name, c, from, to)
    else FileLink(r, w, dir, e.name, c, from, to)
  }

  ghost predicate EntryJustified(r: Root, w: World, dir: Ino, e: Entry, from: nat, to: nat)
  {
    Showable(e.name) && exists c: Ino :: ShownLink(r, w, dir, e, c, from, to)
  }

  lemma EntryWidens(r: Root, w: World, dir: Ino, e: Entry, from: nat, to: nat, earlier: nat, later: nat)
    requires earlier <= from && to <= later
    requires EntryJustified(r, w, dir, e, from, to)
    ensures EntryJustified(r, w, dir, e, earlier, later)
  {
    var c: Ino :| ShownLink(r, w, dir, e, c, from, to);
    LinksWiden(r, w, dir, e.name, c, from, to, earlier, later);
    assert ShownLink(r, w, dir, e, c, earlier, later);
  }

  lemma ClassifiedEntry(r: Root, w: World, dir: Ino, name: Bytes, t: nat)
    ensures var child := ServingClassifier(r, w, dir)(name, t);
            && t <= child.t
            && (child.val.Some? && Showable(name) ==>
                EntryJustified(r, w, dir, Entry(name, child.val.value.Dir?), t, child.t))
  {
    var child := ClassifyChild(r, w, dir, name, t);
    if child.val.Some? {
      ClassifyJustified(r, w, dir, name, t);
      assert ShownLink(r, w, dir, Entry(name, child.val.value.Dir?), child.val.value.fd, t, child.t);
    }
  }

  lemma {:induction false} KeptJustified(r: Root, w: World, dir: Ino, names: seq<Bytes>, t: nat)
    ensures var kept := Kept(ServingClassifier(r, w, dir), names, t);
            t <= kept.t && forall e :: e in kept.val ==> EntryJustified(r, w, dir, e, t, kept.t)
    decreases |names|
  {
    if names == [] {
    } else {
      var name := names[0];
      if name != [] && name[0] == DOT {
        KeptJustified(r, w, dir, names[1..], t);
      } else {
        ClassifiedEntry(r, w, dir, name, t);
        var child := ServingClassifier(r, w, dir)(name, t);
        KeptJustified(r, w, dir, names[1..], child.t);
        var rest := Kept(ServingClassifier(r, w, dir), names[1..], child.t);
        var kept := Kept(ServingClassifier(r, w, dir), names, t);
        forall e | e in kept.val ensures EntryJustified(r, w, dir, e, t, kept.t) {
          if e in rest.val {
            EntryWidens(r, w, dir, e, child.t, rest.t, t, kept.t);
          } else {
            EntryWidens(r, w, dir, e, t, child.t, t, kept.t);
          }
        }
      }
    }
  }

  ghost predicate AllJustified(r: Root, w: World, dir: Ino, es: seq<Entry>, from: nat, to: nat)
  {
    forall e :: e in es ==> EntryJustified(r, w, dir, e, from, to)
  }

  lemma SortedJustified(r: Root, w: World, dir: Ino, names: seq<Bytes>, from: nat, t: nat)
    requires from <= t
    ensures var kept := Kept(ServingClassifier(r, w, dir), names, t);
            AllJustified(r, w, dir, Sort(kept.val), from, kept.t)
  {
    KeptJustified(r, w, dir, names, t);
    var kept := Kept(ServingClassifier(r, w, dir), names, t);
    SortKeeps(kept.val);
    forall e | e in Sort(kept.val) ensures EntryJustified(r, w, dir, e, from, kept.t) {
      assert e in multiset(Sort(kept.val));
      EntryWidens(r, w, dir, e, t, kept.t, from, kept.t);
    }
  }

  /** The kept entries of a listing that begins at time `t`. */
  function KeptAt(r: Root, w: World, dir: Ino, t: nat): Timed<seq<Entry>>
  {
    var list := OpenListableDir(r, w, dir, t);
    Kept(ServingClassifier(r, w, dir), w(list.t)(dir).stream, list.t + 1)
  }

  lemma ListingIsKept(r: Root, w: World, dir: Ino, t: nat)
    requires Generated(r, w, dir, t) != NOT_FOUND
    ensures OpenListableDir(r, w, dir, t).val == Some(dir)
    ensures var kept := KeptAt(r, w, dir, t).val;
            Generated(r, w, dir, t) == Render(Sort(kept)) && |kept| <= MAX_ENTRIES
  {
  }

  lemma KeptAtJustified(r: Root, w: World, dir: Ino, t: nat)
    ensures var kept := KeptAt(r, w, dir, t);
            && OpenListableDir(r, w, dir, t).t <= kept.t
            && AllJustified(r, w, dir, Sort(kept.val), t, kept.t)
  {
    var list := OpenListableDir(r, w, dir, t);
    KeptJustified(r, w, dir, w(list.t)(dir).stream, list.t + 1);
    SortedJustified(r, w, dir, w(list.t)(dir).stream, t, list.t + 1);
  }

  /** In any changing world, a listing shows only names that were entries of the
      kind shown, each checked after it was opened, in a directory that was
      listable before and after it was reopened. */
  lemma ListingJustified(r: Root, w: World, dir: Ino, t: nat)
    requires Generated(r, w, dir, t) != NOT_FOUND
    ensures OpenListableDir(r, w, dir, t).val == Some(dir)
    ensures var kept := KeptAt(r, w, dir, t);
            && Generated(r, w, dir, t) == Render(Sort(kept.val))
            && |kept.val| <= MAX_ENTRIES
            && Reopened(r, w, dir, t, OpenListableDir(r, w, dir, t).t)
            && AllJustified(r, w, dir, Sort(kept.val), t, kept.t)
  {
    ListingIsKept(r, w, dir, t);
    ListableJustified(r, w, dir, t);
    KeptAtJustified(r, w, dir, t);
  }

  /** A body that is sent and is no file is a listing of the directory the parsed
      components lead to. */
  lemma SentListing(r: Root, w: World, selector: Bytes, t: nat, body: Bytes)
    returns (d: Ino, arrived: nat, begun: nat)
    requires Respond(r, w, selector, t) == BytesResponse(body) && body != NOT_FOUND
    ensures Parse(selector).Ok?
    ensures ResolveRequest(r, w, Parse(selector).value, t) == Timed(Some(Dir(d)), arrived)
    ensures arrived <= begun && Generated(r, w, d, begun) == body
  {
    var resolved := ResolveRequest(r, w, Parse(selector).value, t);
    d, arrived := resolved.val.value.fd, resolved.t;
    begun := ClassifyChild(r, w, d, INDEX, arrived).t;
  }

  /** A listing that is sent is of the directory the parsed components lead to, by
      visible components only, and each of its lines is justified as above. */
  lemma SentListingJustified(r: Root, w: World, selector: Bytes, t: nat, body: Bytes)
    returns (d: Ino, arrived: nat, begun: nat, reopened: nat, kept: Timed<seq<Entry>>)
    requires Respond(r, w, selector, t) == BytesResponse(body) && body != NOT_FOUND
    ensures Parse(selector).Ok? && forall p :: p in Parse(selector).value.components ==> IsComponent(p)
    ensures t <= arrived <= begun <= reopened <= kept.t
    ensures Chain(r, w, Parse(selector).value.components, d, t, arrived)
    ensures Reopened(r, w, d, begun, reopened)
    ensures body == Render(Sort(kept.val)) && |kept.val| <= MAX_ENTRIES
    ensures AllJustified(r, w, d, Sort(kept.val), begun, kept.t)
  {
    d, arrived, begun := SentListing(r, w, selector, t, body);
    ParseCanonical(selector);
    DirChained(r, w, Parse(selector).value, t, d, arrived);
    kept := KeptAt(r, w, d, begun);
    reopened := OpenListableDir(r, w, d, begun).t;
    ListingJustified(r, w, d, begun);
    KeptAtJustified(r, w, d, begun);
  }
}
