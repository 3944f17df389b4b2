/** What a listing promises: the order of enumeration does not show, the bounds
    are exact, the diagnosis agrees, and the text can be read back. */
module ListingFacts {
  import opened Wrappers
  import opened Bytes
  import opened Kernel
  import opened Root
  import opened Policy
  import opened Listing
  import Utf8

  predicate Showable(name: Bytes)
  {
    !(name != [] && name[0] == DOT) && Utf8.Valid(name)
  }

  /** The entries policy lets into a listing of `dir`, in the order of `names`. */
  function Listed(r: Root, fs: Fs, dir: Ino, names: seq<Bytes>): seq<Entry>
  {
    if names == [] then []
    else
      var child := PublishedChild(r, fs, dir, names[0]);
      var rest := Listed(r, fs, dir, names[1..]);
      if Showable(names[0]) && child.Some? then [Entry(names[0], child.value.Dir?)] + rest else rest
  }

  lemma {:induction false} KeptIsListed(r: Root, fs: Fs, dir: Ino, names: seq<Bytes>, t: nat)
    ensures Kept(ServingClassifier(r, Frozen(fs), dir), names, t).val == Listed(r, fs, dir, names)
    decreases |names|
  {
    if names == [] {
    } else {
      ClassifyIsPublished(r, fs, dir, names[0], t);
      if names[0] != [] && names[0][0] == DOT {
        KeptIsListed(r, fs, dir, names[1..], t);
      } else {
        KeptIsListed(r, fs, dir, names[1..], ServingClassifier(r, Frozen(fs), dir)(names[0], t).t);
      }
    }
  }

  lemma {:induction false} KeptForDiagnosisIsListed(r: Root, fs: Fs, dir: Ino, names: seq<Bytes>, t: nat)
    ensures Kept(DiagnosticClassifier(r, Frozen(fs), dir), names, t).val == Listed(r, fs, dir, names)
    decreases |names|
  {
    if names == [] {
    } else {
      ClassifiersAgree(r, fs, dir, names[0], t);
      if names[0] != [] && names[0][0] == DOT {
        KeptForDiagnosisIsListed(r, fs, dir, names[1..], t);
      } else {
        KeptForDiagnosisIsListed(r, fs, dir, names[1..], DiagnosticClassifier(r, Frozen(fs), dir)(names[0], t).t);
      }
    }
  }

  lemma {:induction false} ListedMembers(r: Root, fs: Fs, dir: Ino, names: seq<Bytes>)
    ensures forall e :: e in Listed(r, fs, dir, names) <==>
              && e.name in names
              && Showable(e.name)
              && PublishedChild(r, fs, dir, e.name).Some?
              && e.isDir == PublishedChild(r, fs, dir, e.name).value.Dir?
  {
    if names == [] {
    } else {
      ListedMembers(r, fs, dir, names[1..]);
      assert names == [names[0]] + names[1..];
    }
  }

  lemma {:induction false} ListedAppend(r: Root, fs: Fs, dir: Ino, a: seq<Bytes>, b: seq<Bytes>)
    ensures Listed(r, fs, dir, a + b) == Listed(r, fs, dir, a) + Listed(r, fs, dir, b)
    decreases |a|
  {
    if a == [] {
      assert a + b == b;
    } else {
      assert (a + b)[0] == a[0] && (a + b)[1..] == a[1..] + b;
      ListedAppend(r, fs, dir, a[1..], b);
    }
  }

  lemma ListedRemove(r: Root, fs: Fs, dir: Ino, names: seq<Bytes>, name: Bytes) returns (rest: seq<Bytes>)
    requires name in names
    ensures multiset(rest) == multiset(names) - multiset{name}
    ensures |rest| + 1 == |names|
    ensures multiset(Listed(r, fs, dir, names)) ==
            multiset(Listed(r, fs, dir, [name])) + multiset(Listed(r, fs, dir, rest))
  {
    var k :| 0 <= k < |names| && names[k] == name;
    var front, back := names[..k], names[k + 1..];
    rest := front + back;
    RemoveOne(names, k);
    assert names == front + ([name] + back);
    ListedAppend(r, fs, dir, front, [name] + back);
    ListedAppend(r, fs, dir, [name], back);
    ListedAppend(r, fs, dir, front, back);
  }

  lemma {:induction false} ListedPermutation(r: Root, fs: Fs, dir: Ino, a: seq<Bytes>, b: seq<Bytes>)
    requires multiset(a) == multiset(b)
    ensures multiset(Listed(r, fs, dir, a)) == multiset(Listed(r, fs, dir, b))
    decreases |a|
  {
    if a == [] {
      assert |b| == |multiset(b)| == 0;
    } else {
      assert a[0] in multiset(b);
      var restA := ListedRemove(r, fs, dir, a, a[0]);
      var restB := ListedRemove(r, fs, dir, b, a[0]);
      ListedPermutation(r, fs, dir, restA, restB);
    }
  }

  lemma BodyPermutation(a: seq<Entry>, b: seq<Entry>)
    requires multiset(a) == multiset(b)
    ensures Body(a) == Body(b)
  {
    assert |a| == |multiset(a)| == |multiset(b)| == |b|;
    TotalPermutation(a, b);
    SortSorts(a);
    SortSorts(b);
    SortedIsUnique(Sort(a), Sort(b));
  }

  lemma GeneratedIsBody(r: Root, fs: Fs, dir: Ino, t: nat)
    ensures Generated(r, Frozen(fs), dir, t) ==
            if Enumerable(r, fs, dir) then Body(Listed(r, fs, dir, fs(dir).stream)) else NOT_FOUND
  {
    ListableIsEnumerable(r, fs, dir, t);
    var list := OpenListableDir(r, Frozen(fs), dir, t);
    KeptIsListed(r, fs, dir, fs(dir).stream, list.t + 1);
  }

  /** `other` is `fs` with the names of each directory enumerated in some other order. */
  ghost predicate Reordered(fs: Fs, other: Fs)
  {
    forall i: Ino :: other(i).(stream := []) == fs(i).(stream := [])
                     && multiset(other(i).stream) == multiset(fs(i).stream)
  }

  lemma {:induction false} ReorderedListed(r: Root, fs: Fs, other: Fs, dir: Ino, names: seq<Bytes>)
    requires Reordered(fs, other)
    ensures Listed(r, fs, dir, names) == Listed(r, other, dir, names)
  {
    if names == [] {
    } else {
      ReorderedListed(r, fs, other, dir, names[1..]);
      assert other(dir).(stream := []) == fs(dir).(stream := []);
      var lookup := Lookup(fs, dir, names[0]);
      if lookup.Some? {
        assert other(lookup.value).(stream := []) == fs(lookup.value).(stream := []);
      }
    }
  }

  /** The order of enumeration never shows in a listing. */
  lemma ListingIgnoresOrder(r: Root, fs: Fs, other: Fs, dir: Ino, t: nat)
    requires Reordered(fs, other)
    ensures Generated(r, Frozen(fs), dir, t) == Generated(r, Frozen(other), dir, t)
  {
    assert other(dir).(stream := []) == fs(dir).(stream := []);
    GeneratedIsBody(r, fs, dir, t);
    GeneratedIsBody(r, other, dir, t);
    ReorderedListed(r, fs, other, dir, other(dir).stream);
    ListedPermutation(r, fs, dir, fs(dir).stream, other(dir).stream);
    BodyPermutation(Listed(r, fs, dir, fs(dir).stream), Listed(r, other, dir, other(dir).stream));
  }

  lemma {:induction false} RenderStart(es: seq<Entry>)
    ensures es == [] <==> Render(es) == []
    ensures es != [] ==> |Render(es)| >= 3 && Render(es)[..3] == ARROW
  {
    if |es| > 1 {
      RenderStart(es[..|es| - 1]);
      assert Render(es)[..3] == Render(es[..|es| - 1])[..3];
    } else if |es| == 1 {
      assert es[..0] == [];
      assert Render(es) == Label(es[0]) + [LF];
    }
  }

  /** A listing is never the not-found body. */
  lemma ListingIsNotNotFound(es: seq<Entry>)
    ensures Render(es) != NOT_FOUND
  {
    RenderStart(es);
    if es != [] {
      assert Render(es)[0] == Render(es)[..3][0] == 61;
    }
  }

  lemma {:induction false} SortedPairwise(es: seq<Entry>)
    requires Sorted(es)
    ensures forall i, j :: 0 <= i < j < |es| ==> LexLe(es[i].name, es[j].name)
  {
    if es == [] {
    } else {
      SortedPairwise(es[1..]);
      forall i, j | 0 <= i < j < |es| ensures LexLe(es[i].name, es[j].name) {
        if i == 0 {
          assert es[j] in es[1..];
        } else {
          assert es[i] == es[1..][i - 1] && es[j] == es[1..][j - 1];
        }
      }
    }
  }

  /** A directory is listed unless it may not be, or its entries are too many or
      too long. */
  lemma ListingRefusedExactly(r: Root, fs: Fs, dir: Ino, t: nat)
    ensures var listed := Listed(r, fs, dir, fs(dir).stream);
            Generated(r, Frozen(fs), dir, t) == NOT_FOUND <==>
            !Enumerable(r, fs, dir) || |listed| > MAX_ENTRIES || Total(listed) > MAX_BYTES
  {
    GeneratedIsBody(r, fs, dir, t);
    ListingIsNotNotFound(Sort(Listed(r, fs, dir, fs(dir).stream)));
  }

  /** `body` shows each of `listed` on a line of its own, by name, within bounds. */
  ghost predicate Shows(body: Bytes, listed: seq<Entry>)
  {
    exists es: seq<Entry> ::
      && body == Render(es)
      && multiset(es) == multiset(listed)
      && (forall i, j :: 0 <= i < j < |es| ==> LexLe(es[i].name, es[j].name))
      && |es| <= MAX_ENTRIES
      && |body| <= MAX_BYTES
  }

  lemma ListingShows(r: Root, fs: Fs, dir: Ino, t: nat)
    requires Generated(r, Frozen(fs), dir, t) != NOT_FOUND
    ensures Shows(Generated(r, Frozen(fs), dir, t), Listed(r, fs, dir, fs(dir).stream))
  {
    var listed := Listed(r, fs, dir, fs(dir).stream);
    var es := Sort(listed);
    GeneratedIsBody(r, fs, dir, t);
    SortSorts(listed);
    SortedPairwise(es);
    TotalPermutation(es, listed);
    TotalIsLength(es);
    assert Generated(r, Frozen(fs), dir, t) == Render(es);
  }

  predicate HasIndex(r: Root, fs: Fs, dir: Ino)
  {
    var index := PublishedChild(r, fs, dir, INDEX);
    index.Some? && index.value.File?
  }

  /** Why a directory has no listing: its device, its kind, its modes or what the
      process may open, and then the number and the size of its entries. */
  function ListingObstacle(r: Root, fs: Fs, dir: Ino): Option<RejectReason>
  {
    var n, listed := fs(dir), Listed(r, fs, dir, fs(dir).stream);
    if n.stat.dev != r.dev then Some(CrossDevice)
    else if n.stat.kind != Directory then Some(SpecialFile)
    else if !n.stat.otherExec then Some(DirectoryNotWorldExecutable)
    else if !(n.stat.otherRead && n.daemonRead && n.daemonSearch) then Some(DirectoryNotWorldReadable)
    else if |listed| > MAX_ENTRIES then Some(ListingTooManyEntries)
    else if Total(listed) > MAX_BYTES then Some(ListingTooManyBytes)
    else None
  }

  /** The verdict on an unchanging filesystem: an index, a listing, or why not. */
  lemma VerdictIs(r: Root, fs: Fs, dir: Ino, t: nat)
    ensures Verdict(r, Frozen(fs), dir, t) ==
            if HasIndex(r, fs, dir) then Ok(IndexFile)
            else match ListingObstacle(r, fs, dir)
                 case None => Ok(GeneratedListing)
                 case Some(reason) => Err(reason)
  {
    var index := ClassifyChildDiagnostic(r, Frozen(fs), dir, INDEX, t);
    ClassifiersAgree(r, fs, dir, INDEX, t);
    ListableDiagnosticAgrees(r, fs, dir, index.t);
    var list := OpenListableDirDiagnostic(r, Frozen(fs), dir, index.t);
    KeptForDiagnosisIsListed(r, fs, dir, fs(dir).stream, list.t + 1);
  }

  /** `diagnose` reports an index exactly when one would be served. Otherwise it
      gives exactly the obstacle there is, and there is one exactly when the
      response would be the not-found body. */
  lemma DiagnosisAgrees(r: Root, fs: Fs, dir: Ino, t: nat, u: nat)
    ensures var verdict := Verdict(r, Frozen(fs), dir, t);
            && (verdict == Ok(IndexFile) <==> HasIndex(r, fs, dir))
            && (verdict != Ok(IndexFile) ==>
                && (verdict.Err? <==> Generated(r, Frozen(fs), dir, u) == NOT_FOUND)
                && forall reason :: verdict == Err(reason) <==> ListingObstacle(r, fs, dir) == Some(reason))
  {
    VerdictIs(r, fs, dir, t);
    ListingRefusedExactly(r, fs, dir, u);
  }

  // ----------------------------------------------------------- reading back

  function ReadLine(line: Bytes): Option<Entry>
  {
    if |line| < 3 || line[..3] != ARROW then None
    else
      var rest := line[3..];
      if rest != [] && rest[|rest| - 1] == SLASH then Some(Entry(rest[..|rest| - 1], true))
      else Some(Entry(rest, false))
  }

  function ReadLines(lines: seq<Bytes>): Option<seq<Entry>>
  {
    if lines == [] then Some([])
    else
      var front, last := ReadLines(lines[..|lines| - 1]), ReadLine(lines[|lines| - 1]);
      if front.Some? && last.Some? then Some(front.value + [last.value]) else None
  }

  /** What a client makes of a listing: one entry per newline-ended line. */
  function ReadBack(body: Bytes): Option<seq<Entry>>
  {
    var lines := Split(body, LF);
    if lines[|lines| - 1] != [] then None else ReadLines(lines[..|lines| - 1])
  }

  function Labels(es: seq<Entry>): (labels: seq<Bytes>)
    ensures |labels| == |es|
  {
    if es == [] then [] else Labels(es[..|es| - 1]) + [Label(es[|es| - 1])]
  }

  /** Its line is one line, and tells a file from a directory. */
  predicate Plain(e: Entry)
  {
    LF !in e.name && (e.isDir || e.name == [] || e.name[|e.name| - 1] != SLASH)
  }

  lemma {:induction false} JoinSnoc(parts: seq<Bytes>, last: Bytes, sep: byte)
    requires |parts| >= 1
    ensures Join(parts + [last], sep) == Join(parts, sep) + [sep] + last
  {
    var all := parts + [last];
    if |parts| == 1 {
      assert all[1..] == [last];
    } else {
      assert all[1..] == parts[1..] + [last];
      JoinSnoc(parts[1..], last, sep);
    }
  }

  lemma Regroup(joined: Bytes, last: Bytes, sep: byte)
    ensures (joined + [sep] + last) + [sep] + [] == (joined + [sep] + []) + last + [sep]
  {
  }

  lemma JoinTwo(parts: seq<Bytes>, last: Bytes, sep: byte)
    requires |parts| >= 1
    ensures Join(parts + [last] + [[]], sep) == Join(parts + [[]], sep) + last + [sep]
  {
    JoinSnoc(parts, [], sep);
    JoinSnoc(parts, last, sep);
    JoinSnoc(parts + [last], [], sep);
    Regroup(Join(parts, sep), last, sep);
  }

  lemma RenderOne(e: Entry)
    ensures Render([e]) == Join(Labels([e]) + [[]], LF)
  {
  }

  lemma {:induction false} RenderIsJoin(es: seq<Entry>)
    ensures Render(es) == Join(Labels(es) + [[]], LF)
  {
    if |es| == 1 {
      RenderOne(es[0]);
      assert es == [es[0]];
    } else if es != [] {
      var front, e := es[..|es| - 1], es[|es| - 1];
      RenderIsJoin(front);
      JoinTwo(Labels(front), Label(e), LF);
      assert Labels(es) == Labels(front) + [Label(e)];
    }
  }

  lemma LabelReads(e: Entry)
    requires LF !in e.name
    ensures LF !in Label(e)
    ensures ReadLine(Label(e)) == Some(e) <==> Plain(e)
  {
    var line := Label(e);
    assert line[..3] == ARROW;
    if e.isDir {
      assert line[3..] == e.name + [SLASH];
      assert line[3..][..|line[3..]| - 1] == e.name;
    } else {
      assert line[3..] == e.name;
    }
  }

  lemma {:induction false} ReadLinesLength(lines: seq<Bytes>)
    ensures ReadLines(lines).Some? ==> |ReadLines(lines).value| == |lines|
  {
    if lines == [] {
    } else {
      ReadLinesLength(lines[..|lines| - 1]);
    }
  }

  lemma LabelsOfFront(es: seq<Entry>)
    requires es != []
    ensures Labels(es)[..|es| - 1] == Labels(es[..|es| - 1])
  {
  }

  lemma {:induction false} LabelsRead(es: seq<Entry>)
    requires forall e :: e in es ==> LF !in e.name
    ensures ReadLines(Labels(es)) == Some(es) <==> forall e :: e in es ==> Plain(e)
    ensures forall l :: l in Labels(es) ==> LF !in l
  {
    if es == [] {
    } else {
      var front, e := es[..|es| - 1], es[|es| - 1];
      LabelsRead(front);
      LabelReads(e);
      LabelsOfFront(es);
      assert front + [e] == es;
      var read := ReadLines(Labels(front));
      if read.Some? && ReadLine(Label(e)).Some? {
        assert (read.value + [ReadLine(Label(e)).value])[..|read.value|] == read.value;
      }
      ReadLinesLength(Labels(front));
    }
  }

  /** Newlines in a byte string. */
  function Newlines(s: Bytes): nat
  {
    if s == [] then 0 else Newlines(s[..|s| - 1]) + if s[|s| - 1] == LF then 1 else 0
  }

  lemma {:induction false} NewlinesAppend(a: Bytes, b: Bytes)
    ensures Newlines(a + b) == Newlines(a) + Newlines(b)
    decreases |b|
  {
    if b == [] {
      assert a + b == a;
    } else {
      NewlinesAppend(a, b[..|b| - 1]);
      assert (a + b)[..|a + b| - 1] == a + b[..|b| - 1];
    }
  }

  lemma {:induction false} NewlinesOf(s: Bytes)
    ensures Newlines(s) == 0 <==> LF !in s
  {
    if s == [] {
    } else {
      NewlinesOf(s[..|s| - 1]);
      assert s == s[..|s| - 1] + [s[|s| - 1]];
    }
  }

  lemma {:induction false} NewlinesSplit(s: Bytes)
    ensures |Split(s, LF)| == Newlines(s) + 1
  {
    if s == [] {
    } else {
      NewlinesSplit(s[1..]);
      NewlinesAppend([s[0]], s[1..]);
      assert s == [s[0]] + s[1..];
      assert [s[0]][..0] == [];
    }
  }

  lemma NewlinesOfLine(before: Bytes, e: Entry)
    ensures Newlines(before + Label(e) + [LF]) == Newlines(before) + Newlines(Label(e)) + 1
    ensures Newlines(Label(e)) == 0 <==> LF !in e.name
  {
    NewlinesAppend(before + Label(e), [LF]);
    NewlinesAppend(before, Label(e));
    NewlinesOf(Label(e));
    assert [LF][..0] == [];
    assert LF in Label(e) <==> LF in e.name;
  }

  /** A name with a newline makes a line more than there are entries. */
  lemma {:induction false} NewlinesRendered(es: seq<Entry>)
    ensures Newlines(Render(es)) >= |es|
    ensures Newlines(Render(es)) == |es| <==> forall e :: e in es ==> LF !in e.name
  {
    if es == [] {
    } else {
      var front, e := es[..|es| - 1], es[|es| - 1];
      NewlinesRendered(front);
      NewlinesOfLine(Render(front), e);
      assert es == front + [e];
    }
  }

  lemma OneLineEach(es: seq<Entry>)
    requires forall e :: e in es ==> LF !in e.name
    ensures ReadBack(Render(es)) == Some(es) <==> forall e :: e in es ==> Plain(e)
  {
    var lines := Labels(es) + [[]];
    RenderIsJoin(es);
    LabelsRead(es);
    SplitJoin(lines, LF);
    assert lines[..|lines| - 1] == Labels(es);
  }

  lemma ReadBackLength(body: Bytes)
    ensures ReadBack(body).Some? ==> |ReadBack(body).value| == Newlines(body)
  {
    var lines := Split(body, LF);
    NewlinesSplit(body);
    ReadLinesLength(lines[..|lines| - 1]);
  }

  /** Splitting a rendered listing on its lines recovers the entries, exactly if
      no name has a newline and no file's name ends like a directory's. */
  lemma RenderReadBack(es: seq<Entry>)
    ensures ReadBack(Render(es)) == Some(es) <==> forall e :: e in es ==> Plain(e)
  {
    NewlinesRendered(es);
    ReadBackLength(Render(es));
    if Newlines(Render(es)) == |es| {
      OneLineEach(es);
    }
  }

  /** A client reads back the sorted entries that policy let through exactly when
      none of their names holds a newline. */
  lemma ListingReadBack(r: Root, fs: Fs, dir: Ino, t: nat)
    requires forall name :: name in fs(dir).stream ==> SLASH !in name
    requires Generated(r, Frozen(fs), dir, t) != NOT_FOUND
    ensures var listed := Listed(r, fs, dir, fs(dir).stream);
            ReadBack(Generated(r, Frozen(fs), dir, t)) == Some(Sort(listed)) <==>
            forall e :: e in listed ==> LF !in e.name
  {
    var listed := Listed(r, fs, dir, fs(dir).stream);
    GeneratedIsBody(r, fs, dir, t);
    SortSorts(listed);
    ListedMembers(r, fs, dir, fs(dir).stream);
    RenderReadBack(Sort(listed));
    forall e ensures e in Sort(listed) <==> e in listed {
      assert e in multiset(Sort(listed)) <==> e in multiset(listed);
    }
    forall e | e in listed ensures Plain(e) <==> LF !in e.name {
      assert SLASH !in e.name;
    }
  }

  /** One file whose name holds a newline reads back as two. */
  lemma NewlineForgesEntry()
    ensures var es := [Entry([97, LF, 61, 62, 32, 98], false)];
            ReadBack(Render(es)) == Some([Entry([97], false), Entry([98], false)])
  {
    var forged := Entry([97, LF, 61, 62, 32, 98], false);
    var two := [Entry([97], false), Entry([98], false)];
    var one := [two[0]];
    assert two[..1] == one && one[..0] == [] && [forged][..0] == [];
    assert Render(one) == [61, 62, 32, 97, LF];
    assert Render(two) == [61, 62, 32, 97, LF, 61, 62, 32, 98, LF];
    assert Render([forged]) == Render(two);
    RenderReadBack(two);
  }
}
