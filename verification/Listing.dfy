/** Generated directory listings and their diagnosis (src/listing.rs). */
module Listing {
  import opened Wrappers
  import opened Bytes
  import opened Kernel
  import opened Root
  import opened Policy
  import Utf8

  const MAX_ENTRIES := 4096
  const MAX_BYTES := 256 * 1024
  const ARROW: Bytes := [61, 62, 32]  // "=> "

  // "document not found"
  const NOT_FOUND: Bytes :=
    [100, 111, 99, 117, 109, 101, 110, 116, 32, 110, 111, 116, 32, 102, 111, 117, 110, 100]

  /** `s` is the ASCII text `text`. */
  predicate Spells(s: Bytes, text: string)
  {
    |s| == |text| && forall i :: 0 <= i < |s| ==> s[i] as int == text[i] as int
  }

  /** The fixed texts, spelled out. */
  lemma Texts()
    ensures Spells(ARROW, "=> ") && Spells(INDEX, "index") && Spells(NOT_FOUND, "document not found")
  {
  }

  datatype Entry = Entry(name: Bytes, isDir: bool)

  datatype DirectoryResponse = IndexFile | GeneratedListing

  // ------------------------------------------------------- sorting entries

  /** Tuples order by name, then a file before a directory. */
  predicate EntryLe(a: Entry, b: Entry)
  {
    LexLe(a.name, b.name) && (a.name == b.name ==> a.isDir ==> b.isDir)
  }

  ghost predicate Below(e: Entry, es: seq<Entry>)
  {
    forall x :: x in es ==> EntryLe(e, x)
  }

  ghost predicate Sorted(es: seq<Entry>)
  {
    es == [] || (Below(es[0], es[1..]) && Sorted(es[1..]))
  }

  function Insert(e: Entry, es: seq<Entry>): seq<Entry>
  {
    if es == [] then [e]
    else if EntryLe(e, es[0]) then [e] + es
    else [es[0]] + Insert(e, es[1..])
  }

  function Sort(es: seq<Entry>): seq<Entry>
  {
    if es == [] then [] else Insert(es[0], Sort(es[1..]))
  }

  lemma EntryOrder(a: Entry, b: Entry)
    ensures EntryLe(a, b) || EntryLe(b, a)
    ensures EntryLe(a, b) && EntryLe(b, a) ==> a == b
  {
    LexTotal(a.name, b.name);
  }

  lemma EntryTransitive(a: Entry, b: Entry, c: Entry)
    requires EntryLe(a, b) && EntryLe(b, c)
    ensures EntryLe(a, c)
  {
    LexTransitive(a.name, b.name, c.name);
    LexTotal(a.name, b.name);
  }

  lemma {:induction false} InsertKeeps(e: Entry, es: seq<Entry>)
    ensures multiset(Insert(e, es)) == multiset(es) + multiset{e}
    ensures forall x :: x in Insert(e, es) <==> x == e || x in es
  {
    if es == [] {
    } else {
      assert es == [es[0]] + es[1..];
      InsertKeeps(e, es[1..]);
    }
  }

  lemma {:induction false} InsertSorts(e: Entry, es: seq<Entry>)
    requires Sorted(es)
    ensures Sorted(Insert(e, es))
  {
    if es == [] {
    } else {
      EntryOrder(e, es[0]);
      if EntryLe(e, es[0]) {
        forall x | x in es ensures EntryLe(e, x) {
          if x != es[0] {
            assert x in es[1..];
            EntryTransitive(e, es[0], x);
          }
        }
        assert ([e] + es)[1..] == es;
      } else {
        InsertSorts(e, es[1..]);
        InsertKeeps(e, es[1..]);
        assert ([es[0]] + Insert(e, es[1..]))[1..] == Insert(e, es[1..]);
      }
    }
  }

  lemma {:induction false} SortKeeps(es: seq<Entry>)
    ensures multiset(Sort(es)) == multiset(es)
  {
    if es == [] {
    } else {
      SortKeeps(es[1..]);
      InsertKeeps(es[0], Sort(es[1..]));
      assert es == [es[0]] + es[1..];
    }
  }

  lemma {:induction false} SortSorts(es: seq<Entry>)
    ensures Sorted(Sort(es)) && multiset(Sort(es)) == multiset(es)
    ensures |Sort(es)| == |es|
  {
    if es == [] {
    } else {
      SortSorts(es[1..]);
      InsertSorts(es[0], Sort(es[1..]));
    }
    SortKeeps(es);
    assert |multiset(Sort(es))| == |multiset(es)|;
  }

  lemma LeastIsFirst(a: seq<Entry>, b: seq<Entry>)
    requires a != [] && b != [] && Sorted(a) && Sorted(b)
    requires multiset(a) == multiset(b)
    ensures a[0] == b[0]
  {
    assert a[0] in multiset(b) && b[0] in multiset(a);
    EntryOrder(a[0], b[0]);
  }

  /** Only one order of a multiset of entries is sorted. */
  lemma {:induction false} SortedIsUnique(a: seq<Entry>, b: seq<Entry>)
    requires Sorted(a) && Sorted(b) && multiset(a) == multiset(b)
    ensures a == b
  {
    assert |a| == |multiset(a)| == |multiset(b)| == |b|;
    if a == [] {
    } else {
      LeastIsFirst(a, b);
      assert a == [a[0]] + a[1..] && b == [b[0]] + b[1..];
      assert multiset(a[1..]) == multiset(a) - multiset{a[0]};
      assert multiset(b[1..]) == multiset(b) - multiset{b[0]};
      SortedIsUnique(a[1..], b[1..]);
    }
  }

  lemma {:induction false} SortedAt(es: seq<Entry>, i: nat, j: nat)
    requires Sorted(es) && i < j < |es|
    ensures EntryLe(es[i], es[j])
  {
    if i == 0 {
      assert es[j] in es[1..];
    } else {
      SortedAt(es[1..], i - 1, j - 1);
    }
  }

  /** Sorted entries ascend byte by byte; of one name, the file is before the
      directory. */
  lemma SortAscends(es: seq<Entry>, i: nat, j: nat)
    requires i < j < |es|
    ensures |Sort(es)| == |es|
    ensures var a, b := Sort(es)[i], Sort(es)[j];
            || (a.name == b.name && !(a.isDir && !b.isDir))
            || a.name < b.name
            || exists k :: 0 <= k < |a.name| && k < |b.name| && a.name[..k] == b.name[..k] && a.name[k] < b.name[k]
  {
    SortSorts(es);
    SortedAt(Sort(es), i, j);
    LexExact(Sort(es)[i].name, Sort(es)[j].name);
  }

  // ------------------------------------------------------- sizes and bytes

  function EntrySize(e: Entry): nat
  {
    4 + |e.name| + if e.isDir then 1 else 0
  }

  function Label(e: Entry): Bytes
  {
    ARROW + e.name + if e.isDir then [SLASH] else []
  }

  function Total(es: seq<Entry>): nat
  {
    if es == [] then 0 else Total(es[..|es| - 1]) + EntrySize(es[|es| - 1])
  }

  function Render(es: seq<Entry>): Bytes
  {
    if es == [] then [] else Render(es[..|es| - 1]) + Label(es[|es| - 1]) + [LF]
  }

  /** The running count of `diagnose` is the length `generate` has reached. */
  lemma {:induction false} TotalIsLength(es: seq<Entry>)
    ensures Total(es) == |Render(es)|
  {
    if es == [] {
    } else {
      TotalIsLength(es[..|es| - 1]);
    }
  }

  lemma {:induction false} TotalMonotone(es: seq<Entry>, k: nat)
    requires k <= |es|
    ensures Total(es[..k]) <= Total(es)
    decreases |es|
  {
    if k < |es| {
      var front := es[..|es| - 1];
      TotalMonotone(front, k);
      assert front[..k] == es[..k];
    } else {
      assert es[..k] == es;
    }
  }

  lemma {:induction false} TotalRemove(es: seq<Entry>, k: nat)
    requires k < |es|
    ensures Total(es) == Total(es[..k] + es[k + 1..]) + EntrySize(es[k])
    decreases |es|
  {
    var rest := es[..k] + es[k + 1..];
    if k == |es| - 1 {
      assert rest == es[..|es| - 1];
    } else {
      var front := es[..|es| - 1];
      TotalRemove(front, k);
      assert rest[..|rest| - 1] == front[..k] + front[k + 1..];
    }
  }

  lemma RemoveOne<T>(s: seq<T>, k: nat)
    requires k < |s|
    ensures multiset(s[..k] + s[k + 1..]) == multiset(s) - multiset{s[k]}
  {
    assert s == s[..k] + [s[k]] + s[k + 1..];
  }

  lemma {:induction false} TotalPermutation(a: seq<Entry>, b: seq<Entry>)
    requires multiset(a) == multiset(b)
    ensures Total(a) == Total(b)
    decreases |a|
  {
    assert |a| == |multiset(a)| == |multiset(b)| == |b|;
    if a == [] {
    } else {
      var last := |a| - 1;
      var e := a[last];
      assert e in multiset(b);
      var k :| 0 <= k < |b| && b[k] == e;
      RemoveOne(a, last);
      RemoveOne(b, k);
      assert a[..last] + a[last + 1..] == a[..last];
      TotalPermutation(a[..last], b[..k] + b[k + 1..]);
      TotalRemove(b, k);
    }
  }

  // --------------------------------------------------- collecting entries

  type Classifier = (Bytes, nat) -> Timed<Option<Resolved>>

  /** The names that make it into a listing, in the order enumerated. */
  function Kept(classify: Classifier, names: seq<Bytes>, t: nat): Timed<seq<Entry>>
    decreases |names|
  {
    if names == [] then Timed([], t)
    else if names[0] != [] && names[0][0] == DOT then Kept(classify, names[1..], t)
    else
      var child := classify(names[0], t);
      var rest := Kept(classify, names[1..], child.t);
      if child.val.Some? && Utf8.Valid(names[0])
      then Timed([Entry(names[0], child.val.value.Dir?)] + rest.val, rest.t)
      else rest
  }

  /** Stops at the entry that would be one too many. */
  method CollectEntries(classify: Classifier, names: seq<Bytes>, t: nat) returns (r: Option<seq<Entry>>)
    ensures var kept := Kept(classify, names, t).val;
            r == if |kept| > MAX_ENTRIES then None else Some(Sort(kept))
  {
    var entries: seq<Entry> := [];
    var now := t;
    for i := 0 to |names|
      invariant Kept(classify, names, t).val == entries + Kept(classify, names[i..], now).val
      invariant |entries| <= MAX_ENTRIES
    {
      var name := names[i];
      assert names[i..][0] == name && names[i..][1..] == names[i + 1..];
      if name != [] && name[0] == DOT {
        continue;
      }
      var child := classify(name, now);
      now := child.t;
      if child.val.None? || !Utf8.Valid(name) {
        continue;
      }
      if |entries| >= MAX_ENTRIES {
        return None;
      }
      entries := entries + [Entry(name, child.val.value.Dir?)];
    }
    assert entries + [] == entries;
    r := Some(Sort(entries));
  }

  // ------------------------------------------------- generate and diagnose

  /** What a listing of these kept entries is: their sorted lines, or nothing at
      all when there are too many entries or too many bytes. */
  function Body(kept: seq<Entry>): Bytes
  {
    if |kept| > MAX_ENTRIES || Total(kept) > MAX_BYTES then NOT_FOUND else Render(Sort(kept))
  }

  function ServingClassifier(r: Root, w: World, dir: Ino): Classifier
  {
    (name: Bytes, t: nat) => ClassifyChild(r, w, dir, name, t)
  }

  function DiagnosticClassifier(r: Root, w: World, dir: Ino): Classifier
  {
    (name: Bytes, t: nat) => var c := ClassifyChildDiagnostic(r, w, dir, name, t); Timed(Accepted(c.val), c.t)
  }

  function Generated(r: Root, w: World, dir: Ino, t: nat): Bytes
  {
    var list := OpenListableDir(r, w, dir, t);
    match list.val
    case None => NOT_FOUND
    case Some(fd) => Body(Kept(ServingClassifier(r, w, fd), w(list.t)(fd).stream, list.t + 1).val)
  }

  /** Appends line by line, giving up before a line that would not fit. */
  method AppendLines(entries: seq<Entry>) returns (out: Bytes)
    ensures out == if Total(entries) > MAX_BYTES then NOT_FOUND else Render(entries)
  {
    out := [];
    for i := 0 to |entries|
      invariant out == Render(entries[..i])
      invariant Total(entries[..i]) <= MAX_BYTES
    {
      var e := entries[i];
      assert entries[..i + 1][..i] == entries[..i];
      TotalIsLength(entries[..i]);
      if |out| + EntrySize(e) > MAX_BYTES {
        TotalMonotone(entries, i + 1);
        return NOT_FOUND;
      }
      out := out + ARROW;
      out := out + e.name;
      if e.isDir {
        out := out + [SLASH];
      }
      out := out + [LF];
      assert out == Render(entries[..i]) + Label(e) + [LF];
    }
    assert entries[..|entries|] == entries;
  }

  method Generate(r: Root, w: World, dir: Ino, t: nat) returns (out: Bytes)
    ensures out == Generated(r, w, dir, t)
  {
    var list := OpenListableDir(r, w, dir, t);
    if list.val.None? {
      return NOT_FOUND;
    }
    var fd := list.val.value;
    ghost var kept := Kept(ServingClassifier(r, w, fd), w(list.t)(fd).stream, list.t + 1).val;
    var collected := CollectEntries(ServingClassifier(r, w, fd), w(list.t)(fd).stream, list.t + 1);
    if collected.None? {
      return NOT_FOUND;
    }
    SortSorts(kept);
    TotalPermutation(collected.value, kept);
    out := AppendLines(collected.value);
  }

  function Verdict(r: Root, w: World, dir: Ino, t: nat): Diagnosis<DirectoryResponse>
  {
    var index := ClassifyChildDiagnostic(r, w, dir, INDEX, t);
    if index.val.Ok? && index.val.value.File? then Ok(IndexFile)
    else
      var list := OpenListableDirDiagnostic(r, w, dir, index.t);
      match list.val
      case Err(reason) => Err(reason)
      case Ok(fd) =>
        var kept := Kept(DiagnosticClassifier(r, w, fd), w(list.t)(fd).stream, list.t + 1).val;
        if |kept| > MAX_ENTRIES then Err(ListingTooManyEntries)
        else if Total(kept) > MAX_BYTES then Err(ListingTooManyBytes)
        else Ok(GeneratedListing)
  }

  /** Adds up the sizes, giving up at the entry that exceeds the bound. */
  method CountBytes(entries: seq<Entry>) returns (fits: bool)
    ensures fits <==> Total(entries) <= MAX_BYTES
  {
    var renderedBytes := 0;
    for i := 0 to |entries|
      invariant renderedBytes == Total(entries[..i]) <= MAX_BYTES
    {
      assert entries[..i + 1][..i] == entries[..i];
      renderedBytes := renderedBytes + EntrySize(entries[i]);
      if renderedBytes > MAX_BYTES {
        TotalMonotone(entries, i + 1);
        return false;
      }
    }
    assert entries[..|entries|] == entries;
    fits := true;
  }

  method Diagnose(r: Root, w: World, dir: Ino, t: nat) returns (verdict: Diagnosis<DirectoryResponse>)
    ensures verdict == Verdict(r, w, dir, t)
  {
    var index := ClassifyChildDiagnostic(r, w, dir, INDEX, t);
    if index.val.Ok? && index.val.value.File? {
      return Ok(IndexFile);
    }
    var list := OpenListableDirDiagnostic(r, w, dir, index.t);
    if list.val.Err? {
      return Err(list.val.error);
    }
    var fd := list.val.value;
    ghost var kept := Kept(DiagnosticClassifier(r, w, fd), w(list.t)(fd).stream, list.t + 1).val;
    var collected := CollectEntries(DiagnosticClassifier(r, w, fd), w(list.t)(fd).stream, list.t + 1);
    if collected.None? {
      return Err(ListingTooManyEntries);
    }
    SortSorts(kept);
    TotalPermutation(collected.value, kept);
    var fits := CountBytes(collected.value);
    verdict := if fits then Ok(GeneratedListing) else Err(ListingTooManyBytes);
  }
}
