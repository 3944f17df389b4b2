/** Lexical parsing of a selector into normal path components (src/selector.rs). */
module Selector {
  import opened Wrappers
  import opened Bytes

  const MAX_SELECTOR_BYTES := 1024
  const HERE: Bytes := [DOT]
  const PARENT: Bytes := [DOT, DOT]

  datatype Request = Request(components: seq<Bytes>, dirOnly: bool)

  datatype SelectorReject = TooLong | Nul | DotfileComponent | EscapesRoot

  type Stack = seq<Bytes>

  function StripCr(s: Bytes): Bytes
  {
    if s != [] && s[|s| - 1] == CR then s[..|s| - 1] else s
  }

  predicate IsDotfile(p: Bytes)
  {
    p != [] && p[0] == DOT && p != HERE && p != PARENT
  }

  /** What a component of a request always is: never empty, `.`, `..` or hidden. */
  predicate IsName(p: Bytes)
  {
    p != [] && p[0] != DOT
  }

  function Apply(stack: Stack, part: Bytes): Result<Stack, SelectorReject>
  {
    if part == [] || part == HERE then Ok(stack)
    else if part == PARENT then
      if stack == [] then Err(EscapesRoot) else Ok(stack[..|stack| - 1])
    else if part[0] == DOT then Err(DotfileComponent)
    else Ok(stack + [part])
  }

  /** The stack after every part has been applied, or the first error. */
  function Fold(stack: Stack, parts: seq<Bytes>): Result<Stack, SelectorReject>
    decreases |parts|
  {
    if parts == [] then Ok(stack)
    else
      match Apply(stack, parts[0])
      case Err(e) => Err(e)
      case Ok(next) => Fold(next, parts[1..])
  }

  predicate EndsWithSlash(s: Bytes)
  {
    s != [] && s[|s| - 1] == SLASH
  }

  function Parse(selector: Bytes): Result<Request, SelectorReject>
  {
    var s := StripCr(selector);
    if |s| > MAX_SELECTOR_BYTES then Err(TooLong)
    else if NUL in s || CR in s then Err(Nul)
    else
      match Fold([], Split(s, SLASH))
      case Err(e) => Err(e)
      case Ok(components) => Ok(Request(components, EndsWithSlash(s)))
  }

  /** The loop of the source: one pass that pushes names and pops on `..`. */
  method ParseDiagnostic(selector: Bytes) returns (r: Result<Request, SelectorReject>)
    ensures r == Parse(selector)
  {
    var s := selector;
    if s != [] && s[|s| - 1] == CR {
      s := s[..|s| - 1];
    }
    if |s| > MAX_SELECTOR_BYTES {
      return Err(TooLong);
    }
    if NUL in s || CR in s {
      return Err(Nul);
    }
    var dirOnly := EndsWithSlash(s);
    var components: Stack := [];
    var parts := Split(s, SLASH);
    for i := 0 to |parts|
      invariant Fold([], parts) == Fold(components, parts[i..])
    {
      var raw := parts[i];
      assert parts[i..][0] == raw && parts[i..][1..] == parts[i + 1..];
      if raw == [] || raw == HERE {
      } else if raw == PARENT {
        if components == [] {
          return Err(EscapesRoot);
        }
        components := components[..|components| - 1];
      } else {
        if raw[0] == DOT {
          return Err(DotfileComponent);
        }
        components := components + [raw];
      }
    }
    r := Ok(Request(components, dirOnly));
  }

  // ---------------------------------------------------------------- the fold

  lemma {:induction false} FoldAppend(stack: Stack, a: seq<Bytes>, b: seq<Bytes>)
    ensures Fold(stack, a + b) == match Fold(stack, a)
                                  case Err(e) => Err(e)
                                  case Ok(next) => Fold(next, b)
    decreases |a|
  {
    if a == [] {
      assert a + b == b;
    } else {
      assert (a + b)[0] == a[0] && (a + b)[1..] == a[1..] + b;
      if Apply(stack, a[0]).Ok? {
        FoldAppend(Apply(stack, a[0]).value, a[1..], b);
      }
    }
  }

  lemma FoldLast(stack: Stack, parts: seq<Bytes>)
    requires parts != []
    ensures Fold(stack, parts) == match Fold(stack, parts[..|parts| - 1])
                                  case Err(e) => Err(e)
                                  case Ok(next) => Apply(next, parts[|parts| - 1])
  {
    var last := parts[|parts| - 1];
    assert parts == parts[..|parts| - 1] + [last];
    FoldAppend(stack, parts[..|parts| - 1], [last]);
    if Fold(stack, parts[..|parts| - 1]).Ok? {
      var next := Fold(stack, parts[..|parts| - 1]).value;
      assert Fold(next, [last]) == Apply(next, last);
    }
  }

  lemma {:induction false} FoldNames(stack: Stack, names: seq<Bytes>)
    requires forall p :: p in names ==> IsName(p)
    ensures Fold(stack, names) == Ok(stack + names)
    decreases |names|
  {
    if names == [] {
      assert stack + names == stack;
    } else {
      assert names[0] in names;
      assert forall p :: p in names[1..] ==> p in names;
      FoldNames(stack + [names[0]], names[1..]);
      assert stack + [names[0]] + names[1..] == stack + names;
    }
  }

  /** Everything left on the stack is a name taken from the parts. */
  lemma {:induction false} FoldKeepsNames(stack: Stack, parts: seq<Bytes>)
    requires forall p :: p in stack ==> IsName(p)
    requires Fold(stack, parts).Ok?
    ensures forall p :: p in Fold(stack, parts).value ==> IsName(p) && (p in stack || p in parts)
    decreases |parts|
  {
    if parts == [] {
    } else {
      var next := Apply(stack, parts[0]).value;
      assert forall p :: p in next ==> p in stack || p == parts[0];
      FoldKeepsNames(next, parts[1..]);
      assert forall p :: p in parts[1..] ==> p in parts;
    }
  }

  lemma {:induction false} FoldWeight(stack: Stack, parts: seq<Bytes>)
    requires Fold(stack, parts).Ok?
    ensures Weight(Fold(stack, parts).value) <= Weight(stack) + Weight(parts)
    decreases |parts|
  {
    if parts == [] {
    } else {
      var next := Apply(stack, parts[0]).value;
      assert parts == [parts[0]] + parts[1..];
      WeightFront(parts[0], parts[1..]);
      FoldWeight(next, parts[1..]);
      assert Weight(next) <= Weight(stack) + |parts[0]| + 1 by {
        if IsName(parts[0]) {
          assert next[..|next| - 1] == stack;
        }
      }
    }
  }

  // ------------------------------------------- an independent specification

  /** How much deeper one part takes the path. */
  function Delta(p: Bytes): int
  {
    if p == [] || p == HERE then 0 else if p == PARENT then -1 else 1
  }

  function Depth(parts: seq<Bytes>): int
  {
    if parts == [] then 0 else Depth(parts[..|parts| - 1]) + Delta(parts[|parts| - 1])
  }

  /** No hidden name, and never above the starting directory. */
  ghost predicate Clean(parts: seq<Bytes>)
  {
    && (forall p :: p in parts ==> !IsDotfile(p))
    && (forall k :: 0 <= k <= |parts| ==> Depth(parts[..k]) >= 0)
  }

  /** Reading from the right, the names no later `..` takes back. */
  function Survivors(parts: seq<Bytes>, skip: nat): seq<Bytes>
  {
    if parts == [] then []
    else
      var front, p := parts[..|parts| - 1], parts[|parts| - 1];
      if p == [] || p == HERE then Survivors(front, skip)
      else if p == PARENT then Survivors(front, skip + 1)
      else if skip > 0 then Survivors(front, skip - 1)
      else Survivors(front, 0) + [p]
  }

  lemma {:induction false} CleanFront(parts: seq<Bytes>)
    requires parts != []
    ensures Clean(parts) <==>
            && Clean(parts[..|parts| - 1])
            && !IsDotfile(parts[|parts| - 1])
            && Depth(parts) >= 0
  {
    var front := parts[..|parts| - 1];
    assert parts == front + [parts[|parts| - 1]];
    assert parts[..|parts|] == parts;
    assert forall k :: 0 <= k <= |front| ==> parts[..k] == front[..k];
    if Clean(parts) {
      forall k | 0 <= k <= |front| ensures Depth(front[..k]) >= 0 {
        assert Depth(parts[..k]) >= 0;
      }
    }
    if Clean(front) && Depth(parts) >= 0 {
      forall k | 0 <= k <= |parts| ensures Depth(parts[..k]) >= 0 {
        if k <= |front| {
          assert Depth(front[..k]) >= 0;
        }
      }
    }
  }

  /** The stack loop succeeds exactly on clean parts and computes the survivors. */
  lemma {:induction false} FoldExact(parts: seq<Bytes>)
    ensures Fold([], parts).Ok? <==> Clean(parts)
    ensures Fold([], parts).Ok? ==> |Fold([], parts).value| == Depth(parts)
    ensures Fold([], parts).Ok? ==> forall skip :: 0 <= skip <= Depth(parts) ==>
              Fold([], parts).value[..Depth(parts) - skip] == Survivors(parts, skip)
    decreases |parts|
  {
    if parts == [] {
    } else {
      var front, p := parts[..|parts| - 1], parts[|parts| - 1];
      FoldExact(front);
      FoldLast([], parts);
      CleanFront(parts);
      if Fold([], parts).Ok? {
        var below, here := Fold([], front).value, Fold([], parts).value;
        forall skip | 0 <= skip <= Depth(parts)
          ensures here[..Depth(parts) - skip] == Survivors(parts, skip)
        {
          if p == PARENT {
            assert here[..Depth(parts) - skip] == below[..Depth(front) - (skip + 1)];
          } else if IsName(p) {
            if skip > 0 {
              assert here[..Depth(parts) - skip] == below[..Depth(front) - (skip - 1)];
            } else {
              assert below[..Depth(front) - 0] == below;
              assert here[..Depth(parts)] == below + [p];
            }
          }
        }
      }
    }
  }

  /** Part `k` is where the left-to-right reading first goes wrong, with error `e`. */
  ghost predicate FailsAt(parts: seq<Bytes>, k: nat, e: SelectorReject)
  {
    && k < |parts|
    && Clean(parts[..k])
    && (|| (e == DotfileComponent && IsDotfile(parts[k]))
        || (e == EscapesRoot && parts[k] == PARENT && Depth(parts[..k]) == 0))
  }

  lemma {:induction false} FirstError(parts: seq<Bytes>, e: SelectorReject)
    ensures Fold([], parts) == Err(e) <==> exists k: nat :: FailsAt(parts, k, e)
    decreases |parts|
  {
    if parts == [] {
    } else {
      var last := |parts| - 1;
      var front := parts[..last];
      FirstError(front, e);
      FoldLast([], parts);
      FoldExact(front);
      if Fold([], parts) == Err(e) {
        if Fold([], front) == Err(e) {
          var k: nat :| FailsAt(front, k, e);
          assert parts[..k] == front[..k];
          assert FailsAt(parts, k, e);
        } else {
          assert FailsAt(parts, last, e);
        }
      }
      if k: nat :| FailsAt(parts, k, e) {
        if k < last {
          assert parts[..k] == front[..k];
          assert FailsAt(front, k, e);
        }
      }
    }
  }

  /** Parsing is exact: which selectors are accepted, what they mean, and which
      of several faults is the one reported. */
  lemma ParseExact(selector: Bytes)
    ensures var s := StripCr(selector);
            var parts := Split(s, SLASH);
            var legible := |s| <= MAX_SELECTOR_BYTES && NUL !in s && CR !in s;
            var r := Parse(selector);
            && (r == Err(TooLong) <==> |s| > MAX_SELECTOR_BYTES)
            && (r == Err(Nul) <==> |s| <= MAX_SELECTOR_BYTES && (NUL in s || CR in s))
            && (r == Err(DotfileComponent) <==>
                legible && exists k: nat :: FailsAt(parts, k, DotfileComponent))
            && (r == Err(EscapesRoot) <==>
                legible && exists k: nat :: FailsAt(parts, k, EscapesRoot))
            && (r.Ok? <==> legible && Clean(parts))
            && (r.Ok? ==> r.value == Request(Survivors(parts, 0), EndsWithSlash(s)))
  {
    var parts := Split(StripCr(selector), SLASH);
    FirstError(parts, TooLong);
    FirstError(parts, Nul);
    FirstError(parts, DotfileComponent);
    FirstError(parts, EscapesRoot);
    FoldExact(parts);
    if Clean(parts) {
      var components := Fold([], parts).value;
      assert components[..Depth(parts) - 0] == components;
    }
  }

  /** One CR at the end of a line is the client's line ending; any other CR, a
      second one at the end included, makes the selector unacceptable. */
  lemma CrAtEnd(s: Bytes)
    ensures CR !in s ==> Parse(s + [CR]) == Parse(s)
    ensures CR in s ==> !Parse(s + [CR]).Ok?
  {
    assert StripCr(s + [CR]) == s;
  }

  // ------------------------------------------------------- canonical printing

  /** A component as the resolver may rely on it. */
  predicate IsComponent(p: Bytes)
  {
    IsName(p) && SLASH !in p && NUL !in p && CR !in p
  }

  function PrintParts(r: Request): (parts: seq<Bytes>)
    ensures |parts| >= 1
  {
    if r.components == [] then (if r.dirOnly then [[], []] else [[]])
    else if r.dirOnly then r.components + [[]] else r.components
  }

  /** The shortest selector that asks for `r`. */
  function Print(r: Request): Bytes
  {
    Join(PrintParts(r), SLASH)
  }

  lemma {:induction false} JoinMembers(parts: seq<Bytes>, sep: byte)
    requires |parts| >= 1
    ensures forall x :: x in Join(parts, sep) ==> x == sep || exists p :: p in parts && x in p
  {
    if |parts| > 1 {
      JoinMembers(parts[1..], sep);
      forall x | x in Join(parts, sep) && x != sep
        ensures exists p :: p in parts && x in p
      {
        if x in parts[0] {
          assert parts[0] in parts;
        } else {
          assert x in Join(parts[1..], sep);
          var p :| p in parts[1..] && x in p;
          assert p in parts;
        }
      }
    } else {
      assert parts[0] in parts;
    }
  }

  lemma FoldPrintParts(r: Request)
    requires forall p :: p in r.components ==> IsComponent(p)
    ensures Fold([], PrintParts(r)) == Ok(r.components)
  {
    if r.components == [] {
      var blank: seq<Bytes> := [[], []];
      assert blank[1..] == [[]];
    } else {
      FoldNames([], r.components);
      assert [] + r.components == r.components;
      FoldAppend([], r.components, [[]]);
    }
  }

  /** The printed form holds no NUL or CR, and ends in a slash when it should. */
  lemma PrintLegible(r: Request)
    requires forall p :: p in r.components ==> IsComponent(p)
    ensures Split(Print(r), SLASH) == PrintParts(r)
    ensures NUL !in Print(r) && CR !in Print(r)
    ensures EndsWithSlash(Print(r)) == r.dirOnly
  {
    var parts := PrintParts(r);
    assert forall p :: p in parts ==> p == [] || p in r.components;
    SplitJoin(parts, SLASH);
    JoinMembers(parts, SLASH);
    SplitEnds(Print(r), SLASH);
    if r.components != [] && !r.dirOnly {
      assert parts[|parts| - 1] in r.components;
    }
  }

  /** Every well-formed request is what its own printed form parses to. */
  lemma ParsePrint(r: Request)
    requires forall p :: p in r.components ==> IsComponent(p)
    requires |Print(r)| <= MAX_SELECTOR_BYTES
    ensures Parse(Print(r)) == Ok(r)
  {
    PrintLegible(r);
    FoldPrintParts(r);
    assert StripCr(Print(r)) == Print(r);
  }

  lemma PrintNoLonger(s: Bytes, components: Stack)
    requires Fold([], Split(s, SLASH)) == Ok(components)
    ensures |Print(Request(components, EndsWithSlash(s)))| <= |s|
  {
    var parts := Split(s, SLASH);
    var r := Request(components, EndsWithSlash(s));
    SplitEnds(s, SLASH);
    JoinSplit(s, SLASH);
    JoinLength(parts, SLASH);
    JoinLength(PrintParts(r), SLASH);
    if r.dirOnly {
      var front := parts[..|parts| - 1];
      FoldLast([], parts);
      FoldWeight([], front);
      assert PrintParts(r)[..|PrintParts(r)| - 1] == if components == [] then [[]] else components;
      assert Weight([[]]) == 1;
    } else {
      FoldWeight([], parts);
      assert Weight([[]]) == 1;
    }
  }

  /** What parsing yields is canonical: safe components, and a printed form no
      longer than the input that parses back to the same request. */
  lemma ParseCanonical(selector: Bytes)
    requires Parse(selector).Ok?
    ensures var r := Parse(selector).value;
            && (forall p :: p in r.components ==> IsComponent(p))
            && |Print(r)| <= |selector|
            && Parse(Print(r)) == Ok(r)
  {
    var s := StripCr(selector);
    var parts := Split(s, SLASH);
    var r := Parse(selector).value;
    SplitPieces(s, SLASH);
    FoldKeepsNames([], parts);
    PrintNoLonger(s, r.components);
    ParsePrint(r);
  }
}
