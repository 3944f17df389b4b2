/** Byte strings: the characters the protocol gives a meaning to, splitting and
    joining on a separator, and the byte-wise order in which names are sorted. */
module Bytes {

  type byte = b: int | 0 <= b < 256

  type Bytes = seq<byte>

  const NUL: byte := 0
  const LF: byte := 10
  const CR: byte := 13
  const DOT: byte := 46
  const SLASH: byte := 47

  /** The pieces of `s` between separators; always at least one. */
  function Split(s: Bytes, sep: byte): (parts: seq<Bytes>)
    ensures |parts| >= 1
  {
    if s == [] then [[]]
    else
      var rest := Split(s[1..], sep);
      if s[0] == sep then [[]] + rest else [[s[0]] + rest[0]] + rest[1..]
  }

  function Join(parts: seq<Bytes>, sep: byte): Bytes
    requires |parts| >= 1
  {
    if |parts| == 1 then parts[0] else parts[0] + [sep] + Join(parts[1..], sep)
  }

  /** Bytes taken by `parts` when each is followed by one separator. */
  function Weight(parts: seq<Bytes>): nat
  {
    if parts == [] then 0 else Weight(parts[..|parts| - 1]) + |parts[|parts| - 1]| + 1
  }

  /** Byte-wise lexicographic order, a prefix first. */
  predicate LexLe(a: Bytes, b: Bytes)
  {
    a == [] || (b != [] && (a[0] < b[0] || (a[0] == b[0] && LexLe(a[1..], b[1..]))))
  }

  lemma {:induction false} SplitPieces(s: Bytes, sep: byte)
    ensures forall p :: p in Split(s, sep) ==> sep !in p && forall x :: x in p ==> x in s
  {
    if s == [] {
    } else {
      SplitPieces(s[1..], sep);
      var rest := Split(s[1..], sep);
      assert rest[0] in rest;
      assert forall p :: p in rest[1..] ==> p in rest;
    }
  }

  lemma {:induction false} JoinSplit(s: Bytes, sep: byte)
    ensures Join(Split(s, sep), sep) == s
  {
    if s == [] {
    } else {
      JoinSplit(s[1..], sep);
      var rest := Split(s[1..], sep);
      var parts := Split(s, sep);
      if s[0] == sep {
        assert parts[1..] == rest;
        calc {
          Join(parts, sep);
          [] + [sep] + Join(rest, sep);
          s;
        }
      } else {
        assert parts[1..] == rest[1..];
      }
    }
  }

  lemma {:induction false} SplitJoin(parts: seq<Bytes>, sep: byte)
    requires |parts| >= 1
    requires forall p :: p in parts ==> sep !in p
    ensures Split(Join(parts, sep), sep) == parts
    decreases |parts|, |parts[0]|
  {
    var p := parts[0];
    if p != [] {
      var shorter := [p[1..]] + parts[1..];
      assert p in parts;
      assert forall q :: q in parts[1..] ==> q in parts;
      SplitJoin(shorter, sep);
      assert shorter[1..] == parts[1..];
      assert p[0] != sep;
      assert Join(parts, sep) == [p[0]] + Join(shorter, sep);
      assert Join(parts, sep)[1..] == Join(shorter, sep);
      assert [p[0]] + p[1..] == p;
    } else if |parts| > 1 {
      SplitJoin(parts[1..], sep);
      assert Join(parts, sep) == [sep] + Join(parts[1..], sep);
      assert Join(parts, sep)[1..] == Join(parts[1..], sep);
    }
  }

  lemma {:induction false} WeightFront(p: Bytes, parts: seq<Bytes>)
    ensures Weight([p] + parts) == |p| + 1 + Weight(parts)
  {
    var all := [p] + parts;
    if parts == [] {
      assert all[..0] == [];
    } else {
      WeightFront(p, parts[..|parts| - 1]);
      assert all[..|all| - 1] == [p] + parts[..|parts| - 1];
    }
  }

  lemma {:induction false} JoinLength(parts: seq<Bytes>, sep: byte)
    requires |parts| >= 1
    ensures |Join(parts, sep)| + 1 == Weight(parts)
  {
    assert parts == [parts[0]] + parts[1..];
    WeightFront(parts[0], parts[1..]);
    if |parts| > 1 {
      JoinLength(parts[1..], sep);
    } else {
      assert parts[1..] == [];
    }
  }

  /** A trailing separator shows as an empty last piece. */
  lemma {:induction false} SplitEnds(s: Bytes, sep: byte)
    ensures s != [] && s[|s| - 1] == sep <==>
            |Split(s, sep)| > 1 && Split(s, sep)[|Split(s, sep)| - 1] == []
  {
    if s == [] {
    } else {
      SplitEnds(s[1..], sep);
      var rest := Split(s[1..], sep);
      if |s| == 1 {
        assert rest == [[]];
      } else if s[0] != sep && |rest| == 1 {
        assert Split(s, sep) == [[s[0]] + rest[0]];
        SplitOne(s[1..], sep);
      } else if s[0] == sep && |rest| == 1 {
        SplitOne(s[1..], sep);
        assert rest[0] != [];
      }
    }
  }

  lemma {:induction false} SplitOne(s: Bytes, sep: byte)
    requires |Split(s, sep)| == 1
    ensures sep !in s && Split(s, sep) == [s]
  {
    if s == [] {
    } else {
      SplitOne(s[1..], sep);
      assert s == [s[0]] + s[1..];
    }
  }

  lemma {:induction false} LexTotal(a: Bytes, b: Bytes)
    ensures LexLe(a, b) || LexLe(b, a)
    ensures LexLe(a, b) && LexLe(b, a) ==> a == b
  {
    if a != [] && b != [] && a[0] == b[0] {
      LexTotal(a[1..], b[1..]);
      assert a == [a[0]] + a[1..] && b == [b[0]] + b[1..];
    }
  }

  lemma {:induction false} LexTransitive(a: Bytes, b: Bytes, c: Bytes)
    requires LexLe(a, b) && LexLe(b, c)
    ensures LexLe(a, c)
  {
    if a != [] && a[0] == b[0] && b[0] == c[0] {
      LexTransitive(a[1..], b[1..], c[1..]);
    }
  }

  /** The strings agree up to `k`, where `a` has the smaller byte. */
  ghost predicate SmallerAt(a: Bytes, b: Bytes, k: nat)
  {
    k < |a| && k < |b| && a[..k] == b[..k] && a[k] < b[k]
  }

  lemma SmallerAtLater(a: Bytes, b: Bytes, k: nat)
    requires a != [] && b != [] && a[0] == b[0]
    ensures SmallerAt(a, b, k + 1) <==> SmallerAt(a[1..], b[1..], k)
  {
    if k < |a| - 1 && k < |b| - 1 {
      assert a[..k + 1] == [a[0]] + a[1..][..k] && b[..k + 1] == [b[0]] + b[1..][..k];
      assert a[..k + 1][1..] == a[1..][..k] && b[..k + 1][1..] == b[1..][..k];
    }
  }

  lemma SameHead(a: Bytes, b: Bytes)
    requires a != [] && b != [] && a[0] == b[0]
    ensures a <= b <==> a[1..] <= b[1..]
    ensures (exists k: nat :: SmallerAt(a, b, k)) <==> exists k: nat :: SmallerAt(a[1..], b[1..], k)
  {
    assert a == [a[0]] + a[1..] && b == [b[0]] + b[1..];
    if k: nat :| SmallerAt(a[1..], b[1..], k) {
      SmallerAtLater(a, b, k);
    }
    if k: nat :| SmallerAt(a, b, k) {
      SmallerAtLater(a, b, k - 1);
    }
  }

  lemma OtherHead(a: Bytes, b: Bytes)
    requires a != [] && b != [] && a[0] != b[0]
    ensures !(a <= b)
    ensures (exists k: nat :: SmallerAt(a, b, k)) <==> a[0] < b[0]
  {
    assert a[..0] == b[..0];
    assert a[0] < b[0] ==> SmallerAt(a, b, 0);
    forall k: nat | 0 < k ensures !SmallerAt(a, b, k) {
      if k <= |a| && k <= |b| {
        assert a[..k][0] == a[0] && b[..k][0] == b[0];
      }
    }
  }

  lemma {:induction false} LexIsSmaller(a: Bytes, b: Bytes)
    ensures LexLe(a, b) <==> a <= b || exists k: nat :: SmallerAt(a, b, k)
  {
    if a == [] || b == [] {
    } else if a[0] == b[0] {
      LexIsSmaller(a[1..], b[1..]);
      SameHead(a, b);
    } else {
      OtherHead(a, b);
    }
  }

  /** The order is the ascending one: a prefix first, else the smaller byte where
      the strings first differ. */
  lemma LexExact(a: Bytes, b: Bytes)
    ensures LexLe(a, b) <==>
            a <= b ||
            exists k :: 0 <= k < |a| && k < |b| && a[..k] == b[..k] && a[k] < b[k]
  {
    LexIsSmaller(a, b);
    forall k: nat ensures SmallerAt(a, b, k) <==> k < |a| && k < |b| && a[..k] == b[..k] && a[k] < b[k] {
    }
  }
}
