/** Well-formed UTF-8 as defined by the grammar in section 4 of RFC 3629. */
module Utf8 {
  import opened Bytes

  predicate Tail(b: byte) { 0x80 <= b <= 0xBF }

  predicate Second(lead: byte, b: byte)
  {
    if lead == 0xE0 then 0xA0 <= b <= 0xBF
    else if lead == 0xED then 0x80 <= b <= 0x9F
    else if lead == 0xF0 then 0x90 <= b <= 0xBF
    else if lead == 0xF4 then 0x80 <= b <= 0x8F
    else Tail(b)
  }

  /** Bytes in the encoding a lead byte announces; 0 when it may not lead. */
  function Announced(lead: byte): nat
  {
    if lead <= 0x7F then 1
    else if 0xC2 <= lead <= 0xDF then 2
    else if 0xE0 <= lead <= 0xEF then 3
    else if 0xF0 <= lead <= 0xF4 then 4
    else 0
  }

  predicate StartsWell(s: Bytes)
    requires s != []
  {
    var n := Announced(s[0]);
    && 1 <= n <= |s|
    && (n >= 2 ==> Second(s[0], s[1]))
    && (n >= 3 ==> Tail(s[2]))
    && (n >= 4 ==> Tail(s[3]))
  }

  predicate Valid(s: Bytes)
    decreases |s|
  {
    s == [] || (StartsWell(s) && Valid(s[Announced(s[0])..]))
  }

  lemma DropAppend(a: Bytes, n: nat, b: Bytes)
    requires n <= |a|
    ensures (a + b)[n..] == a[n..] + b
  {
  }

  lemma Longer(a: Bytes, n: nat, rest: Bytes, b: Bytes)
    requires a != [] && StartsWell(a) && n == Announced(a[0]) && rest == a[n..]
    requires Valid(rest + b)
    ensures Valid(a + b)
  {
    DropAppend(a, n, b);
    assert StartsWell(a + b);
  }

  /** Encodings concatenate, so a path built from valid names is valid. */
  lemma {:induction false} Concatenation(a: Bytes, b: Bytes)
    requires Valid(a) && Valid(b)
    ensures Valid(a + b)
    decreases |a|
  {
    if a == [] {
      assert a + b == b;
    } else {
      var n := Announced(a[0]);
      var rest := a[n..];
      Concatenation(rest, b);
      Longer(a, n, rest, b);
    }
  }

  lemma {:induction false} JoinValid(parts: seq<Bytes>, sep: byte)
    requires |parts| >= 1 && sep <= 0x7F
    requires forall p :: p in parts ==> Valid(p)
    ensures Valid(Join(parts, sep))
  {
    assert parts[0] in parts;
    if |parts| > 1 {
      JoinValid(parts[1..], sep);
      assert [sep][1..] == [];
      assert Valid([sep]);
      Concatenation(parts[0], [sep]);
      Concatenation(parts[0] + [sep], Join(parts[1..], sep));
    }
  }

  // ------------------------------------------------- what the encodings are

  /** A Unicode scalar value: any code point but the surrogates. */
  predicate Scalar(cp: int)
  {
    0 <= cp <= 0x10FFFF && !(0xD800 <= cp <= 0xDFFF)
  }

  /** The encoding of section 3 of RFC 3629. */
  function Encode(cp: int): Bytes
    requires Scalar(cp)
  {
    if cp < 0x80 then [cp]
    else if cp < 0x800 then [0xC0 + cp / 0x40, 0x80 + cp % 0x40]
    else if cp < 0x1_0000 then [0xE0 + cp / 0x1000, 0x80 + cp / 0x40 % 0x40, 0x80 + cp % 0x40]
    else [0xF0 + cp / 0x4_0000, 0x80 + cp / 0x1000 % 0x40, 0x80 + cp / 0x40 % 0x40, 0x80 + cp % 0x40]
  }

  function EncodeAll(cps: seq<int>): Bytes
    requires forall cp :: cp in cps ==> Scalar(cp)
  {
    if cps == [] then [] else Encode(cps[0]) + EncodeAll(cps[1..])
  }

  lemma TwoBytes(x: int, y: int)
    requires 2 <= x < 0x20 && 0 <= y < 0x40
    ensures var cp := x * 0x40 + y; Scalar(cp) && Encode(cp) == [0xC0 + x, 0x80 + y]
  {
  }

  lemma ThreeBytes(x: int, y: int, z: int)
    requires 0 <= x < 0x10 && 0 <= y < 0x40 && 0 <= z < 0x40
    requires (x == 0 ==> y >= 0x20) && (x == 0xD ==> y < 0x20)
    ensures var cp := x * 0x1000 + y * 0x40 + z;
            Scalar(cp) && Encode(cp) == [0xE0 + x, 0x80 + y, 0x80 + z]
  {
    var cp := x * 0x1000 + y * 0x40 + z;
    assert cp / 0x1000 == x && cp / 0x40 == x * 0x40 + y;
  }

  lemma FourBytes(x: int, y: int, z: int, u: int)
    requires 0 <= x <= 4 && 0 <= y < 0x40 && 0 <= z < 0x40 && 0 <= u < 0x40
    requires (x == 0 ==> y >= 0x10) && (x == 4 ==> y < 0x10)
    ensures var cp := x * 0x4_0000 + y * 0x1000 + z * 0x40 + u;
            Scalar(cp) && Encode(cp) == [0xF0 + x, 0x80 + y, 0x80 + z, 0x80 + u]
  {
    var cp := x * 0x4_0000 + y * 0x1000 + z * 0x40 + u;
    assert cp / 0x4_0000 == x && cp / 0x1000 == x * 0x40 + y && cp / 0x40 == x * 0x1000 + y * 0x40 + z;
  }

  /** The code point that a well-formed start stands for. */
  lemma FirstDecoded(s: Bytes) returns (cp: int)
    requires s != [] && StartsWell(s)
    ensures Scalar(cp) && Encode(cp) == s[..Announced(s[0])]
  {
    var a: int := s[0];
    if a < 0x80 {
      cp := a;
    } else if a < 0xE0 {
      var b: int := s[1];
      cp := (a - 0xC0) * 0x40 + (b - 0x80);
      TwoBytes(a - 0xC0, b - 0x80);
    } else if a < 0xF0 {
      var b: int, c: int := s[1], s[2];
      cp := (a - 0xE0) * 0x1000 + (b - 0x80) * 0x40 + (c - 0x80);
      ThreeBytes(a - 0xE0, b - 0x80, c - 0x80);
    } else {
      var b: int, c: int, d: int := s[1], s[2], s[3];
      cp := (a - 0xF0) * 0x4_0000 + (b - 0x80) * 0x1000 + (c - 0x80) * 0x40 + (d - 0x80);
      FourBytes(a - 0xF0, b - 0x80, c - 0x80, d - 0x80);
    }
  }

  lemma EncodeThree(cp: int)
    requires Scalar(cp) && 0x800 <= cp < 0x1_0000
    ensures StartsWell(Encode(cp)) && |Encode(cp)| == Announced(Encode(cp)[0])
  {
    var x, y, z := cp / 0x1000, cp / 0x40 % 0x40, cp % 0x40;
    assert cp == x * 0x1000 + y * 0x40 + z;
  }

  lemma EncodeFour(cp: int)
    requires Scalar(cp) && 0x1_0000 <= cp
    ensures StartsWell(Encode(cp)) && |Encode(cp)| == Announced(Encode(cp)[0])
  {
    var x, y, z, u := cp / 0x4_0000, cp / 0x1000 % 0x40, cp / 0x40 % 0x40, cp % 0x40;
    assert cp == x * 0x4_0000 + y * 0x1000 + z * 0x40 + u;
  }

  lemma EncodeStartsWell(cp: int, rest: Bytes)
    requires Scalar(cp)
    ensures StartsWell(Encode(cp) + rest)
    ensures |Encode(cp)| == Announced(Encode(cp)[0])
  {
    if 0x1_0000 <= cp {
      EncodeFour(cp);
    } else if 0x800 <= cp {
      EncodeThree(cp);
    }
    StartsLonger(Encode(cp), rest);
  }

  lemma StartsLonger(a: Bytes, b: Bytes)
    requires a != [] && StartsWell(a)
    ensures StartsWell(a + b)
  {
  }

  lemma {:induction false} EncodedIsValid(cps: seq<int>)
    requires forall cp :: cp in cps ==> Scalar(cp)
    ensures Valid(EncodeAll(cps))
  {
    if cps == [] {
    } else {
      EncodedIsValid(cps[1..]);
      EncodeStartsWell(cps[0], EncodeAll(cps[1..]));
      assert EncodeAll(cps)[|Encode(cps[0])|..] == EncodeAll(cps[1..]);
    }
  }

  lemma EncodeMore(s: Bytes, n: nat, rest: seq<int>) returns (cps: seq<int>)
    requires s != [] && StartsWell(s) && n == Announced(s[0])
    requires (forall x :: x in rest ==> Scalar(x)) && EncodeAll(rest) == s[n..]
    ensures (forall x :: x in cps ==> Scalar(x)) && EncodeAll(cps) == s
  {
    var cp := FirstDecoded(s);
    cps := [cp] + rest;
    assert cps[1..] == rest;
    assert s == s[..n] + s[n..];
  }

  lemma {:induction false} ValidIsEncoded(s: Bytes) returns (cps: seq<int>)
    requires Valid(s)
    ensures forall cp :: cp in cps ==> Scalar(cp)
    ensures EncodeAll(cps) == s
    decreases |s|
  {
    if s == [] {
      cps := [];
    } else {
      var n := Announced(s[0]);
      var rest := ValidIsEncoded(s[n..]);
      cps := EncodeMore(s, n, rest);
    }
  }

  /** Well-formed is what encodes some sequence of scalar values. */
  lemma ValidExactly(s: Bytes)
    ensures Valid(s) <==>
            exists cps: seq<int> :: (forall cp :: cp in cps ==> Scalar(cp)) && EncodeAll(cps) == s
  {
    if Valid(s) {
      var cps := ValidIsEncoded(s);
    }
    if cps: seq<int> :| (forall cp :: cp in cps ==> Scalar(cp)) && EncodeAll(cps) == s {
      EncodedIsValid(cps);
    }
  }

  /** An ASCII byte at the end is a character of its own. */
  lemma {:induction false} ValidBefore(a: Bytes, b: byte)
    requires b <= 0x7F
    ensures Valid(a + [b]) <==> Valid(a)
    decreases |a|
  {
    if a == [] {
      assert a + [b] == [b] && [b][1..] == [];
    } else {
      var n := Announced(a[0]);
      assert (a + [b])[0] == a[0];
      if 1 <= n <= |a| {
        assert (a + [b])[n..] == a[n..] + [b];
        ValidBefore(a[n..], b);
        assert StartsWell(a + [b]) <==> StartsWell(a);
      } else if n == |a| + 1 {
        assert (a + [b])[n - 1] == b;
      }
    }
  }
}
