/** Byte strings and the standard-library operations on them that the modelled code calls. */
module Bytes {
  newtype byte = b: int | 0 <= b < 256

  type bytes = seq<byte>

  const NL: byte := 10
  const CR: byte := 13

  /** The bytes of an ASCII literal. */
  function Ascii(s: string): (r: bytes)
    requires forall i :: 0 <= i < |s| ==> s[i] < 128 as char
    ensures |r| == |s| && forall i :: 0 <= i < |s| ==> r[i] as int == s[i] as int
  {
    seq(|s|, i requires 0 <= i < |s| => s[i] as int as byte)
  }

  /** `bytes.HasPrefix` */
  predicate HasPrefix(s: bytes, p: bytes) {
    |p| <= |s| && s[..|p|] == p
  }

  /** The UTF-8 encodings of the characters for which `unicode.IsSpace` holds. */
  predicate IsSpaceEncoding(e: bytes) {
    || (|e| == 1 && (9 <= e[0] <= 13 || e[0] == 32))
    || (|e| == 2 && e[0] == 0xC2 && (e[1] == 0x85 || e[1] == 0xA0))
    || (|e| == 3 && e[0] == 0xE1 && e[1] == 0x9A && e[2] == 0x80)
    || (|e| == 3 && e[0] == 0xE2 && e[1] == 0x80
        && (0x80 <= e[2] <= 0x8A || e[2] == 0xA8 || e[2] == 0xA9 || e[2] == 0xAF))
    || (|e| == 3 && e[0] == 0xE2 && e[1] == 0x81 && e[2] == 0x9F)
    || (|e| == 3 && e[0] == 0xE3 && e[1] == 0x80 && e[2] == 0x80)
  }

  /** The Unicode white space that `unicode.IsSpace` knows. */
  predicate WhiteSpace(c: int) {
    || c in {0x09, 0x0A, 0x0B, 0x0C, 0x0D, 0x20, 0x85, 0xA0, 0x1680, 0x2028, 0x2029, 0x202F, 0x205F, 0x3000}
    || 0x2000 <= c <= 0x200A
  }

  /** UTF-8 below the surrogates. */
  function Utf8(c: int): bytes
    requires 0 <= c < 0xD800
  {
    if c < 0x80 then [c as byte]
    else if c < 0x800 then [(0xC0 + c / 0x40) as byte, (0x80 + c % 0x40) as byte]
    else [(0xE0 + c / 0x1000) as byte, (0x80 + c / 0x40 % 0x40) as byte, (0x80 + c % 0x40) as byte]
  }

  function FromUtf8(e: bytes): int
    requires 1 <= |e| <= 3
  {
    if |e| == 1 then e[0] as int
    else if |e| == 2 then (e[0] as int - 0xC0) * 0x40 + (e[1] as int - 0x80)
    else (e[0] as int - 0xE0) * 0x1000 + (e[1] as int - 0x80) * 0x40 + (e[2] as int - 0x80)
  }

  /** The encodings are those of the white space characters. */
  lemma SpaceEncodings(e: bytes)
    ensures IsSpaceEncoding(e) <==> exists c :: 0 <= c < 0xD800 && WhiteSpace(c) && e == Utf8(c)
  {
    if IsSpaceEncoding(e) {
      SpaceDecodes(e);
      hide IsSpaceEncoding, WhiteSpace, Utf8, FromUtf8;
      var c := FromUtf8(e);
      assert WhiteSpace(c) && e == Utf8(c);
    }
    forall c | 0 <= c < 0xD800 && WhiteSpace(c) && e == Utf8(c) ensures IsSpaceEncoding(e) {
      SpaceEncodes(c);
    }
  }

  lemma SpaceDecodes(e: bytes)
    requires IsSpaceEncoding(e)
    ensures 1 <= |e| <= 3 && 0 <= FromUtf8(e) < 0xD800 && WhiteSpace(FromUtf8(e)) && e == Utf8(FromUtf8(e))
  {
  }

  lemma SpaceEncodes(c: int)
    requires 0 <= c < 0xD800 && WhiteSpace(c)
    ensures IsSpaceEncoding(Utf8(c))
  {
  }

  /** The width of the space that `s` starts with, or 0. */
  function LeadingSpace(s: bytes): (w: nat)
    ensures w <= |s|
  {
    if 1 <= |s| && IsSpaceEncoding(s[..1]) then 1
    else if 2 <= |s| && IsSpaceEncoding(s[..2]) then 2
    else if 3 <= |s| && IsSpaceEncoding(s[..3]) then 3
    else 0
  }

  /** The width of the space that `s` ends with, or 0. */
  function TrailingSpace(s: bytes): (w: nat)
    ensures w <= |s|
  {
    if 1 <= |s| && IsSpaceEncoding(s[|s| - 1..]) then 1
    else if 2 <= |s| && IsSpaceEncoding(s[|s| - 2..]) then 2
    else if 3 <= |s| && IsSpaceEncoding(s[|s| - 3..]) then 3
    else 0
  }

  lemma SuffixOfSuffix(s: bytes, w: nat, r: bytes)
    requires w + |r| <= |s| && r == s[w..][|s| - w - |r|..]
    ensures r == s[|s| - |r|..]
  {
  }

  function TrimLeft(s: bytes): (r: bytes)
    ensures LeadingSpace(r) == 0 && |r| <= |s| && r == s[|s| - |r|..]
    decreases |s|
  {
    var w := LeadingSpace(s);
    if w == 0 then s
    else
      var r := TrimLeft(s[w..]);
      SuffixOfSuffix(s, w, r);
      r
  }

  function TrimRight(s: bytes): (r: bytes)
    ensures TrailingSpace(r) == 0 && |r| <= |s| && r == s[..|r|]
    decreases |s|
  {
    if TrailingSpace(s) == 0 then s else TrimRight(s[..|s| - TrailingSpace(s)])
  }

  /** `bytes.TrimSpace` */
  function TrimSpace(s: bytes): bytes {
    TrimRight(TrimLeft(s))
  }

  predicate Trimmed(s: bytes) {
    LeadingSpace(s) == 0 && TrailingSpace(s) == 0
  }

  lemma LeadingSpaceOfPrefix(s: bytes, n: nat)
    requires n <= |s| && LeadingSpace(s) == 0
    ensures LeadingSpace(s[..n]) == 0
  {
    var r := s[..n];
    if 1 <= n { assert r[..1] == s[..1]; }
    if 2 <= n { assert r[..2] == s[..2]; }
    if 3 <= n { assert r[..3] == s[..3]; }
  }

  /** A trimmed text is what trimming leaves alone, and trimming always yields one: a piece of
      the text, so no longer and with no byte that was not there. */
  lemma TrimSpaceTrims(s: bytes)
    ensures Trimmed(TrimSpace(s))
    ensures Trimmed(s) ==> TrimSpace(s) == s
    ensures |TrimSpace(s)| <= |s| && forall b :: b in TrimSpace(s) ==> b in s
  {
    var l := TrimLeft(s);
    LeadingSpaceOfPrefix(l, |TrimRight(l)|);
  }

  function Concat(es: seq<bytes>): bytes {
    if es == [] then [] else es[0] + Concat(es[1..])
  }

  lemma {:induction false} ConcatSnoc(es: seq<bytes>, e: bytes)
    ensures Concat(es + [e]) == Concat(es) + e
  {
    if es == [] {
      assert es + [e] == [e] && Concat([]) == [];
    } else {
      ConcatSnoc(es[1..], e);
      assert (es + [e])[1..] == es[1..] + [e];
    }
  }

  ghost predicate Spaces(es: seq<bytes>) {
    forall i :: 0 <= i < |es| ==> IsSpaceEncoding(es[i])
  }

  lemma LeadingIs(s: bytes)
    ensures LeadingSpace(s) > 0 ==> IsSpaceEncoding(s[..LeadingSpace(s)])
    ensures TrailingSpace(s) > 0 ==> IsSpaceEncoding(s[|s| - TrailingSpace(s)..])
  {
    hide IsSpaceEncoding;
  }

  lemma {:induction false} TrimLeftMeans(s: bytes) returns (es: seq<bytes>)
    ensures Spaces(es) && s == Concat(es) + TrimLeft(s)
    decreases |s|
  {
    hide *;
    TrimLeftStep(s);
    var w := LeadingSpace(s);
    if w == 0 {
      es := NoSpaces(s);
    } else {
      var rest := TrimLeftMeans(s[w..]);
      es := OneMoreSpace(s[..w], rest, TrimLeft(s));
      assert s == s[..w] + s[w..];
    }
  }

  lemma TrimLeftStep(s: bytes)
    ensures LeadingSpace(s) <= |s| && TrimLeft(s) == if LeadingSpace(s) == 0 then s else TrimLeft(s[LeadingSpace(s)..])
    ensures LeadingSpace(s) > 0 ==> IsSpaceEncoding(s[..LeadingSpace(s)])
  {
    LeadingIs(s);
    hide LeadingSpace, IsSpaceEncoding;
  }

  lemma NoSpaces(s: bytes) returns (es: seq<bytes>)
    ensures Spaces(es) && s == Concat(es) + s
  {
    es := [];
    assert Concat(es) == [];
  }

  lemma OneMoreSpace(e: bytes, rest: seq<bytes>, t: bytes) returns (es: seq<bytes>)
    requires IsSpaceEncoding(e) && Spaces(rest)
    ensures Spaces(es) && Concat(es) + t == e + (Concat(rest) + t)
  {
    hide IsSpaceEncoding;
    es := [e] + rest;
    assert es[1..] == rest && Concat(es) == e + Concat(rest);
  }

  lemma {:induction false} TrimRightMeans(s: bytes) returns (es: seq<bytes>)
    ensures Spaces(es) && s == TrimRight(s) + Concat(es)
    decreases |s|
  {
    LeadingIs(s);
    hide TrailingSpace, IsSpaceEncoding;
    var w := |s| - TrailingSpace(s);
    es := [];
    if w < |s| {
      var rest := TrimRightMeans(s[..w]);
      es := rest + [s[w..]];
      ConcatSnoc(rest, s[w..]);
      assert s == s[..w] + s[w..];
    }
  }

  /** Trimming takes off white space characters at both ends, and nothing else. */
  lemma TrimSpaceMeans(s: bytes) returns (before: seq<bytes>, after: seq<bytes>)
    ensures Spaces(before) && Spaces(after) && s == Concat(before) + TrimSpace(s) + Concat(after)
  {
    hide TrimLeft, TrimRight, Concat, Spaces;
    before := TrimLeftMeans(s);
    after := TrimRightMeans(TrimLeft(s));
  }

  /** The position of the first newline, or the length. */
  function FirstNewline(s: bytes): (i: nat)
    ensures i <= |s| && (i < |s| ==> s[i] == NL) && forall j :: 0 <= j < i ==> s[j] != NL
  {
    if s == [] || s[0] == NL then 0 else 1 + FirstNewline(s[1..])
  }

  /** A line without its terminator. */
  predicate IsLine(s: bytes) {
    NL !in s
  }
}
