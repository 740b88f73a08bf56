/**
 UTF-8 as RFC 3629, section 4, defines it, and the two questions the framer asks
 about a byte string: is it valid text, and is it the beginning of one scalar
 whose remaining bytes have not arrived yet.
 */
module Utf8 {
  import opened Bytes

  predicate IsContinuation(x: byte) {
    0x80 <= x <= 0xbf
  }

  /** Encoded length announced by a legal first byte, 0 for a byte that starts nothing. */
  function LeadWidth(first: byte): nat {
    if first < 0x80 then 1
    else if 0xc2 <= first <= 0xdf then 2
    else if 0xe0 <= first <= 0xef then 3
    else if 0xf0 <= first <= 0xf4 then 4
    else 0
  }

  /** Legal second bytes: no overlong forms, no surrogates, nothing above U+10FFFF. */
  predicate IsSecond(first: byte, second: byte) {
    && IsContinuation(second)
    && (first == 0xe0 ==> 0xa0 <= second)
    && (first == 0xed ==> second <= 0x9f)
    && (first == 0xf0 ==> 0x90 <= second)
    && (first == 0xf4 ==> second <= 0x8f)
  }

  /** A non-empty prefix, possibly all, of one encoded scalar. */
  predicate IsScalarPrefix(s: bytes) {
    && 1 <= |s| <= LeadWidth(s[0])
    && (2 <= |s| ==> IsSecond(s[0], s[1]))
    && (3 <= |s| ==> IsContinuation(s[2]))
    && (4 <= |s| ==> IsContinuation(s[3]))
  }

  /** Exactly one encoded scalar. */
  predicate IsScalar(s: bytes) {
    IsScalarPrefix(s) && |s| == LeadWidth(s[0])
  }

  /** The beginning of a scalar that needs more bytes: a decoding error at offset 0 with no error length. */
  predicate IsIncompleteScalar(s: bytes) {
    IsScalarPrefix(s) && |s| < LeadWidth(s[0])
  }

  predicate IsValid(s: bytes) {
    s == [] ||
    (var w := LeadWidth(s[0]);
     0 < w <= |s| && IsScalar(s[..w]) && IsValid(s[w..]))
  }

  /** The looser width rule the framer reads off a first byte, 0 for none. */
  function CharWidth(first: byte): nat {
    if first < 0x80 then 1
    else if 0xc0 <= first < 0xe0 then 2
    else if 0xe0 <= first < 0xf0 then 3
    else if 0xf0 <= first < 0xf8 then 4
    else 0
  }

  /** The table-driven test is the semantic one: some non-empty continuation completes a scalar. */
  lemma IncompleteMeansExtendable(s: bytes)
    ensures IsIncompleteScalar(s) <==> s != [] && exists t: bytes :: t != [] && IsScalar(s + t)
  {
    if IsIncompleteScalar(s) {
      var w := LeadWidth(s[0]);
      var second: byte :=
        if s[0] == 0xe0 then 0xa0 else if s[0] == 0xf0 then 0x90 else 0x80;
      var t: bytes := (if |s| == 1 then [second, 0x80, 0x80] else [0x80, 0x80])[..w - |s|];
      assert forall i | |s| <= i < |s + t| :: (s + t)[i] == t[i - |s|];
      assert forall i | |s| <= i < w && 2 <= i :: (s + t)[i] == 0x80;
      assert IsScalar(s + t);
    }
    if s != [] && exists t: bytes :: t != [] && IsScalar(s + t) {
      var t: bytes :| t != [] && IsScalar(s + t);
      var full := s + t;
      assert forall i | 0 <= i < |s| :: full[i] == s[i];
    }
  }

  /** A scalar is valid text, and a strict prefix of one never is. */
  lemma ScalarIsValid(s: bytes)
    requires IsScalarPrefix(s)
    ensures IsValid(s) <==> IsScalar(s)
  {
    var w := LeadWidth(s[0]);
    if w == |s| {
      assert s[..w] == s;
      assert s[w..] == [];
    }
  }

  /** The encoded scalars of a valid text. */
  function Scalars(s: bytes): (scalars: seq<bytes>)
    requires IsValid(s)
    ensures Flatten(scalars) == s
    ensures forall c | c in scalars :: IsScalar(c)
  {
    if s == [] then []
    else
      var w := LeadWidth(s[0]);
      assert s == s[..w] + s[w..];
      [s[..w]] + Scalars(s[w..])
  }
}
