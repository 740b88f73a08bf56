/** Byte strings and the searches the input framer runs over them. */
module Bytes {
  import opened Options

  newtype byte = x: int | 0 <= x < 256

  type bytes = seq<byte>

  const ESC: byte := 0x1b
  const BEL: byte := 0x07
  const ST: bytes := [ESC, 0x5c]  // ESC \

  predicate IsDigit(x: byte) {
    0x30 <= x <= 0x39
  }

  /** Position of the first byte at or after `start` that satisfies `p`. */
  function FindFrom(s: bytes, start: nat, p: byte -> bool): (r: Option<nat>)
    ensures r.Some? ==> start <= r.value < |s| && p(s[r.value])
    ensures r.Some? ==> forall j | start <= j < r.value :: !p(s[j])
    ensures r.None? ==> forall j | start <= j < |s| :: !p(s[j])
    decreases |s| - start
  {
    if start >= |s| then None
    else if p(s[start]) then Some(start)
    else FindFrom(s, start + 1, p)
  }

  /** True when `needle` occurs in `s` at position `k`. */
  predicate OccursAt(s: bytes, needle: bytes, k: nat) {
    k + |needle| <= |s| && s[k..k + |needle|] == needle
  }

  /** Position of the first occurrence of `needle` at or after `start`. */
  function FindSubsequence(s: bytes, needle: bytes, start: nat): (r: Option<nat>)
    ensures r.Some? ==> start <= r.value && OccursAt(s, needle, r.value)
    ensures r.Some? ==> forall j: nat | start <= j < r.value :: !OccursAt(s, needle, j)
    ensures r.None? ==> forall j: nat | start <= j :: !OccursAt(s, needle, j)
    decreases |s| - start
  {
    if start + |needle| > |s| then None
    else if OccursAt(s, needle, start) then Some(start)
    else FindSubsequence(s, needle, start + 1)
  }

  /** A found byte stays the first one however the input goes on. */
  lemma FindFromExtends(s: bytes, x: bytes, start: nat, p: byte -> bool)
    requires FindFrom(s, start, p).Some?
    ensures FindFrom(s + x, start, p) == FindFrom(s, start, p)
  {
    var k := FindFrom(s, start, p).value;
    assert forall j | 0 <= j <= k :: (s + x)[j] == s[j];
  }

  /** A found occurrence stays the first one however the input goes on. */
  lemma FindSubsequenceExtends(s: bytes, x: bytes, needle: bytes, start: nat)
    requires FindSubsequence(s, needle, start).Some?
    ensures FindSubsequence(s + x, needle, start) == FindSubsequence(s, needle, start)
  {
    var k := FindSubsequence(s, needle, start).value;
    OccursAtExtends(s, x, needle, k);
    var r := FindSubsequence(s + x, needle, start);
    if r.Some? && r.value < k {
      OccursAtExtends(s, x, needle, r.value);
    }
  }

  lemma OccursAtExtends(s: bytes, x: bytes, needle: bytes, k: nat)
    requires k + |needle| <= |s|
    ensures OccursAt(s + x, needle, k) == OccursAt(s, needle, k)
  {
    assert (s + x)[k..k + |needle|] == s[k..k + |needle|];
  }

  /** Whether `s` starts with `p` is settled once `s` is as long as `p`. */
  lemma PrefixSettled(s: bytes, x: bytes, p: bytes)
    requires |p| <= |s|
    ensures p <= s + x <==> p <= s
  {
    assert (s + x)[..|p|] == s[..|p|];
  }

  lemma SliceExtends(s: bytes, x: bytes, n: nat)
    requires n <= |s|
    ensures (s + x)[n..] == s[n..] + x && (s + x)[..n] == s[..n]
  {
  }

  function Flatten(parts: seq<bytes>): bytes {
    if parts == [] then [] else parts[0] + Flatten(parts[1..])
  }

  lemma {:induction false} FlattenConcat(a: seq<bytes>, b: seq<bytes>)
    ensures Flatten(a + b) == Flatten(a) + Flatten(b)
  {
    if a == [] {
      assert a + b == b;
    } else {
      assert (a + b)[1..] == a[1..] + b;
      FlattenConcat(a[1..], b);
      assert Flatten(a + b) == a[0] + (Flatten(a[1..]) + Flatten(b));
    }
  }
}
