/** UTF-8 as RFC 3629, section 4, defines it, and the framer's own width rule. */
module Utf8 {
  import opened Wrappers
  import opened Bytes

  predicate IsTail(b: Byte) {
    0x80 <= b <= 0xBF
  }

  /** Second bytes allowed after a three- or four-byte lead. */
  predicate IsSecond(lead: Byte, b: Byte) {
    if lead == 0xE0 then 0xA0 <= b <= 0xBF
    else if lead == 0xED then 0x80 <= b <= 0x9F
    else if lead == 0xF0 then 0x90 <= b <= 0xBF
    else if lead == 0xF4 then 0x80 <= b <= 0x8F
    else IsTail(b)
  }

  /** Encoded length announced by a lead byte that RFC 3629 admits; 0 for any other byte. */
  function LeadLen(b: Byte): nat {
    if b < 0x80 then 1
    else if 0xC2 <= b <= 0xDF then 2
    else if 0xE0 <= b <= 0xEF then 3
    else if 0xF0 <= b <= 0xF4 then 4
    else 0
  }

  /** Whether every byte behind the lead is allowed where it stands. */
  predicate TailsFit(s: seq<Byte>)
    requires s != []
  {
    && (|s| > 1 ==> IsSecond(s[0], s[1]))
    && (|s| > 2 ==> IsTail(s[2]))
    && (|s| > 3 ==> IsTail(s[3]))
  }

  /** Length of the well-formed scalar that `s` starts with, or 0. */
  function ScalarLen(s: seq<Byte>): (n: nat)
    ensures n <= |s| && n <= 4
  {
    if s == [] || LeadLen(s[0]) == 0 || |s| < LeadLen(s[0]) || !TailsFit(s[..LeadLen(s[0])]) then 0
    else LeadLen(s[0])
  }

  /** `std::str::from_utf8(s).is_ok()`. */
  predicate Valid(s: seq<Byte>) {
    s == [] || (ScalarLen(s) > 0 && Valid(s[ScalarLen(s)..]))
  }

  /** The scalars of a valid text, each as its own byte string. */
  function Scalars(s: seq<Byte>): (r: seq<seq<Byte>>)
    requires Valid(s)
    ensures Concat(r) == s
  {
    if s == [] then []
    else
      assert s == s[..ScalarLen(s)] + s[ScalarLen(s)..];
      [s[..ScalarLen(s)]] + Scalars(s[ScalarLen(s)..])
  }

  /** A non-empty proper prefix of a well-formed scalar. */
  predicate IsIncompleteScalar(s: seq<Byte>) {
    s != [] && |s| < LeadLen(s[0]) && TailsFit(s)
  }

  /** `utf8_char_width`: the framer masks bits, so it also accepts the overlong
      leads C0, C1 and the out-of-range leads F5..F7. */
  function CharWidth(first: Byte): (w: Option<nat>)
    ensures w.Some? ==> 1 <= w.value <= 4
    ensures LeadLen(first) > 0 ==> w == Some(LeadLen(first))
  {
    if first < 0x80 then Some(1)
    else if 0xC0 <= first < 0xE0 then Some(2)
    else if 0xE0 <= first < 0xF0 then Some(3)
    else if 0xF0 <= first < 0xF8 then Some(4)
    else None
  }

  /** `first_complete_utf8_char_len`. */
  function FirstCharLen(s: seq<Byte>): (n: Option<nat>)
    ensures n.Some? ==> 1 <= n.value <= |s|
  {
    if s == [] then None
    else
      var w := CharWidth(s[0]);
      if w.None? || |s| < w.value || !Valid(s[..w.value]) then None else w
  }

  lemma ScalarLenStable(s: seq<Byte>, x: seq<Byte>)
    requires ScalarLen(s) > 0
    ensures ScalarLen(s + x) == ScalarLen(s)
  {
    assert (s + x)[..LeadLen(s[0])] == s[..LeadLen(s[0])];
  }

  lemma ScalarLenLocal(s: seq<Byte>)
    requires ScalarLen(s) > 0
    ensures ScalarLen(s[..ScalarLen(s)]) == ScalarLen(s)
    ensures Valid(s[..ScalarLen(s)])
  {
    var u := s[..ScalarLen(s)];
    assert u[..ScalarLen(s)] == u;
    assert u[ScalarLen(u)..] == [];
  }

  /** The framer's lenient width and the strict grammar meet in the validity check. */
  lemma FirstCharLenIsScalarLen(s: seq<Byte>)
    ensures FirstCharLen(s) == if ScalarLen(s) > 0 then Some(ScalarLen(s)) else None
  {
    if s != [] && CharWidth(s[0]).Some? && |s| >= CharWidth(s[0]).value {
      var w := CharWidth(s[0]).value;
      if ScalarLen(s) > 0 {
        ScalarLenLocal(s);
      }
      assert s[..w][..LeadLen(s[0])] == s[..LeadLen(s[0])] || LeadLen(s[0]) != w;
    }
  }

  /** A valid text that is cut somewhere leaves a complete scalar, nothing, or an
      incomplete scalar in front of the cut. */
  lemma CutText(w: seq<Byte>, rest: seq<Byte>)
    requires Valid(w + rest)
    ensures ScalarLen(w) > 0 ==> Valid(w[ScalarLen(w)..] + rest)
    ensures ScalarLen(w) > 0 ==>
              Scalars(w + rest) == [w[..ScalarLen(w)]] + Scalars(w[ScalarLen(w)..] + rest)
    ensures ScalarLen(w) == 0 && w != [] ==> IsIncompleteScalar(w)
  {
    if ScalarLen(w) > 0 {
      ScalarLenStable(w, rest);
      var n := ScalarLen(w);
      assert (w + rest)[n..] == w[n..] + rest;
      assert (w + rest)[..n] == w[..n];
    } else if w != [] {
      var t := w + rest;
      assert t[0] == w[0];
      var n := ScalarLen(t);
      assert n > 0 && n == LeadLen(w[0]);
      var m := if |w| < n then |w| else n;
      assert t[..m] == w[..m];
      assert forall i :: 0 <= i < |w| ==> t[..n][i] == w[i];
    }
  }

  /** An incomplete scalar is not valid text. */
  lemma IncompleteIsInvalid(s: seq<Byte>)
    requires IsIncompleteScalar(s)
    ensures !Valid(s) && ScalarLen(s) == 0
  {
  }
}
