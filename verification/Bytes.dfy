/** Bytes and the two searches the framer is built from. */
module Bytes {
  import opened Wrappers

  type Byte = b: int | 0 <= b < 256

  const ESC: Byte := 0x1B

  predicate StartsWith(s: seq<Byte>, prefix: seq<Byte>) {
    prefix <= s
  }

  lemma NotPrefix(s: seq<Byte>, prefix: seq<Byte>, i: nat)
    requires i < |s| && i < |prefix| && s[i] != prefix[i]
    ensures !StartsWith(s, prefix)
  {
  }

  /** What a prefix of `s + x` and `s` have in common. */
  lemma ShortPrefix(s: seq<Byte>, x: seq<Byte>, prefix: seq<Byte>)
    requires |s| <= |prefix| && StartsWith(s + x, prefix)
    ensures s <= prefix
  {
    assert s == (s + x)[..|prefix|][..|s|];
  }

  predicate IsDigit(b: Byte) {
    0x30 <= b <= 0x39
  }

  /** The decimal parameter bytes of an SGR mouse report: digits and `;`. */
  predicate IsParameter(b: Byte) {
    IsDigit(b) || b == 0x3B
  }

  predicate All(s: seq<Byte>, p: Byte -> bool) {
    forall i :: 0 <= i < |s| ==> p(s[i])
  }

  /** The least index at or after `from` whose byte satisfies `p`. */
  function PositionFrom(s: seq<Byte>, p: Byte -> bool, from: nat): (r: Option<nat>)
    ensures r.Some? ==> from <= r.value < |s| && p(s[r.value])
    ensures r.Some? ==> forall j :: from <= j < r.value ==> !p(s[j])
    ensures r.None? ==> forall j :: from <= j < |s| ==> !p(s[j])
    decreases |s| - from
  {
    if from >= |s| then None
    else if p(s[from]) then Some(from)
    else PositionFrom(s, p, from + 1)
  }

  predicate OccursAt(s: seq<Byte>, needle: seq<Byte>, i: nat) {
    i + |needle| <= |s| && s[i..i + |needle|] == needle
  }

  /** The least index at or after `from` where `needle` occurs in full. */
  function FindFrom(s: seq<Byte>, needle: seq<Byte>, from: nat): (r: Option<nat>)
    ensures r.Some? ==> from <= r.value && OccursAt(s, needle, r.value)
    ensures r.Some? ==> forall j :: from <= j < r.value ==> !OccursAt(s, needle, j)
    ensures r.None? ==> forall j :: from <= j ==> !OccursAt(s, needle, j)
    decreases |s| - from
  {
    if from + |needle| > |s| then None
    else if OccursAt(s, needle, from) then Some(from)
    else FindFrom(s, needle, from + 1)
  }

  /** A first match does not move when bytes arrive behind it. */
  lemma PositionStable(s: seq<Byte>, x: seq<Byte>, p: Byte -> bool, from: nat)
    requires PositionFrom(s, p, from).Some?
    ensures PositionFrom(s + x, p, from) == PositionFrom(s, p, from)
  {
    var i := PositionFrom(s, p, from).value;
    assert forall j :: 0 <= j <= i ==> (s + x)[j] == s[j];
  }

  /** Bytes that do not match only shift the first match behind them. */
  lemma PositionShift(b: seq<Byte>, x: seq<Byte>, p: Byte -> bool)
    requires PositionFrom(b, p, 0).None?
    ensures var r := PositionFrom(x, p, 0);
            PositionFrom(b + x, p, 0) == if r.Some? then Some(|b| + r.value) else None
  {
    assert forall i :: 0 <= i < |b| ==> (b + x)[i] == b[i];
    assert forall i :: 0 <= i < |x| ==> (b + x)[|b| + i] == x[i];
    var w := PositionFrom(b + x, p, 0);
    if w.Some? {
      assert (b + x)[w.value] == x[w.value - |b|];
    }
  }

  lemma OccursStable(s: seq<Byte>, x: seq<Byte>, needle: seq<Byte>, i: nat)
    requires i + |needle| <= |s|
    ensures OccursAt(s + x, needle, i) == OccursAt(s, needle, i)
  {
    assert (s + x)[i..i + |needle|] == s[i..i + |needle|];
  }

  lemma FindStable(s: seq<Byte>, x: seq<Byte>, needle: seq<Byte>, from: nat)
    requires FindFrom(s, needle, from).Some?
    ensures FindFrom(s + x, needle, from) == FindFrom(s, needle, from)
  {
    var i := FindFrom(s, needle, from).value;
    OccursStable(s, x, needle, i);
    var k := FindFrom(s + x, needle, from);
    if k.value < i {
      OccursStable(s, x, needle, k.value);
    }
  }

  /** A match that lies inside a prefix is the match found in that prefix. */
  lemma FindLocal(s: seq<Byte>, n: nat, needle: seq<Byte>, from: nat)
    requires FindFrom(s, needle, from).Some?
    requires FindFrom(s, needle, from).value + |needle| <= n <= |s|
    ensures FindFrom(s[..n], needle, from) == FindFrom(s, needle, from)
  {
    assert s == s[..n] + s[n..];
    var i := FindFrom(s, needle, from).value;
    OccursStable(s[..n], s[n..], needle, i);
    FindStable(s[..n], s[n..], needle, from);
  }

  lemma PositionLocal(s: seq<Byte>, n: nat, p: Byte -> bool, from: nat)
    requires PositionFrom(s, p, from).Some?
    requires PositionFrom(s, p, from).value < n <= |s|
    ensures PositionFrom(s[..n], p, from) == PositionFrom(s, p, from)
  {
    assert s == s[..n] + s[n..];
    assert s[..n][PositionFrom(s, p, from).value] == s[PositionFrom(s, p, from).value];
    PositionStable(s[..n], s[n..], p, from);
  }

  /** The bytes of a list of chunks, in order. */
  function Concat(chunks: seq<seq<Byte>>): seq<Byte> {
    if chunks == [] then [] else chunks[0] + Concat(chunks[1..])
  }

  lemma Regroup<T>(a: seq<T>, b: seq<T>, c: seq<T>)
    ensures (a + b) + c == a + (b + c)
  {
  }

  lemma {:induction false} ConcatAppend(a: seq<seq<Byte>>, b: seq<seq<Byte>>)
    ensures Concat(a + b) == Concat(a) + Concat(b)
  {
    if a == [] {
      assert a + b == b;
    } else {
      assert (a + b)[1..] == a[1..] + b;
      ConcatAppend(a[1..], b);
    }
  }

  /** `x` is obtained from `y` by deleting bytes. */
  predicate Subsequence(x: seq<Byte>, y: seq<Byte>)
    decreases |y|
  {
    x == [] ||
    (y != [] && ((x[0] == y[0] && Subsequence(x[1..], y[1..])) || Subsequence(x, y[1..])))
  }

  lemma {:induction false} SubsequenceRefl(x: seq<Byte>)
    ensures Subsequence(x, x)
  {
    if x != [] {
      SubsequenceRefl(x[1..]);
    }
  }

  lemma {:induction false} SubsequenceAppend(x: seq<Byte>, y: seq<Byte>, z: seq<Byte>)
    requires Subsequence(x, y)
    ensures Subsequence(x + z, y + z)
    decreases |y|
  {
    if y == [] {
      assert x + z == z && y + z == z;
      SubsequenceRefl(z);
    } else {
      assert (y + z)[1..] == y[1..] + z;
      if x != [] && x[0] == y[0] && Subsequence(x[1..], y[1..]) {
        SubsequenceAppend(x[1..], y[1..], z);
        assert (x + z)[1..] == x[1..] + z;
      } else {
        SubsequenceAppend(x, y[1..], z);
      }
    }
  }

  lemma {:induction false} SubsequenceTrans(x: seq<Byte>, y: seq<Byte>, z: seq<Byte>)
    requires Subsequence(x, y) && Subsequence(y, z)
    ensures Subsequence(x, z)
    decreases |z|
  {
    if x != [] {
      if y[0] == z[0] && Subsequence(y[1..], z[1..]) {
        if x[0] == y[0] && Subsequence(x[1..], y[1..]) {
          SubsequenceTrans(x[1..], y[1..], z[1..]);
        } else {
          SubsequenceTrans(x, y[1..], z[1..]);
        }
      } else {
        SubsequenceTrans(x, y, z[1..]);
      }
    }
  }

  /** Deleting a contiguous stretch. */
  lemma {:induction false} SubsequenceCut(p: seq<Byte>, q: seq<Byte>, t: seq<Byte>)
    ensures Subsequence(p + t, p + q + t)
    decreases |p|, |q|
  {
    if p != [] {
      SubsequenceCut(p[1..], q, t);
      assert (p + t)[1..] == p[1..] + t;
      assert (p + q + t)[1..] == p[1..] + q + t;
    } else if q != [] {
      SubsequenceCut(p, q[1..], t);
      assert (p + q + t)[1..] == p + q[1..] + t;
    } else {
      assert p + q + t == p + t;
      SubsequenceRefl(p + t);
    }
  }
}
