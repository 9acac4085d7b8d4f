/** Chunked upload: `encode_kitty_data` and base64 (RFC 4648, section 4). */
module KittyUpload {
  import opened Wrappers
  import opened Bytes

  const CHUNK_BYTES: nat := 3072
  const PAD: Byte := 0x3D

  type Sextet = n: int | 0 <= n < 64

  /** The base64 alphabet as ASCII bytes. */
  function Letter(n: Sextet): Byte {
    if n < 26 then 0x41 + n
    else if n < 52 then 0x61 + (n - 26)
    else if n < 62 then 0x30 + (n - 52)
    else if n == 62 then 0x2B
    else 0x2F
  }

  function Value(c: Byte): Option<Sextet> {
    if 0x41 <= c <= 0x5A then Some(c - 0x41)
    else if 0x61 <= c <= 0x7A then Some(c - 0x61 + 26)
    else if IsDigit(c) then Some(c - 0x30 + 52)
    else if c == 0x2B then Some(62)
    else if c == 0x2F then Some(63)
    else None
  }

  function EncodeTriple(a: Byte, b: Byte, c: Byte): seq<Byte> {
    [Letter(a / 4), Letter((a % 4) * 16 + b / 16), Letter((b % 16) * 4 + c / 64), Letter(c % 64)]
  }

  function Encode(data: seq<Byte>): (r: seq<Byte>)
    ensures |r| == (|data| + 2) / 3 * 4
  {
    if |data| == 0 then []
    else if |data| == 1 then [Letter(data[0] / 4), Letter((data[0] % 4) * 16), PAD, PAD]
    else if |data| == 2 then
      [Letter(data[0] / 4), Letter((data[0] % 4) * 16 + data[1] / 16), Letter((data[1] % 16) * 4), PAD]
    else EncodeTriple(data[0], data[1], data[2]) + Encode(data[3..])
  }

  /** A strict decoder: padding only in the last group, unused bits zero. */
  function Decode(text: seq<Byte>): Option<seq<Byte>> {
    if text == [] then Some([])
    else if |text| < 4 then None
    else
      var group := DecodeGroup(text[0], text[1], text[2], text[3]);
      if group.None? || (|group.value| < 3 && |text| > 4) then None
      else
        var rest := Decode(text[4..]);
        if rest.None? then None else Some(group.value + rest.value)
  }

  function DecodeGroup(c0: Byte, c1: Byte, c2: Byte, c3: Byte): Option<seq<Byte>> {
    var v0, v1, v2, v3 := Value(c0), Value(c1), Value(c2), Value(c3);
    if v0.None? || v1.None? then None
    else
      var a := v0.value * 4 + v1.value / 16;
      if c2 == PAD && c3 == PAD then if v1.value % 16 == 0 then Some([a]) else None
      else if v2.None? then None
      else
        var b := (v1.value % 16) * 16 + v2.value / 4;
        if c3 == PAD then if v2.value % 4 == 0 then Some([a, b]) else None
        else if v3.None? then None
        else Some([a, b, (v2.value % 4) * 64 + v3.value])
  }

  lemma LetterValue(n: Sextet)
    ensures Value(Letter(n)) == Some(n) && Letter(n) != PAD
  {
  }

  lemma Split(q: nat, r: nat, d: nat)
    requires r < d && (d == 4 || d == 16 || d == 64)
    ensures (q * d + r) / d == q && (q * d + r) % d == r
  {
  }

  lemma TripleDecodes(a: Byte, b: Byte, c: Byte)
    ensures var t := EncodeTriple(a, b, c); DecodeGroup(t[0], t[1], t[2], t[3]) == Some([a, b, c])
  {
    var s0, s1, s2, s3 := a / 4, (a % 4) * 16 + b / 16, (b % 16) * 4 + c / 64, c % 64;
    hide Letter, Value, DecodeGroup;
    GroupDecodes(s0, s1, s2, s3);
    Split(a % 4, b / 16, 16);
    Split(b % 16, c / 64, 4);
    assert s0 * 4 + s1 / 16 == a;
    assert (s1 % 16) * 16 + s2 / 4 == b;
    assert (s2 % 4) * 64 + s3 == c;
  }

  lemma GroupDecodes(s0: Sextet, s1: Sextet, s2: Sextet, s3: Sextet)
    ensures DecodeGroup(Letter(s0), Letter(s1), Letter(s2), Letter(s3))
            == Some([s0 * 4 + s1 / 16, (s1 % 16) * 16 + s2 / 4, (s2 % 4) * 64 + s3])
  {
    hide Letter, Value;
    LetterValue(s0);
    LetterValue(s1);
    LetterValue(s2);
    LetterValue(s3);
  }

  lemma TailDecodes(data: seq<Byte>)
    requires 1 <= |data| <= 2
    ensures var e := Encode(data); |e| == 4 && DecodeGroup(e[0], e[1], e[2], e[3]) == Some(data)
  {
    hide Letter, Value;
    LetterValue(data[0] / 4);
    if |data| == 1 {
      LetterValue((data[0] % 4) * 16);
      Split(data[0] % 4, 0, 16);
      assert data == [data[0]];
    } else {
      LetterValue((data[0] % 4) * 16 + data[1] / 16);
      LetterValue((data[1] % 16) * 4);
      Split(data[0] % 4, data[1] / 16, 16);
      Split(data[1] % 16, 0, 4);
      assert data == [data[0], data[1]];
    }
  }

  lemma LastGroup(text: seq<Byte>, group: seq<Byte>)
    requires |text| == 4 && DecodeGroup(text[0], text[1], text[2], text[3]) == Some(group)
    ensures Decode(text) == Some(group)
  {
    hide DecodeGroup;
    assert text[4..] == [] && group + [] == group;
  }

  /** Decoding undoes encoding. */
  lemma {:induction false} DecodeEncode(data: seq<Byte>)
    ensures Decode(Encode(data)) == Some(data)
    decreases |data|
  {
    var e := Encode(data);
    if |data| == 0 {
    } else if |data| < 3 {
      TailDecodes(data);
      LastGroup(e, data);
    } else {
      TripleDecodes(data[0], data[1], data[2]);
      var t := EncodeTriple(data[0], data[1], data[2]);
      assert e[..4] == t && e[4..] == Encode(data[3..]);
      hide Encode, DecodeGroup, EncodeTriple;
      DecodeEncode(data[3..]);
      assert data == [data[0], data[1], data[2]] + data[3..];
    }
  }

  /** Encoded pieces join seamlessly where the cut is a multiple of three bytes. */
  lemma {:induction false} EncodeJoins(a: seq<Byte>, b: seq<Byte>)
    requires |a| % 3 == 0
    ensures Encode(a + b) == Encode(a) + Encode(b)
    decreases |a|
  {
    if a == [] {
      assert a + b == b;
    } else {
      assert (a + b)[3..] == a[3..] + b;
      EncodeJoins(a[3..], b);
    }
  }

  // --- Frames ---

  /** One APC frame: the first carries the control keys, all carry `m` and a payload. */
  datatype Frame = Frame(control: Option<string>, more: bool, payload: seq<Byte>)

  function Take(data: seq<Byte>): seq<Byte> {
    if |data| <= CHUNK_BYTES then data else data[..CHUNK_BYTES]
  }

  function Rest(data: seq<Byte>): seq<Byte> {
    if |data| <= CHUNK_BYTES then [] else data[CHUNK_BYTES..]
  }

  /** The frames that carry `data`; `control` goes on the first. */
  function Frames(control: Option<string>, data: seq<Byte>): (r: seq<Frame>)
    decreases |data|
  {
    if data == [] then []
    else [Frame(control, Rest(data) != [], Encode(Take(data)))] + Frames(None, Rest(data))
  }

  /** `encode_kitty_data`. Nothing is written for empty data. */
  method EncodeKittyData(control: string, data: seq<Byte>) returns (frames: seq<Frame>)
    ensures frames == Frames(Some(control), data)
  {
    hide Encode, Take;
    if data == [] {
      return [];
    }
    var rest := Rest(data);
    frames := [Frame(Some(control), rest != [], Encode(Take(data)))];
    while rest != []
      invariant Frames(Some(control), data) == frames + Frames(None, rest)
      decreases |rest|
    {
      frames := frames + [Frame(None, Rest(rest) != [], Encode(Take(rest)))];
      rest := Rest(rest);
    }
  }

  /** What a terminal does with the frames: read payloads up to the first frame with
      `m=0`, join them, decode once. The bytes and the frames left over. */
  function Receive(frames: seq<Frame>, pending: seq<Byte>): Option<(seq<Byte>, seq<Frame>)>
    decreases |frames|
  {
    if frames == [] then None
    else
      var text := pending + frames[0].payload;
      if frames[0].more then Receive(frames[1..], text)
      else if Decode(text).None? then None
      else Some((Decode(text).value, frames[1..]))
  }

  /** Payload sizes, the `m` flags and the control keys, frame by frame. */
  lemma {:induction false} FrameShape(control: Option<string>, data: seq<Byte>)
    ensures var f := Frames(control, data);
            && |f| == (|data| + CHUNK_BYTES - 1) / CHUNK_BYTES
            && (forall i :: 0 <= i < |f| ==> 0 < |f[i].payload| <= 4096)
            && (forall i :: 0 <= i < |f| ==> (f[i].more <==> i < |f| - 1))
            && (forall i :: 0 < i < |f| ==> f[i].control.None?)
            && (f != [] ==> f[0].control == control)
    decreases |data|
  {
    if data != [] {
      FrameShape(None, Rest(data));
      var f, g := Frames(control, data), Frames(None, Rest(data));
      assert forall i :: 0 < i < |f| ==> f[i] == g[i - 1];
    }
  }

  /** The terminal's view of the first frame. */
  lemma ReceiveFirst(control: Option<string>, before: seq<Byte>, data: seq<Byte>, tail: seq<Frame>)
    requires |before| % 3 == 0 && data != []
    ensures Receive(Frames(control, data) + tail, Encode(before))
            == if Rest(data) == [] then Some((before + data, tail))
               else Receive(Frames(None, Rest(data)) + tail, Encode(before + Take(data)))
  {
    var head := Frame(control, Rest(data) != [], Encode(Take(data)));
    var more := Frames(None, Rest(data));
    assert Frames(control, data) + tail == [head] + (more + tail);
    assert Rest(data) == [] ==> more + tail == tail;
    hide Frames, Receive, Encode, Decode;
    ReceiveStep(head, more + tail, Encode(before));
    EncodeJoins(before, Take(data));
    DecodeEncode(before + data);
  }

  lemma {:induction false} ReceiveFrames(control: Option<string>, before: seq<Byte>, data: seq<Byte>,
                                         tail: seq<Frame>)
    requires |before| % 3 == 0 && data != []
    ensures Receive(Frames(control, data) + tail, Encode(before)) == Some((before + data, tail))
    decreases |data|
  {
    ReceiveFirst(control, before, data, tail);
    TakeRest(before, data);
    hide Encode, Receive, Frames, Take, Rest;
    if Rest(data) != [] {
      ReceiveFrames(None, before + Take(data), Rest(data), tail);
    }
  }

  lemma TakeRest(before: seq<Byte>, data: seq<Byte>)
    requires |before| % 3 == 0 && data != []
    ensures before + Take(data) + Rest(data) == before + data
    ensures Rest(data) != [] ==> |before + Take(data)| % 3 == 0
    ensures |Rest(data)| < |data|
  {
  }

  lemma ReceiveStep(head: Frame, rest: seq<Frame>, pending: seq<Byte>)
    ensures Receive([head] + rest, pending)
            == if head.more then Receive(rest, pending + head.payload)
               else if Decode(pending + head.payload).None? then None
               else Some((Decode(pending + head.payload).value, rest))
  {
    assert ([head] + rest)[1..] == rest;
  }

  /** The terminal gets back exactly the bytes that were sent, and consumes exactly the
      frames of this upload, whatever frames follow. */
  lemma UploadReassembles(control: string, data: seq<Byte>, tail: seq<Frame>)
    requires data != []
    ensures Receive(Frames(Some(control), data) + tail, []) == Some((data, tail))
  {
    ReceiveFrames(Some(control), [], data, tail);
    assert [] + data == data;
  }

  function Payloads(frames: seq<Frame>): seq<Byte> {
    if frames == [] then [] else frames[0].payload + Payloads(frames[1..])
  }

  /** The payloads, joined, are the base64 text of the whole data: 3072 is a multiple of 3. */
  lemma {:induction false} PayloadsAreBase64(control: Option<string>, data: seq<Byte>)
    ensures Payloads(Frames(control, data)) == Encode(data)
    decreases |data|
  {
    if data != [] {
      var f := Frames(control, data);
      assert f[1..] == Frames(None, Rest(data));
      PayloadsAreBase64(None, Rest(data));
      if Rest(data) != [] {
        EncodeJoins(Take(data), Rest(data));
        assert Take(data) + Rest(data) == data;
      }
    }
  }
}
