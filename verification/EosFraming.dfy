/**
 The event stream of a Canon EOS camera, seen as one whole byte sequence.

 Each event starts with its own size as a 32-bit little-endian number; events follow
 each other without padding. This module is the reference that the windowed reader
 of module PtpDriver is proved against.
 */
module EosFraming {

  const BUFFER_SIZE: nat := 900
  const SIZE_FIELD: nat := 4

  type byte = b: int | 0 <= b < 256

  /** The number held by four little-endian bytes. */
  function Le32(s: seq<byte>): (n: nat)
    requires |s| == 4
  {
    (s[0] as int) + 0x100 * (s[1] as int) + 0x1_0000 * (s[2] as int) + 0x100_0000 * (s[3] as int)
  }

  /** One event: its size field says how long it is, it carries something beyond the
      size field and it fits the receive window. */
  predicate Framed(e: seq<byte>) {
    SIZE_FIELD < |e| <= BUFFER_SIZE && Le32(e[..4]) == |e|
  }

  /** The stream splits into framed events with nothing left over. */
  predicate WellFormed(s: seq<byte>)
    decreases |s|
  {
    s == [] ||
    (|s| >= 4 &&
     var n := Le32(s[..4]);
     SIZE_FIELD < n <= BUFFER_SIZE && n <= |s| && WellFormed(s[n..]))
  }

  /** The events of the stream, in order. */
  function Parse(s: seq<byte>): (es: seq<seq<byte>>)
    requires WellFormed(s)
    decreases |s|
  {
    if s == [] then []
    else
      var n := Le32(s[..4]);
      [s[..n]] + Parse(s[n..])
  }

  function Flatten(es: seq<seq<byte>>): (s: seq<byte>) {
    if es == [] then [] else es[0] + Flatten(es[1..])
  }

  /** Whatever list of framed events the camera sends back to back, parsing the
      concatenation gives that very list. */
  lemma {:induction false} ParseFlatten(es: seq<seq<byte>>)
    requires forall k :: 0 <= k < |es| ==> Framed(es[k])
    ensures WellFormed(Flatten(es))
    ensures Parse(Flatten(es)) == es
  {
    if es == [] {
    } else {
      ParseFlatten(es[1..]);
      var s, e := Flatten(es), es[0];
      assert s[..4] == e[..4];
      assert s[|e|..] == Flatten(es[1..]) && s[..|e|] == e;
    }
  }

  /** Parsing loses no byte, keeps the order and yields framed events only. */
  lemma {:induction false} FlattenParse(s: seq<byte>)
    requires WellFormed(s)
    ensures Flatten(Parse(s)) == s
    ensures forall k :: 0 <= k < |Parse(s)| ==> Framed(Parse(s)[k])
    decreases |s|
  {
    if s == [] {
    } else {
      var n := Le32(s[..4]);
      FlattenParse(s[n..]);
      assert s[..n][..4] == s[..4];
      assert Parse(s)[1..] == Parse(s[n..]);
    }
  }

  // Events as a camera sends them: the bytes themselves

  /** An event around a payload: its length in four bytes, the lowest first, then the payload. */
  function Message(payload: seq<byte>): (e: seq<byte>)
    requires |payload| + 4 < 0x1_0000
  {
    var n := |payload| + 4;
    [n % 256, n / 256 % 256, 0, 0] + payload
  }

  /** Payloads that carry something and fit the receive window. */
  predicate Sendable(payloads: seq<seq<byte>>) {
    forall k :: 0 <= k < |payloads| ==> 5 <= |payloads[k]| + 4 <= 900
  }

  /** The messages of all payloads. */
  function Messages(payloads: seq<seq<byte>>): (es: seq<seq<byte>>)
    requires Sendable(payloads)
    ensures |es| == |payloads| && forall k :: 0 <= k < |es| ==> es[k] == Message(payloads[k])
  {
    seq(|payloads|, k requires 0 <= k < |payloads| => Message(payloads[k]))
  }

  /** What travels over the wire: all messages back to back. */
  function Wire(payloads: seq<seq<byte>>): seq<byte>
    requires Sendable(payloads)
  {
    if payloads == [] then [] else Message(payloads[0]) + Wire(payloads[1..])
  }

  lemma MessageFramed(payload: seq<byte>)
    requires 5 <= |payload| + 4 <= 900
    ensures Framed(Message(payload))
  {
    var e := Message(payload);
    assert e[..4] == [e[0], e[1], e[2], e[3]];
  }

  lemma {:induction false} WireFlattens(payloads: seq<seq<byte>>)
    requires Sendable(payloads)
    ensures Wire(payloads) == Flatten(Messages(payloads))
  {
    if payloads != [] {
      WireFlattens(payloads[1..]);
      assert Messages(payloads)[1..] == Messages(payloads[1..]);
    }
  }

  /** Every wire stream is well formed, and its events are the messages sent, in order. */
  lemma WireParses(payloads: seq<seq<byte>>)
    requires Sendable(payloads)
    ensures WellFormed(Wire(payloads)) && Parse(Wire(payloads)) == Messages(payloads)
  {
    var es := Messages(payloads);
    forall k | 0 <= k < |es| ensures Framed(es[k]) { MessageFramed(payloads[k]); }
    WireFlattens(payloads);
    ParseFlatten(es);
  }
}
