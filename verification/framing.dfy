/** The framing of messages from the action process to the window: four hex digits, then the body. */
module Framing {
  import opened Wrappers

  const MESSAGE_LIMIT := 0xffff

  function HexDigit(n: nat): char
    requires n < 16
  {
    if n < 10 then '0' + n as char else 'a' + (n - 10) as char
  }

  function HexValue(c: char): Option<nat> {
    if '0' <= c <= '9' then Some((c - '0') as nat)
    else if 'a' <= c <= 'f' then Some(10 + (c - 'a') as nat)
    else if 'A' <= c <= 'F' then Some(10 + (c - 'A') as nat)
    else None
  }

  /** `%04x` of a length below 0x10000. */
  function Hex4(n: nat): string
    requires n < 0x10000
  {
    [HexDigit(n / 0x1000), HexDigit(n / 0x100 % 16), HexDigit(n / 0x10 % 16), HexDigit(n % 16)]
  }

  /** `strtol` in base 16: the value of the hex digits at the front. */
  function Strtol(s: string, acc: nat): nat
    decreases |s|
  {
    if s == [] || HexValue(s[0]) == None then acc
    else Strtol(s[1..], 16 * acc + HexValue(s[0]).value)
  }

  lemma DigitRoundTrip(n: nat)
    requires n < 16
    ensures HexValue(HexDigit(n)) == Some(n)
  {
  }

  /** The digits are those of `%x`; read back, their case makes no difference. */
  lemma DigitsOfHex(n: nat, c: char)
    requires n < 16
    ensures HexDigit(n) == "0123456789abcdef"[n]
    ensures HexValue(c) == Some(n) <==> c == "0123456789abcdef"[n] || c == "0123456789ABCDEF"[n]
  {
    var lower, upper := "0123456789abcdef", "0123456789ABCDEF";
    assert forall k :: 0 <= k < 10 ==> lower[k] == upper[k] == '0' + k as char;
    assert forall k :: 10 <= k < 16 ==> lower[k] == 'a' + (k - 10) as char && upper[k] == 'A' + (k - 10) as char;
  }

  lemma StrtolDigit(n: nat, rest: string, acc: nat)
    requires n < 16
    ensures Strtol([HexDigit(n)] + rest, acc) == Strtol(rest, 16 * acc + n)
  {
    DigitRoundTrip(n);
    assert ([HexDigit(n)] + rest)[1..] == rest;
  }

  lemma StrtolFour(a: nat, b: nat, c: nat, d: nat)
    requires a < 16 && b < 16 && c < 16 && d < 16
    ensures Strtol([HexDigit(a), HexDigit(b), HexDigit(c), HexDigit(d)], 0) == 16 * (16 * (16 * a + b) + c) + d
  {
    var w, z: string := [HexDigit(d)], [];
    var x, y := [HexDigit(b)] + ([HexDigit(c)] + w), [HexDigit(c)] + w;
    assert [HexDigit(a), HexDigit(b), HexDigit(c), HexDigit(d)] == [HexDigit(a)] + x;
    StrtolDigit(a, x, 0);
    StrtolDigit(b, y, a);
    StrtolDigit(c, w, 16 * a + b);
    assert w == w + z;
    StrtolDigit(d, z, 16 * (16 * a + b) + c);
  }

  lemma DigitsOf(n: nat)
    requires n < 0x10000
    ensures n / 0x1000 < 16
    ensures n == 16 * (16 * (16 * (n / 0x1000) + n / 0x100 % 16) + n / 0x10 % 16) + n % 16
  {
  }

  lemma Hex4RoundTrip(n: nat)
    requires n < 0x10000
    ensures |Hex4(n)| == 4 && Strtol(Hex4(n), 0) == n
  {
    DigitsOf(n);
    StrtolFour(n / 0x1000, n / 0x100 % 16, n / 0x10 % 16, n % 16);
  }

  function Encoded(message: string): string
    requires |message| < MESSAGE_LIMIT
  {
    Hex4(|message|) + message
  }

  predicate Sendable(messages: seq<string>) {
    forall m :: m in messages ==> |m| < MESSAGE_LIMIT
  }

  function Stream(messages: seq<string>): string
    requires Sendable(messages)
  {
    if messages == [] then [] else Encoded(messages[0]) + Stream(messages[1..])
  }

  /** The messages a reader gets out of what arrived, up to the first thing that is not one. */
  function Decoded(data: string): (messages: seq<string>)
    decreases |data|
  {
    if |data| < 4 then []
    else
      var len := Strtol(data[..4], 0);
      if len == 0 || |data| < 4 + len then []
      else [data[4..4 + len]] + Decoded(data[4 + len..])
  }

  function UntilEmpty(messages: seq<string>): seq<string> {
    if messages == [] || messages[0] == "" then [] else [messages[0]] + UntilEmpty(messages[1..])
  }

  /** What is sent arrives, in order, up to the first empty message, which ends the conversation. */
  lemma {:induction false} StreamDecoded(messages: seq<string>)
    requires Sendable(messages)
    ensures Decoded(Stream(messages)) == UntilEmpty(messages)
  {
    if messages != [] {
      var m, rest := messages[0], Stream(messages[1..]);
      var data := Stream(messages);
      assert data == Hex4(|m|) + m + rest;
      Hex4RoundTrip(|m|);
      assert data[..4] == Hex4(|m|);
      if m != "" {
        assert data[4..4 + |m|] == m;
        assert data[4 + |m|..] == rest;
        StreamDecoded(messages[1..]);
      }
    }
  }

  lemma {:induction false} NothingCutOff(messages: seq<string>)
    ensures UntilEmpty(messages) == messages <==> forall m :: m in messages ==> m != ""
  {
    if messages != [] {
      NothingCutOff(messages[1..]);
      assert messages == [messages[0]] + messages[1..];
      assert messages[0] in messages && forall m :: m in messages[1..] ==> m in messages;
      if messages[0] != "" {
        assert UntilEmpty(messages)[1..] == UntilEmpty(messages[1..]);
      }
    }
  }

  /** The round trip holds exactly when no message is empty. */
  lemma RoundTrip(messages: seq<string>)
    requires Sendable(messages)
    ensures Decoded(Stream(messages)) == messages <==> forall m :: m in messages ==> m != ""
  {
    StreamDecoded(messages);
    NothingCutOff(messages);
  }

  lemma {:induction false} StreamAppend(messages: seq<string>, m: string)
    requires Sendable(messages + [m])
    ensures Sendable(messages) && Stream(messages + [m]) == Stream(messages) + Encoded(m)
  {
    hide Encoded;
    var all := messages + [m];
    SendableFront(messages, m);
    if messages == [] {
      assert all == [m] && all[1..] == [];
    } else {
      assert all[0] == messages[0] && all[1..] == messages[1..] + [m];
      StreamAppend(messages[1..], m);
      assert Stream(messages) == Encoded(messages[0]) + Stream(messages[1..]);
    }
    assert Stream(all) == Encoded(all[0]) + Stream(all[1..]);
  }

  lemma SendableFront(messages: seq<string>, m: string)
    requires Sendable(messages + [m])
    ensures Sendable(messages) && |m| < MESSAGE_LIMIT
  {
    assert m in messages + [m] && forall x :: x in messages ==> x in messages + [m];
  }

  /** A pipe; a read takes as much as happens to have arrived. */
  class Pipe {
    var data: string
    /** A read may report an error at any moment. */
    const faulty: bool
    /** What has been sent so far, on the writer's side. */
    ghost var sent: seq<string>

    constructor (faulty: bool)
      ensures data == "" && sent == [] && this.faulty == faulty
    {
      this.faulty := faulty;
      data, sent := "", [];
    }

    method SendMsg(message: string) returns (ok: bool)
      modifies this
      ensures ok == (|message| < MESSAGE_LIMIT)
      ensures data == if ok then old(data) + Encoded(message) else old(data)
      ensures sent == if ok then old(sent) + [message] else old(sent)
    {
      if |message| >= MESSAGE_LIMIT {
        return false;
      }
      data := data + Hex4(|message|) + message;
      sent := sent + [message];
      return true;
    }

    /** Nothing when the other end is closed, or on an error. */
    method Read(len: nat) returns (got: string)
      requires len > 0
      modifies this`data
      ensures |got| <= len && old(data) == got + data
      ensures got == "" ==> old(data) == "" || faulty
    {
      var failing: bool := *;
      if |data| == 0 || (faulty && failing) {
        return "";
      }
      var n: int := *;
      if !(0 < n <= len && n <= |data|) {
        n := 1;
      }
      got, data := data[..n], data[n..];
    }

    method ReadExact(len: nat) returns (ok: bool, buffer: string)
      modifies this`data
      ensures old(data) == buffer + data && |buffer| <= len && ok == (|buffer| == len)
      ensures !ok ==> |old(data)| < len || faulty
    {
      buffer := "";
      while |buffer| < len
        invariant |buffer| <= len && old(data) == buffer + data
      {
        var got := Read(len - |buffer|);
        if got == "" {
          return false, buffer;
        }
        buffer := buffer + got;
      }
      return true, buffer;
    }

    /** `None` when the conversation is over. */
    method MessageFromChild() returns (message: Option<string>)
      modifies this`data
      ensures message.Some? ==>
        Decoded(old(data)) == [message.value] + Decoded(data) && |data| < |old(data)|
      ensures message == None ==> Decoded(old(data)) == [] || faulty
    {
      var ok, buf := ReadExact(4);
      if ok {
        var len := Strtol(buf, 0);
        ghost var rest := data;
        if len > 0 {
          var whole, buffer := ReadExact(len);
          if whole {
            assert buf == old(data)[..4] && rest == old(data)[4..];
            assert buffer == old(data)[4..4 + len] && data == old(data)[4 + len..];
            return Some(buffer);
          }
        }
      }
      return None;
    }

    method ReceiveAll() returns (messages: seq<string>)
      modifies this`data
      ensures messages <= Decoded(old(data)) && (!faulty ==> messages == Decoded(old(data)))
    {
      messages := [];
      var next := MessageFromChild();
      while next.Some?
        invariant next.Some? ==> Decoded(old(data)) == messages + [next.value] + Decoded(data)
        invariant messages <= Decoded(old(data)) && (!next.Some? && !faulty ==> messages == Decoded(old(data)))
        decreases if next.Some? then |data| + 1 else 0
      {
        messages := messages + [next.value];
        next := MessageFromChild();
      }
    }
  }

  /**
   * Whatever is sent and however the reads split it, the reader ends up with what was sent up to
   * the first empty message; a read that fails cuts this short after some whole message.
   */
  method Converse(messages: seq<string>, faulty: bool) returns (received: seq<string>)
    requires Sendable(messages)
    ensures received <= UntilEmpty(messages) && (!faulty ==> received == UntilEmpty(messages))
    ensures !faulty && (forall m :: m in messages ==> m != "") ==> received == messages
  {
    var pipe := new Pipe(faulty);
    var i := 0;
    while i < |messages|
      invariant 0 <= i <= |messages|
      invariant Sendable(messages[..i]) && pipe.data == Stream(messages[..i])
    {
      assert messages[..i + 1] == messages[..i] + [messages[i]];
      var ok := pipe.SendMsg(messages[i]);
      StreamAppend(messages[..i], messages[i]);
      i := i + 1;
    }
    assert messages[..i] == messages;
    received := pipe.ReceiveAll();
    StreamDecoded(messages);
    NothingCutOff(messages);
  }
}
