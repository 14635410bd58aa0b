/** The receiving side of `SimpleMessageNode` in `pyutils/network.py`: `recv_bytes` reads an exact number
    of octets by accumulating partial reads, and `recv_message` reads and checks one frame.
    The socket is modelled as the sequence of segments the peer's stream delivers: one `recv(size)`
    returns the next segment, cut to at most `size` octets (the rest stays for the next call), and an
    empty segment, or the end of the sequence, is the peer's orderly close, read as `b''`. */
module MessageNodes {
  import opened Wrappers
  import opened Bytes
  import opened SimpleMessages
  import Utf8

  type Stream = seq<seq<byte>>

  /** `ConnectionClosed` from `recv_bytes`, and the `AssertionError` of the `assert`s in `recv_message`. */
  datatype NodeError = ConnectionClosed | AssertionError

  /** The octets the peer sends before it closes: the segments up to the first empty one. */
  function Available(s: Stream): seq<byte>
  {
    if s == [] || s[0] == [] then [] else s[0] + Available(s[1..])
  }

  /** One `socket.recv(size)` call, with the stream left after it. */
  function Recv(s: Stream, size: nat): (r: (seq<byte>, Stream))
    requires size > 0
    ensures |r.0| <= size
    ensures r.0 == [] <==> Available(s) == []
    ensures r.0 + Available(r.1) == Available(s)
  {
    if s == [] || s[0] == [] then ([], s)
    else if |s[0]| <= size then
      (s[0], s[1..])
    else
      var rest := [s[0][size..]] + s[1..];
      assert Available(rest) == s[0][size..] + Available(s[1..]);
      assert s[0][..size] + s[0][size..] == s[0];
      (s[0][..size], rest)
  }

  /** `recv_bytes(s, size)`: exactly the next `size` octets of the stream, or `ConnectionClosed` when the
      peer closes first, in which case everything it sent has been consumed. */
  method RecvBytes(s: Stream, size: nat) returns (r: Result<seq<byte>, NodeError>, rest: Stream)
    ensures size <= |Available(s)| ==>
      r == Ok(Available(s)[..size]) && Available(rest) == Available(s)[size..]
    ensures size > |Available(s)| ==> r == Err(ConnectionClosed) && Available(rest) == []
    ensures size == 0 ==> rest == s
  {
    var recv: seq<byte> := [];
    var remaining: nat := size;
    rest := s;
    while remaining > 0
      invariant |recv| + remaining == size
      invariant recv + Available(rest) == Available(s)
      invariant size == 0 ==> rest == s
    {
      var got := Recv(rest, remaining);
      var data := got.0;
      if data == [] {
        assert Available(rest) == [] && recv == Available(s);
        return Err(ConnectionClosed), got.1;
      }
      assert (recv + data) + Available(got.1) == recv + (data + Available(got.1));
      rest := got.1;
      remaining := remaining - |data|;
      recv := recv + data;
    }
    assert (recv + Available(rest))[..|recv|] == recv;
    assert (recv + Available(rest))[|recv|..] == Available(rest);
    return Ok(recv), rest;
  }

  /** `recv_message`: reads 16 octets and a fresh message must accept them as header, then reads the
      recorded number of body octets and the message must accept them as body. */
  method RecvMessage(s: Stream) returns (r: Result<SimpleMessage, NodeError>, rest: Stream)
    ensures var a := Available(s);
      |a| < HEADER_SIZE ==> r == Err(ConnectionClosed)
    ensures var a := Available(s);
      |a| >= HEADER_SIZE && !HeaderWellFormed(a[..HEADER_SIZE]) ==> r == Err(AssertionError)
    ensures var a := Available(s);
      (|a| >= HEADER_SIZE && HeaderWellFormed(a[..HEADER_SIZE]) && |a| < HEADER_SIZE + FromBe32(a[4..8]))
      ==> r == Err(ConnectionClosed)
    ensures var a := Available(s);
      (|a| >= HEADER_SIZE && HeaderWellFormed(a[..HEADER_SIZE]) && |a| >= HEADER_SIZE + FromBe32(a[4..8]))
      ==> (r.Ok? <==> BodyAccepted(a[..HEADER_SIZE], FromBe32(a[4..8]), a[8] as nat,
                                   a[HEADER_SIZE..HEADER_SIZE + FromBe32(a[4..8])])) &&
          (r.Err? ==> r.error == AssertionError)
    ensures r.Ok? ==>
      var a := Available(s);
      var m := r.value;
      fresh(m) && |a| >= HEADER_SIZE + m.bodySize && HeaderWellFormed(a[..HEADER_SIZE]) &&
      m.header == a[..HEADER_SIZE] && m.bodySize == FromBe32(a[4..8]) && m.msgType == a[8] as nat &&
      m.body == a[HEADER_SIZE..HEADER_SIZE + m.bodySize] &&
      Available(rest) == a[HEADER_SIZE + m.bodySize..]
    ensures r.Ok? && r.value.msgType == MESSAGE_TYPE_COMMAND ==>
      var m := r.value;
      |m.body| >= 4 && Utf8.IsUtf8(m.body[4..]) && m.commandName == Utf8.Decode(m.body[4..])
    ensures r.Ok? && r.value.msgType == MESSAGE_TYPE_DATA ==> r.value.messageData == r.value.body
  {
    var header;
    header, rest := RecvBytes(s, HEADER_SIZE);
    if header.Err? {
      return Err(header.error), rest;
    }
    var message := new SimpleMessage();
    var ok := message.SetHeader(header.value);
    if !ok {
      return Err(AssertionError), rest;
    }
    var body;
    body, rest := RecvBytes(rest, message.bodySize);
    if body.Err? {
      return Err(body.error), rest;
    }
    assert body.value == Available(s)[HEADER_SIZE..HEADER_SIZE + message.bodySize];
    ok := message.SetBody(body.value);
    if !ok {
      return Err(AssertionError), rest;
    }
    return Ok(message), rest;
  }

  /** A stream whose first segment is a well-formed header, as many body octets as it records and
      perhaps more octets delivers that header and that body, and then the extra octets and whatever
      follows. */
  lemma FrameStream(h: seq<byte>, body: seq<byte>, extra: seq<byte>, after: Stream)
    requires HeaderWellFormed(h) && FromBe32(h[4..8]) == |body|
    ensures var a := Available([h + body + extra] + after);
      && |a| >= HEADER_SIZE + FromBe32(a[4..8]) && a[..HEADER_SIZE] == h
      && FromBe32(a[4..8]) == |body| && a[8] == h[8]
      && a[HEADER_SIZE..HEADER_SIZE + FromBe32(a[4..8])] == body
      && a[HEADER_SIZE + |body|..] == extra + Available(after)
  {
    var s := [h + body + extra] + after;
    assert s[1..] == after;
    var a := Available(s);
    assert a == h + body + (extra + Available(after));
    assert a[4..8] == h[4..8];
  }

  /** A Command body made of a 4-octet count and the UTF-8 of a name passes the body checks for a size of
      4 plus the count exactly when the count is the number of octets, and then decodes to the name. */
  lemma CommandBody(name: string, header: seq<byte>)
    requires header != [] && |Utf8.Encode(name)| < UINT32_LIMIT
    ensures var octets := Utf8.Encode(name); var body := Be32(|octets|) + octets;
      && BodyAccepted(header, 4 + |octets|, MESSAGE_TYPE_COMMAND, body)
      && body[4..] == octets && Utf8.Decode(octets) == name
  {
    var octets := Utf8.Encode(name);
    var body := Be32(|octets|) + octets;
    Be32Decodes(|octets|);
    assert body[..4] == Be32(|octets|) && body[4..] == octets;
    Utf8.EncodeDecodes(name);
  }

  /** The frame of a name whose characters are fewer than its octets, as `to_bytes` builds it, read by
      `recv_message` from a stream that carries it and then anything else: the receiver takes as many
      body octets as the header records, which is 4 plus the number of characters. For `éab` (five
      octets of UTF-8) it accepts the cut name `éa` and leaves the final `b` in the stream, where it
      will be read as the start of the next frame. */
  method NonAsciiNameCutShort(after: Stream) returns (r: Result<SimpleMessage, NodeError>, rest: Stream)
    ensures r.Ok? && r.value.commandName == "\U{e9}a"
    ensures Available(rest) == [0x62] + Available(after)
  {
    var sent := EncodeFreshCommand("\U{e9}ab");
    CutName();
    var header := PackHeader(7, MESSAGE_TYPE_COMMAND as byte);
    var body := Be32(3) + Utf8.Encode("\U{e9}a");
    assert sent.bytes == header + body + [0x62];
    FrameStream(header, body, [0x62], after);
    CommandBody("\U{e9}a", header);
    r, rest := RecvMessage([header + body + [0x62]] + after);
  }

  /** The UTF-8 of `éab`: two octets for `é`, then one each for `a` and `b`. */
  lemma CutName()
    ensures Utf8.Encode("\U{e9}a") == [0xC3, 0xA9, 0x61]
    ensures Utf8.Encode("\U{e9}ab") == [0xC3, 0xA9, 0x61] + [0x62]
  {
    assert "\U{e9}ab"[1..] == "ab" && "ab"[1..] == "b" && "b"[1..] == [];
    assert "\U{e9}a"[1..] == "a" && "a"[1..] == [];
  }

  /** The corrected Command frame is the packed header, the octet count and the octets. */
  lemma CommandFrameParts(name: string)
    requires 4 + |Utf8.Encode(name)| < UINT32_LIMIT
    ensures var octets := Utf8.Encode(name);
      CommandFrame(name) ==
        Frame(PackHeader(4 + |octets|, MESSAGE_TYPE_COMMAND as byte) + (Be32(|octets|) + octets) + [])
  {
    var octets := Utf8.Encode(name);
    var header := PackHeader(4 + |octets|, MESSAGE_TYPE_COMMAND as byte);
    assert header + Be32(|octets|) + octets == header + (Be32(|octets|) + octets) + [];
  }

  /** With both counts in octets, a Command frame read from a stream that carries it and then anything
      else gives back exactly the name, and the stream continues right after the frame. */
  method CommandDelivered(name: string, after: Stream) returns (r: Result<SimpleMessage, NodeError>, rest: Stream)
    requires 4 + |Utf8.Encode(name)| < UINT32_LIMIT
    ensures r.Ok? && r.value.msgType == MESSAGE_TYPE_COMMAND && r.value.commandName == name
    ensures Available(rest) == Available(after)
  {
    var octets := Utf8.Encode(name);
    var header := PackHeader(4 + |octets|, MESSAGE_TYPE_COMMAND as byte);
    var body := Be32(|octets|) + octets;
    CommandFrameParts(name);
    FrameStream(header, body, [], after);
    CommandBody(name, header);
    r, rest := RecvMessage([header + body + []] + after);
  }
}
