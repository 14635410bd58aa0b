/** The SimpleMessage frame of `pyutils/network.py`: a 16-octet header (big-endian magic 0x22334161,
    big-endian body size, one type octet, seven padding octets) followed by a body that is either a
    Command (big-endian name length, then the name in UTF-8) or raw Data. The message is an object whose
    setters and `set_header`/`set_body` update its fields in place; `to_bytes` reads them. */
module SimpleMessages {
  import opened Bytes
  import Utf8

  const MESSAGE_TYPE_INVALID: nat := 0
  const MESSAGE_TYPE_COMMAND: nat := 1
  const MESSAGE_TYPE_DATA: nat := 2
  const MESSAGE_TYPE_END: nat := 3

  const MAGIC_NUMBER: nat := 0x2233_4161
  const HEADER_SIZE: nat := 0x10
  /** The seven octets `ljust(0x10, b'\x00')` appends to the packed magic, size and type. */
  const PADDING: seq<byte> := [0, 0, 0, 0, 0, 0, 0]

  /** `is_valid_type`: a type is valid when it lies strictly between INVALID and END. */
  function IsValidType(t: int): (r: bool)
    ensures r <==> t == MESSAGE_TYPE_COMMAND || t == MESSAGE_TYPE_DATA
  {
    if t <= MESSAGE_TYPE_INVALID then false
    else if t >= MESSAGE_TYPE_END then false
    else true
  }

  /** `struct.pack('!IIB', MAGIC_NUMBER, body_size, type).ljust(0x10, b'\x00')`. */
  function PackHeader(bodySize: nat, msgType: byte): (h: seq<byte>)
    requires bodySize < UINT32_LIMIT
    ensures |h| == HEADER_SIZE
    ensures FromBe32(h[..4]) == MAGIC_NUMBER && FromBe32(h[4..8]) == bodySize
    ensures h[8] == msgType && h[9..] == PADDING
  {
    Be32Decodes(MAGIC_NUMBER);
    Be32Decodes(bodySize);
    var h := Be32(MAGIC_NUMBER) + Be32(bodySize) + [msgType] + PADDING;
    assert h[..4] == Be32(MAGIC_NUMBER) && h[4..8] == Be32(bodySize);
    h
  }

  /** The header checks of `set_header` that look at the octets alone: length 16 and the magic. */
  predicate HeaderWellFormed(h: seq<byte>) {
    |h| == HEADER_SIZE && FromBe32(h[..4]) == MAGIC_NUMBER
  }

  /** The body checks of `set_body` against the header state it finds: a header has been set, the length
      is the recorded body size, and a Command body holds a length prefix equal to the number of octets
      after it, followed by well-formed UTF-8. */
  predicate BodyAccepted(header: seq<byte>, bodySize: nat, msgType: nat, b: seq<byte>) {
    && header != []
    && |b| == bodySize
    && (msgType == MESSAGE_TYPE_COMMAND ==>
          |b| >= 4 && FromBe32(b[..4]) == |b| - 4 && Utf8.IsUtf8(b[4..]))
  }

  /** What is assigned to the `message_data` property: a `str` (stored UTF-8 encoded) or `bytes`. */
  datatype DataValue = Text(text: string) | Raw(raw: seq<byte>)

  /** The three outcomes of `to_bytes`: the frame, `None`, or the `struct.error` that `struct.pack`
      raises for a size that does not fit in 32 bits. */
  datatype Encoded = Frame(bytes: seq<byte>) | NoFrame | PackError

  class SimpleMessage {
    var header: seq<byte>
    var body: seq<byte>
    var valid: bool
    var bodySize: nat
    var msgType: nat
    var commandName: string
    var messageData: seq<byte>

    constructor ()
      ensures header == [] && body == [] && !valid && bodySize == 0
      ensures msgType == MESSAGE_TYPE_INVALID && commandName == [] && messageData == []
    {
      header, body, valid, bodySize := [], [], false, 0;
      msgType, commandName, messageData := MESSAGE_TYPE_INVALID, [], [];
    }

    /** The `message_data` setter: the type becomes Data, and the body size is the length of the value
        assigned, in characters for a `str`, while the stored data is its UTF-8 encoding. */
    method SetMessageData(data: DataValue)
      modifies this
      ensures messageData == (if data.Text? then Utf8.Encode(data.text) else data.raw)
      ensures bodySize == (if data.Text? then |data.text| else |data.raw|)
      ensures msgType == MESSAGE_TYPE_DATA
      ensures header == old(header) && body == old(body) && valid == old(valid)
      ensures commandName == old(commandName)
    {
      if data.Text? {
        messageData := Utf8.Encode(data.text);
        bodySize := |data.text|;
      } else {
        messageData := data.raw;
        bodySize := |data.raw|;
      }
      msgType := MESSAGE_TYPE_DATA;
    }

    /** The `command_name` setter: the type becomes Command and the body size is 4 plus the number of
        characters of the name. */
    method SetCommandName(command: string)
      modifies this
      ensures bodySize == 4 + |command| && commandName == command && msgType == MESSAGE_TYPE_COMMAND
      ensures header == old(header) && body == old(body) && valid == old(valid)
      ensures messageData == old(messageData)
    {
      bodySize := 4 + |command|;
      commandName := command;
      msgType := MESSAGE_TYPE_COMMAND;
    }

    function IsCommand(): (r: bool)
      reads this
      ensures r <==> msgType == MESSAGE_TYPE_COMMAND
    {
      msgType == MESSAGE_TYPE_COMMAND
    }

    function IsData(): (r: bool)
      reads this
      ensures r <==> msgType == MESSAGE_TYPE_DATA
    {
      msgType == MESSAGE_TYPE_DATA
    }

    /** The two type tests split the valid types between them: a valid type is a Command or Data, never
        both, so the body `to_bytes` builds and the body `set_body` checks are chosen by one of them. */
    lemma TypeTests()
      ensures IsValidType(msgType) <==> IsCommand() || IsData()
      ensures !(IsCommand() && IsData())
    {
    }

    /** `set_header`: accepts 16 octets that start with the magic, but only while the message's own
        type is not yet a valid one; the decoded type octet itself is not checked. On success the body
        is cleared, and the size and type come from the header. */
    method SetHeader(h: seq<byte>) returns (ok: bool)
      modifies this
      ensures ok <==> HeaderWellFormed(h) && !IsValidType(old(msgType))
      ensures ok ==> header == h && body == [] && valid
      ensures ok ==> bodySize == FromBe32(h[4..8]) && msgType == h[8] as nat
      ensures ok ==> commandName == old(commandName) && messageData == old(messageData)
      ensures !ok ==> unchanged(this)
    {
      if |h| != HEADER_SIZE {
        return false;
      }
      var magic := FromBe32(h[0..4]);
      if magic != MAGIC_NUMBER {
        return false;
      }
      var size := FromBe32(h[4..8]);
      var t := h[8] as nat;
      if IsValidType(msgType) {
        return false;
      }
      body := [];
      bodySize := size;
      msgType := t;
      valid := true;
      header := h;
      return true;
    }

    /** `set_body`: accepts a body that passes `BodyAccepted`; a Command body sets the name to the
        decoded UTF-8 after the prefix, a Data body becomes the data, and the body is stored. */
    method SetBody(b: seq<byte>) returns (ok: bool)
      modifies this
      ensures ok <==> BodyAccepted(old(header), old(bodySize), old(msgType), b)
      ensures ok ==> body == b && header == old(header) && bodySize == old(bodySize)
      ensures ok ==> msgType == old(msgType) && valid == old(valid)
      ensures ok && old(msgType) == MESSAGE_TYPE_COMMAND ==>
        |b| >= 4 && Utf8.IsUtf8(b[4..]) && commandName == Utf8.Decode(b[4..]) &&
        messageData == old(messageData)
      ensures ok && old(msgType) == MESSAGE_TYPE_DATA ==>
        messageData == b && commandName == old(commandName)
      ensures ok && !IsValidType(old(msgType)) ==>
        messageData == old(messageData) && commandName == old(commandName)
      ensures !ok ==> unchanged(this)
    {
      if header == [] {
        return false;
      }
      if bodySize != |b| {
        return false;
      }
      if IsCommand() {
        if |b| < 4 {
          return false;
        }
        var nameSize := FromBe32(b[0..4]);
        var name := b[4..];
        if nameSize != |name| {
          return false;
        }
        if !Utf8.IsUtf8(name) {
          return false;
        }
        commandName := Utf8.Decode(name);
      } else if IsData() {
        messageData := b;
      }
      body := b;
      return true;
    }

    /** `to_bytes`: the header (the received one, else a freshly packed one) followed by the body (the
        received one, else one built from the name or the data), or `None` when the type is not valid
        or the recorded body size disagrees with the name or the data. What the frame holds is stated
        by the lemmas below. */
    function ToBytes(): (r: Encoded)
      reads this
      ensures !IsValidType(msgType) ==> r == NoFrame
      ensures IsValidType(msgType) && header == [] && bodySize >= UINT32_LIMIT ==> r == PackError
    {
      if !IsValidType(msgType) then NoFrame
      else if header == [] && bodySize >= UINT32_LIMIT then PackError
      else
        var head := if header == [] then PackHeader(bodySize, msgType as byte) else header;
        if body != [] then Frame(head + body)
        else if msgType == MESSAGE_TYPE_COMMAND then
          if 4 + |commandName| != bodySize then NoFrame
          else if |commandName| >= UINT32_LIMIT then PackError
          else Frame(head + Be32(|commandName|) + Utf8.Encode(commandName))
        else
          if |messageData| != bodySize then NoFrame
          else Frame(head + messageData)
    }

    /** A frame starts with the stored header, or else with the header packed from the size and type. */
    lemma FrameStartsWithHeader()
      ensures var r := ToBytes();
        r.Frame? && header == [] ==>
          bodySize < UINT32_LIMIT && PackHeader(bodySize, msgType as byte) <= r.bytes
      ensures var r := ToBytes(); r.Frame? && header != [] ==> header <= r.bytes
    {
    }

    /** A frame ends with the stored body, or else with the data, or else with the length-prefixed
        UTF-8 of the command name. */
    lemma FrameEndsWithBody()
      ensures var r := ToBytes();
        r.Frame? && body != [] ==> |body| <= |r.bytes| && r.bytes[|r.bytes| - |body|..] == body
      ensures var r := ToBytes();
        r.Frame? && body == [] && msgType == MESSAGE_TYPE_DATA ==>
          |messageData| == bodySize <= |r.bytes| && r.bytes[|r.bytes| - bodySize..] == messageData
      ensures var r := ToBytes();
        r.Frame? && body == [] && msgType == MESSAGE_TYPE_COMMAND ==>
          4 + |commandName| == bodySize && |commandName| < UINT32_LIMIT &&
          var tail := Be32(|commandName|) + Utf8.Encode(commandName);
          |tail| <= |r.bytes| && r.bytes[|r.bytes| - |tail|..] == tail
    {
    }

    /** Without a stored body, a recorded size that disagrees with the name or the data gives `None`
        (unless packing the size fails first). */
    lemma SizeMismatchRefused()
      ensures (body == [] && msgType == MESSAGE_TYPE_COMMAND && 4 + |commandName| != bodySize &&
               (header != [] || bodySize < UINT32_LIMIT)) ==> ToBytes() == NoFrame
      ensures (body == [] && msgType == MESSAGE_TYPE_DATA && |messageData| != bodySize &&
               (header != [] || bodySize < UINT32_LIMIT)) ==> ToBytes() == NoFrame
    {
    }
  }

  /** The Command frame with both counts in octets of the UTF-8 name, as the receiver reads them: the
      size field records 4 plus the number of octets, and the prefix the number of octets. For an ASCII
      name it is the frame `to_bytes` builds. */
  function CommandFrame(name: string): (r: Encoded)
    ensures 4 + |Utf8.Encode(name)| >= UINT32_LIMIT ==> r == PackError
    ensures r.Frame? ==> |r.bytes| == HEADER_SIZE + 4 + |Utf8.Encode(name)|
    ensures Utf8.IsAscii(name) && 4 + |name| < UINT32_LIMIT ==>
      r == Frame(PackHeader(4 + |name|, MESSAGE_TYPE_COMMAND as byte) + Be32(|name|) + Utf8.Encode(name))
  {
    var octets := Utf8.Encode(name);
    Utf8.EncodeLength(name);
    if 4 + |octets| >= UINT32_LIMIT then PackError
    else Frame(PackHeader(4 + |octets|, MESSAGE_TYPE_COMMAND as byte) + Be32(|octets|) + octets)
  }

  /** A fresh message given a `bytes` payload encodes to the packed Data header followed by the payload,
      and to the `struct.error` of the size field when the payload does not fit in 32 bits. */
  method EncodeFreshData(p: seq<byte>) returns (r: Encoded)
    ensures |p| < UINT32_LIMIT ==>
      r == Frame(Be32(MAGIC_NUMBER) + Be32(|p|) + [MESSAGE_TYPE_DATA as byte] + PADDING + p)
    ensures |p| >= UINT32_LIMIT ==> r == PackError
  {
    var m := new SimpleMessage();
    m.SetMessageData(Raw(p));
    r := m.ToBytes();
  }

  /** A fresh message given a `str` payload records its length in characters but stores its UTF-8
      octets, so it encodes only when the text is ASCII and gives `None` otherwise. */
  method EncodeFreshText(text: string) returns (r: Encoded)
    requires |text| < UINT32_LIMIT
    ensures Utf8.IsAscii(text) ==>
      r == Frame(PackHeader(|text|, MESSAGE_TYPE_DATA as byte) + Utf8.Encode(text))
    ensures !Utf8.IsAscii(text) ==> r == NoFrame
  {
    var m := new SimpleMessage();
    m.SetMessageData(Text(text));
    Utf8.EncodeLength(text);
    r := m.ToBytes();
  }

  /** A fresh message given a command name encodes to the packed Command header recording 4 plus the
      number of characters, then the 4-octet character count, then the UTF-8 of the name. */
  method EncodeFreshCommand(name: string) returns (r: Encoded)
    requires 4 + |name| < UINT32_LIMIT
    ensures r == Frame(PackHeader(4 + |name|, MESSAGE_TYPE_COMMAND as byte) + Be32(|name|) + Utf8.Encode(name))
  {
    var m := new SimpleMessage();
    m.SetCommandName(name);
    r := m.ToBytes();
  }

  /** The payload of a Data frame survives the trip: a fresh receiver accepts the first 16 octets of the
      frame as header and the rest as body, and ends with the original payload and the original frame. */
  method DataRoundTrip(p: seq<byte>) returns (headerOk: bool, bodyOk: bool, received: seq<byte>, again: Encoded)
    requires |p| < UINT32_LIMIT
    ensures headerOk && bodyOk && received == p
    ensures again == Frame(PackHeader(|p|, MESSAGE_TYPE_DATA as byte) + p)
  {
    var sent := EncodeFreshData(p);
    var frame := sent.bytes;
    assert frame == PackHeader(|p|, MESSAGE_TYPE_DATA as byte) + p;
    assert frame[..HEADER_SIZE] == PackHeader(|p|, MESSAGE_TYPE_DATA as byte);
    assert frame[HEADER_SIZE..] == p;
    var m := new SimpleMessage();
    headerOk := m.SetHeader(frame[..HEADER_SIZE]);
    bodyOk := m.SetBody(frame[HEADER_SIZE..]);
    received := m.messageData;
    again := m.ToBytes();
  }

  /** The name of a Command frame with an ASCII name survives the trip: a fresh receiver accepts the
      header and the body of the frame and decodes the original name. */
  method CommandRoundTrip(name: string) returns (headerOk: bool, bodyOk: bool, received: string)
    requires Utf8.IsAscii(name) && 4 + |name| < UINT32_LIMIT
    ensures headerOk && bodyOk && received == name
  {
    var sent := EncodeFreshCommand(name);
    var h := PackHeader(4 + |name|, MESSAGE_TYPE_COMMAND as byte);
    var b := Be32(|name|) + Utf8.Encode(name);
    assert sent.bytes == h + b;
    assert sent.bytes[..HEADER_SIZE] == h && sent.bytes[HEADER_SIZE..] == b;
    Utf8.EncodeLength(name);
    Utf8.EncodeDecodes(name);
    Be32Decodes(|name|);
    assert b[..4] == Be32(|name|) && b[4..] == Utf8.Encode(name);
    var m := new SimpleMessage();
    headerOk := m.SetHeader(h);
    bodyOk := m.SetBody(b);
    received := m.commandName;
  }

  /** For a name with a non-ASCII character the sender's header records fewer octets than its body
      holds, so a receiver that takes the rest of the frame as body rejects it. */
  method NonAsciiCommandRejected(name: string) returns (headerOk: bool, bodyOk: bool)
    requires !Utf8.IsAscii(name) && 4 + |name| < UINT32_LIMIT
    ensures headerOk && !bodyOk
  {
    var sent := EncodeFreshCommand(name);
    var h := PackHeader(4 + |name|, MESSAGE_TYPE_COMMAND as byte);
    var b := Be32(|name|) + Utf8.Encode(name);
    assert sent.bytes == h + b;
    assert sent.bytes[..HEADER_SIZE] == h && sent.bytes[HEADER_SIZE..] == b;
    Utf8.EncodeLength(name);
    var m := new SimpleMessage();
    headerOk := m.SetHeader(sent.bytes[..HEADER_SIZE]);
    bodyOk := m.SetBody(sent.bytes[HEADER_SIZE..]);
  }

  /** What a fresh receiver makes of a header and a body: the header is accepted exactly when it is
      well formed (any type octet), the body exactly when it fits that header, and then the message
      encodes back to exactly the octets received, padding included, when the type is Command or Data. */
  method Receive(h: seq<byte>, b: seq<byte>) returns (headerOk: bool, bodyOk: bool, r: Encoded)
    ensures headerOk <==> HeaderWellFormed(h)
    ensures headerOk ==> (bodyOk <==> BodyAccepted(h, FromBe32(h[4..8]), h[8] as nat, b))
    ensures headerOk && bodyOk && IsValidType(h[8] as nat) ==> r == Frame(h + b)
    ensures headerOk && bodyOk && !IsValidType(h[8] as nat) ==> r == NoFrame
  {
    var m := new SimpleMessage();
    headerOk := m.SetHeader(h);
    bodyOk := false;
    r := NoFrame;
    if headerOk {
      bodyOk := m.SetBody(b);
      r := m.ToBytes();
    }
  }

  /** The type check of `set_header` looks at the message's current type: a second header is accepted
      only when the first one carried a type octet other than Command or Data. */
  method HeaderTwice(h1: seq<byte>, h2: seq<byte>) returns (ok1: bool, ok2: bool)
    ensures ok1 <==> HeaderWellFormed(h1)
    ensures ok1 ==> (ok2 <==> !IsValidType(h1[8] as nat) && HeaderWellFormed(h2))
  {
    var m := new SimpleMessage();
    ok1 := m.SetHeader(h1);
    ok2 := m.SetHeader(h2);
  }

  /** A message that has been given a command name or data never accepts a header. */
  method HeaderAfterSetter(name: string, data: DataValue, useName: bool, h: seq<byte>) returns (ok: bool)
    ensures !ok
  {
    var m := new SimpleMessage();
    if useName {
      m.SetCommandName(name);
    } else {
      m.SetMessageData(data);
    }
    ok := m.SetHeader(h);
  }
}
