/** The packets on the air: how they are parsed from bytes and printed to bytes. */
module Packets {
  import opened Binary

  const TYPE_ANNOUNCE: Byte := 0x41
  const TYPE_MESSAGE: Byte := 0x42
  const VERSION: Byte := 1

  /** The fields every packet starts with, after its version byte. */
  datatype Header = Header(packetType: Byte, ttl: Byte, timestamp: U64, flags: Byte, sender: U64, recipient: U64) {
    predicate HasRecipient() {
      flags % 2 == 1
    }

    function TimestampMs(): U64 {
      timestamp / 1000
    }
  }

  datatype Message = Message(header: Header, messageFlags: Byte, messageTimestamp: U64, id: Bytes,
                             nickname: Bytes, content: Bytes, senderPeer: Option<U64>) {
    predicate HasSenderPeer() {
      messageFlags / 0x10 % 2 == 1
    }
  }

  datatype PassAlong = PassAlong(header: Header, payload: Bytes, hasPayload: bool)

  datatype Announce = Announce(base: PassAlong, name: Bytes)

  datatype Received = Ignored | GotAnnounce(announce: Announce) | GotMessage(message: Message)

  // ---- parsing ----

  function ParseHeader(b: Bytes, p: nat, packetType: Byte): (r: Read<Header>)
    ensures p <= r.pos && (p <= |b| ==> r.pos <= |b|)
    ensures r.value.packetType == packetType && r.value == NormalHeader(r.value)
  {
    var ttl := ReadUint(b, p, 1);
    var timestamp := ReadUint(b, ttl.pos, 8);
    var flags := ReadUint(b, timestamp.pos, 1);
    var sender := ReadUint(b, flags.pos, 8);
    var recipient := if flags.value % 2 == 1 then ReadUint(b, sender.pos, 8) else Read(0, sender.pos);
    Read(Header(packetType, ttl.value, timestamp.value, flags.value, sender.value, recipient.value), recipient.pos)
  }

  /** A string behind a length of `w` bytes; empty when the announced length runs past the end. */
  function ParseField(b: Bytes, p: nat, w: nat): (r: Read<Bytes>)
    ensures p <= r.pos && (p <= |b| ==> r.pos <= |b|)
    ensures |r.value| < Pow256(w)
  {
    var len := ReadUint(b, p, w);
    var data := ReadData(b, len.pos, len.value);
    Zero(w);
    Read(if data.value.Some? then data.value.value else [], data.pos)
  }

  function ParsePassAlong(b: Bytes, p: nat, packetType: Byte, hasPayload: bool): (r: Read<PassAlong>)
    ensures p <= r.pos && (p <= |b| ==> r.pos <= |b|)
  {
    var header := ParseHeader(b, p, packetType);
    if hasPayload then
      var data := ReadData(b, header.pos, (|b| - header.pos) % 0x1_0000);
      Read(PassAlong(header.value, if data.value.Some? then data.value.value else [], true), data.pos)
    else
      Read(PassAlong(header.value, [], false), header.pos)
  }

  function ParseAnnounce(b: Bytes, p: nat, packetType: Byte): (r: Read<Announce>)
    ensures p <= r.pos && (p <= |b| ==> r.pos <= |b|)
  {
    var base := ParsePassAlong(b, p, packetType, false);
    var name := ParseField(b, base.pos, 1);
    Read(Announce(base.value, name.value), name.pos)
  }

  function ParseMessage(b: Bytes, p: nat, packetType: Byte): (r: Read<Message>)
    ensures p <= r.pos && (p <= |b| ==> r.pos <= |b|)
    ensures r.value == NormalMessage(r.value) && r.value.header.packetType == packetType
  {
    var header := ParseHeader(b, p, packetType);
    var flags := ReadUint(b, header.pos, 1);
    var timestamp := ReadUint(b, flags.pos, 8);
    var id := ParseField(b, timestamp.pos, 1);
    var nickname := ParseField(b, id.pos, 1);
    var content := ParseField(b, nickname.pos, 2);
    Read(Message(header.value, flags.value, timestamp.value, id.value, nickname.value, content.value, None),
         content.pos)
  }

  /** What a node makes of the bytes written to it. */
  function Receive(b: Bytes, offset: nat): (r: Received)
    requires |b| <= MAX_BUFFER
    ensures r.GotMessage? ==> r.message.header.packetType == TYPE_MESSAGE && r.message.senderPeer.None?
    ensures r.GotAnnounce? ==> r.announce.base.header.packetType == TYPE_ANNOUNCE && !r.announce.base.hasPayload
  {
    var version := ReadUint(b, offset, 1);
    if version.value < 1 || version.value > 2 then
      Ignored
    else
      var packetType := ReadUint(b, version.pos, 1);
      if packetType.value == TYPE_ANNOUNCE then
        GotAnnounce(ParseAnnounce(b, packetType.pos, packetType.value).value)
      else if packetType.value == TYPE_MESSAGE then
        GotMessage(ParseMessage(b, packetType.pos, packetType.value).value)
      else
        Ignored
  }

  // ---- printing ----

  /** The part of a string that fits behind a length of `w` bytes. */
  function Cut(s: Bytes, w: nat): (c: Bytes)
    ensures |c| < Pow256(w)
  {
    Zero(w);
    s[..Min(|s|, Pow256(w) - 1)]
  }

  function Field(s: Bytes, w: nat): (b: Bytes)
    ensures |b| == w + |Cut(s, w)|
  {
    BigEndian(|Cut(s, w)|, w) + Cut(s, w)
  }

  function Recipient(h: Header): Bytes {
    if h.HasRecipient() then BigEndian(h.recipient, 8) else []
  }

  function HeaderFields(h: Header): (b: Bytes)
    ensures |b| == if h.HasRecipient() then 26 else 18
  {
    BigEndian(h.ttl, 1) + (BigEndian(h.timestamp, 8) + (BigEndian(h.flags, 1)
                           + (BigEndian(h.sender, 8) + Recipient(h))))
  }

  function MessageStrings(m: Message): (b: Bytes)
    ensures |b| == |Field(m.id, 1)| + |Field(m.nickname, 1)| + |Field(m.content, 2)|
  {
    Field(m.id, 1) + (Field(m.nickname, 1) + Field(m.content, 2))
  }

  function MessageFields(m: Message): (b: Bytes)
    ensures |b| == 9 + |MessageStrings(m)|
  {
    BigEndian(m.messageFlags, 1) + (BigEndian(m.messageTimestamp, 8) + MessageStrings(m))
  }

  /** Printing follows the sender peer when its flag is set, so the peer must then be there. */
  predicate Printable(m: Message) {
    m.HasSenderPeer() ==> m.senderPeer.Some?
  }

  function SenderPeer(m: Message): Bytes
    requires Printable(m)
  {
    if m.HasSenderPeer() then BigEndian(16, 1) + BigEndian(m.senderPeer.value, 8) else []
  }

  function PrintWith(h: Header, body: Bytes): (b: Bytes)
    ensures |b| == 2 + |HeaderFields(h)| + |body|
  {
    BigEndian(VERSION, 1) + (BigEndian(h.packetType, 1) + (HeaderFields(h) + body))
  }

  function PrintMessage(m: Message): Bytes
    requires Printable(m)
  {
    PrintWith(m.header, MessageFields(m) + SenderPeer(m))
  }

  /** The length is passed as a 16-bit number. */
  function Payload(p: PassAlong): Bytes {
    if p.hasPayload then p.payload[..|p.payload| % 0x1_0000] else []
  }

  function PrintPassAlong(p: PassAlong): Bytes {
    PrintWith(p.header, Payload(p))
  }

  function PrintAnnounce(a: Announce): Bytes {
    PrintWith(a.base.header, Payload(a.base) + Field(a.name, 1))
  }

  // ---- what survives printing and parsing ----

  function NormalHeader(h: Header): Header {
    if h.HasRecipient() then h else h.(recipient := 0)
  }

  function NormalMessage(m: Message): Message {
    m.(header := NormalHeader(m.header), id := Cut(m.id, 1), nickname := Cut(m.nickname, 1),
       content := Cut(m.content, 2), senderPeer := None)
  }

  function NormalAnnounce(a: Announce): Announce {
    Announce(PassAlong(NormalHeader(a.base.header), [], false), Cut(a.name, 1))
  }

  lemma HeaderRoundTrip(b: Bytes, p: nat, h: Header)
    requires At(b, p, HeaderFields(h))
    ensures ParseHeader(b, p, h.packetType) == Read(NormalHeader(h), p + |HeaderFields(h)|)
  {
    var tail3 := BigEndian(h.sender, 8) + Recipient(h);
    var tail2 := BigEndian(h.flags, 1) + tail3;
    var tail1 := BigEndian(h.timestamp, 8) + tail2;
    AtSplit(b, p, BigEndian(h.ttl, 1), tail1);
    AtSplit(b, p + 1, BigEndian(h.timestamp, 8), tail2);
    AtSplit(b, p + 9, BigEndian(h.flags, 1), tail3);
    AtSplit(b, p + 10, BigEndian(h.sender, 8), Recipient(h));
    ReadUintAt(b, p, h.ttl, 1);
    ReadUintAt(b, p + 1, h.timestamp, 8);
    ReadUintAt(b, p + 9, h.flags, 1);
    ReadUintAt(b, p + 10, h.sender, 8);
    if h.HasRecipient() {
      ReadUintAt(b, p + 18, h.recipient, 8);
    }
  }

  lemma FieldRoundTrip(b: Bytes, p: nat, s: Bytes, w: nat)
    requires At(b, p, Field(s, w))
    ensures ParseField(b, p, w) == Read(Cut(s, w), p + |Field(s, w)|)
  {
    AtSplit(b, p, BigEndian(|Cut(s, w)|, w), Cut(s, w));
    ReadUintAt(b, p, |Cut(s, w)|, w);
  }

  lemma MessageStringsRoundTrip(b: Bytes, p: nat, m: Message)
    requires At(b, p, MessageStrings(m))
    ensures var id := ParseField(b, p, 1);
            var nickname := ParseField(b, id.pos, 1);
            var content := ParseField(b, nickname.pos, 2);
            && id.value == Cut(m.id, 1) && nickname.value == Cut(m.nickname, 1)
            && content == Read(Cut(m.content, 2), p + |MessageStrings(m)|)
  {
    AtSplit(b, p, Field(m.id, 1), Field(m.nickname, 1) + Field(m.content, 2));
    var q := p + |Field(m.id, 1)|;
    AtSplit(b, q, Field(m.nickname, 1), Field(m.content, 2));
    FieldRoundTrip(b, p, m.id, 1);
    FieldRoundTrip(b, q, m.nickname, 1);
    FieldRoundTrip(b, q + |Field(m.nickname, 1)|, m.content, 2);
  }

  lemma MessageFieldsRoundTrip(b: Bytes, p: nat, q: nat, m: Message)
    requires ParseHeader(b, p, m.header.packetType) == Read(NormalHeader(m.header), q)
    requires At(b, q, MessageFields(m))
    ensures ParseMessage(b, p, m.header.packetType) == Read(NormalMessage(m), q + |MessageFields(m)|)
  {
    AtSplit(b, q, BigEndian(m.messageFlags, 1), BigEndian(m.messageTimestamp, 8) + MessageStrings(m));
    AtSplit(b, q + 1, BigEndian(m.messageTimestamp, 8), MessageStrings(m));
    ReadUintAt(b, q, m.messageFlags, 1);
    ReadUintAt(b, q + 1, m.messageTimestamp, 8);
    MessageStringsRoundTrip(b, q + 9, m);
  }

  /** The version and type bytes in front of the header are read back. */
  lemma PrefixRoundTrip(b: Bytes, p: nat, h: Header, body: Bytes)
    requires At(b, p, PrintWith(h, body))
    ensures ReadUint(b, p, 1) == Read(VERSION, p + 1)
    ensures ReadUint(b, p + 1, 1) == Read(h.packetType, p + 2)
    ensures ParseHeader(b, p + 2, h.packetType) == Read(NormalHeader(h), p + 2 + |HeaderFields(h)|)
    ensures At(b, p + 2 + |HeaderFields(h)|, body)
  {
    AtSplit(b, p, BigEndian(VERSION, 1), BigEndian(h.packetType, 1) + (HeaderFields(h) + body));
    AtSplit(b, p + 1, BigEndian(h.packetType, 1), HeaderFields(h) + body);
    AtSplit(b, p + 2, HeaderFields(h), body);
    ReadUintAt(b, p, VERSION, 1);
    ReadUintAt(b, p + 1, h.packetType, 1);
    HeaderRoundTrip(b, p + 2, h);
  }

  /** A printed message, wherever it stands in a buffer, is received as its normal form. */
  lemma MessageRoundTrip(b: Bytes, p: nat, m: Message)
    requires |b| <= MAX_BUFFER && Printable(m) && m.header.packetType == TYPE_MESSAGE
    requires At(b, p, PrintMessage(m))
    ensures Receive(b, p) == GotMessage(NormalMessage(m))
  {
    PrefixRoundTrip(b, p, m.header, MessageFields(m) + SenderPeer(m));
    var q := p + 2 + |HeaderFields(m.header)|;
    AtSplit(b, q, MessageFields(m), SenderPeer(m));
    MessageFieldsRoundTrip(b, p + 2, q, m);
  }

  /** A node's own announce, wherever it stands in a buffer, is received with its name. */
  lemma AnnounceRoundTrip(b: Bytes, p: nat, a: Announce)
    requires |b| <= MAX_BUFFER && a.base.header.packetType == TYPE_ANNOUNCE && !a.base.hasPayload
    requires At(b, p, PrintAnnounce(a))
    ensures Receive(b, p) == GotAnnounce(NormalAnnounce(a))
  {
    var h := a.base.header;
    assert Payload(a.base) + Field(a.name, 1) == Field(a.name, 1);
    PrefixRoundTrip(b, p, h, Field(a.name, 1));
    FieldRoundTrip(b, p + 2 + |HeaderFields(h)|, a.name, 1);
  }

  lemma AnnounceSize(a: Announce)
    requires !a.base.hasPayload
    ensures |PrintAnnounce(a)| <= 284
  {
    assert |Cut(a.name, 1)| <= 255;
  }

  /** A relayed announce is 20 bytes, or 28 with a recipient, and is received without a name. */
  lemma RelayedAnnounceRoundTrip(a: PassAlong)
    requires a.header.packetType == TYPE_ANNOUNCE && !a.hasPayload
    ensures |PrintPassAlong(a)| == if a.header.HasRecipient() then 28 else 20
    ensures Receive(PrintPassAlong(a), 0)
            == GotAnnounce(Announce(PassAlong(NormalHeader(a.header), [], false), []))
  {
    hide BigEndian, HeaderFields, ParseHeader, NormalHeader;
    var b := PrintPassAlong(a);
    assert At(b, 0, b);
    PrefixRoundTrip(b, 0, a.header, []);
  }

  // ---- printing again what was parsed ----

  /** A parse that leaves more than 8 bytes behind it never hit the end. */
  lemma HeaderExtent(b: Bytes, p: nat, t: Byte)
    ensures var r := ParseHeader(b, p, t);
            r.pos + 8 <= |b| ==> r.pos == p + |HeaderFields(r.value)|
  {}

  lemma MessageExtent(b: Bytes, p: nat, t: Byte)
    ensures var r := ParseMessage(b, p, t);
            |r.value.content| >= 8
            ==> p + |HeaderFields(r.value.header)| + |MessageFields(r.value)| <= r.pos <= |b|
  {
    HeaderExtent(b, p, t);
    var header := ParseHeader(b, p, t);
    var flags := ReadUint(b, header.pos, 1);
    var timestamp := ReadUint(b, flags.pos, 8);
    var id := ParseField(b, timestamp.pos, 1);
    var nickname := ParseField(b, id.pos, 1);
    var content := ParseField(b, nickname.pos, 2);
    if |content.value| >= 8 {
      assert content.pos <= |b| && content.pos == nickname.pos + 2 + |content.value|;
      FieldExtent(b, id.pos, 1);
      FieldExtent(b, timestamp.pos, 1);
    }
  }

  lemma FieldExtent(b: Bytes, p: nat, w: nat)
    ensures var r := ParseField(b, p, w); r.pos + w <= |b| ==> p + w + |r.value| <= r.pos
  {}

  /** Printing a parsed message never outgrows the buffer a reader can hold. */
  lemma ReprintFits(b: Bytes, offset: nat)
    requires |b| <= MAX_BUFFER && Receive(b, offset).GotMessage?
    ensures var m := Receive(b, offset).message;
            !m.HasSenderPeer() ==> |PrintMessage(m)| <= MAX_BUFFER
  {
    var m := Receive(b, offset).message;
    assert ReadUint(b, offset, 1).pos == offset + 1;
    assert ReadUint(b, offset + 1, 1).pos == offset + 2;
    MessageExtent(b, offset + 2, TYPE_MESSAGE);
    MessageFieldsSize(m);
  }

  lemma MessageFieldsSize(m: Message)
    ensures |MessageFields(m)| <= 523 + |m.content|
  {
    assert |Cut(m.id, 1)| <= 255 && |Cut(m.nickname, 1)| <= 255;
  }

  /** Parsing is a fixpoint: for every buffer, truncated and malformed ones too, printing what was parsed
      and parsing that gives the same message. */
  lemma ParsePrintParse(b: Bytes, offset: nat)
    requires |b| <= MAX_BUFFER && Receive(b, offset).GotMessage?
    requires !Receive(b, offset).message.HasSenderPeer()
    ensures |PrintMessage(Receive(b, offset).message)| <= MAX_BUFFER
    ensures Receive(PrintMessage(Receive(b, offset).message), 0) == Receive(b, offset)
  {
    ReprintFits(b, offset);
    var m := Receive(b, offset).message;
    assert m == NormalMessage(m);
    assert At(PrintMessage(m), 0, PrintMessage(m));
    MessageRoundTrip(PrintMessage(m), 0, m);
  }

  // ---- the de-duplication key of a pass-along packet ----

  /** The header bytes the key is hashed from; the TTL is not among them. */
  function Meta(h: Header): Bytes {
    BigEndian(h.packetType, 1) + (BigEndian(h.flags, 1) + (BigEndian(h.timestamp, 8)
                                  + (BigEndian(h.sender, 8) + BigEndian(h.recipient, 8))))
  }

  datatype PacketHash = PacketHash(bits: bv32)

  function PacketKey(hash: Bytes -> bv32, p: PassAlong): PacketHash {
    PacketHash(Xor(hash(p.payload), Shifted(hash(Meta(p.header)))))
  }

  // The operators as functions, so that proofs need not look at single bits.

  function Xor(a: bv32, b: bv32): bv32 {
    a ^ b
  }

  function Shifted(a: bv32): bv32 {
    a << 1
  }

  /** All bits but the top one. */
  function BelowTop(a: bv32): bv32 {
    a & 0x7FFF_FFFF
  }

  function ShiftedBack(a: bv32): bv32 {
    a >> 1
  }

  /** The shift loses the top bit. */
  lemma ShiftedIff(a: bv32, b: bv32)
    ensures Shifted(a) == Shifted(b) <==> BelowTop(a) == BelowTop(b)
  {
    hide Shifted, BelowTop, ShiftedBack;
    ShiftLosesTop(a);
    ShiftLosesTop(b);
  }

  lemma ShiftLosesTop(a: bv32)
    ensures ShiftedBack(Shifted(a)) == BelowTop(a) && Shifted(BelowTop(a)) == Shifted(a)
  {}

  /** Two keys are the same exactly when the hashes of the payloads differ as the shifted hashes of the headers do:
      of equal payloads, when the hashes of the headers agree in all bits but the top one; of equal headers, when the
      hashes of the payloads are equal. */
  lemma KeysEqualIff(hash: Bytes -> bv32, p: PassAlong, q: PassAlong)
    ensures var same := PacketKey(hash, p) == PacketKey(hash, q);
            && (same <==> Xor(hash(p.payload), hash(q.payload))
                          == Xor(Shifted(hash(Meta(p.header))), Shifted(hash(Meta(q.header)))))
            && (p.payload == q.payload
                ==> (same <==> BelowTop(hash(Meta(p.header))) == BelowTop(hash(Meta(q.header)))))
            && (Meta(p.header) == Meta(q.header) ==> (same <==> hash(p.payload) == hash(q.payload)))
  {
    hide Meta, Xor, Shifted, BelowTop;
    var x, y := Shifted(hash(Meta(p.header))), Shifted(hash(Meta(q.header)));
    ShiftedIff(hash(Meta(p.header)), hash(Meta(q.header)));
    XorMoves(hash(p.payload), x, hash(q.payload), y);
    XorLeft(hash(p.payload), x, y);
    XorRight(hash(p.payload), hash(q.payload), x);
  }

  lemma XorMoves(a: bv32, b: bv32, c: bv32, d: bv32)
    ensures Xor(a, b) == Xor(c, d) <==> Xor(a, c) == Xor(b, d)
  {
    hide Xor;
    if Xor(a, b) == Xor(c, d) {
      XorMoved(a, b, c, d);
    }
    if Xor(a, c) == Xor(b, d) {
      XorMoved(a, c, b, d);
    }
  }

  lemma XorMoved(a: bv32, b: bv32, c: bv32, d: bv32)
    requires Xor(a, b) == Xor(c, d)
    ensures Xor(a, c) == Xor(b, d)
  {
    hide Xor;
    XorUndone(a, b);
    XorUndone(c, d);
    XorCancels(Xor(a, b), b, d);
  }

  lemma XorUndone(a: bv32, b: bv32)
    ensures Xor(Xor(a, b), b) == a
  {}

  lemma XorCancels(x: bv32, b: bv32, d: bv32)
    ensures Xor(Xor(x, b), Xor(x, d)) == Xor(b, d)
  {
    hide Xor;
    XorLaws(Xor(x, b), x, d);
    XorLaws(x, b, d);
    XorUndone(b, x);
  }

  lemma XorLaws(a: bv32, b: bv32, c: bv32)
    ensures Xor(Xor(a, b), c) == Xor(a, Xor(b, c)) && Xor(a, b) == Xor(b, a)
  {}

  lemma XorLeft(a: bv32, b: bv32, d: bv32)
    ensures Xor(a, b) == Xor(a, d) <==> b == d
  {}

  lemma XorRight(a: bv32, c: bv32, b: bv32)
    ensures Xor(a, b) == Xor(c, b) <==> a == c
  {}

  /** Two headers give the same key material exactly when they differ at most in the TTL. */
  lemma MetaIgnoresOnlyTtl(g: Header, h: Header)
    ensures Meta(g) == Meta(h) <==> g.(ttl := 0) == h.(ttl := 0)
  {
    if Meta(g) == Meta(h) {
      MetaRead(g);
      MetaRead(h);
    }
  }

  lemma MetaRead(h: Header)
    ensures var b := Meta(h);
            && ReadUint(b, 0, 1).value == h.packetType && ReadUint(b, 1, 1).value == h.flags
            && ReadUint(b, 2, 8).value == h.timestamp && ReadUint(b, 10, 8).value == h.sender
            && ReadUint(b, 18, 8).value == h.recipient
  {
    var b := Meta(h);
    var tail3 := BigEndian(h.sender, 8) + BigEndian(h.recipient, 8);
    var tail2 := BigEndian(h.timestamp, 8) + tail3;
    var tail1 := BigEndian(h.flags, 1) + tail2;
    AtSplit(b, 0, BigEndian(h.packetType, 1), tail1);
    AtSplit(b, 1, BigEndian(h.flags, 1), tail2);
    AtSplit(b, 2, BigEndian(h.timestamp, 8), tail3);
    AtSplit(b, 10, BigEndian(h.sender, 8), BigEndian(h.recipient, 8));
    ReadUintAt(b, 0, h.packetType, 1);
    ReadUintAt(b, 1, h.flags, 1);
    ReadUintAt(b, 2, h.timestamp, 8);
    ReadUintAt(b, 10, h.sender, 8);
    ReadUintAt(b, 18, h.recipient, 8);
  }

  /** A parsed announce keeps its key through the sliced store, the air and the next parse, whatever happens
      to its name. */
  lemma RelayKeepsKey(hash: Bytes -> bv32, a: PassAlong)
    requires a.header.packetType == TYPE_ANNOUNCE && !a.hasPayload && a.payload == []
    requires a.header == NormalHeader(a.header)
    ensures var r := Receive(PrintPassAlong(a), 0);
            r.GotAnnounce? && r.announce.name == [] && r.announce.base == a
            && PacketKey(hash, r.announce.base) == PacketKey(hash, a)
  {
    RelayedAnnounceRoundTrip(a);
  }

  // ---- the identifier a node gives its own messages ----

  /** Milliseconds, a dash and the sender, the milliseconds going through the 32-bit writer. */
  function OwnMessageId(timestampMs: U64, sender: U64): Bytes {
    BigEndian(timestampMs % 0x1_0000, 4) + (BigEndian(0x2D, 1) + BigEndian(sender, 8))
  }

  /** Two of a node's own messages get the same identifier, and so count as one message, exactly when their
      times agree modulo 65536 ms. */
  lemma OwnMessageIdsCollide(t: U64, u: U64, sender: U64, other: U64)
    ensures OwnMessageId(t, sender) == OwnMessageId(u, other) <==> t % 0x1_0000 == u % 0x1_0000 && sender == other
  {
    if OwnMessageId(t, sender) == OwnMessageId(u, other) {
      OwnMessageIdRead(t, sender);
      OwnMessageIdRead(u, other);
    }
  }

  lemma OwnMessageIdRead(t: U64, sender: U64)
    ensures ReadUint(OwnMessageId(t, sender), 0, 4).value == t % 0x1_0000
    ensures ReadUint(OwnMessageId(t, sender), 5, 8).value == sender
  {
    var b := OwnMessageId(t, sender);
    AtSplit(b, 0, BigEndian(t % 0x1_0000, 4), BigEndian(0x2D, 1) + BigEndian(sender, 8));
    AtSplit(b, 4, BigEndian(0x2D, 1), BigEndian(sender, 8));
    ReadUintAt(b, 0, t % 0x1_0000, 4);
    ReadUintAt(b, 5, sender, 8);
  }

  // ---- the same through the reader and the writer ----

  method ReadHeader(reader: BinaryReader, packetType: Byte) returns (h: Header)
    modifies reader
    ensures Read(h, reader.pos) == ParseHeader(reader.buffer, old(reader.pos), packetType)
  {
    var ttl := reader.ReadUint8();
    var timestamp := reader.ReadUint64();
    var flags := reader.ReadUint8();
    var sender := reader.ReadUint64();
    var recipient: U64 := 0;
    if flags % 2 == 1 {
      recipient := reader.ReadUint64();
    }
    h := Header(packetType, ttl, timestamp, flags, sender, recipient);
  }

  method ReadField8(reader: BinaryReader) returns (s: Bytes)
    modifies reader
    ensures Read(s, reader.pos) == ParseField(reader.buffer, old(reader.pos), 1)
  {
    var len := reader.ReadUint8();
    var data := reader.ReadBlock(len);
    s := if data.Some? then data.value else [];
  }

  method ReadMessage(reader: BinaryReader, packetType: Byte) returns (m: Message)
    modifies reader
    ensures Read(m, reader.pos) == ParseMessage(reader.buffer, old(reader.pos), packetType)
  {
    var header := ReadHeader(reader, packetType);
    var flags := reader.ReadUint8();
    var timestamp := reader.ReadUint64();
    var id := ReadField8(reader);
    var nickname := ReadField8(reader);
    var len := reader.ReadUint16();
    var data := reader.ReadBlock(len);
    var content := if data.Some? then data.value else [];
    m := Message(header, flags, timestamp, id, nickname, content, None);
  }

  method ReadPassAlong(reader: BinaryReader, packetType: Byte, hasPayload: bool) returns (p: PassAlong)
    modifies reader
    ensures Read(p, reader.pos) == ParsePassAlong(reader.buffer, old(reader.pos), packetType, hasPayload)
  {
    var header := ReadHeader(reader, packetType);
    var payload: Bytes := [];
    if hasPayload {
      var len := reader.RemainderLen();
      var data := reader.ReadBlock(len);
      if data.Some? {
        payload := data.value;
      }
    }
    p := PassAlong(header, payload, hasPayload);
  }

  method ReadAnnounce(reader: BinaryReader, packetType: Byte) returns (a: Announce)
    modifies reader
    ensures Read(a, reader.pos) == ParseAnnounce(reader.buffer, old(reader.pos), packetType)
  {
    var base := ReadPassAlong(reader, packetType, false);
    var name := ReadField8(reader);
    a := Announce(base, name);
  }

  method WriteHeaderFields(writer: BinaryWriter, h: Header)
    modifies writer
    ensures writer.vector == old(writer.vector) + HeaderFields(h)
  {
    hide BigEndian;
    ghost var start := writer.vector;
    writer.WriteUint8(h.ttl);
    writer.WriteUint64(h.timestamp);
    writer.WriteUint8(h.flags);
    writer.WriteUint64(h.sender);
    Regroup(start, BigEndian(h.ttl, 1), BigEndian(h.timestamp, 8),
            BigEndian(h.flags, 1) + (BigEndian(h.sender, 8) + Recipient(h)));
    Regroup(start + BigEndian(h.ttl, 1) + BigEndian(h.timestamp, 8), BigEndian(h.flags, 1), BigEndian(h.sender, 8),
            Recipient(h));
    if h.HasRecipient() {
      writer.WriteUint64(h.recipient);
    }
  }

  lemma Regroup(a: Bytes, b: Bytes, c: Bytes, d: Bytes)
    ensures a + b + c + d == a + (b + (c + d))
    ensures a + [] == a
  {}

  /** The base writes the version and the type before any payload. */
  method WritePrefix(writer: BinaryWriter, h: Header)
    modifies writer
    ensures forall body :: writer.vector + body == old(writer.vector) + PrintWith(h, body)
  {
    writer.WriteUint8(VERSION);
    writer.WriteUint8(h.packetType);
    WriteHeaderFields(writer, h);
  }

  method WriteField8(writer: BinaryWriter, s: Bytes)
    modifies writer
    ensures writer.vector == old(writer.vector) + Field(s, 1)
  {
    var len := Min(255, |s|);
    assert s[..len] == Cut(s, 1);
    writer.WriteUint8(len);
    writer.WriteData(s, len);
  }

  method WriteContent(writer: BinaryWriter, s: Bytes)
    modifies writer
    ensures writer.vector == old(writer.vector) + Field(s, 2)
  {
    var len := Min(65535, |s|);
    assert s[..len] == Cut(s, 2);
    writer.WriteUint16(len);
    writer.WriteData(s, len);
  }

  method WriteMessageStrings(writer: BinaryWriter, m: Message)
    modifies writer
    ensures writer.vector == old(writer.vector) + MessageStrings(m)
  {
    hide Field;
    Regroup(writer.vector, Field(m.id, 1), Field(m.nickname, 1), Field(m.content, 2));
    WriteField8(writer, m.id);
    WriteField8(writer, m.nickname);
    WriteContent(writer, m.content);
  }

  method WriteMessageFields(writer: BinaryWriter, m: Message)
    modifies writer
    ensures writer.vector == old(writer.vector) + MessageFields(m)
  {
    ghost var start := writer.vector;
    writer.WriteUint8(m.messageFlags);
    writer.WriteUint64(m.messageTimestamp);
    WriteMessageStrings(writer, m);
    assert writer.vector == start + (BigEndian(m.messageFlags, 1)
                                     + (BigEndian(m.messageTimestamp, 8) + MessageStrings(m)));
  }

  method WriteSenderPeer(writer: BinaryWriter, m: Message)
    requires Printable(m)
    modifies writer
    ensures writer.vector == old(writer.vector) + SenderPeer(m)
  {
    if m.HasSenderPeer() {
      ghost var start := writer.vector;
      writer.WriteUint8(16);
      writer.WriteUint64(m.senderPeer.value);
      assert writer.vector == start + (BigEndian(16, 1) + BigEndian(m.senderPeer.value, 8));
    }
  }

  method WriteMessage(writer: BinaryWriter, m: Message)
    requires Printable(m)
    modifies writer
    ensures writer.vector == old(writer.vector) + PrintMessage(m)
  {
    hide BigEndian, HeaderFields, MessageFields, SenderPeer;
    WritePrefix(writer, m.header);
    ghost var prefix := writer.vector;
    WriteMessageFields(writer, m);
    WriteSenderPeer(writer, m);
    assert writer.vector == prefix + (MessageFields(m) + SenderPeer(m));
  }

  method WritePassAlong(writer: BinaryWriter, p: PassAlong)
    modifies writer
    ensures writer.vector == old(writer.vector) + PrintPassAlong(p)
  {
    WritePrefix(writer, p.header);
    if p.hasPayload {
      writer.WriteData(p.payload, |p.payload| % 0x1_0000);
    }
  }

  method WriteAnnounce(writer: BinaryWriter, a: Announce)
    modifies writer
    ensures writer.vector == old(writer.vector) + PrintAnnounce(a)
  {
    WritePassAlong(writer, a.base);
    WriteField8(writer, a.name);
  }

  method WriteOwnMessageId(writer: BinaryWriter, timestampMs: U64, sender: U64)
    modifies writer
    ensures writer.vector == old(writer.vector) + OwnMessageId(timestampMs, sender)
  {
    writer.WriteUint32(timestampMs);
    writer.WriteUint8(0x2D);
    writer.WriteUint64(sender);
  }

  /** The key is hashed from bytes written to a local buffer. */
  method GetPacketHash(hash: Bytes -> bv32, p: PassAlong) returns (key: PacketHash)
    ensures key == PacketKey(hash, p)
  {
    var writer := new BinaryWriter();
    writer.WriteUint8(p.header.packetType);
    writer.WriteUint8(p.header.flags);
    writer.WriteUint64(p.header.timestamp);
    writer.WriteUint64(p.header.sender);
    writer.WriteUint64(p.header.recipient);
    assert writer.vector == Meta(p.header);
    key := PacketHash(hash(p.payload) ^ (hash(writer.vector) << 1));
  }
}
