/** Where the fields of a packet lie in its bytes, for printing and for reading. */
module Layout {
  import opened Binary
  import opened Packets

  /** A header, from the version byte on. */
  ghost predicate HeaderLies(b: Bytes, p: nat, version: Byte, h: Header) {
    && p + 20 <= |b|
    && b[p] == version && b[p + 1] == h.packetType && b[p + 2] == h.ttl
    && Value(b[p + 3..p + 11]) == h.timestamp
    && b[p + 11] == h.flags
    && Value(b[p + 12..p + 20]) == h.sender
    && (h.flags % 2 == 1 ==> p + 28 <= |b| && Value(b[p + 20..p + 28]) == h.recipient)
  }

  /** Where the body begins. */
  function BodyAt(p: nat, h: Header): nat {
    if h.flags % 2 == 1 then p + 28 else p + 20
  }

  /** A string behind a length of one byte, or of two. */
  ghost predicate ShortLies(b: Bytes, p: nat, s: Bytes) {
    p + 1 + |s| <= |b| && b[p] == |s| && b[p + 1..p + 1 + |s|] == s
  }

  ghost predicate LongLies(b: Bytes, p: nat, s: Bytes) {
    p + 2 + |s| <= |b| && Value(b[p..p + 2]) == |s| && b[p + 2..p + 2 + |s|] == s
  }

  /** The fields of a message, from its flags to its content. */
  ghost predicate MessageLies(b: Bytes, p: nat, m: Message) {
    && p + 9 <= |b| && b[p] == m.messageFlags && Value(b[p + 1..p + 9]) == m.messageTimestamp
    && StringsLie(b, p + 9, m)
  }

  ghost predicate StringsLie(b: Bytes, p: nat, m: Message) {
    && ShortLies(b, p, m.id)
    && ShortLies(b, p + 1 + |m.id|, m.nickname)
    && LongLies(b, p + 2 + |m.id| + |m.nickname|, m.content)
  }

  /** A string as it is printed behind a length that goes up to `max`. */
  function UpTo(s: Bytes, max: nat): Bytes {
    if |s| <= max then s else s[..max]
  }

  // ---- printing ----

  lemma NumberLies(b: Bytes, p: nat, v: nat, n: nat)
    requires v < Pow256(n) && At(b, p, BigEndian(v, n))
    ensures p + n <= |b| && Value(b[p..p + n]) == v
    ensures n == 1 ==> b[p] == v
  {
    ValueOfBigEndian(v, n);
    if n == 1 {
      ValueStep(b[p..p + 1], 1);
    }
  }

  /** Every printed packet begins with version 1, its type and its header; its body follows. */
  lemma PrintedHeader(h: Header, body: Bytes)
    ensures var b := PrintWith(h, body);
            HeaderLies(b, 0, 1, h) && |b| == BodyAt(0, h) + |body| && b[BodyAt(0, h)..] == body
  {
    hide BigEndian;
    var b := PrintWith(h, body);
    var tail := BigEndian(h.sender, 8) + Recipient(h);
    assert At(b, 0, b);
    AtSplit(b, 0, BigEndian(VERSION, 1), BigEndian(h.packetType, 1) + (HeaderFields(h) + body));
    AtSplit(b, 1, BigEndian(h.packetType, 1), HeaderFields(h) + body);
    AtSplit(b, 2, HeaderFields(h), body);
    AtSplit(b, 2, BigEndian(h.ttl, 1), BigEndian(h.timestamp, 8) + (BigEndian(h.flags, 1) + tail));
    AtSplit(b, 3, BigEndian(h.timestamp, 8), BigEndian(h.flags, 1) + tail);
    AtSplit(b, 11, BigEndian(h.flags, 1), tail);
    AtSplit(b, 12, BigEndian(h.sender, 8), Recipient(h));
    NumberLies(b, 0, VERSION, 1);
    NumberLies(b, 1, h.packetType, 1);
    NumberLies(b, 2, h.ttl, 1);
    NumberLies(b, 3, h.timestamp, 8);
    NumberLies(b, 11, h.flags, 1);
    NumberLies(b, 12, h.sender, 8);
    if h.HasRecipient() {
      NumberLies(b, 20, h.recipient, 8);
    }
  }

  lemma PrintedShort(b: Bytes, p: nat, s: Bytes)
    requires At(b, p, Field(s, 1))
    ensures ShortLies(b, p, UpTo(s, 255)) && |Field(s, 1)| == 1 + |UpTo(s, 255)|
  {
    hide BigEndian;
    assert Cut(s, 1) == UpTo(s, 255);
    AtSplit(b, p, BigEndian(|Cut(s, 1)|, 1), Cut(s, 1));
    NumberLies(b, p, |Cut(s, 1)|, 1);
  }

  lemma PrintedLong(b: Bytes, p: nat, s: Bytes)
    requires At(b, p, Field(s, 2))
    ensures LongLies(b, p, UpTo(s, 65535)) && |Field(s, 2)| == 2 + |UpTo(s, 65535)|
  {
    hide BigEndian;
    assert Cut(s, 2) == UpTo(s, 65535);
    AtSplit(b, p, BigEndian(|Cut(s, 2)|, 2), Cut(s, 2));
    NumberLies(b, p, |Cut(s, 2)|, 2);
  }

  function AsPrinted(m: Message): Message {
    m.(id := UpTo(m.id, 255), nickname := UpTo(m.nickname, 255), content := UpTo(m.content, 65535))
  }

  lemma PrintedStrings(b: Bytes, p: nat, m: Message)
    requires At(b, p, MessageStrings(m))
    ensures StringsLie(b, p, AsPrinted(m))
    ensures var c := AsPrinted(m); |MessageStrings(m)| == 4 + |c.id| + |c.nickname| + |c.content|
  {
    hide ShortLies, LongLies, Field, UpTo, At;
    var id, nickname, content := Field(m.id, 1), Field(m.nickname, 1), Field(m.content, 2);
    AtSplit(b, p, id, nickname + content);
    AtSplit(b, p + |id|, nickname, content);
    PrintedShort(b, p, m.id);
    PrintedShort(b, p + |id|, m.nickname);
    PrintedLong(b, p + |id| + |nickname|, m.content);
  }

  lemma PrintedFields(b: Bytes, p: nat, m: Message)
    requires At(b, p, MessageFields(m))
    ensures MessageLies(b, p, AsPrinted(m))
    ensures var c := AsPrinted(m); |MessageFields(m)| == 13 + |c.id| + |c.nickname| + |c.content|
  {
    hide BigEndian, MessageStrings, StringsLie, UpTo;
    AtSplit(b, p, BigEndian(m.messageFlags, 1), BigEndian(m.messageTimestamp, 8) + MessageStrings(m));
    AtSplit(b, p + 1, BigEndian(m.messageTimestamp, 8), MessageStrings(m));
    NumberLies(b, p, m.messageFlags, 1);
    NumberLies(b, p + 1, m.messageTimestamp, 8);
    PrintedStrings(b, p + 9, m);
  }

  /** A printed message: header, flags, time, the three strings as far as their lengths go, and under the peer flag
      a 16 and the peer. */
  lemma PrintedMessage(m: Message)
    requires Printable(m)
    ensures var b, p, c := PrintMessage(m), BodyAt(0, m.header), AsPrinted(m);
            var end := p + 13 + |c.id| + |c.nickname| + |c.content|;
            && HeaderLies(b, 0, 1, m.header) && MessageLies(b, p, c)
            && (m.messageFlags / 16 % 2 == 0 ==> |b| == end)
            && (m.messageFlags / 16 % 2 == 1
                ==> |b| == end + 9 && b[end] == 16 && Some(Value(b[end + 1..])) == m.senderPeer)
  {
    hide BigEndian, HeaderFields, MessageFields, HeaderLies, MessageLies, SenderPeer, Value;
    var b, p := PrintMessage(m), BodyAt(0, m.header);
    PrintedHeader(m.header, MessageFields(m) + SenderPeer(m));
    assert At(b, p, MessageFields(m) + SenderPeer(m));
    AtSplit(b, p, MessageFields(m), SenderPeer(m));
    PrintedFields(b, p, m);
    PrintedPeer(b, p + |MessageFields(m)|, m);
  }

  lemma PrintedPeer(b: Bytes, p: nat, m: Message)
    requires Printable(m) && At(b, p, SenderPeer(m)) && |b| == p + |SenderPeer(m)|
    ensures m.messageFlags / 16 % 2 == 0 ==> |b| == p
    ensures m.messageFlags / 16 % 2 == 1
            ==> |b| == p + 9 && b[p] == 16 && Some(Value(b[p + 1..])) == m.senderPeer
  {
    hide BigEndian, Value;
    if m.HasSenderPeer() {
      AtSplit(b, p, BigEndian(16, 1), BigEndian(m.senderPeer.value, 8));
      NumberLies(b, p, 16, 1);
      NumberLies(b, p + 1, m.senderPeer.value, 8);
      assert b[p + 1..p + 9] == b[p + 1..];
    }
  }

  /** A printed pass-along packet: header and, if it has one, payload, whose length goes through 16 bits. */
  lemma PrintedPassAlong(p: PassAlong)
    ensures var b := PrintPassAlong(p);
            && HeaderLies(b, 0, 1, p.header)
            && b[BodyAt(0, p.header)..] == if p.hasPayload then p.payload[..|p.payload| % 65536] else []
  {
    PrintedHeader(p.header, Payload(p));
  }

  /** A printed announce: header and name, as far as its length goes. */
  lemma PrintedAnnounce(a: Announce)
    requires !a.base.hasPayload
    ensures var b, p, name := PrintAnnounce(a), BodyAt(0, a.base.header), UpTo(a.name, 255);
            HeaderLies(b, 0, 1, a.base.header) && ShortLies(b, p, name) && |b| == p + 1 + |name|
  {
    hide BigEndian, HeaderFields, Field;
    var b, p := PrintAnnounce(a), BodyAt(0, a.base.header);
    assert Payload(a.base) + Field(a.name, 1) == Field(a.name, 1);
    PrintedHeader(a.base.header, Field(a.name, 1));
    assert At(b, p, Field(a.name, 1));
    PrintedShort(b, p, a.name);
  }

  /** The bytes a pass-along packet's key is hashed from. */
  lemma MetaLies(h: Header)
    ensures var b := Meta(h);
            && |b| == 26 && b[0] == h.packetType && b[1] == h.flags && Value(b[2..10]) == h.timestamp
            && Value(b[10..18]) == h.sender && Value(b[18..]) == h.recipient
  {
    hide BigEndian;
    MetaRead(h);
    OneByte(Meta(h), 0);
    OneByte(Meta(h), 1);
    assert Meta(h)[18..26] == Meta(h)[18..];
  }

  /** A node's own message identifier: four bytes of which the time fills two, a dash, the sender. */
  lemma OwnMessageIdLies(timestampMs: U64, sender: U64)
    ensures var b := OwnMessageId(timestampMs, sender);
            && |b| == 13 && b[0] == 0 && b[1] == 0 && Value(b[2..4]) == timestampMs % 65536
            && b[4] == 0x2D && Value(b[5..]) == sender
  {
    hide BigEndian;
    var b, t := OwnMessageId(timestampMs, sender), timestampMs % 65536;
    AtSplit(b, 0, BigEndian(t, 4), BigEndian(0x2D, 1) + BigEndian(sender, 8));
    AtSplit(b, 4, BigEndian(0x2D, 1), BigEndian(sender, 8));
    BigEndianFour(t);
    ValueOfTwo(b[2..4]);
    NumberLies(b, 4, 0x2D, 1);
    NumberLies(b, 5, sender, 8);
    assert b[5..13] == b[5..];
  }

  // ---- reading ----

  /** What becomes of received bytes is decided by the first two. */
  lemma ReceivedByType(b: Bytes, p: nat)
    requires |b| <= MAX_BUFFER
    ensures var known := p + 1 < |b| && (b[p] == 1 || b[p] == 2);
            && (Receive(b, p).GotAnnounce? <==> known && b[p + 1] == 0x41)
            && (Receive(b, p).GotMessage? <==> known && b[p + 1] == 0x42)
  {
    hide ParseAnnounce, ParseMessage;
    if p < |b| {
      ValueStep(b[p..p + 1], 1);
    }
    if p + 1 < |b| {
      ValueStep(b[p + 1..p + 2], 1);
    }
  }

  /** A parsed header, with `n` bytes left for it: where a number is not all there it is read as 0, and the next
      one is looked for at the same place. */
  lemma ParsedHeader(b: Bytes, p: nat, packetType: Byte, n: nat)
    requires p + n == |b|
    ensures var (h, pos) := (ParseHeader(b, p, packetType).value, ParseHeader(b, p, packetType).pos);
            && h.packetType == packetType
            && h.ttl == (if n >= 1 then b[p] else 0)
            && h.timestamp == (if n >= 9 then Value(b[p + 1..p + 9]) else 0)
            && h.flags == (if n >= 10 then b[p + 9] else if 2 <= n < 9 then b[p + 1] else 0)
            && h.sender == (if n >= 18 then Value(b[p + 10..p + 18]) else 0)
            && h.recipient == (if n >= 26 && b[p + 9] % 2 == 1 then Value(b[p + 18..p + 26]) else 0)
            && pos == p + (if n >= 26 && b[p + 9] % 2 == 1 then 26 else if n >= 18 then 18 else if n >= 10 then 10
                           else if n == 9 then 9 else if n >= 2 then 2 else n)
  {
    if n >= 1 {
      ValueStep(b[p..p + 1], 1);
    }
    if n >= 2 {
      ValueStep(b[p + 1..p + 2], 1);
    }
    if n >= 10 {
      ValueStep(b[p + 9..p + 10], 1);
    }
  }

  /** A parsed string: empty when not all of it is there. */
  lemma ParsedShort(b: Bytes, p: nat)
    ensures ParseField(b, p, 1) == if p < |b| && p + 1 + b[p] <= |b| then Read(b[p + 1..p + 1 + b[p]], p + 1 + b[p])
                                   else Read([], if p < |b| then p + 1 else p)
  {
    if p < |b| {
      ValueStep(b[p..p + 1], 1);
    }
  }

  lemma ParsedLong(b: Bytes, p: nat)
    ensures ParseField(b, p, 2)
            == if p + 1 < |b| && p + 2 + Value(b[p..p + 2]) <= |b|
               then Read(b[p + 2..p + 2 + Value(b[p..p + 2])], p + 2 + Value(b[p..p + 2]))
               else Read([], if p + 1 < |b| then p + 2 else p)
  {}

  /** A message that lies in a buffer with version 1 or 2 in front is received in every field. */
  lemma MessageIsRead(b: Bytes, p: nat, version: Byte, m: Message)
    requires |b| <= MAX_BUFFER && HeaderLies(b, p, version, m.header) && MessageLies(b, BodyAt(p, m.header), m)
    requires 1 <= version <= 2 && m.header.packetType == 0x42 && m.senderPeer.None?
    requires m.header.flags % 2 == 0 ==> m.header.recipient == 0
    ensures Receive(b, p) == GotMessage(m)
  {
    hide ParseHeader, ParseMessage, Value, MessageLies;
    FirstTwo(b, p);
    ParsedHeader(b, p + 2, 0x42, |b| - p - 2);
    ParsedMessage(b, p + 2, BodyAt(p, m.header), m);
  }

  lemma ParsedMessage(b: Bytes, p: nat, q: nat, m: Message)
    requires ParseHeader(b, p, 0x42) == Read(m.header, q) && MessageLies(b, q, m) && m.senderPeer.None?
    ensures ParseMessage(b, p, 0x42).value == m
  {
    hide ParseHeader, ParseField, Value;
    OneByte(b, q);
    ParsedStrings(b, q + 9, m);
  }

  lemma ParsedStrings(b: Bytes, p: nat, m: Message)
    requires StringsLie(b, p, m)
    ensures ParseField(b, p, 1) == Read(m.id, p + 1 + |m.id|)
    ensures ParseField(b, p + 1 + |m.id|, 1) == Read(m.nickname, p + 2 + |m.id| + |m.nickname|)
    ensures ParseField(b, p + 2 + |m.id| + |m.nickname|, 2).value == m.content
  {
    hide ParseField, Value;
    ParsedShort(b, p);
    ParsedShort(b, p + 1 + |m.id|);
    ParsedLong(b, p + 2 + |m.id| + |m.nickname|);
  }

  /** A pass-along packet that has a payload takes all that is left. */
  lemma ParsedPayload(b: Bytes, p: nat, packetType: Byte)
    requires p <= |b| <= MAX_BUFFER
    ensures var header := ParseHeader(b, p, packetType);
            ParsePassAlong(b, p, packetType, true) == Read(PassAlong(header.value, b[header.pos..], true), |b|)
  {
    hide ParseHeader;
    var q := ParseHeader(b, p, packetType).pos;
    assert b[q..q + (|b| - q)] == b[q..];
  }

  /** And so is an announce. */
  lemma AnnounceIsRead(b: Bytes, p: nat, version: Byte, h: Header, name: Bytes)
    requires |b| <= MAX_BUFFER && HeaderLies(b, p, version, h) && ShortLies(b, BodyAt(p, h), name)
    requires 1 <= version <= 2 && h.packetType == 0x41 && (h.flags % 2 == 0 ==> h.recipient == 0)
    ensures Receive(b, p) == GotAnnounce(Announce(PassAlong(h, [], false), name))
  {
    hide ParseHeader, ParseField, Value;
    FirstTwo(b, p);
    ParsedHeader(b, p + 2, 0x41, |b| - p - 2);
    ParsedShort(b, BodyAt(p, h));
  }

  lemma OneByte(b: Bytes, p: nat)
    requires p < |b|
    ensures ReadUint(b, p, 1) == Read(b[p], p + 1)
  {
    ValueStep(b[p..p + 1], 1);
  }

  lemma FirstTwo(b: Bytes, p: nat)
    requires p + 1 < |b|
    ensures ReadUint(b, p, 1) == Read(b[p], p + 1) && ReadUint(b, p + 1, 1) == Read(b[p + 1], p + 2)
  {
    OneByte(b, p);
    OneByte(b, p + 1);
  }
}
