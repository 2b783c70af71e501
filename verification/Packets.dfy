/** The CONNECT, PUBLISH and SUBSCRIBE decoders (sections 3.1, 3.3 and 3.8 of MQTT 3.1.1), the printers
    a client uses, and the inverse laws between them. */
module Packets {
  import opened Sequences
  import opened Wire
  import opened Framing

  // ----- SUBSCRIBE -----

  datatype Subscription = Subscription(filter: Bytes, qos: byte)

  datatype Subscribe = Subscribe(packetId: uint16, subscriptions: seq<Subscription>)

  function PrintSubscriptions(subs: seq<Subscription>): Bytes {
    if subs == [] then [] else WrittenString(subs[0].filter) + [subs[0].qos] + PrintSubscriptions(subs[1..])
  }

  function PrintSubscribe(p: Subscribe): Bytes { Int16(p.packetId) + PrintSubscriptions(p.subscriptions) }

  predicate GoodSubscription(sub: Subscription) { |sub.filter| < 65536 && sub.qos <= 2 }

  predicate GoodSubscribe(p: Subscribe) {
    p.subscriptions != [] && forall sub | sub in p.subscriptions :: GoodSubscription(sub)
  }

  function SubscriptionAhead(s: Bytes): Parsed<Subscription> {
    match StringAhead(s)
    case Failed(_) => Failed(TruncatedData)
    case Got(filter, rest) =>
      if rest == [] then Failed(TruncatedData)
      else if rest[0] > 2 then Failed(InvalidQoS)
      else Got(Subscription(filter, rest[0]), rest[1..])
  }

  function SubscriptionsAhead(s: Bytes): Result<seq<Subscription>>
    decreases |s|
  {
    if s == [] then Ok([]) else
      match SubscriptionAhead(s)
      case Failed(e) => Err(e)
      case Got(sub, rest) =>
        match SubscriptionsAhead(rest)
        case Err(e) => Err(e)
        case Ok(subs) => Ok([sub] + subs)
  }

  function DecodedSubscribe(data: Bytes): Result<Subscribe> {
    if |data| < 5 then Err(EmptyPayload) else
      match SubscriptionsAhead(data[2..])
      case Err(e) => Err(e)
      case Ok(subs) => Ok(Subscribe(Int16At(data), subs))
  }

  function Prepended(subs: seq<Subscription>, r: Result<seq<Subscription>>): Result<seq<Subscription>> {
    if r.Ok? then Ok(subs + r.value) else r
  }

  method ReadSubscription(reader: Reader) returns (r: Result<Subscription>)
    requires reader.Valid()
    modifies reader
    ensures reader.Valid()
    ensures r == SubscriptionAhead(old(reader.Rest())).Outcome()
    ensures r.Ok? ==> reader.Rest() == SubscriptionAhead(old(reader.Rest())).rest
  {
    var filter := ReadString(reader);
    if filter.Err? {
      return Err(TruncatedData);
    }
    var qosBuf, err := reader.ReadFull(1);
    if err {
      return Err(TruncatedData);
    }
    var qos: byte := qosBuf[0] % 4;
    if qosBuf[0] > 2 {
      return Err(InvalidQoS);
    }
    return Ok(Subscription(filter.value, qos));
  }

  lemma {:induction false} SubscriptionTaken(subs: seq<Subscription>, s: Bytes)
    requires s != []
    ensures var p := SubscriptionAhead(s);
      Prepended(subs, SubscriptionsAhead(s))
      == if p.Got? then Prepended(subs + [p.value], SubscriptionsAhead(p.rest)) else Err(p.error)
  {
    var p := SubscriptionAhead(s);
    if p.Got? && SubscriptionsAhead(p.rest).Ok? {
      var tail := SubscriptionsAhead(p.rest).value;
      assert subs + ([p.value] + tail) == subs + [p.value] + tail;
    }
  }

  method ReadSubscriptions(reader: Reader) returns (r: Result<seq<Subscription>>)
    requires reader.Valid()
    modifies reader
    ensures r == SubscriptionsAhead(old(reader.Rest()))
  {
    var subs: seq<Subscription> := [];
    ghost var all := SubscriptionsAhead(reader.Rest());
    assert all.Ok? ==> [] + all.value == all.value;
    while reader.Len() > 0
      invariant reader.Valid()
      invariant all == Prepended(subs, SubscriptionsAhead(reader.Rest()))
      decreases |reader.Rest()|
    {
      SubscriptionTaken(subs, reader.Rest());
      var sub := ReadSubscription(reader);
      if sub.Err? {
        return Err(sub.error);
      }
      subs := subs + [sub.value];
    }
    assert reader.Rest() == [] && subs + [] == subs;
    return Ok(subs);
  }

  method DecodeSubscribe(data: Bytes) returns (r: Result<Subscribe>)
    ensures r == DecodedSubscribe(data)
  {
    if |data| < 5 {
      return Err(EmptyPayload);
    }
    var reader := new Reader(data);
    var pidBuf, err := reader.ReadFull(2);
    if err {
      return Err(TruncatedData);
    }
    var packetId := Int16At(pidBuf);
    var subs := ReadSubscriptions(reader);
    if subs.Err? {
      return Err(subs.error);
    }
    if |subs.value| == 0 {
      return Err(EmptyPayload);
    }
    return Ok(Subscribe(packetId, subs.value));
  }

  lemma {:induction false} SubscriptionsRoundTrip(subs: seq<Subscription>)
    requires forall sub | sub in subs :: GoodSubscription(sub)
    ensures SubscriptionsAhead(PrintSubscriptions(subs)) == Ok(subs)
  {
    if subs != [] {
      assert GoodSubscription(subs[0]);
      var tail := PrintSubscriptions(subs[1..]);
      StringRoundTrip(subs[0].filter, [subs[0].qos] + tail);
      Assoc(WrittenString(subs[0].filter), [subs[0].qos], tail);
      Parts([subs[0].qos], tail);
      assert SubscriptionAhead(PrintSubscriptions(subs)) == Got(subs[0], tail);
      SubscriptionsRoundTrip(subs[1..]);
      assert [subs[0]] + subs[1..] == subs;
    }
  }

  lemma {:induction false} SubscriptionsReprint(s: Bytes)
    requires SubscriptionsAhead(s).Ok?
    ensures var subs := SubscriptionsAhead(s).value;
      PrintSubscriptions(subs) == s && (forall sub | sub in subs :: GoodSubscription(sub)) && 3 * |subs| <= |s|
    decreases |s|
  {
    if s != [] {
      StringReprint(s);
      var rest := StringAhead(s).rest;
      SubscriptionsReprint(rest[1..]);
      assert rest == [rest[0]] + rest[1..];
      Assoc(WrittenString(StringAhead(s).value), [rest[0]], rest[1..]);
    }
  }

  /** What the decoder accepts prints back to the identical bytes. */
  lemma SubscribeReprint(data: Bytes)
    requires DecodedSubscribe(data).Ok?
    ensures var p := DecodedSubscribe(data).value;
      PrintSubscribe(p) == data && GoodSubscribe(p) && 2 + 3 * |p.subscriptions| <= |data|
  {
    SubscriptionsReprint(data[2..]);
    Int16RoundTrip(0, data);
    assert data == data[..2] + data[2..];
  }

  /** A printed subscribe decodes to itself exactly when its list is nonempty, its filters fit their
      length prefix and its QoS values are at most 2. */
  lemma SubscribeRoundTrip(p: Subscribe)
    ensures DecodedSubscribe(PrintSubscribe(p)) == Ok(p) <==> GoodSubscribe(p)
  {
    var data := PrintSubscribe(p);
    if GoodSubscribe(p) {
      SubscriptionsRoundTrip(p.subscriptions);
      Int16RoundTrip(p.packetId, PrintSubscriptions(p.subscriptions));
      assert data[2..] == PrintSubscriptions(p.subscriptions);
    } else if DecodedSubscribe(data).Ok? {
      SubscribeReprint(data);
    }
  }

  // ----- PUBLISH -----

  datatype Publish = Publish(dup: bool, qos: byte, retain: bool, topic: Bytes, packetId: uint16, payload: Bytes)

  function PublishFlags(p: Publish): nibble
    requires p.qos <= 3
  {
    (if p.dup then 8 else 0) + p.qos * 2 + (if p.retain then 1 else 0)
  }

  function PrintPublish(p: Publish): Bytes {
    WrittenString(p.topic) + (if p.qos > 0 then Int16(p.packetId) else []) + p.payload
  }

  predicate GoodPublish(p: Publish) {
    p.qos <= 2 && 0 < |p.topic| < 65536 && (p.qos == 0 ==> p.packetId == 0)
  }

  function PublishAhead(flags: nibble, topic: Bytes, rest: Bytes): Result<Publish> {
    var dup, qos, retain := flags / 8 == 1, flags / 2 % 4, flags % 2 == 1;
    if qos == 0 then Ok(Publish(dup, qos, retain, topic, 0, rest))
    else if |rest| < 2 then Err(TruncatedData)
    else Ok(Publish(dup, qos, retain, topic, Int16At(rest), rest[2..]))
  }

  function DecodedPublish(flags: nibble, data: Bytes): Result<Publish> {
    if flags / 2 % 4 == 3 then Err(InvalidQoS) else
      match StringAhead(data)
      case Failed(_) => Err(TruncatedData)
      case Got(topic, rest) => if topic == [] then Err(EmptyTopicName) else PublishAhead(flags, topic, rest)
  }

  /** The bytes left, as the payload of a PUBLISH. */
  method ReadRemaining(reader: Reader) returns (payload: Bytes)
    requires reader.Valid()
    modifies reader
    ensures payload == old(reader.Rest())
  {
    payload := [];
    var remaining := reader.Len();
    if remaining > 0 {
      var err;
      payload, err := reader.ReadFull(remaining);
    }
  }

  method DecodePublish(flags: nibble, data: Bytes) returns (r: Result<Publish>)
    ensures r == DecodedPublish(flags, data)
  {
    if flags / 2 % 4 == 3 {
      return Err(InvalidQoS);
    }
    var reader := new Reader(data);
    var topic := ReadString(reader);
    if topic.Err? {
      return Err(TruncatedData);
    }
    if topic.value == [] {
      return Err(EmptyTopicName);
    }
    r := DecodePublishRest(reader, flags, topic.value);
  }

  /** Packet identifier, above QoS 0 only, and payload. */
  method DecodePublishRest(reader: Reader, flags: nibble, topic: Bytes) returns (r: Result<Publish>)
    requires reader.Valid()
    modifies reader
    ensures r == PublishAhead(flags, topic, old(reader.Rest()))
  {
    var dup, qos, retain := flags / 8 != 0, flags / 2 % 4, flags % 2 != 0;
    var packetId: uint16 := 0;
    if qos > 0 {
      var pidBuf, err := reader.ReadFull(2);
      if err {
        return Err(TruncatedData);
      }
      packetId := Int16At(pidBuf);
    }
    var payload := ReadRemaining(reader);
    return Ok(Publish(dup, qos, retain, topic, packetId, payload));
  }

  /** What the decoder accepts prints back to the same flags and the identical bytes. */
  lemma PublishReprint(flags: nibble, data: Bytes)
    requires DecodedPublish(flags, data).Ok?
    ensures var p := DecodedPublish(flags, data).value;
      GoodPublish(p) && PublishFlags(p) == flags && PrintPublish(p) == data
  {
    StringReprint(data);
    var p, rest := DecodedPublish(flags, data).value, StringAhead(data).rest;
    if p.qos > 0 {
      Int16RoundTrip(0, rest);
      assert rest == Int16(p.packetId) + p.payload;
      Assoc(WrittenString(p.topic), Int16(p.packetId), p.payload);
    } else {
      assert WrittenString(p.topic) + [] == WrittenString(p.topic);
    }
  }

  lemma FlagsRoundTrip(p: Publish)
    requires p.qos <= 3
    ensures var f := PublishFlags(p); (f / 8 == 1) == p.dup && f / 2 % 4 == p.qos && (f % 2 == 1) == p.retain
  {
  }

  lemma PublishBodyRoundTrip(p: Publish, flags: nibble)
    requires GoodPublish(p) && flags / 2 % 4 == p.qos
    ensures DecodedPublish(flags, PrintPublish(p)) == Ok(p.(dup := flags / 8 == 1, retain := flags % 2 == 1))
  {
    if p.qos > 0 {
      StringRoundTrip(p.topic, Int16(p.packetId) + p.payload);
      assert PrintPublish(p) == WrittenString(p.topic) + (Int16(p.packetId) + p.payload);
      Int16RoundTrip(p.packetId, p.payload);
      assert (Int16(p.packetId) + p.payload)[2..] == p.payload;
    } else {
      StringRoundTrip(p.topic, p.payload);
      assert PrintPublish(p) == WrittenString(p.topic) + p.payload;
    }
  }

  /** Over all flags, a printed publish decodes to itself exactly when its topic is nonempty and fits,
      its QoS is at most 2, and it has a packet identifier only above QoS 0. */
  lemma PublishRoundTrip(p: Publish)
    requires p.qos <= 3
    ensures DecodedPublish(PublishFlags(p), PrintPublish(p)) == Ok(p) <==> GoodPublish(p)
  {
    FlagsRoundTrip(p);
    if GoodPublish(p) {
      PublishBodyRoundTrip(p, PublishFlags(p));
    } else if DecodedPublish(PublishFlags(p), PrintPublish(p)).Ok? {
      PublishReprint(PublishFlags(p), PrintPublish(p));
    }
  }

  // ----- CONNECT -----

  datatype Connect = Connect(flags: byte, keepAlive: uint16, clientId: Bytes, willTopic: Bytes, willMessage: Bytes,
                             username: Bytes, password: Bytes) {
    predicate HasUsername() { flags / 128 % 2 == 1 }

    predicate HasPassword() { flags / 64 % 2 == 1 }

    predicate HasWill() { flags / 4 % 2 == 1 }
  }

  const MQTT: Bytes := [0x4D, 0x51, 0x54, 0x54]

  /** The payload fields in order, and which of them the flags announce. */
  function Present(flags: byte): seq<bool> {
    var p := Connect(flags, 0, [], [], [], [], []);
    [true, p.HasWill(), p.HasWill(), p.HasUsername(), p.HasPassword()]
  }

  function Values(p: Connect): seq<Bytes> { [p.clientId, p.willTopic, p.willMessage, p.username, p.password] }

  function Field(present: bool, value: Bytes): Bytes { if present then WrittenString(value) else [] }

  function PrintFields(present: seq<bool>, values: seq<Bytes>): Bytes
    requires |present| == |values|
  {
    if present == [] then [] else
      Field(present[0], values[0]) + PrintFields(present[1..], values[1..])
  }

  function PrintConnect(p: Connect): Bytes {
    WrittenString(MQTT) + ([4, p.flags] + (Int16(p.keepAlive) + PrintFields(Present(p.flags), Values(p))))
  }

  /** A present field fits its length prefix, an absent one is empty. */
  predicate GoodFields(present: seq<bool>, values: seq<Bytes>) {
    && |present| == |values|
    && forall i :: 0 <= i < |values| ==> if present[i] then |values[i]| < 65536 else values[i] == []
  }

  predicate GoodConnect(p: Connect) { p.flags % 2 == 0 && GoodFields(Present(p.flags), Values(p)) }

  function FieldAhead(present: bool, s: Bytes): Parsed<Bytes> { if present then StringAhead(s) else Got([], s) }

  function FieldsAhead(present: seq<bool>, s: Bytes): Parsed<seq<Bytes>> {
    if present == [] then Got([], s) else
      match FieldAhead(present[0], s)
      case Failed(_) => Failed(TruncatedData)
      case Got(v, s1) =>
        match FieldsAhead(present[1..], s1)
        case Failed(_) => Failed(TruncatedData)
        case Got(vs, rest) => Got([v] + vs, rest)
  }

  function Assembled(flags: byte, keepAlive: uint16, fields: Parsed<seq<Bytes>>): Parsed<Connect> {
    match fields
    case Got(v, rest) =>
      if |v| == 5 then Got(Connect(flags, keepAlive, v[0], v[1], v[2], v[3], v[4]), rest) else Failed(TruncatedData)
    case Failed(_) => Failed(TruncatedData)
  }

  function FlagsAhead(s: Bytes): Parsed<Connect> {
    if |s| < 1 then Failed(TruncatedData)
    else if s[0] % 2 != 0 then Failed(InvalidReservedBit)
    else if |s[1..]| < 2 then Failed(TruncatedData)
    else Assembled(s[0], Int16At(s[1..]), FieldsAhead(Present(s[0]), s[1..][2..]))
  }

  /** Bytes after the last field are accepted and ignored. */
  function ConnectAhead(data: Bytes): Parsed<Connect> {
    match StringAhead(data)
    case Failed(_) => Failed(TruncatedData)
    case Got(name, s) =>
      if name != MQTT then Failed(InvalidProtocol)
      else if |s| < 1 then Failed(TruncatedData)
      else if s[0] != 4 then Failed(InvalidProtocol)
      else FlagsAhead(s[1..])
  }

  function DecodedConnect(data: Bytes): Result<Connect> { ConnectAhead(data).Outcome() }

  method DecodeConnect(data: Bytes) returns (r: Result<Connect>)
    ensures r == DecodedConnect(data)
  {
    var reader := new Reader(data);
    var name := ReadString(reader);
    if name.Err? {
      return Err(TruncatedData);
    }
    if name.value != MQTT {
      return Err(InvalidProtocol);
    }
    var levelBuf, err := reader.ReadFull(1);
    if err {
      return Err(TruncatedData);
    }
    if levelBuf[0] != 4 {
      return Err(InvalidProtocol);
    }
    r := DecodeConnectFlags(reader);
  }

  method DecodeConnectFlags(reader: Reader) returns (r: Result<Connect>)
    requires reader.Valid()
    modifies reader
    ensures r == FlagsAhead(old(reader.Rest())).Outcome()
  {
    ghost var s := reader.Rest();
    var flagsBuf, err := reader.ReadFull(1);
    if err {
      return Err(TruncatedData);
    }
    var flags := flagsBuf[0];
    if flags % 2 != 0 {
      return Err(InvalidReservedBit);
    }
    var keepAliveBuf, err1 := reader.ReadFull(2);
    if err1 {
      return Err(TruncatedData);
    }
    assert Int16At(keepAliveBuf) == Int16At(s[1..]);
    r := DecodeConnectPayload(reader, flags, Int16At(keepAliveBuf));
  }

  /** Read a field if its flag is set. */
  method ReadField(reader: Reader, present: bool) returns (r: Result<Bytes>)
    requires reader.Valid()
    modifies reader
    ensures reader.Valid()
    ensures r.Ok? == FieldAhead(present, old(reader.Rest())).Got?
    ensures r.Ok? ==> Got(r.value, reader.Rest()) == FieldAhead(present, old(reader.Rest()))
  {
    if present {
      r := ReadString(reader);
    } else {
      r := Ok([]);
    }
  }

  function Before(values: seq<Bytes>, p: Parsed<seq<Bytes>>): Parsed<seq<Bytes>> {
    if p.Got? then Got(values + p.value, p.rest) else p
  }

  lemma {:induction false} FieldTaken(values: seq<Bytes>, present: seq<bool>, s: Bytes)
    requires present != []
    ensures var f := FieldAhead(present[0], s);
      Before(values, FieldsAhead(present, s))
      == if f.Got? then Before(values + [f.value], FieldsAhead(present[1..], f.rest)) else Failed(TruncatedData)
  {
    var f := FieldAhead(present[0], s);
    if f.Got? && FieldsAhead(present[1..], f.rest).Got? {
      var vs := FieldsAhead(present[1..], f.rest).value;
      assert values + ([f.value] + vs) == values + [f.value] + vs;
    }
  }

  /** Two consecutive fields; `tail` stands for the fields after them. */
  method ReadPair(reader: Reader, p: bool, q: bool, ghost tail: seq<bool>) returns (r: Result<(Bytes, Bytes)>)
    requires reader.Valid()
    modifies reader
    ensures reader.Valid()
    ensures FieldsAhead([p, q] + tail, old(reader.Rest()))
         == if r.Ok? then Before([r.value.0, r.value.1], FieldsAhead(tail, reader.Rest())) else Failed(TruncatedData)
  {
    ghost var s := reader.Rest();
    assert ([p, q] + tail)[0] == p && ([p, q] + tail)[1..] == [q] + tail;
    assert ([q] + tail)[0] == q && ([q] + tail)[1..] == tail;
    FieldTaken([], [p, q] + tail, s);
    NothingBefore(FieldsAhead([p, q] + tail, s));
    var a := ReadField(reader, p);
    if a.Err? {
      return Err(TruncatedData);
    }
    assert [] + [a.value] == [a.value];
    FieldTaken([a.value], [q] + tail, reader.Rest());
    var b := ReadField(reader, q);
    if b.Err? {
      return Err(TruncatedData);
    }
    assert [a.value] + [b.value] == [a.value, b.value];
    return Ok((a.value, b.value));
  }

  lemma NothingBefore(p: Parsed<seq<Bytes>>)
    ensures Before([], p) == p
  {
    if p.Got? { assert [] + p.value == p.value; }
  }

  method DecodeConnectPayload(reader: Reader, flags: byte, keepAlive: uint16) returns (r: Result<Connect>)
    requires reader.Valid()
    modifies reader
    ensures r == Assembled(flags, keepAlive, FieldsAhead(Present(flags), old(reader.Rest()))).Outcome()
  {
    var pkt := Connect(flags, keepAlive, [], [], [], [], []);
    ghost var will, credentials := [pkt.HasWill(), pkt.HasWill()], [pkt.HasUsername(), pkt.HasPassword()];
    ghost var all := FieldsAhead(Present(flags), reader.Rest());
    PresentShape(flags);
    FieldTaken([], Present(flags), reader.Rest());
    NothingBefore(all);
    var clientId := ReadField(reader, true);
    if clientId.Err? {
      return Err(TruncatedData);
    }
    assert all == Before([] + [clientId.value], FieldsAhead(will + credentials, reader.Rest()));
    var w := ReadPair(reader, pkt.HasWill(), pkt.HasWill(), credentials);
    if w.Err? {
      return Err(TruncatedData);
    }
    var c := ReadPair(reader, pkt.HasUsername(), pkt.HasPassword(), []);
    if c.Err? {
      return Err(TruncatedData);
    }
    FiveValues(clientId.value, w.value.0, w.value.1, c.value.0, c.value.1, reader.Rest());
    return Ok(pkt.(clientId := clientId.value, willTopic := w.value.0, willMessage := w.value.1,
                   username := c.value.0, password := c.value.1));
  }

  lemma PresentShape(flags: byte)
    ensures var p, pkt := Present(flags), Connect(flags, 0, [], [], [], [], []);
      && |p| == 5 && p[0]
      && p[1..] == [pkt.HasWill(), pkt.HasWill()] + [pkt.HasUsername(), pkt.HasPassword()]
      && [pkt.HasUsername(), pkt.HasPassword()] + [] == [pkt.HasUsername(), pkt.HasPassword()]
  {
  }

  lemma FiveValues(a: Bytes, b: Bytes, c: Bytes, d: Bytes, e: Bytes, rest: Bytes)
    ensures Before([] + [a], Before([b, c], Before([d, e], Got([], rest)))) == Got([a, b, c, d, e], rest)
  {
    assert [d, e] + [] == [d, e] && [b, c] + [d, e] == [b, c, d, e] && [] + [a] == [a];
    assert [a] + [b, c, d, e] == [a, b, c, d, e];
  }

  lemma FieldRoundTrip(present: bool, value: Bytes, rest: Bytes)
    requires if present then |value| < 65536 else value == []
    ensures FieldAhead(present, Field(present, value) + rest) == Got(value, rest)
  {
    if present {
      StringRoundTrip(value, rest);
    } else {
      assert [] + rest == rest;
    }
  }

  lemma {:induction false} FieldsRoundTrip(present: seq<bool>, values: seq<Bytes>, rest: Bytes)
    requires GoodFields(present, values)
    ensures FieldsAhead(present, PrintFields(present, values) + rest) == Got(values, rest)
  {
    if present == [] {
      assert [] + rest == rest;
    } else {
      var tail := PrintFields(present[1..], values[1..]);
      FieldsRoundTrip(present[1..], values[1..], rest);
      FieldRoundTrip(present[0], values[0], tail + rest);
      Assoc(Field(present[0], values[0]), tail, rest);
      assert [values[0]] + values[1..] == values;
    }
  }

  lemma FieldReprint(present: bool, s: Bytes)
    requires FieldAhead(present, s).Got?
    ensures var f := FieldAhead(present, s);
      s == Field(present, f.value) + f.rest && if present then |f.value| < 65536 else f.value == []
  {
    if present {
      StringReprint(s);
    } else {
      assert [] + s == s;
    }
  }

  lemma {:induction false} FieldsReprint(present: seq<bool>, s: Bytes)
    requires FieldsAhead(present, s).Got?
    ensures var p := FieldsAhead(present, s);
      GoodFields(present, p.value) && s == PrintFields(present, p.value) + p.rest
  {
    if present != [] {
      var f := FieldAhead(present[0], s);
      FieldReprint(present[0], s);
      FieldsReprint(present[1..], f.rest);
      var vs, rest := FieldsAhead(present[1..], f.rest).value, FieldsAhead(present[1..], f.rest).rest;
      assert ([f.value] + vs)[1..] == vs;
      Assoc(Field(present[0], f.value), PrintFields(present[1..], vs), rest);
    }
  }

  lemma FlagsReprint(s: Bytes)
    requires FlagsAhead(s).Got?
    ensures var r := FlagsAhead(s); var p := r.value;
      GoodConnect(p) && s == [p.flags] + (Int16(p.keepAlive) + (PrintFields(Present(p.flags), Values(p)) + r.rest))
  {
    var fields := FieldsAhead(Present(s[0]), s[1..][2..]);
    FieldsReprint(Present(s[0]), s[1..][2..]);
    assert Values(FlagsAhead(s).value) == fields.value;
    Int16RoundTrip(0, s[1..]);
    assert s == [s[0]] + s[1..] && s[1..] == s[1..][..2] + s[1..][2..];
  }

  /** What the decoder accepts reprints, field by field per its flags, to a prefix of its input. */
  lemma {:induction false} ConnectReprint(data: Bytes)
    requires DecodedConnect(data).Ok?
    ensures var p := DecodedConnect(data).value; GoodConnect(p) && PrintConnect(p) + ConnectAhead(data).rest == data
  {
    StringReprint(data);
    var p, s := DecodedConnect(data).value, StringAhead(data).rest;
    FlagsReprint(s[1..]);
    assert s == [4] + s[1..];
    var fields := PrintFields(Present(p.flags), Values(p));
    Regroup(WrittenString(MQTT), p.flags, Int16(p.keepAlive), fields, ConnectAhead(data).rest);
  }

  lemma Regroup(a: Bytes, f: byte, c: Bytes, d: Bytes, e: Bytes)
    ensures a + ([4, f] + (c + d)) + e == a + ([4] + ([f] + (c + (d + e))))
  {
    assert [4, f] == [4] + [f];
    Assoc(c, d, e);
    Assoc([4, f], c + d, e);
    Assoc([4], [f], c + (d + e));
    Assoc(a, [4, f] + (c + d), e);
  }

  /** A printed connect decodes to itself, whatever follows it, exactly when its reserved bit is clear, its
      present fields fit their prefixes and its absent fields are empty. */
  lemma {:induction false} ConnectRoundTrip(p: Connect, extra: Bytes)
    ensures DecodedConnect(PrintConnect(p) + extra) == Ok(p) <==> GoodConnect(p)
  {
    if GoodConnect(p) {
      var fields := PrintFields(Present(p.flags), Values(p)) + extra;
      FieldsRoundTrip(Present(p.flags), Values(p), extra);
      Regroup(WrittenString(MQTT), p.flags, Int16(p.keepAlive), PrintFields(Present(p.flags), Values(p)), extra);
      var s := [p.flags] + (Int16(p.keepAlive) + fields);
      StringRoundTrip(MQTT, [4] + s);
      Parts([4], s);
      Parts([p.flags], Int16(p.keepAlive) + fields);
      Parts(Int16(p.keepAlive), fields);
      Int16RoundTrip(p.keepAlive, fields);
    } else if DecodedConnect(PrintConnect(p) + extra).Ok? {
      ConnectReprint(PrintConnect(p) + extra);
    }
  }

  // ----- the client-side builders -----

  method ConnectPayload(clientId: Bytes, username: Bytes, password: Bytes, keepAlive: uint16) returns (payload: Bytes)
    ensures payload == PrintConnect(Connect(0xC2, keepAlive, clientId, [], [], username, password))
  {
    payload := [0x00, 0x04, 0x4D, 0x51, 0x54, 0x54];
    payload := payload + [0x04];
    payload := payload + [0xC2];
    payload := payload + [keepAlive / 256, keepAlive % 256];
    var id := WriteUTF8String(clientId);
    payload := payload + id;
    var user := WriteUTF8String(username);
    payload := payload + user;
    payload := payload + [|password| / 256 % 256, |password| % 256];
    payload := payload + password;
    ConnectBuilt(Connect(0xC2, keepAlive, clientId, [], [], username, password), id, user,
                 [|password| / 256 % 256, |password| % 256], payload);
  }

  lemma ConnectBuilt(p: Connect, id: Bytes, user: Bytes, prefix: Bytes, payload: Bytes)
    requires p.flags == 0xC2 && p.willTopic == [] && p.willMessage == []
    requires id == WrittenString(p.clientId) && user == WrittenString(p.username)
    requires prefix == [|p.password| / 256 % 256, |p.password| % 256]
    requires payload == [0x00, 0x04, 0x4D, 0x51, 0x54, 0x54] + [0x04] + [0xC2] + Int16(p.keepAlive)
                        + id + user + prefix + p.password
    ensures payload == PrintConnect(p)
  {
    ConnectBody(p, id, user, prefix);
    RegroupConnect([0x00, 0x04, 0x4D, 0x51, 0x54, 0x54], [0x04], [0xC2], Int16(p.keepAlive), id, user, prefix,
                   p.password);
  }

  method BuildConnectPacket(clientId: Bytes, username: Bytes, password: Bytes, keepAlive: uint16) returns (pkt: Bytes)
    ensures var p := Connect(0xC2, keepAlive, clientId, [], [], username, password);
      pkt == Frame(Packet(CONNECT, 0, PrintConnect(p)))
  {
    var payload := ConnectPayload(clientId, username, password, keepAlive);
    pkt := [0x10];
    var length := EncodeRemainingLength(|payload|);
    pkt := pkt + length;
    pkt := pkt + payload;
  }

  lemma CredentialsPresent()
    ensures Present(0xC2) == [true, false, false, true, true]
  {
  }

  lemma {:induction false} ConnectBody(p: Connect, id: Bytes, user: Bytes, prefix: Bytes)
    requires p.flags == 0xC2 && p.willTopic == [] && p.willMessage == []
    requires id == WrittenString(p.clientId) && user == WrittenString(p.username)
    requires prefix == [|p.password| / 256 % 256, |p.password| % 256]
    ensures PrintConnect(p) == [0x00, 0x04, 0x4D, 0x51, 0x54, 0x54] + (([0x04] + [0xC2]) + (Int16(p.keepAlive)
                               + (id + (user + (prefix + p.password)))))
  {
    ProtocolName();
    CredentialsPresent();
    PrintPresent(Values(p));
    PasswordWritten(p.password, prefix);
  }

  lemma ProtocolName()
    ensures WrittenString(MQTT) == [0x00, 0x04, 0x4D, 0x51, 0x54, 0x54]
    ensures [0x04] + [0xC2] == [0x04, 0xC2]
  {
  }

  lemma PasswordWritten(password: Bytes, prefix: Bytes)
    requires prefix == [|password| / 256 % 256, |password| % 256]
    ensures WrittenString(password) == prefix + password
  {
    LowBytes(|password|);
  }

  lemma LowBytes(n: nat)
    ensures n % 65536 / 256 == n / 256 % 256 && n % 65536 % 256 == n % 256
  {
    var q, r := n / 65536, n % 65536;
    assert n / 256 == 256 * q + r / 256;
  }

  lemma {:induction false} PrintPresent(v: seq<Bytes>)
    requires |v| == 5
    ensures PrintFields([true, false, false, true, true], v)
         == WrittenString(v[0]) + (WrittenString(v[3]) + WrittenString(v[4]))
  {
    assert [true, true][1..] == [true] && [true][1..] == [] && v[3..][1..] == v[4..] && v[4..][1..] == [];
    assert PrintFields([true], v[4..]) == WrittenString(v[4]);
    assert PrintFields([true, true], v[3..]) == WrittenString(v[3]) + WrittenString(v[4]);
    assert [false, true, true][1..] == [true, true] && v[2..][1..] == v[3..];
    assert PrintFields([false, true, true], v[2..]) == PrintFields([true, true], v[3..]);
    assert [false, false, true, true][1..] == [false, true, true] && v[1..][1..] == v[2..];
    assert PrintFields([false, false, true, true], v[1..]) == PrintFields([false, true, true], v[2..]);
    assert [true, false, false, true, true][1..] == [false, false, true, true];
  }

  lemma RegroupConnect(a: Bytes, b: Bytes, c: Bytes, d: Bytes, e: Bytes, f: Bytes, g: Bytes, h: Bytes)
    ensures a + b + c + d + e + f + g + h == a + ((b + c) + (d + (e + (f + (g + h)))))
  {
    Assoc(a + b + c + d + e + f, g, h);
    Assoc(a + b + c + d + e, f, g + h);
    Assoc(a + b + c + d, e, f + (g + h));
    Assoc(a + b + c, d, e + (f + (g + h)));
    Assoc(a, b, c);
    Assoc(a, b + c, d + (e + (f + (g + h))));
  }

  /** The byte with bits 4 and 5 set, as by OR with 0x30. */
  function WithPublishType(flags: byte): byte { flags - flags / 16 % 4 * 16 + 0x30 }

  /** The caller's QoS is not checked: above 3 it spills into the packet type. */
  method BuildPublishPacket(topic: Bytes, payload: Bytes, qos: byte, packetId: uint16) returns (pkt: Bytes)
    ensures var p := Publish(false, qos, false, topic, packetId, payload);
      && pkt == [WithPublishType(qos * 2 % 256)] + EncodedLength(|PrintPublish(p)|) + PrintPublish(p)
      && (qos <= 3 ==> pkt == Frame(Packet(PUBLISH, PublishFlags(p), PrintPublish(p))))
  {
    var data := WriteUTF8String(topic);
    if qos > 0 {
      data := data + [packetId / 256, packetId % 256];
    }
    data := data + payload;
    var flags: byte := qos * 2 % 256;
    pkt := [WithPublishType(flags)];
    var length := EncodeRemainingLength(|data|);
    pkt := pkt + length;
    pkt := pkt + data;
  }

  method BuildSubscribePacket(packetId: uint16, subs: seq<Subscription>) returns (pkt: Bytes)
    ensures pkt == Frame(Packet(SUBSCRIBE, 2, PrintSubscribe(Subscribe(packetId, subs))))
  {
    var data: Bytes := [packetId / 256, packetId % 256];
    for i := 0 to |subs|
      invariant data + PrintSubscriptions(subs[i..]) == PrintSubscribe(Subscribe(packetId, subs))
    {
      assert subs[i..][1..] == subs[i + 1..];
      var topic := WriteUTF8String(subs[i].filter);
      ghost var before := data;
      data := data + topic;
      data := data + [subs[i].qos];
      ghost var tail := PrintSubscriptions(subs[i + 1..]);
      assert before + (topic + [subs[i].qos] + tail) == data + tail;
    }
    pkt := [0x82];
    var length := EncodeRemainingLength(|data|);
    pkt := pkt + length;
    pkt := pkt + data;
  }

  /** Print, frame, read and decode: a publish survives, all flags included, exactly when it is good and its
      body fits a remaining length. */
  lemma PublishSurvives(p: Publish, rest: Bytes)
    requires p.qos <= 3
    ensures var packet := Packet(PUBLISH, PublishFlags(p), PrintPublish(p));
      (PacketAhead(Frame(packet) + rest) == Got(packet, rest) && DecodedPublish(packet.flags, packet.body) == Ok(p))
      <==> GoodPublish(p) && |PrintPublish(p)| < MAX_LENGTH
  {
    FrameRoundTrip(Packet(PUBLISH, PublishFlags(p), PrintPublish(p)), rest);
    PublishRoundTrip(p);
  }

  /** Build, read and decode: a subscription list survives exactly when it is good and its body fits a
      remaining length. */
  lemma SubscribeSurvives(p: Subscribe, rest: Bytes)
    ensures var packet := Packet(SUBSCRIBE, 2, PrintSubscribe(p));
      (PacketAhead(Frame(packet) + rest) == Got(packet, rest) && DecodedSubscribe(packet.body) == Ok(p))
      <==> GoodSubscribe(p) && |PrintSubscribe(p)| < MAX_LENGTH
  {
    FrameRoundTrip(Packet(SUBSCRIBE, 2, PrintSubscribe(p)), rest);
    SubscribeRoundTrip(p);
  }
}
