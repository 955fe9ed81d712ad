/** The client side of RFC 5176: building a Disconnect-Request, judging what comes
    back, and the retry loop. MD5 and HMAC-MD5 are arbitrary functions with 16-byte
    results, so everything here holds for whatever they compute. */
module Disconnect {
  import opened Attributes
  import opened Wrappers

  type Digest = d: Bytes | |d| == 16 witness [0, 0, 0, 0, 0, 0, 0, 0, 0, 0, 0, 0, 0, 0, 0, 0]

  datatype Crypto = Crypto(md5: Bytes -> Digest, hmacMd5: (Bytes, Bytes) -> Digest)

  const ZEROS: Digest := [0, 0, 0, 0, 0, 0, 0, 0, 0, 0, 0, 0, 0, 0, 0, 0]

  const DISCONNECT_REQUEST: byte := 40
  const DISCONNECT_ACK: byte := 41
  const DISCONNECT_NAK: byte := 42

  const USER_NAME: byte := 1
  const FRAMED_IP_ADDRESS: byte := 8
  const REPLY_MESSAGE: byte := 18
  const CALLING_STATION_ID: byte := 31
  const ACCT_SESSION_ID: byte := 44
  const MESSAGE_AUTHENTICATOR: byte := 80
  const ERROR_CAUSE: byte := 101

  const ATTEMPTS := 2
  const READ_BUFFER := 4096

  /** Text fields are bytes, as Go strings are; an absent address is empty. */
  datatype Session = Session(username: Bytes, acctSessionId: Bytes, callingStationId: Bytes, framedIP: Bytes)

  // ----- integers and patches on the wire

  /** Big-endian, after the conversion to 16 bits. */
  function PutUint16(n: nat): (b: Bytes)
    ensures |b| == 2
  {
    [(n % 65536) / 256, n % 256]
  }

  function Uint16(hi: byte, lo: byte): nat {
    hi * 256 + lo
  }

  function Uint32(b: Bytes): nat
    requires |b| == 4
  {
    Uint16(b[0], b[1]) * 65536 + Uint16(b[2], b[3])
  }

  lemma Uint16RoundTrip(n: nat)
    requires n < 65536
    ensures Uint16(PutUint16(n)[0], PutUint16(n)[1]) == n
  {
  }

  lemma LengthBytesUnique(hi: byte, lo: byte)
    ensures PutUint16(Uint16(hi, lo)) == [hi, lo]
  {
  }

  /** Reading four bytes undoes writing them, the upper half first. */
  lemma Uint32RoundTrip(n: nat)
    requires n < 0x1_0000_0000
    ensures Uint32(PutUint16(n / 65536) + PutUint16(n % 65536)) == n
  {
    Uint16RoundTrip(n / 65536);
    Uint16RoundTrip(n % 65536);
  }

  /** `b` with the bytes from `at` on replaced by `d`. */
  function Patch(b: Bytes, at: nat, d: Bytes): Bytes
    requires at + |d| <= |b|
  {
    b[..at] + d + b[at + |d|..]
  }

  // ----- building the request

  /** net.IP.To4: four bytes, or the four-byte tail of a mapped sixteen-byte address. */
  function To4(ip: Bytes): Bytes {
    if |ip| == 4 then ip
    else if |ip| == 16 && ip[..10] == ZEROS[..10] && ip[10] == 255 && ip[11] == 255 then ip[12..]
    else []
  }

  function Fields(s: Session): seq<Avp> {
    [Avp(USER_NAME, s.username), Avp(FRAMED_IP_ADDRESS, To4(s.framedIP)),
     Avp(ACCT_SESSION_ID, s.acctSessionId), Avp(CALLING_STATION_ID, s.callingStationId)]
  }

  function Header(code: byte, id: byte, length: nat): Bytes {
    [code, id] + PutUint16(length)
  }

  /** The bytes of the request around its two digests. */
  function Framed(id: byte, authenticator: Digest, fields: Bytes, mac: Digest): Bytes {
    Header(DISCONNECT_REQUEST, id, 38 + |fields|) + authenticator + (fields + [MESSAGE_AUTHENTICATOR, 18] + mac)
  }

  function MacOf(c: Crypto, id: byte, secret: Bytes, fields: Bytes): Digest {
    c.hmacMd5(secret, Framed(id, ZEROS, fields, ZEROS))
  }

  function Packet(c: Crypto, id: byte, secret: Bytes, fields: Bytes): Bytes {
    var mac := MacOf(c, id, secret, fields);
    Framed(id, c.md5(Framed(id, ZEROS, fields, mac) + secret), fields, mac)
  }

  /** The code's copy into a slice of a buffer. */
  method Copy(dst: array<byte>, at: nat, src: Bytes)
    requires at + |src| <= dst.Length
    modifies dst
    ensures dst[..] == Patch(old(dst[..]), at, src)
  {
    var i := 0;
    while i < |src|
      invariant 0 <= i <= |src|
      invariant forall k :: 0 <= k < i ==> dst[at + k] == src[k]
      invariant forall k :: 0 <= k < dst.Length && !(at <= k < at + i) ==> dst[k] == old(dst[k])
    {
      dst[at + i] := src[i];
      i := i + 1;
    }
  }

  lemma EncodeWithAuthenticator(attrs: seq<Avp>)
    ensures Encode(attrs + [Avp(MESSAGE_AUTHENTICATOR, ZEROS)])
            == match Encode(attrs) case Ok(b) => Ok(b + [MESSAGE_AUTHENTICATOR, 18] + ZEROS) case Err(e) => Err(e)
  {
    var last := Avp(MESSAGE_AUTHENTICATOR, ZEROS);
    if attrs == [] {
      assert attrs + [last] == [last];
      assert [last][1..] == [];
      assert Wire(last) + [] == [] + [MESSAGE_AUTHENTICATOR, 18] + ZEROS;
    } else {
      assert (attrs + [last])[1..] == attrs[1..] + [last];
      EncodeWithAuthenticator(attrs[1..]);
      if attrs[0].value != [] && |attrs[0].value| <= MAX_VALUE && Encode(attrs[1..]).Ok? {
        var rest := Encode(attrs[1..]).value;
        assert Wire(attrs[0]) + (rest + [MESSAGE_AUTHENTICATOR, 18] + ZEROS)
          == Wire(attrs[0]) + rest + [MESSAGE_AUTHENTICATOR, 18] + ZEROS;
      }
    }
  }

  lemma ZerosAreZero()
    ensures forall i :: 0 <= i < 16 ==> ZEROS[i] == 0
  {
  }

  lemma BufferFilled(b: Bytes, id: byte, fields: Bytes)
    requires |b| == 38 + |fields| && b[0] == DISCONNECT_REQUEST && b[1] == id
    requires forall i :: 2 <= i < |b| ==> b[i] == 0
    ensures Patch(Patch(b, 2, PutUint16(|b|)), 20, fields + [MESSAGE_AUTHENTICATOR, 18] + ZEROS)
              == Framed(id, ZEROS, fields, ZEROS)
  {
    var attrs := fields + [MESSAGE_AUTHENTICATOR, 18] + ZEROS;
    var p := Patch(b, 2, PutUint16(|b|));
    assert p[..4] == Header(DISCONNECT_REQUEST, id, |b|);
    forall i | 0 <= i < 16 ensures p[4..20][i] == ZEROS[i] {
      ZerosAreZero();
      assert p[4..20][i] == p[4 + i] == b[4 + i];
    }
    assert p[4..20] == ZEROS;
    assert Patch(p, 20, attrs) == p[..20] + attrs;
    assert p[..20] == p[..4] + p[4..20];
  }

  lemma DigestsFilled(id: byte, authenticator: Digest, fields: Bytes, mac: Digest)
    ensures |Framed(id, ZEROS, fields, ZEROS)| == |Framed(id, ZEROS, fields, mac)| == 38 + |fields|
    ensures Patch(Framed(id, ZEROS, fields, ZEROS), 22 + |fields|, mac) == Framed(id, ZEROS, fields, mac)
    ensures Patch(Framed(id, ZEROS, fields, mac), 4, authenticator) == Framed(id, authenticator, fields, mac)
  {
  }

  /** The two digests, in order: the HMAC covers the packet before the MD5 does. */
  method FillDigests(c: Crypto, id: byte, secret: Bytes, pkt: array<byte>, ghost fields: Bytes)
    requires pkt[..] == Framed(id, ZEROS, fields, ZEROS)
    modifies pkt
    ensures pkt[..] == Packet(c, id, secret, fields)
  {
    var mac := c.hmacMd5(secret, pkt[..]);
    DigestsFilled(id, c.md5(Framed(id, ZEROS, fields, mac) + secret), fields, mac);
    assert pkt.Length == |pkt[..]| == 38 + |fields|;
    Copy(pkt, pkt.Length - 16, mac);
    var authenticator := c.md5(pkt[..] + secret);
    Copy(pkt, 4, authenticator);
  }

  // ----- the receiver's side of a request

  /** What a NAS that requires Message-Authenticator checks (sections 2.3 and 3.4 of RFC 5176,
      section 3.2 of RFC 3579): the length, that the attributes parse to the end, the Request
      Authenticator with its own field zeroed, and the HMAC with both digests zeroed. */
  predicate ReceiverAccepts(c: Crypto, secret: Bytes, pkt: Bytes) {
    && 20 <= |pkt| <= 4096
    && pkt[0] == 40
    && (pkt[2] as int) * 256 + pkt[3] as int == |pkt|
    && Rest(pkt[20..]) == []
    && c.md5(Patch(pkt, 4, ZEROS) + secret) == pkt[4..20]
    && match FirstAt(pkt[20..], 80)
       case Some(n) =>
         && 20 + n + 18 <= |pkt|
         && pkt[20 + n + 1] == 18
         && c.hmacMd5(secret, Patch(Patch(pkt, 4, ZEROS), 20 + n + 2, ZEROS)) == pkt[20 + n + 2..20 + n + 18]
       case None => false
  }

  lemma FieldsSize(s: Session)
    requires AllFit(Fields(s))
    ensures Encode(Fields(s)).Ok? && |Encode(Fields(s)).value| <= 771
  {
    var f := Fields(s);
    assert f[1..][1..] == f[2..] && f[2..][1..] == f[3..] && f[3..][1..] == [];
    assert f[3..][0] == f[3] && f[2..][0] == f[2] && f[1..][0] == f[1];
    assert |f[0].value| <= 253 && |f[1].value| <= 4 && |f[2].value| <= 253 && |f[3].value| <= 253;
    assert Encode(f[3..]).Ok? && |Encode(f[3..]).value| <= 255;
    assert Encode(f[2..]).Ok? && |Encode(f[2..]).value| <= 510;
    assert Encode(f[1..]).Ok? && |Encode(f[1..]).value| <= 516;
  }

  lemma NonEmptyKeepsTypes(attrs: seq<Avp>, typ: byte)
    requires NoneOfType(attrs, typ)
    ensures NoneOfType(NonEmpty(attrs), typ)
  {
    if attrs != [] {
      assert attrs == [attrs[0]] + attrs[1..];
      NonEmptyKeepsTypes(attrs[1..], typ);
    }
  }

  lemma PatchesOfFramed(id: byte, authenticator: Digest, fields: Bytes, mac: Digest)
    ensures var pkt := Framed(id, authenticator, fields, mac);
            && |pkt| == 38 + |fields|
            && pkt[4..20] == authenticator
            && pkt[20..] == fields + [MESSAGE_AUTHENTICATOR, 18] + mac
            && pkt[22 + |fields|..38 + |fields|] == mac
            && Patch(pkt, 4, ZEROS) == Framed(id, ZEROS, fields, mac)
            && Patch(Framed(id, ZEROS, fields, mac), 22 + |fields|, ZEROS) == Framed(id, ZEROS, fields, ZEROS)
  {
  }

  /** An empty text is left out. */
  function Given(v: Bytes): seq<Bytes> {
    if v == [] then [] else [v]
  }

  /** The four bytes of an IPv4 address, in either form net.IP holds it; nothing for any other. */
  predicate IPv4Of(ip: Bytes, found: seq<Bytes>) {
    if |ip| == 4 then found == [ip]
    else if |ip| == 16 && (forall i :: 0 <= i < 10 ==> ip[i] == 0) && ip[10] == 255 && ip[11] == 255 then
      found == [ip[12..]]
    else found == []
  }

  /** What the receiver reads, by attribute number: the user, the address, the accounting session
      and the station of this session, once each and only if given, and a Message-Authenticator,
      once and last. */
  predicate Identifies(attrs: seq<Avp>, s: Session) {
    && ValuesOf(attrs, 1) == Given(s.username)
    && IPv4Of(s.framedIP, ValuesOf(attrs, 8))
    && ValuesOf(attrs, 44) == Given(s.acctSessionId)
    && ValuesOf(attrs, 31) == Given(s.callingStationId)
    && |ValuesOf(attrs, 80)| == 1 && attrs != [] && attrs[|attrs| - 1].typ == 80
    && forall i :: 0 <= i < |attrs| ==> attrs[i].typ in {1, 8, 31, 44, 80}
  }

  /** No text is longer than an attribute can hold. */
  predicate Sendable(s: Session) {
    |s.username| <= 253 && |s.acctSessionId| <= 253 && |s.callingStationId| <= 253
  }

  /** The first text that is too long, in the order of the request. */
  function FirstTooLong(s: Session): TooLong
    requires !Sendable(s)
  {
    if |s.username| > 253 then TooLong(1, |s.username|)
    else if |s.acctSessionId| > 253 then TooLong(44, |s.acctSessionId|)
    else TooLong(31, |s.callingStationId|)
  }

  lemma SendableIff(s: Session)
    ensures AllFit(Fields(s)) <==> Sendable(s)
    ensures Encode(Fields(s)).Ok? <==> Sendable(s)
    ensures !Sendable(s) ==> Encode(Fields(s)) == Err(FirstTooLong(s))
  {
    var f := Fields(s);
    EncodeFailsIff(f);
    assert f[0] == Avp(1, s.username) && f[1] == Avp(8, To4(s.framedIP));
    assert f[2] == Avp(44, s.acctSessionId) && f[3] == Avp(31, s.callingStationId);
    if !AllFit(f) {
      var i :| 0 <= i < |f| && AllFit(f[..i]) && |f[i].value| > MAX_VALUE && Encode(f) == Refused(f[i]);
      forall j | 0 <= j < i ensures |f[j].value| <= MAX_VALUE {
        assert f[..i][j] == f[j];
      }
    }
  }

  lemma GivenStep(attrs: seq<Avp>, typ: byte)
    requires attrs != []
    ensures ValuesOf(NonEmpty(attrs), typ)
         == (if attrs[0].typ == typ then Given(attrs[0].value) else []) + ValuesOf(NonEmpty(attrs[1..]), typ)
  {
    var first := if attrs[0].value == [] then [] else [attrs[0]];
    ValuesAppend(first, NonEmpty(attrs[1..]), typ);
    if first != [] {
      assert first[1..] == [];
    }
  }

  lemma TwoFields(a: Avp, b: Avp, typ: byte)
    requires a.typ != b.typ
    ensures ValuesOf(NonEmpty([a, b]), typ)
         == if typ == a.typ then Given(a.value) else if typ == b.typ then Given(b.value) else []
  {
    assert [a, b][1..] == [b] && [b][1..] == [];
    GivenStep([a, b], typ);
    GivenStep([b], typ);
  }

  lemma FieldValues(s: Session, typ: byte)
    ensures ValuesOf(NonEmpty(Fields(s)), typ) ==
              (if typ == 1 then Given(s.username)
               else if typ == 8 then Given(To4(s.framedIP))
               else if typ == 44 then Given(s.acctSessionId)
               else if typ == 31 then Given(s.callingStationId)
               else [])
  {
    var f, c, d := Fields(s), Avp(ACCT_SESSION_ID, s.acctSessionId), Avp(CALLING_STATION_ID, s.callingStationId);
    var tail := [Avp(FRAMED_IP_ADDRESS, To4(s.framedIP)), c, d];
    assert f[1..] == tail && tail[1..] == [c, d];
    GivenStep(f, typ);
    GivenStep(tail, typ);
    TwoFields(c, d, typ);
  }

  lemma RequestValues(s: Session, mac: Digest, typ: byte)
    ensures ValuesOf(NonEmpty(Fields(s)) + [Avp(MESSAGE_AUTHENTICATOR, mac)], typ)
         == ValuesOf(NonEmpty(Fields(s)), typ) + if typ == 80 then [mac] else []
  {
    var ma := Avp(MESSAGE_AUTHENTICATOR, mac);
    ValuesAppend(NonEmpty(Fields(s)), [ma], typ);
    assert [ma][1..] == [];
  }

  lemma FourBytes(ip: Bytes)
    ensures IPv4Of(ip, Given(To4(ip)))
  {
    if |ip| == 16 {
      ZerosAreZero();
      if ip[..10] == ZEROS[..10] {
        forall i | 0 <= i < 10 ensures ip[i] == 0 {
          assert ip[i] == ip[..10][i] == ZEROS[..10][i];
        }
      }
    }
  }

  lemma {:induction false} NonEmptyTypes(attrs: seq<Avp>, types: set<byte>)
    requires forall i :: 0 <= i < |attrs| ==> attrs[i].typ in types
    ensures forall i :: 0 <= i < |NonEmpty(attrs)| ==> NonEmpty(attrs)[i].typ in types
  {
    if attrs != [] {
      NonEmptyTypes(attrs[1..], types);
    }
  }

  lemma RequestTypes(s: Session, mac: Digest)
    ensures var attrs := NonEmpty(Fields(s)) + [Avp(MESSAGE_AUTHENTICATOR, mac)];
            attrs != [] && attrs[|attrs| - 1].typ == 80
            && forall i :: 0 <= i < |attrs| ==> attrs[i].typ in {1, 8, 31, 44, 80}
  {
    NonEmptyTypes(Fields(s), {1, 8, 31, 44});
  }

  lemma ValuesIdentify(attrs: seq<Avp>, s: Session, mac: Digest)
    requires ValuesOf(attrs, 1) == Given(s.username) && ValuesOf(attrs, 8) == Given(To4(s.framedIP))
    requires ValuesOf(attrs, 44) == Given(s.acctSessionId) && ValuesOf(attrs, 31) == Given(s.callingStationId)
    requires ValuesOf(attrs, 80) == [mac] && attrs != [] && attrs[|attrs| - 1].typ == 80
    requires forall i :: 0 <= i < |attrs| ==> attrs[i].typ in {1, 8, 31, 44, 80}
    ensures Identifies(attrs, s)
  {
    FourBytes(s.framedIP);
  }

  lemma FieldsIdentify(s: Session, mac: Digest)
    ensures Identifies(NonEmpty(Fields(s)) + [Avp(MESSAGE_AUTHENTICATOR, mac)], s)
  {
    RequestValues(s, mac, 1);
    RequestValues(s, mac, 8);
    RequestValues(s, mac, 44);
    RequestValues(s, mac, 31);
    RequestValues(s, mac, 80);
    FieldValues(s, 1);
    FieldValues(s, 8);
    FieldValues(s, 44);
    FieldValues(s, 31);
    FieldValues(s, 80);
    RequestTypes(s, mac);
    ValuesIdentify(NonEmpty(Fields(s)) + [Avp(MESSAGE_AUTHENTICATOR, mac)], s, mac);
  }

  lemma AttributeBytes(s: Session, mac: Digest)
    requires Encode(Fields(s)).Ok?
    ensures var fields := Encode(Fields(s)).value;
            var attributes := fields + [MESSAGE_AUTHENTICATOR, 18] + mac;
            && Walk(attributes) == NonEmpty(Fields(s)) + [Avp(MESSAGE_AUTHENTICATOR, mac)]
            && Rest(attributes) == []
            && FirstAt(attributes, MESSAGE_AUTHENTICATOR) == Some(|fields|)
  {
    SendableIff(s);
    WalkUndoesEncode(Fields(s));
    var fields := Encode(Fields(s)).value;
    var ma := Avp(MESSAGE_AUTHENTICATOR, mac);
    WalkOne(ma, []);
    assert [ma] + [] == [ma];
    var tail := Wire(ma) + [];
    assert tail == [MESSAGE_AUTHENTICATOR, 18] + mac;
    assert fields + [MESSAGE_AUTHENTICATOR, 18] + mac == fields + tail;
    WalkAppend(fields, tail);
    assert NoneOfType(Fields(s), MESSAGE_AUTHENTICATOR);
    NonEmptyKeepsTypes(Fields(s), MESSAGE_AUTHENTICATOR);
    FirstAfter(fields, tail, MESSAGE_AUTHENTICATOR);
  }

  /** The packet identifies exactly this session, and says nothing else. */
  lemma AttributesOfRequest(c: Crypto, id: byte, secret: Bytes, s: Session)
    requires Encode(Fields(s)).Ok?
    ensures var pkt := Packet(c, id, secret, Encode(Fields(s)).value);
            |pkt| >= 20 && Rest(pkt[20..]) == [] && Identifies(Walk(pkt[20..]), s)
  {
    var fields := Encode(Fields(s)).value;
    var mac := MacOf(c, id, secret, fields);
    PatchesOfFramed(id, c.md5(Framed(id, ZEROS, fields, mac) + secret), fields, mac);
    AttributeBytes(s, mac);
    FieldsIdentify(s, mac);
  }

  /** Every request that can be built verifies at the receiver, and it is at most 809 bytes long,
      so no length octet and no Length field ever wraps. */
  lemma BuiltRequestVerifies(c: Crypto, id: byte, secret: Bytes, s: Session)
    requires Sendable(s)
    ensures Encode(Fields(s)).Ok?
    ensures var pkt := Packet(c, id, secret, Encode(Fields(s)).value);
            ReceiverAccepts(c, secret, pkt) && pkt[1] == id && |pkt| <= 809
  {
    SendableIff(s);
    FieldsSize(s);
    var fields := Encode(Fields(s)).value;
    var mac := MacOf(c, id, secret, fields);
    AttributeBytes(s, mac);
    PatchesOfFramed(id, c.md5(Framed(id, ZEROS, fields, mac) + secret), fields, mac);
    Uint16RoundTrip(38 + |fields|);
  }

  /** The packet is assembled in one buffer: header, attributes, then the digests. It fails exactly
      on a text that is too long, and otherwise the receiver accepts it and finds this session. */
  method BuildDisconnect(c: Crypto, id: byte, secret: Bytes, s: Session) returns (r: Result<Bytes, TooLong>)
    ensures r == match Encode(Fields(s)) case Ok(fields) => Ok(Packet(c, id, secret, fields)) case Err(e) => Err(e)
    ensures r.Ok? <==> Sendable(s)
    ensures r.Err? ==> r.error == FirstTooLong(s)
    ensures r.Ok? ==>
              && ReceiverAccepts(c, secret, r.value) && r.value[1] == id && |r.value| <= 809
              && Identifies(Walk(r.value[20..]), s)
  {
    SendableIff(s);
    EncodeWithAuthenticator(Fields(s));
    var encoded := EncodeAttrs(Fields(s) + [Avp(MESSAGE_AUTHENTICATOR, ZEROS)]);
    if encoded.Err? {
      return Err(encoded.error);
    }
    var attrs := encoded.value;
    ghost var fields := Encode(Fields(s)).value;
    var length := 20 + |attrs|;
    var pkt := new byte[length](_ => 0);
    pkt[0] := DISCONNECT_REQUEST;
    pkt[1] := id;
    BufferFilled(pkt[..], id, fields);
    Copy(pkt, 2, PutUint16(length));
    Copy(pkt, 20, attrs);
    FillDigests(c, id, secret, pkt, fields);
    r := Ok(pkt[..]);
    BuiltRequestVerifies(c, id, secret, s);
    AttributesOfRequest(c, id, secret, s);
  }

  // ----- judging a response

  datatype Detail = Detail(errorCause: nat, errorCauseName: string, replyMessage: Bytes)

  const NO_DETAIL := Detail(0, "", [])

  datatype Reply = Reply(acked: bool, detail: Detail)

  datatype Refusal =
    | ShortPacket(size: nat)
    | BadLength(length: nat)
    | IdentifierMismatch
    | UnexpectedCode(code: byte)
    | AuthenticatorInvalid

  const ERROR_CAUSE_NAMES: map<nat, string> := map[
    401 := "Unsupported Attribute", 402 := "Missing Attribute", 403 := "NAS Identification Mismatch",
    404 := "Invalid Request", 405 := "Unsupported Service", 406 := "Unsupported Extension",
    407 := "Invalid Attribute Value", 501 := "Administratively Prohibited",
    503 := "Session Context Not Found", 506 := "Resources Unavailable"]

  function CauseName(cause: nat): string {
    if cause in ERROR_CAUSE_NAMES then ERROR_CAUSE_NAMES[cause] else ""
  }

  function LastCause(attrs: seq<Avp>): Option<Bytes> {
    LastOf(attrs, ERROR_CAUSE, (v: Bytes) => |v| == 4)
  }

  function LastMessage(attrs: seq<Avp>): Option<Bytes> {
    LastOf(attrs, REPLY_MESSAGE, (v: Bytes) => true)
  }

  /** What a list of attributes says about a refusal: its last four-byte Error-Cause and
      its last Reply-Message. */
  function DetailOf(attrs: seq<Avp>): Detail {
    var message := if LastMessage(attrs).Some? then LastMessage(attrs).value else [];
    var cause := LastCause(attrs);
    if cause.Some? && |cause.value| == 4 then Detail(Uint32(cause.value), CauseName(Uint32(cause.value)), message)
    else Detail(0, "", message)
  }

  lemma LastCauseIsFourBytes(attrs: seq<Avp>)
    ensures LastCause(attrs).Some? ==> |LastCause(attrs).value| == 4
  {
    if attrs != [] {
      LastCauseIsFourBytes(attrs[..|attrs| - 1]);
    }
  }

  predicate IsCause(a: Avp) {
    a.typ == 101 && |a.value| == 4
  }

  predicate LastCauseAt(attrs: seq<Avp>, i: nat) {
    i < |attrs| && IsCause(attrs[i]) && forall j :: i < j < |attrs| ==> !IsCause(attrs[j])
  }

  predicate LastMessageAt(attrs: seq<Avp>, i: nat) {
    i < |attrs| && attrs[i].typ == 18 && forall j :: i < j < |attrs| ==> attrs[j].typ != 18
  }

  /** The number in the last four-byte Error-Cause, most significant byte first, with its name;
      nothing without one. */
  ghost predicate CauseRead(d: Detail, attrs: seq<Avp>) {
    && (forall i: nat :: LastCauseAt(attrs, i) ==>
          var v := attrs[i].value;
          && d.errorCause == 0x100_0000 * v[0] as nat + 0x1_0000 * v[1] as nat + 256 * v[2] as nat + v[3] as nat
          && d.errorCauseName == CauseName(d.errorCause))
    && ((forall i :: 0 <= i < |attrs| ==> !IsCause(attrs[i])) ==> d.errorCause == 0 && d.errorCauseName == "")
  }

  /** The last Reply-Message; nothing without one. */
  ghost predicate MessageRead(d: Detail, attrs: seq<Avp>) {
    && (forall i: nat :: LastMessageAt(attrs, i) ==> d.replyMessage == attrs[i].value)
    && ((forall i :: 0 <= i < |attrs| ==> attrs[i].typ != 18) ==> d.replyMessage == [])
  }

  /** What a refusal says. */
  ghost predicate Says(d: Detail, attrs: seq<Avp>) {
    CauseRead(d, attrs) && MessageRead(d, attrs)
  }

  lemma DetailStep(seen: seq<Avp>, a: Avp)
    ensures var d := DetailOf(seen);
            DetailOf(seen + [a]) ==
              if a.typ == ERROR_CAUSE && |a.value| == 4 then
                d.(errorCause := Uint32(a.value), errorCauseName := CauseName(Uint32(a.value)))
              else if a.typ == REPLY_MESSAGE then d.(replyMessage := a.value)
              else d
  {
    assert (seen + [a])[..|seen|] == seen;
    LastCauseIsFourBytes(seen);
  }

  lemma LastCauseStep(front: seq<Avp>, last: Avp, i: nat)
    ensures LastCauseAt(front + [last], i) <==> if IsCause(last) then i == |front| else LastCauseAt(front, i)
  {
    var attrs := front + [last];
    assert attrs[|front|] == last && forall j :: 0 <= j < |front| ==> attrs[j] == front[j];
  }

  lemma CauseStep(d: Detail, d': Detail, front: seq<Avp>, last: Avp)
    requires CauseRead(d, front)
    requires IsCause(last) ==> d'.errorCause == Uint32(last.value) && d'.errorCauseName == CauseName(d'.errorCause)
    requires !IsCause(last) ==> d'.errorCause == d.errorCause && d'.errorCauseName == d.errorCauseName
    ensures CauseRead(d', front + [last])
  {
    var attrs := front + [last];
    assert attrs[|front|] == last && forall j :: 0 <= j < |front| ==> attrs[j] == front[j];
    forall i: nat ensures LastCauseAt(attrs, i) <==> if IsCause(last) then i == |front| else LastCauseAt(front, i) {
      LastCauseStep(front, last, i);
    }
  }

  lemma MessageStep(d: Detail, d': Detail, front: seq<Avp>, last: Avp)
    requires MessageRead(d, front) && d'.replyMessage == if last.typ == 18 then last.value else d.replyMessage
    ensures MessageRead(d', front + [last])
  {
    var attrs := front + [last];
    assert forall i :: 0 <= i < |front| ==> attrs[i] == front[i];
    assert attrs[|front|] == last;
  }

  lemma {:induction false} DetailSays(attrs: seq<Avp>)
    ensures Says(DetailOf(attrs), attrs)
  {
    if attrs != [] {
      var front, last := attrs[..|attrs| - 1], attrs[|attrs| - 1];
      assert attrs == front + [last];
      DetailSays(front);
      DetailStep(front, last);
      CauseStep(DetailOf(front), DetailOf(attrs), front, last);
      MessageStep(DetailOf(front), DetailOf(attrs), front, last);
    }
  }

  /** The names of the causes, and no name for any other. */
  lemma CauseNames(cause: nat)
    ensures CauseName(401) == "Unsupported Attribute" && CauseName(402) == "Missing Attribute"
    ensures CauseName(403) == "NAS Identification Mismatch" && CauseName(404) == "Invalid Request"
    ensures CauseName(405) == "Unsupported Service" && CauseName(406) == "Unsupported Extension"
    ensures CauseName(407) == "Invalid Attribute Value" && CauseName(501) == "Administratively Prohibited"
    ensures CauseName(503) == "Session Context Not Found" && CauseName(506) == "Resources Unavailable"
    ensures cause !in {401, 402, 403, 404, 405, 406, 407, 501, 503, 506} ==> CauseName(cause) == ""
  {
  }

  /** The attribute walk: the loop advances through the slice and stops at the first
      malformed attribute. */
  method ParseNAKDetail(attributes: Bytes) returns (d: Detail)
    ensures d == DetailOf(Walk(attributes))
  {
    var attrs := attributes;
    d := NO_DETAIL;
    ghost var seen: seq<Avp> := [];
    while |attrs| >= 2
      invariant Walk(attributes) == seen + Walk(attrs)
      invariant d == DetailOf(seen)
      decreases |attrs|
    {
      var typ, l := attrs[0], attrs[1];
      if l < 2 || l > |attrs| {
        assert seen + [] == seen;
        return;
      }
      var val := attrs[2..l];
      DetailStep(seen, Avp(typ, val));
      if typ == ERROR_CAUSE {
        if |val| == 4 {
          d := d.(errorCause := Uint32(val), errorCauseName := CauseName(Uint32(val)));
        }
      } else if typ == REPLY_MESSAGE {
        d := d.(replyMessage := val);
      }
      assert seen + ([Avp(typ, val)] + Walk(attrs[l..])) == seen + [Avp(typ, val)] + Walk(attrs[l..]);
      seen := seen + [Avp(typ, val)];
      attrs := attrs[l..];
    }
    assert seen + [] == seen;
  }

  /** The reply an honest NAS sends (section 3 of RFC 2865): the Response Authenticator is the
      MD5 of the reply with the Request Authenticator in its place, followed by the secret. */
  function HonestReply(c: Crypto, code: byte, id: byte, reqAuth: Digest, attributes: Bytes, secret: Bytes): Bytes {
    var header := Header(code, id, 20 + |attributes|);
    header + c.md5(header + reqAuth + attributes + secret) + attributes
  }

  function Judge(c: Crypto, resp: Bytes, reqAuth: Digest, id: byte, secret: Bytes): Result<Reply, Refusal> {
    if |resp| < 20 then Err(ShortPacket(|resp|))
    else
      var length := Uint16(resp[2], resp[3]);
      if length < 20 || length > |resp| then Err(BadLength(length))
      else if resp[1] != id then Err(IdentifierMismatch)
      else if resp[0] != DISCONNECT_ACK && resp[0] != DISCONNECT_NAK then Err(UnexpectedCode(resp[0]))
      else if c.md5(resp[..4] + reqAuth + resp[20..length] + secret) != resp[4..20] then Err(AuthenticatorInvalid)
      else if resp[0] == DISCONNECT_ACK then Ok(Reply(true, NO_DETAIL))
      else Ok(Reply(false, DetailOf(Walk(resp[20..length]))))
  }

  lemma SliceOfPrefix(b: Bytes, n: nat, i: nat, j: nat)
    requires i <= j <= n <= |b|
    ensures b[..n][i..j] == b[i..j]
  {
  }

  method ValidResponse(c: Crypto, datagram: Bytes, reqAuth: Digest, id: byte, secret: Bytes)
    returns (r: Result<Reply, Refusal>)
    ensures r == Judge(c, datagram, reqAuth, id, secret)
    ensures var length := if |datagram| < 20 then 0 else 256 * datagram[2] as nat + datagram[3] as nat;
            match r
            case Ok(reply) =>
              && 20 <= length <= |datagram| && datagram[1] == id
              && datagram[0] == (if reply.acked then 41 else 42)
              && c.md5(datagram[..4] + reqAuth + datagram[20..length] + secret) == datagram[4..20]
              && (if reply.acked then reply.detail == Detail(0, "", [])
                  else Says(reply.detail, Walk(datagram[20..length])))
            case Err(ShortPacket(size)) => size == |datagram| < 20
            case Err(BadLength(l)) => 20 <= |datagram| && l == length && (length < 20 || |datagram| < length)
            case Err(IdentifierMismatch) => 20 <= length <= |datagram| && datagram[1] != id
            case Err(UnexpectedCode(code)) =>
              20 <= length <= |datagram| && datagram[1] == id && code == datagram[0] && code !in {41, 42}
            case Err(AuthenticatorInvalid) =>
              && 20 <= length <= |datagram| && datagram[1] == id && datagram[0] in {41, 42}
              && c.md5(datagram[..4] + reqAuth + datagram[20..length] + secret) != datagram[4..20]
  {
    if |datagram| < 20 {
      return Err(ShortPacket(|datagram|));
    }
    var length := Uint16(datagram[2], datagram[3]);
    if length < 20 || length > |datagram| {
      return Err(BadLength(length));
    }
    var resp := datagram[..length];
    if resp[1] != id {
      return Err(IdentifierMismatch);
    }
    if resp[0] != DISCONNECT_ACK && resp[0] != DISCONNECT_NAK {
      return Err(UnexpectedCode(resp[0]));
    }
    SliceOfPrefix(datagram, length, 20, length);
    SliceOfPrefix(datagram, length, 0, 4);
    SliceOfPrefix(datagram, length, 4, 20);
    var sum := c.md5(resp[0..4] + reqAuth + resp[20..] + secret);
    if sum != resp[4..20] {
      return Err(AuthenticatorInvalid);
    }
    if resp[0] == DISCONNECT_ACK {
      return Ok(Reply(true, NO_DETAIL));
    }
    var detail := ParseNAKDetail(resp[20..]);
    DetailSays(Walk(resp[20..]));
    r := Ok(Reply(false, detail));
  }

  /** A datagram is an honest reply, possibly followed by padding. */
  predicate HonestWithPadding(c: Crypto, resp: Bytes, code: byte, id: byte, reqAuth: Digest, attributes: Bytes,
      secret: Bytes) {
    && 20 + |attributes| < 65536
    && HonestReply(c, code, id, reqAuth, attributes, secret) <= resp
  }

  lemma HonestReplyShape(c: Crypto, code: byte, id: byte, reqAuth: Digest, attributes: Bytes, secret: Bytes)
    requires 20 + |attributes| < 65536
    ensures var p := HonestReply(c, code, id, reqAuth, attributes, secret);
            && |p| == 20 + |attributes| && p[0] == code && p[1] == id && Uint16(p[2], p[3]) == |p|
            && p[..4] == Header(code, id, |p|) && p[20..] == attributes
            && p[4..20] == c.md5(p[..4] + reqAuth + attributes + secret)
  {
    Uint16RoundTrip(20 + |attributes|);
    var header := Header(code, id, 20 + |attributes|);
    var p := HonestReply(c, code, id, reqAuth, attributes, secret);
    assert p[..4] == header;
  }

  /** Completeness: an honest ACK or NAK is accepted whatever padding follows it, and a NAK
      yields the last Error-Cause and Reply-Message of its well-formed attributes. */
  lemma HonestReplyAccepted(c: Crypto, resp: Bytes, code: byte, id: byte, reqAuth: Digest, attributes: Bytes,
      secret: Bytes)
    requires code == 41 || code == 42
    requires HonestWithPadding(c, resp, code, id, reqAuth, attributes, secret)
    ensures var r := Judge(c, resp, reqAuth, id, secret);
            && r.Ok? && r.value.acked == (code == 41)
            && (if code == 41 then r.value.detail == Detail(0, "", []) else Says(r.value.detail, Walk(attributes)))
  {
    HonestReplyShape(c, code, id, reqAuth, attributes, secret);
    var p := HonestReply(c, code, id, reqAuth, attributes, secret);
    assert resp[..|p|] == p;
    assert resp[2] == p[2] && resp[3] == p[3] && resp[0] == p[0] && resp[1] == p[1];
    assert resp[..4] == p[..4] && resp[4..20] == p[4..20] && resp[20..|p|] == attributes;
    DetailSays(Walk(attributes));
  }

  /** Soundness: whatever is accepted is an honest reply with padding. */
  lemma AcceptedIsHonest(c: Crypto, resp: Bytes, id: byte, reqAuth: Digest, secret: Bytes)
    requires Judge(c, resp, reqAuth, id, secret).Ok?
    ensures resp[0] == 41 || resp[0] == 42
    ensures HonestWithPadding(c, resp, resp[0], id, reqAuth, resp[20..Uint16(resp[2], resp[3])], secret)
  {
    var length := Uint16(resp[2], resp[3]);
    var attributes := resp[20..length];
    LengthBytesUnique(resp[2], resp[3]);
    assert resp[..4] == Header(resp[0], id, length);
    assert resp[..length] == resp[..4] + resp[4..20] + attributes;
    assert HonestReply(c, resp[0], id, reqAuth, attributes, secret) == resp[..length];
  }

  lemma AcceptedAttributes(c: Crypto, resp: Bytes, id: byte, reqAuth: Digest, secret: Bytes)
    returns (attributes: Bytes)
    requires Judge(c, resp, reqAuth, id, secret).Ok?
    ensures |resp| > 0 && resp[0] == if Judge(c, resp, reqAuth, id, secret).value.acked then 41 else 42
    ensures HonestWithPadding(c, resp, resp[0], id, reqAuth, attributes, secret)
  {
    AcceptedIsHonest(c, resp, id, reqAuth, secret);
    attributes := resp[20..Uint16(resp[2], resp[3])];
  }

  /** Acceptance is exactly honesty. */
  lemma AcceptedIff(c: Crypto, resp: Bytes, id: byte, reqAuth: Digest, secret: Bytes)
    ensures Judge(c, resp, reqAuth, id, secret).Ok? <==>
              exists code: byte, attributes: Bytes ::
                (code == 41 || code == 42)
                && HonestWithPadding(c, resp, code, id, reqAuth, attributes, secret)
  {
    if Judge(c, resp, reqAuth, id, secret).Ok? {
      AcceptedIsHonest(c, resp, id, reqAuth, secret);
    }
    forall code: byte, attributes: Bytes |
      (code == 41 || code == 42)
        && HonestWithPadding(c, resp, code, id, reqAuth, attributes, secret)
      ensures Judge(c, resp, reqAuth, id, secret).Ok?
    {
      HonestReplyAccepted(c, resp, code, id, reqAuth, attributes, secret);
    }
  }

  // ----- the retry loop

  /** What the socket did in one attempt. */
  datatype Attempt = WriteFailed | ReadFailed | Received(datagram: Bytes)

  datatype Link = Unreachable | Dialed(net: seq<Attempt>)

  datatype Failure =
    | CannotBuild(cause: TooLong)
    | CannotDial
    | CannotWrite
    | CannotRead
    | Invalid(refusal: Refusal)

  /** A datagram longer than the read buffer is cut off. */
  function Buffered(datagram: Bytes): Bytes {
    if |datagram| <= READ_BUFFER then datagram else datagram[..READ_BUFFER]
  }

  function Outcome(c: Crypto, a: Attempt, reqAuth: Digest, id: byte, secret: Bytes): Result<Reply, Failure> {
    match a
    case WriteFailed => Err(CannotWrite)
    case ReadFailed => Err(CannotRead)
    case Received(d) =>
      match Judge(c, Buffered(d), reqAuth, id, secret)
      case Ok(reply) => Ok(reply)
      case Err(e) => Err(Invalid(e))
  }

  lemma PacketAuthenticator(c: Crypto, id: byte, secret: Bytes, fields: Bytes)
    ensures |Packet(c, id, secret, fields)| == 38 + |fields|
    ensures Packet(c, id, secret, fields)[4..20]
              == c.md5(Framed(id, ZEROS, fields, MacOf(c, id, secret, fields)) + secret)
  {
    var mac := MacOf(c, id, secret, fields);
    PatchesOfFramed(id, c.md5(Framed(id, ZEROS, fields, mac) + secret), fields, mac);
  }

  /** The first of at most two attempts that brings a valid answer decides; otherwise the
      last failure is reported. */
  function Exchange(c: Crypto, id: byte, secret: Bytes, s: Session, link: Link): Result<Reply, Failure>
    requires link.Dialed? ==> |link.net| >= ATTEMPTS
  {
    match Encode(Fields(s))
    case Err(e) => Err(CannotBuild(e))
    case Ok(fields) =>
      if link.Unreachable? then Err(CannotDial)
      else
        PacketAuthenticator(c, id, secret, fields);
        var reqAuth: Digest := Packet(c, id, secret, fields)[4..20];
        var first := Outcome(c, link.net[0], reqAuth, id, secret);
        if first.Ok? then first else Outcome(c, link.net[1], reqAuth, id, secret)
  }

  /** At most two attempts on the dialled socket. */
  method Attempts(c: Crypto, id: byte, secret: Bytes, reqAuth: Digest, net: seq<Attempt>)
    returns (r: Result<Reply, Failure>)
    requires |net| >= ATTEMPTS
    ensures r == if Outcome(c, net[0], reqAuth, id, secret).Ok? then Outcome(c, net[0], reqAuth, id, secret)
                 else Outcome(c, net[1], reqAuth, id, secret)
  {
    var lastErr := CannotRead;
    var i := 0;
    while i < ATTEMPTS
      invariant 0 <= i <= ATTEMPTS
      invariant forall k :: 0 <= k < i ==> Outcome(c, net[k], reqAuth, id, secret).Err?
      invariant i > 0 ==> Outcome(c, net[i - 1], reqAuth, id, secret) == Err(lastErr)
    {
      var attempt := net[i];
      i := i + 1;
      if attempt.WriteFailed? {
        lastErr := CannotWrite;
        continue;
      }
      if attempt.ReadFailed? {
        lastErr := CannotRead;
        continue;
      }
      var res := ValidResponse(c, Buffered(attempt.datagram), reqAuth, id, secret);
      if res.Err? {
        lastErr := Invalid(res.error);
        continue;
      }
      return Ok(res.value);
    }
    r := Err(lastErr);
  }

  method DisconnectDetail(c: Crypto, id: byte, secret: Bytes, s: Session, link: Link)
    returns (r: Result<Reply, Failure>)
    requires link.Dialed? ==> |link.net| >= ATTEMPTS
    ensures r == Exchange(c, id, secret, s, link)
    ensures r.Err? ==>
              match r.error
              case CannotBuild(cause) => !Sendable(s) && cause == FirstTooLong(s)
              case CannotDial => Sendable(s) && link.Unreachable?
              case CannotWrite => Sendable(s) && link.Dialed? && link.net[1].WriteFailed?
              case CannotRead => Sendable(s) && link.Dialed? && link.net[1].ReadFailed?
              case Invalid(_) => Sendable(s) && link.Dialed? && link.net[1].Received?
  {
    SendableIff(s);
    var built := BuildDisconnect(c, id, secret, s);
    if built.Err? {
      return Err(CannotBuild(built.error));
    }
    var pkt := built.value;
    PacketAuthenticator(c, id, secret, Encode(Fields(s)).value);
    var reqAuth: Digest := pkt[4..20];
    if link.Unreachable? {
      return Err(CannotDial);
    }
    r := Attempts(c, id, secret, reqAuth, link.net);
  }

  /** The datagram starts with this reply, which fits the read buffer; padding may follow. */
  predicate Brings(c: Crypto, d: Bytes, code: byte, id: byte, reqAuth: Digest, attributes: Bytes, secret: Bytes) {
    20 + |attributes| <= 4096 && HonestReply(c, code, id, reqAuth, attributes, secret) <= d
  }

  /** The attempt brought an honest reply with this code to this request. */
  ghost predicate Answers(c: Crypto, a: Attempt, code: byte, id: byte, reqAuth: Digest, secret: Bytes) {
    a.Received? && exists attributes: Bytes :: Brings(c, a.datagram, code, id, reqAuth, attributes, secret)
  }

  /** Cutting a datagram off keeps exactly the replies that fit the buffer. */
  lemma BufferedReply(c: Crypto, d: Bytes, code: byte, id: byte, reqAuth: Digest, attributes: Bytes, secret: Bytes)
    ensures HonestWithPadding(c, Buffered(d), code, id, reqAuth, attributes, secret) <==>
              Brings(c, d, code, id, reqAuth, attributes, secret)
  {
    var p := HonestReply(c, code, id, reqAuth, attributes, secret);
    assert |p| == 20 + |attributes|;
    if p <= d && |p| <= 4096 {
      assert p == d[..|p|] == Buffered(d)[..|p|];
    }
    if p <= Buffered(d) {
      assert p == Buffered(d)[..|p|] == d[..|p|];
    }
  }

  lemma ReplyDecides(c: Crypto, a: Attempt, code: byte, id: byte, reqAuth: Digest, attributes: Bytes, secret: Bytes)
    requires (code == 41 || code == 42) && a.Received?
    requires Brings(c, a.datagram, code, id, reqAuth, attributes, secret)
    ensures var o := Outcome(c, a, reqAuth, id, secret); o.Ok? && o.value.acked == (code == 41)
  {
    BufferedReply(c, a.datagram, code, id, reqAuth, attributes, secret);
    HonestReplyAccepted(c, Buffered(a.datagram), code, id, reqAuth, attributes, secret);
  }

  lemma AnswerDecides(c: Crypto, a: Attempt, code: byte, id: byte, reqAuth: Digest, secret: Bytes)
    requires (code == 41 || code == 42) && Answers(c, a, code, id, reqAuth, secret)
    ensures var o := Outcome(c, a, reqAuth, id, secret); o.Ok? && o.value.acked == (code == 41)
  {
    var attributes: Bytes :| Brings(c, a.datagram, code, id, reqAuth, attributes, secret);
    ReplyDecides(c, a, code, id, reqAuth, attributes, secret);
  }

  lemma DecisionIsAnswered(c: Crypto, a: Attempt, id: byte, reqAuth: Digest, secret: Bytes)
    requires Outcome(c, a, reqAuth, id, secret).Ok?
    ensures Answers(c, a, if Outcome(c, a, reqAuth, id, secret).value.acked then 41 else 42, id, reqAuth, secret)
  {
    var d := Buffered(a.datagram);
    var attributes := AcceptedAttributes(c, d, id, reqAuth, secret);
    BufferedReply(c, a.datagram, d[0], id, reqAuth, attributes, secret);
    assert Brings(c, a.datagram, d[0], id, reqAuth, attributes, secret);
  }

  lemma OutcomeIsHonest(c: Crypto, a: Attempt, id: byte, reqAuth: Digest, secret: Bytes)
    ensures var o := Outcome(c, a, reqAuth, id, secret);
            && (o.Ok? && o.value.acked <==> Answers(c, a, 41, id, reqAuth, secret))
            && (o.Ok? && !o.value.acked <==> Answers(c, a, 42, id, reqAuth, secret))
  {
    if Outcome(c, a, reqAuth, id, secret).Ok? {
      DecisionIsAnswered(c, a, id, reqAuth, secret);
    }
    if Answers(c, a, 41, id, reqAuth, secret) {
      AnswerDecides(c, a, 41, id, reqAuth, secret);
    }
    if Answers(c, a, 42, id, reqAuth, secret) {
      AnswerDecides(c, a, 42, id, reqAuth, secret);
    }
  }

  /** The session counts as dropped exactly when the first honest reply among two attempts is
      an ACK, and as refused exactly when it is a NAK; otherwise an error is reported. */
  lemma AnswerIsHonest(c: Crypto, id: byte, secret: Bytes, s: Session, link: Link)
    requires link.Dialed? && |link.net| >= 2 && Sendable(s)
    ensures Encode(Fields(s)).Ok?
    ensures var r := Exchange(c, id, secret, s, link);
            var fields := Encode(Fields(s)).value;
            var reqAuth: Digest := c.md5(Framed(id, ZEROS, fields, MacOf(c, id, secret, fields)) + secret);
            var first, second := link.net[0], link.net[1];
            && (r.Ok? && r.value.acked <==>
                  || Answers(c, first, 41, id, reqAuth, secret)
                  || (!Answers(c, first, 42, id, reqAuth, secret)
                       && Answers(c, second, 41, id, reqAuth, secret)))
            && (r.Ok? && !r.value.acked <==>
                  || Answers(c, first, 42, id, reqAuth, secret)
                  || (!Answers(c, first, 41, id, reqAuth, secret)
                       && Answers(c, second, 42, id, reqAuth, secret)))
  {
    SendableIff(s);
    var fields := Encode(Fields(s)).value;
    PacketAuthenticator(c, id, secret, fields);
    var reqAuth: Digest := c.md5(Framed(id, ZEROS, fields, MacOf(c, id, secret, fields)) + secret);
    OutcomeIsHonest(c, link.net[0], id, reqAuth, secret);
    OutcomeIsHonest(c, link.net[1], id, reqAuth, secret);
  }
}
