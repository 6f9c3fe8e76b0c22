/**
 * STUN messages as the server reads and writes them: `parse_stun_username` and `make_binding_response` of
 * src/media/net.rs, against the attribute format of RFC 5389. HMAC-SHA1 and CRC-32 are parameters.
 */
module Stun {
  import opened Basics
  import opened Bits

  const USERNAME: u16 := 0x0006
  const MESSAGE_INTEGRITY: u16 := 0x0008
  const XOR_MAPPED_ADDRESS: u16 := 0x0020
  const FINGERPRINT: u16 := 0x8028
  const MAGIC: u32 := 0x2112_A442
  const FINGERPRINT_MASK: u32 := 0x5354_554E
  const COLON: byte := 0x3A

  // ------------------------------------------------------------------------
  // Attributes on the wire (RFC 5389, section 15)
  // ------------------------------------------------------------------------

  /** An attribute with its padding bytes. */
  datatype Attr = Attr(kind: u16, value: seq<byte>, padding: seq<byte>)

  predicate WellFormed(a: Attr) {
    |a.value| < 0x1_0000 && |a.padding| < 4 && (|a.value| + |a.padding|) % 4 == 0
  }

  /** Well-formed with `n` value bytes and no padding. */
  predicate Sized(a: Attr, n: nat) {
    WellFormed(a) && |a.value| == n && a.padding == []
  }

  function Encode(a: Attr): seq<byte>
    requires WellFormed(a)
  {
    Be16(a.kind) + Be16(|a.value|) + a.value + a.padding
  }

  predicate AllWellFormed(attrs: seq<Attr>) {
    forall i :: 0 <= i < |attrs| ==> WellFormed(attrs[i])
  }

  function EncodeAll(attrs: seq<Attr>): seq<byte>
    requires AllWellFormed(attrs)
  {
    if attrs == [] then [] else Encode(attrs[0]) + EncodeAll(attrs[1..])
  }

  lemma EncodedLength(a: Attr)
    requires WellFormed(a)
    ensures |Encode(a)| == 4 + |a.value| + |a.padding|
    ensures |Encode(a)| == 4 + PadTo4(|a.value|)
  {
    hide PadTo4, Be16;
    PadIsRoundUp(|a.value|);
    MultipleInRange(|a.value|, PadTo4(|a.value|), |a.value| + |a.padding|);
  }

  lemma EncodedFields(a: Attr)
    requires WellFormed(a)
    ensures var e := Encode(a);
            && |e| == 4 + |a.value| + |a.padding|
            && Word(e[0], e[1]) == a.kind && Word(e[2], e[3]) == |a.value|
            && e[4..4 + |a.value|] == a.value
  {
    var e := Encode(a);
    assert e == (Be16(a.kind) + Be16(|a.value|)) + (a.value + a.padding);
    assert e[0] == a.kind / 0x100 && e[1] == a.kind % 0x100;
    assert e[2] == |a.value| / 0x100 && e[3] == |a.value| % 0x100;
  }

  /** Where the fields of an encoded attribute lie when it follows `pre`. */
  lemma EncodedAt(pre: seq<byte>, a: Attr, p: seq<byte>)
    requires WellFormed(a) && pre + Encode(a) <= p
    ensures |pre| + 4 + |a.value| <= |pre| + |Encode(a)| <= |p|
    ensures |Encode(a)| == 4 + PadTo4(|a.value|)
    ensures U16At(p, |pre|) == a.kind && U16At(p, |pre| + 2) == |a.value|
    ensures p[|pre| + 4..|pre| + 4 + |a.value|] == a.value
  {
    EncodedFields(a);
    EncodedLength(a);
    hide PadTo4, Encode, WellFormed;
    var e := Encode(a);
    assert p[|pre|..|pre| + |e|] == e;
    assert forall i :: 0 <= i < |e| ==> p[|pre| + i] == e[i];
    assert p[|pre| + 4..|pre| + 4 + |a.value|] == e[4..4 + |a.value|];
  }

  // ------------------------------------------------------------------------
  // USERNAME
  // ------------------------------------------------------------------------

  predicate Continuation(b: byte) {
    0x80 <= b <= 0xBF
  }

  /** Well-formed UTF-8 (RFC 3629, section 4). */
  predicate Utf8(s: seq<byte>) {
    if s == [] then true
    else if s[0] <= 0x7F then Utf8(s[1..])
    else if 0xC2 <= s[0] <= 0xDF then |s| >= 2 && Continuation(s[1]) && Utf8(s[2..])
    else if 0xE0 <= s[0] <= 0xEF then
      && |s| >= 3
      && (if s[0] == 0xE0 then 0xA0 else 0x80) <= s[1] <= (if s[0] == 0xED then 0x9F else 0xBF)
      && Continuation(s[2])
      && Utf8(s[3..])
    else
      && 0xF0 <= s[0] <= 0xF4
      && |s| >= 4
      && (if s[0] == 0xF0 then 0x90 else 0x80) <= s[1] <= (if s[0] == 0xF4 then 0x8F else 0xBF)
      && Continuation(s[2])
      && Continuation(s[3])
      && Utf8(s[4..])
  }

  /** A Unicode scalar value: no surrogates. */
  type Scalar = c: int | 0 <= c <= 0x10FFFF && !(0xD800 <= c <= 0xDFFF)

  /** Its octets (RFC 3629, section 3). */
  function EncodeScalar(c: Scalar): (s: seq<byte>)
    ensures s != []
  {
    if c < 0x80 then [c]
    else if c < 0x800 then [0xC0 + c / 0x40, 0x80 + c % 0x40]
    else if c < 0x1_0000 then [0xE0 + c / 0x40 / 0x40, 0x80 + c / 0x40 % 0x40, 0x80 + c % 0x40]
    else [0xF0 + c / 0x40 / 0x40 / 0x40, 0x80 + c / 0x40 / 0x40 % 0x40, 0x80 + c / 0x40 % 0x40, 0x80 + c % 0x40]
  }

  function EncodeText(text: seq<Scalar>): seq<byte> {
    if text == [] then [] else EncodeScalar(text[0]) + EncodeText(text[1..])
  }

  lemma Utf8Cons(c: Scalar, rest: seq<byte>)
    ensures Utf8(EncodeScalar(c) + rest) <==> Utf8(rest)
  {
    var s := EncodeScalar(c) + rest;
    assert s[|EncodeScalar(c)|..] == rest;
  }

  lemma SixBits(high: nat, b: byte)
    requires Continuation(b)
    ensures var c := high * 0x40 + (b as int - 0x80); c / 0x40 == high && c % 0x40 == b as int - 0x80
  {
  }

  lemma ThreeOctets(s: seq<byte>) returns (c: Scalar)
    requires Utf8(s) && s != [] && 0xE0 <= s[0] <= 0xEF
    ensures EncodeScalar(c) == s[..3]
  {
    var two := (s[0] as int - 0xE0) * 0x40 + (s[1] as int - 0x80);
    SixBits(s[0] - 0xE0, s[1]);
    SixBits(two, s[2]);
    c := two * 0x40 + (s[2] as int - 0x80);
    hide Utf8;
  }

  lemma FourOctets(s: seq<byte>) returns (c: Scalar)
    requires Utf8(s) && s != [] && 0xF0 <= s[0]
    ensures EncodeScalar(c) == s[..4]
  {
    var two := (s[0] as int - 0xF0) * 0x40 + (s[1] as int - 0x80);
    var three := two * 0x40 + (s[2] as int - 0x80);
    SixBits(s[0] - 0xF0, s[1]);
    SixBits(two, s[2]);
    SixBits(three, s[3]);
    c := three * 0x40 + (s[3] as int - 0x80);
    hide Utf8;
  }

  /** Well-formed octets start with those of a scalar value. */
  lemma FirstScalar(s: seq<byte>) returns (c: Scalar)
    requires Utf8(s) && s != []
    ensures EncodeScalar(c) <= s
  {
    if s[0] <= 0x7F {
      c := s[0];
    } else if s[0] <= 0xDF {
      SixBits(s[0] - 0xC0, s[1]);
      c := (s[0] as int - 0xC0) * 0x40 + (s[1] as int - 0x80);
    } else if s[0] <= 0xEF {
      c := ThreeOctets(s);
    } else {
      c := FourOctets(s);
    }
  }

  lemma {:induction false} EncodedIsUtf8(text: seq<Scalar>)
    ensures Utf8(EncodeText(text))
  {
    if text != [] {
      EncodedIsUtf8(text[1..]);
      Utf8Cons(text[0], EncodeText(text[1..]));
    }
  }

  /** Well-formed octets are exactly those of texts. */
  lemma {:induction false} Utf8Decodes(s: seq<byte>)
    ensures Utf8(s) <==> exists text: seq<Scalar> :: EncodeText(text) == s
    decreases |s|
  {
    if s == [] {
      assert EncodeText([]) == s;
    } else if Utf8(s) {
      hide Utf8, EncodeScalar;
      var c := FirstScalar(s);
      var rest := s[|EncodeScalar(c)|..];
      assert s == EncodeScalar(c) + rest;
      Utf8Cons(c, rest);
      Utf8Decodes(rest);
      var text: seq<Scalar> :| EncodeText(text) == rest;
      var all: seq<Scalar> := [c] + text;
      assert all[1..] == text && EncodeText(all) == s;
    }
    forall text: seq<Scalar> | EncodeText(text) == s ensures Utf8(s) {
      EncodedIsUtf8(text);
    }
  }

  /** The part in front of the first colon. */
  function UpToColon(s: seq<byte>): seq<byte> {
    if s == [] || s[0] == COLON then [] else [s[0]] + UpToColon(s[1..])
  }

  /** The first piece of `split(':')`. */
  method SplitAtColon(name: seq<byte>) returns (first: seq<byte>)
    ensures first == UpToColon(name)
  {
    var i := 0;
    while i < |name| && name[i] != COLON
      invariant 0 <= i <= |name|
      invariant UpToColon(name) == name[..i] + UpToColon(name[i..])
    {
      assert name[..i + 1] == name[..i] + [name[i]];
      assert name[i..][1..] == name[i + 1..];
      i := i + 1;
    }
    assert UpToColon(name[i..]) == [];
    first := name[..i];
  }

  /** What a USERNAME value names: nothing when it is not text. */
  function Named(value: seq<byte>): Option<seq<byte>> {
    if Utf8(value) then Some(UpToColon(value)) else None
  }

  /** The attribute walk from `offset` on. */
  function UsernameFrom(p: seq<byte>, offset: nat): Option<seq<byte>>
    decreases |p| - offset
  {
    if offset + 4 > |p| then None
    else
      var kind, len := U16At(p, offset), U16At(p, offset + 2);
      var start := offset + 4;
      if start + len > |p| then None
      else if kind == USERNAME then Named(p[start..start + len])
      else UsernameFrom(p, start + PadTo4(len))
  }

  /** Stays within the packet and terminates on every byte string. */
  method ParseStunUsername(packet: seq<byte>) returns (r: Option<seq<byte>>)
    ensures r == if |packet| < 20 then None else UsernameFrom(packet, 20)
  {
    hide PadTo4, Utf8, UpToColon;
    if |packet| < 20 {
      return None;
    }
    var offset := 20;
    while offset + 4 <= |packet|
      invariant UsernameFrom(packet, offset) == UsernameFrom(packet, 20)
      decreases |packet| - offset
    {
      var kind := Word(packet[offset], packet[offset + 1]);
      var len := Word(packet[offset + 2], packet[offset + 3]);
      ghost var start := offset;
      offset := offset + 4;
      if offset + len > |packet| {
        return None;
      }
      if kind == USERNAME {
        var name := packet[offset..offset + len];
        if !Utf8(name) {
          return None;
        }
        var ufrag := SplitAtColon(name);
        return Some(ufrag);
      }
      offset := offset + PadTo4(len);
    }
    return None;
  }

  /** The first USERNAME of a list of attributes. */
  function FirstUsername(attrs: seq<Attr>): Option<seq<byte>> {
    if attrs == [] then None
    else if attrs[0].kind == USERNAME then Named(attrs[0].value)
    else FirstUsername(attrs[1..])
  }

  /** The walk over a well-formed message finds its first USERNAME attribute, or none when there is none. */
  lemma {:induction false} WalkFindsFirstUsername(pre: seq<byte>, attrs: seq<Attr>)
    requires AllWellFormed(attrs)
    ensures UsernameFrom(pre + EncodeAll(attrs), |pre|) == FirstUsername(attrs)
    decreases |attrs|
  {
    hide PadTo4, Named;
    var p := pre + EncodeAll(attrs);
    if attrs != [] {
      var next := pre + Encode(attrs[0]);
      assert p == next + EncodeAll(attrs[1..]);
      EncodedAt(pre, attrs[0], p);
      WalkFindsFirstUsername(next, attrs[1..]);
      hide Encode, EncodeAll, AllWellFormed, U16At, Word;
      assert |next| == |pre| + 4 + PadTo4(U16At(p, |pre| + 2));
    }
  }

  /** The charset of the server's generated ICE credentials. */
  predicate IceChar(b: byte) {
    0x61 <= b <= 0x7A || 0x41 <= b <= 0x5A || 0x30 <= b <= 0x39
  }

  lemma {:induction false} CredentialsInFront(ufrag: seq<byte>, client: seq<byte>)
    requires forall i :: 0 <= i < |ufrag| ==> IceChar(ufrag[i])
    ensures Utf8(ufrag + [COLON] + client) <==> Utf8(client)
    ensures UpToColon(ufrag + [COLON] + client) == ufrag
  {
    var s := ufrag + [COLON] + client;
    if ufrag == [] {
      assert s[1..] == client;
    } else {
      CredentialsInFront(ufrag[1..], client);
      assert s[1..] == ufrag[1..] + [COLON] + client;
    }
  }

  /** For a well-formed request whose first USERNAME is `ufrag:client`, the parser returns the server's ufrag. */
  lemma UsernameRoundTrip(header: seq<byte>, attrs: seq<Attr>, i: nat, ufrag: seq<byte>, client: seq<byte>)
    requires |header| == 20 && AllWellFormed(attrs)
    requires i < |attrs| && attrs[i].kind == USERNAME && attrs[i].value == ufrag + [COLON] + client
    requires forall k :: 0 <= k < i ==> attrs[k].kind != USERNAME
    requires forall k :: 0 <= k < |ufrag| ==> IceChar(ufrag[k])
    requires Utf8(client)
    ensures UsernameFrom(header + EncodeAll(attrs), 20) == Some(ufrag)
  {
    WalkFindsFirstUsername(header, attrs);
    CredentialsInFront(ufrag, client);
    FirstUsernameAt(attrs, i);
  }

  lemma {:induction false} FirstUsernameAt(attrs: seq<Attr>, i: nat)
    requires i < |attrs| && attrs[i].kind == USERNAME
    requires forall k :: 0 <= k < i ==> attrs[k].kind != USERNAME
    ensures FirstUsername(attrs) == Named(attrs[i].value)
  {
    if i > 0 {
      FirstUsernameAt(attrs[1..], i - 1);
    }
  }

  // ------------------------------------------------------------------------
  // The binding response
  // ------------------------------------------------------------------------

  type Digest = d: seq<byte> | |d| == 20 witness seq(20, _ => 0)
  type Hmac = (seq<byte>, seq<byte>) -> Digest
  type Crc = seq<byte> -> u32

  function Header(length: u16, transaction: seq<byte>): seq<byte> {
    [0x01, 0x01] + Be16(length) + Be32(MAGIC) + transaction
  }

  function Mapped(ip: u32, port: u16): (a: Attr)
    ensures Sized(a, 8)
  {
    Attr(XOR_MAPPED_ADDRESS, [0x00, 0x01] + Be16(Xor16(port, MAGIC / 0x1_0000)) + Be32(Xor32(ip, MAGIC)), [])
  }

  function Integrity(transaction: seq<byte>, ip: u32, port: u16, key: seq<byte>, hmac: Hmac): (a: Attr)
    ensures Sized(a, 20)
  {
    Attr(MESSAGE_INTEGRITY, hmac(key, Header(36, transaction) + Encode(Mapped(ip, port))), [])
  }

  function Fingerprint(transaction: seq<byte>, ip: u32, port: u16, key: seq<byte>, hmac: Hmac, crc: Crc): (a: Attr)
    ensures Sized(a, 4)
  {
    Attr(FINGERPRINT,
         Be32(Xor32(crc(Header(44, transaction) + Encode(Mapped(ip, port))
                        + Encode(Integrity(transaction, ip, port, key, hmac))), FINGERPRINT_MASK)),
         [])
  }

  function ResponseAttrs(transaction: seq<byte>, ip: u32, port: u16, key: seq<byte>, hmac: Hmac, crc: Crc)
    : (attrs: seq<Attr>)
    ensures AllWellFormed(attrs)
  {
    [Mapped(ip, port), Integrity(transaction, ip, port, key, hmac), Fingerprint(transaction, ip, port, key, hmac, crc)]
  }

  function Response(transaction: seq<byte>, ip: u32, port: u16, key: seq<byte>, hmac: Hmac, crc: Crc): seq<byte> {
    Header(44, transaction) + EncodeAll(ResponseAttrs(transaction, ip, port, key, hmac, crc))
  }

  lemma EncodeThree(a: Attr, b: Attr, c: Attr)
    requires WellFormed(a) && WellFormed(b) && WellFormed(c)
    ensures EncodeAll([a, b, c]) == Encode(a) + Encode(b) + Encode(c)
  {
    assert [a, b, c][1..] == [b, c] && [b, c][1..] == [c] && [c][1..] == [];
    assert EncodeAll([c]) == Encode(c);
    assert EncodeAll([b, c]) == Encode(b) + Encode(c);
  }

  /** Overwrites the length field in place. */
  function WithLength(message: seq<byte>, length: u16): seq<byte>
    requires |message| >= 4
  {
    message[2 := length / 0x100][3 := length % 0x100]
  }

  lemma HeaderWithLength(before: u16, length: u16, transaction: seq<byte>, rest: seq<byte>)
    ensures WithLength(Header(before, transaction) + rest, length) == Header(length, transaction) + rest
  {
  }

  /** Patches the two bytes of the length field. */
  method PatchLength(message: seq<byte>, length: u16) returns (r: seq<byte>)
    requires |message| >= 4
    ensures r == WithLength(message, length)
  {
    r := message[2 := length / 0x100];
    r := r[3 := length % 0x100];
  }

  method AppendMapped(message: seq<byte>, ip: u32, port: u16) returns (r: seq<byte>)
    ensures r == message + Encode(Mapped(ip, port))
  {
    hide Xor16, Xor32, Be32;
    r := message + [0x00, 0x20];
    r := r + [0x00, 0x08];
    r := r + [0x00];
    r := r + [0x01];
    r := r + Be16(Xor16(port, MAGIC / 0x1_0000));
    r := r + Be32(Xor32(ip, MAGIC));
    assert Be16(XOR_MAPPED_ADDRESS) == [0x00, 0x20] && Be16(8) == [0x00, 0x08];
  }

  lemma PartLengths(transaction: seq<byte>, x: Attr, m: Attr, f: Attr)
    requires |transaction| == 12 && Sized(x, 8) && Sized(m, 20) && Sized(f, 4)
    ensures forall n: u16 :: |Header(n, transaction)| == 20
    ensures |Encode(x)| == 12 && |Encode(m)| == 24 && |Encode(f)| == 8
  {
    EncodedLength(x);
    EncodedLength(m);
    EncodedLength(f);
  }

  method AppendIntegrity(message: seq<byte>, ghost transaction: seq<byte>, ghost ip: u32, ghost port: u16,
                         key: seq<byte>, hmac: Hmac) returns (r: seq<byte>)
    requires |transaction| == 12 && message == Header(0, transaction) + Encode(Mapped(ip, port))
    ensures r == Header(36, transaction)
                 + (Encode(Mapped(ip, port)) + Encode(Integrity(transaction, ip, port, key, hmac)))
  {
    ghost var x, m := Mapped(ip, port), Integrity(transaction, ip, port, key, hmac);
    PartLengths(transaction, x, m, Attr(0, [0, 0, 0, 0], []));
    HeaderWithLength(0, 36, transaction, Encode(x));
    hide Encode, Header, Mapped, WithLength;
    r := PatchLength(message, |message| - 20 + 24);
    var mac := hmac(key, r);
    assert m == Attr(MESSAGE_INTEGRITY, mac, []);
    var attr := [0x00, 0x08] + [0x00, 0x14] + mac;
    assert attr == Encode(m) by { IntegrityBytes(mac); }
    r := r + attr;
  }

  lemma IntegrityBytes(mac: Digest)
    ensures Sized(Attr(MESSAGE_INTEGRITY, mac, []), 20)
    ensures [0x00, 0x08] + [0x00, 0x14] + mac == Encode(Attr(MESSAGE_INTEGRITY, mac, []))
  {
    assert Be16(MESSAGE_INTEGRITY) == [0x00, 0x08] && Be16(20) == [0x00, 0x14];
  }

  lemma FingerprintBytes(sum: u32)
    ensures Sized(Attr(FINGERPRINT, Be32(sum), []), 4)
    ensures [0x80, 0x28] + [0x00, 0x04] + Be32(sum) == Encode(Attr(FINGERPRINT, Be32(sum), []))
  {
    assert Be16(FINGERPRINT) == [0x80, 0x28] && Be16(4) == [0x00, 0x04];
  }

  method AppendFingerprint(message: seq<byte>, ghost transaction: seq<byte>, ghost x: Attr, ghost m: Attr, crc: Crc)
    returns (r: seq<byte>, ghost f: Attr)
    requires |transaction| == 12 && Sized(x, 8) && Sized(m, 20)
    requires message == Header(36, transaction) + (Encode(x) + Encode(m))
    ensures f == Attr(FINGERPRINT,
                      Be32(Xor32(crc(Header(44, transaction) + Encode(x) + Encode(m)), FINGERPRINT_MASK)), [])
    ensures Sized(f, 4) && r == Header(44, transaction) + (Encode(x) + Encode(m) + Encode(f))
  {
    PartLengths(transaction, x, m, Attr(0, [0, 0, 0, 0], []));
    HeaderWithLength(36, 44, transaction, Encode(x) + Encode(m));
    hide Encode, Header, WithLength, Be32, Xor32;
    r := PatchLength(message, |message| - 20 + 8);
    assert r == Header(44, transaction) + Encode(x) + Encode(m);
    var sum := Xor32(crc(r), FINGERPRINT_MASK);
    f := Attr(FINGERPRINT, Be32(sum), []);
    FingerprintBytes(sum);
    r := r + ([0x80, 0x28] + [0x00, 0x04] + Be32(sum));
  }

  /** The buffer is appended to and its length field patched three times: before each of the two sums and at the end. */
  method MakeBindingResponse(request: seq<byte>, v4: bool, ip: u32, port: u16, key: seq<byte>, hmac: Hmac, crc: Crc)
    returns (r: Option<seq<byte>>)
    ensures r == if |request| < 20 || !v4 then None else Some(Response(request[8..20], ip, port, key, hmac, crc))
  {
    if |request| < 20 {
      return None;
    }
    ghost var transaction := request[8..20];
    var resp: seq<byte> := [0x01, 0x01];
    resp := resp + [0x00, 0x00];
    resp := resp + [0x21, 0x12, 0xA4, 0x42];
    resp := resp + request[8..20];
    assert resp == Header(0, transaction);
    if !v4 {
      return None;
    }
    ghost var x, m := Mapped(ip, port), Integrity(transaction, ip, port, key, hmac);
    resp := AppendMapped(resp, ip, port);
    resp := AppendIntegrity(resp, transaction, ip, port, key, hmac);
    ghost var f;
    resp, f := AppendFingerprint(resp, transaction, x, m, crc);
    assert f == Fingerprint(transaction, ip, port, key, hmac, crc);
    PartLengths(transaction, x, m, f);
    HeaderWithLength(44, 44, transaction, Encode(x) + Encode(m) + Encode(f));
    EncodeThree(x, m, f);
    hide Encode, Header, Mapped, Integrity, Fingerprint, WithLength;
    resp := PatchLength(resp, |resp| - 20);
    return Some(resp);
  }

  // ------------------------------------------------------------------------
  // A receiver (RFC 5389, sections 6, 7.3.3, 15.2, 15.4 and 15.5)
  // ------------------------------------------------------------------------

  /** An attribute found in a message, with the place of its first byte. */
  datatype Found = Found(kind: u16, at: nat, value: seq<byte>)

  function Walk(p: seq<byte>, offset: nat): seq<Found>
    decreases |p| - offset
  {
    if offset + 4 > |p| then []
    else
      var len := U16At(p, offset + 2);
      if offset + 4 + len > |p| then []
      else [Found(U16At(p, offset), offset, p[offset + 4..offset + 4 + len])]
           + Walk(p, offset + 4 + (len + 3) / 4 * 4)
  }

  lemma WalkOne(p: seq<byte>, offset: nat, kind: u16, value: seq<byte>, next: nat)
    requires offset + 4 + |value| <= |p| && next == offset + 4 + (|value| + 3) / 4 * 4
    requires U16At(p, offset) == kind && U16At(p, offset + 2) == |value|
    requires p[offset + 4..offset + 4 + |value|] == value
    ensures Walk(p, offset) == [Found(kind, offset, value)] + Walk(p, next)
  {
    hide U16At;
  }

  lemma WalkEncoded(pre: seq<byte>, a: Attr, p: seq<byte>)
    requires WellFormed(a) && pre + Encode(a) <= p
    ensures Walk(p, |pre|) == [Found(a.kind, |pre|, a.value)] + Walk(p, |pre| + |Encode(a)|)
  {
    hide PadTo4, Encode, WellFormed, U16At, Walk;
    EncodedAt(pre, a, p);
    PadByDivision(|a.value|);
    WalkOne(p, |pre|, a.kind, a.value, |pre| + |Encode(a)|);
  }

  /** The integrity value is the MAC of the message in front of it, with a length that ends right after it. */
  predicate IntegrityHolds(p: seq<byte>, f: Found, key: seq<byte>, hmac: Hmac)
    requires 4 <= f.at <= |p|
  {
    f.at + 24 - 20 < 0x1_0000 && f.value == hmac(key, WithLength(p[..f.at], f.at + 24 - 20))
  }

  /** The fingerprint is the masked checksum of the message in front of it, with a length that ends right after it. */
  predicate FingerprintHolds(p: seq<byte>, f: Found, crc: Crc)
    requires 12 <= f.at <= |p|
  {
    && f.at + 8 - 20 < 0x1_0000
    && f.value == Be32(Xor32(crc(WithLength(p[..f.at], f.at + 8 - 20)), FINGERPRINT_MASK))
    && f.at + 8 == |p|
  }

  /** The transport address an XOR-MAPPED-ADDRESS value of family IPv4 stands for. */
  function MappedAddress(value: seq<byte>): Option<(u32, u16)> {
    if |value| != 8 || value[1] != 0x01 then None
    else Some((Xor32(U32At(value, 4), MAGIC), Xor16(U16At(value, 2), MAGIC / 0x1_0000)))
  }

  /**
   * For every IPv4 source, transaction and key, a receiver finds in the 64 bytes of the response exactly the
   * three attributes, recovers the source address, and accepts both sums.
   */
  lemma ResponseAccepted(transaction: seq<byte>, ip: u32, port: u16, key: seq<byte>, hmac: Hmac, crc: Crc)
    requires |transaction| == 12
    ensures var p := Response(transaction, ip, port, key, hmac, crc);
            && |p| == 64 && U16At(p, 0) == 0x0101 && U16At(p, 2) == |p| - 20 && U32At(p, 4) == MAGIC
            && p[8..20] == transaction
            && exists mapped, integrity, fingerprint ::
                 && Walk(p, 20) == [Found(XOR_MAPPED_ADDRESS, 20, mapped), Found(MESSAGE_INTEGRITY, 32, integrity),
                                    Found(FINGERPRINT, 56, fingerprint)]
                 && MappedAddress(mapped) == Some((ip, port))
                 && IntegrityHolds(p, Found(MESSAGE_INTEGRITY, 32, integrity), key, hmac)
                 && FingerprintHolds(p, Found(FINGERPRINT, 56, fingerprint), crc)
  {
    var x, m := Mapped(ip, port), Integrity(transaction, ip, port, key, hmac);
    var f := Fingerprint(transaction, ip, port, key, hmac, crc);
    var header := Header(44, transaction);
    var p := Response(transaction, ip, port, key, hmac, crc);
    hide Walk, MappedAddress, IntegrityHolds, FingerprintHolds, Encode, Header, U16At, U32At, Xor16, Xor32;
    EncodeThree(x, m, f);
    var rest := Encode(x) + Encode(m) + Encode(f);
    HeaderFields(transaction, rest);
    assert p == header + rest && header + rest == header + Encode(x) + Encode(m) + Encode(f);
    ResponseWalk(header, x, m, f);
    MappedBack(ip, port);
    SumsHold(transaction, ip, port, key, hmac, crc, p);
  }

  lemma HeaderFields(transaction: seq<byte>, rest: seq<byte>)
    requires |transaction| == 12
    ensures |Header(44, transaction)| == 20
    ensures var p := Header(44, transaction) + rest;
            && |p| == 20 + |rest| && U16At(p, 0) == 0x0101 && U16At(p, 2) == 44 && U32At(p, 4) == MAGIC
            && p[8..20] == transaction
  {
    var header := Header(44, transaction);
    var p := header + rest;
    assert header[..4] == p[..4] && header[4..8] == p[4..8] && header[8..20] == p[8..20];
    Be32Back(MAGIC);
    assert U32At(p, 4) == U32At(Be32(MAGIC), 0);
  }

  lemma SumsHold(transaction: seq<byte>, ip: u32, port: u16, key: seq<byte>, hmac: Hmac, crc: Crc, p: seq<byte>)
    requires |transaction| == 12
    requires p == Header(44, transaction) + Encode(Mapped(ip, port))
                  + Encode(Integrity(transaction, ip, port, key, hmac))
                  + Encode(Fingerprint(transaction, ip, port, key, hmac, crc))
    ensures |p| == 64
    ensures IntegrityHolds(p, Found(MESSAGE_INTEGRITY, 32, Integrity(transaction, ip, port, key, hmac).value),
                           key, hmac)
    ensures FingerprintHolds(p, Found(FINGERPRINT, 56, Fingerprint(transaction, ip, port, key, hmac, crc).value), crc)
  {
    var x, m := Mapped(ip, port), Integrity(transaction, ip, port, key, hmac);
    var f := Fingerprint(transaction, ip, port, key, hmac, crc);
    var header := Header(44, transaction);
    PartLengths(transaction, x, m, f);
    HeaderWithLength(44, 36, transaction, Encode(x));
    HeaderWithLength(44, 44, transaction, Encode(x) + Encode(m));
    assert p[..32] == header + Encode(x) && p[..56] == header + (Encode(x) + Encode(m)) by {
      hide *;
    }
    assert header + (Encode(x) + Encode(m)) == header + Encode(x) + Encode(m);
    hide Encode, Xor32, Header, WithLength, Be32;
  }

  lemma ResponseWalk(header: seq<byte>, x: Attr, m: Attr, f: Attr)
    requires |header| == 20 && Sized(x, 8) && Sized(m, 20) && Sized(f, 4)
    ensures Walk(header + Encode(x) + Encode(m) + Encode(f), 20)
         == [Found(x.kind, 20, x.value), Found(m.kind, 32, m.value), Found(f.kind, 56, f.value)]
  {
    hide Encode, WellFormed;
    var hx := header + Encode(x);
    var hxm := hx + Encode(m);
    var p := hxm + Encode(f);
    EncodedFields(x);
    EncodedFields(m);
    EncodedFields(f);
    assert hx <= p && hxm <= p;
    WalkEncoded(header, x, p);
    WalkEncoded(hx, m, p);
    WalkEncoded(hxm, f, p);
    assert Walk(p, |p|) == [];
    hide Walk;
    assert |hx| == 32 && |hxm| == 56 && |p| == 64;
  }

  lemma MappedBack(ip: u32, port: u16)
    ensures MappedAddress(Mapped(ip, port).value) == Some((ip, port))
  {
    var xorPort, xorIp := Xor16(port, MAGIC / 0x1_0000), Xor32(ip, MAGIC);
    var value := Mapped(ip, port).value;
    Be16Back(xorPort);
    Be32Back(xorIp);
    assert U16At(value, 2) == U16At(Be16(xorPort), 0) && U32At(value, 4) == U32At(Be32(xorIp), 0);
    XorBack(port, MAGIC / 0x1_0000, ip, MAGIC);
  }
}
