/** Mux frames and their byte form (common/mux/frame.go, common/protocol/address.go, common/net). */
module MuxFrame {
  import opened Bytes
  import opened BufferedIO

  datatype Address = IPv4(ip: seq<byte>) | IPv6(ip: seq<byte>) | Domain(name: seq<byte>) {
    predicate WellFormed() {
      (IPv4? ==> |ip| == 4) && (IPv6? ==> |ip| == 16)
    }
  }

  datatype Network = Unknown | TCP | UDP

  datatype Destination = Destination(network: Network, address: Address, port: uint16)

  const STATUS_NEW: byte := 1
  const STATUS_KEEP: byte := 2
  const STATUS_END: byte := 3
  const STATUS_KEEP_ALIVE: byte := 4

  const OPTION_DATA: byte := 1
  const OPTION_ERROR: byte := 2

  predicate HasData(option: byte) { option % 2 == 1 }

  predicate HasError(option: byte) { option / 2 % 2 == 1 }

  /** FrameMetadata. Only New frames have a target: WriteTo skips it on any other, and so does Unmarshal. */
  datatype Meta = Meta(id: uint16, status: byte, option: byte, target: Option<Destination>) {
    predicate WellFormed() {
      (status == STATUS_NEW <==> target.Some?) && (target.Some? ==> target.value.address.WellFormed())
    }
  }

  // ----- writing

  const ADDRESS_IPV4: byte := 1
  const ADDRESS_DOMAIN: byte := 2
  const ADDRESS_IPV6: byte := 3

  /** writeAddress; None is the refusal of a domain longer than 256 bytes. The length byte wraps at 256. */
  function AddressBytes(a: Address): Option<seq<byte>> {
    match a
    case IPv4(ip) => Some([ADDRESS_IPV4] + ip)
    case IPv6(ip) => Some([ADDRESS_IPV6] + ip)
    case Domain(name) =>
      if |name| > 256 then None else Some([ADDRESS_DOMAIN, |name| % 0x100] + name)
  }

  function NetworkBytes(n: Network): seq<byte> {
    match n
    case TCP => [1]
    case UDP => [2]
    case Unknown => []
  }

  /** The metadata behind its length prefix. */
  function BodyBytes(m: Meta): Option<seq<byte>>
    requires m.WellFormed()
  {
    var head := PutUint16(m.id) + [m.status, m.option];
    if m.status != STATUS_NEW then
      Some(head)
    else
      var t := m.target.value;
      var address := AddressBytes(t.address);
      if address.None? then None
      else Some(head + NetworkBytes(t.network) + PutUint16(t.port) + address.value)
  }

  lemma BodyLength(m: Meta)
    requires m.WellFormed() && BodyBytes(m).Some?
    ensures 4 <= |BodyBytes(m).value| <= 265
  {
  }

  /** FrameMetadata.WriteTo: what is appended to the buffer, or None when it reports an error. */
  function MetaBytes(m: Meta): Option<seq<byte>>
    requires m.WellFormed()
  {
    var body := BodyBytes(m);
    if body.None? then None else
      BodyLength(m);
      Some(PutUint16(|body.value|) + body.value)
  }

  /** What each byte on the wire says. */
  lemma MetaLayout(m: Meta)
    requires m.WellFormed() && MetaBytes(m).Some?
    ensures var b := MetaBytes(m).value;
            && |b| >= 6 && |b| == 2 + b[0] as int * 0x100 + b[1] as int
            && m.id == b[2] as int * 0x100 + b[3] as int && b[4] == m.status && b[5] == m.option
            && (m.target.None? ==> |b| == 6)
            && (m.target.Some? && !m.target.value.network.Unknown? ==>
                  var t := m.target.value;
                  && |b| >= 10 && b[6] == (if t.network == TCP then 1 else 2)
                  && t.port == b[7] as int * 0x100 + b[8] as int
                  && b[9..] == match t.address
                               case IPv4(ip) => [1] + ip
                               case IPv6(ip) => [3] + ip
                               case Domain(name) => [2, |name| % 0x100] + name)
  {
    var b := MetaBytes(m).value;
    BodyLength(m);
    if m.target.Some? && !m.target.value.network.Unknown? {
      assert b[9..] == AddressBytes(m.target.value.address).value;
    }
  }

  /** WriteTo, field by field; the length is filled in when the rest is known. */
  method WriteTo(m: Meta) returns (r: Option<seq<byte>>)
    requires m.WellFormed()
    ensures r == MetaBytes(m)
    ensures r.Some? ==> |r.value| <= 267
  {
    var b := PutUint16(m.id);
    b := b + [m.status];
    b := b + [m.option];
    if m.status == STATUS_NEW {
      match m.target.value.network {
        case TCP => b := b + [1];
        case UDP => b := b + [2];
        case Unknown =>
      }
      b := b + PutUint16(m.target.value.port);
      var address := AddressBytes(m.target.value.address);
      if address.None? {
        return None;
      }
      b := b + address.value;
    }
    assert b == BodyBytes(m).value;
    BodyLength(m);
    r := Some(PutUint16(|b|) + b);
  }

  // ----- reading

  /** net.ParseAddress as far as it is used here: the address a text denotes when it is an IP literal. */
  type Literals = seq<byte> -> Option<Address>

  ghost predicate DenoteIPs(literals: Literals) {
    forall text :: literals(text).Some? ==> !literals(text).value.Domain?
  }

  predicate MaybeIPPrefix(b: byte) {
    b == '[' as int || '0' as int <= b <= '9' as int
  }

  predicate IsValidDomain(name: seq<byte>) {
    forall i :: 0 <= i < |name| ==>
      var c := name[i];
      || '0' as int <= c <= '9' as int
      || 'a' as int <= c <= 'z' as int
      || 'A' as int <= c <= 'Z' as int
      || c == '-' as int || c == '.' as int || c == '_' as int
  }

  /** Digits, letters, '-', '.' and '_' make a domain; a digit or '[' may begin an IP literal. */
  lemma CharacterClasses(b: byte)
    ensures IsValidDomain([b]) <==>
              (48 <= b <= 57 || 65 <= b <= 90 || 97 <= b <= 122 || b == 45 || b == 46 || b == 95)
    ensures MaybeIPPrefix(b) <==> 48 <= b <= 57 || b == 91
  {
    var one := [b];
    assert one[0] == b;
  }

  /** ::ffff:0:0/96, section 2.5.5.2 of RFC 4291. */
  predicate IsMapped(ip: seq<byte>) {
    |ip| == 16 && ip[..10] == [0, 0, 0, 0, 0, 0, 0, 0, 0, 0] && ip[10] == 0xff && ip[11] == 0xff
  }

  /** net.IPAddress on 16 bytes. */
  function FromIPv6(ip: seq<byte>): Address
    requires |ip| == 16
  {
    if IsMapped(ip) then IPv4(ip[12..]) else IPv6(ip)
  }

  /**
    readAddress. A domain of length 0 is refused: the text then examined is the two port bytes,
    the type byte and the length byte, and the type byte 2 is no character of a domain or a literal.
   */
  function ParseAddress(b: seq<byte>, literals: Literals): Option<Address> {
    if b == [] then None
    else if b[0] == ADDRESS_IPV4 then
      if |b| < 5 then None else Some(IPv4(b[1..5]))
    else if b[0] == ADDRESS_IPV6 then
      if |b| < 17 then None else Some(FromIPv6(b[1..17]))
    else if b[0] == ADDRESS_DOMAIN then
      var length: int := if |b| < 2 then 0 else b[1];
      if length == 0 || |b| < 2 + length then None else
        var name := b[2..2 + length];
        if MaybeIPPrefix(name[0]) && literals(name).Some? then literals(name)
        else if IsValidDomain(name) then Some(Domain(name))
        else None
    else
      None
  }

  /** UnmarshalFromBuffer. */
  function ParseBody(b: seq<byte>, literals: Literals): Option<Meta> {
    if |b| < 4 then None else
      var id, status, option := GetUint16(b[..2]), b[2], b[3];
      if status != STATUS_NEW then
        Some(Meta(id, status, option, None))
      else if |b| < 8 then
        None
      else
        var address := ParseAddress(b[7..], literals);
        if address.None? then None
        else if b[4] == 1 then
          Some(Meta(id, status, option, Some(Destination(TCP, address.value, GetUint16(b[5..7])))))
        else if b[4] == 2 then
          Some(Meta(id, status, option, Some(Destination(UDP, address.value, GetUint16(b[5..7])))))
        else
          None
  }

  datatype MetaResult = Parsed(meta: Meta) | NoMoreFrames | BadMeta

  const MAX_META: nat := 512

  /**
    Unmarshal on the unread bytes: its result and what it leaves unread. NoMoreFrames is io.EOF,
    which io.ReadFull reports only when it read nothing.
   */
  function UnmarshalSpec(unread: seq<byte>, literals: Literals): (MetaResult, seq<byte>) {
    if |unread| < 2 then
      (if unread == [] then NoMoreFrames else BadMeta, [])
    else
      var metaLen, body := GetUint16(unread[..2]), unread[2..];
      if metaLen > MAX_META then
        (BadMeta, body)
      else if metaLen > |body| then
        (if body == [] then NoMoreFrames else BadMeta, [])
      else
        var m := ParseBody(body[..metaLen], literals);
        (if m.Some? then Parsed(m.value) else BadMeta, body[metaLen..])
  }

  method Unmarshal(reader: BufferedReader, literals: Literals) returns (r: MetaResult)
    modifies reader
    ensures (r, reader.Unread()) == UnmarshalSpec(old(reader.Unread()), literals)
  {
    var header := reader.ReadFull(2);
    if !header.Full? {
      return if header.EndOfStream? then NoMoreFrames else BadMeta;
    }
    var metaLen := GetUint16(header.bytes);
    if metaLen > MAX_META {
      return BadMeta;
    }
    var b := reader.ReadFull(metaLen);
    if !b.Full? {
      return if b.EndOfStream? then NoMoreFrames else BadMeta;
    }
    var m := ParseBody(b.bytes, literals);
    r := if m.Some? then Parsed(m.value) else BadMeta;
  }

  /** What each byte that was read says; anything else is refused. */
  lemma ParsedLayout(b: seq<byte>, literals: Literals)
    requires ParseBody(b, literals).Some?
    ensures var m := ParseBody(b, literals).value;
            && |b| >= 4 && m.id == b[0] as int * 0x100 + b[1] as int && m.status == b[2] && m.option == b[3]
            && (m.target.Some? <==> b[2] == 1)
            && (b[2] == 1 ==>
                  var t := m.target.value;
                  && |b| >= 8 && t.port == b[5] as int * 0x100 + b[6] as int
                  && ((b[4] == 1 && t.network == TCP) || (b[4] == 2 && t.network == UDP))
                  && ReadsAs(b[7..], t.address, literals))
  {
  }

  /** The address a type byte and what is behind it stand for. */
  predicate ReadsAs(b: seq<byte>, a: Address, literals: Literals) {
    || (|b| >= 5 && b[0] == 1 && a == IPv4(b[1..5]))
    || (|b| >= 17 && b[0] == 3 && a == if IsMapped(b[1..17]) then IPv4(b[13..17]) else IPv6(b[1..17]))
    || (|b| >= 3 && b[0] == 2 && b[1] > 0 && |b| >= 2 + b[1] as int &&
        var name := b[2..2 + b[1] as int];
        if MaybeIPPrefix(name[0]) && literals(name).Some? then literals(name) == Some(a)
        else IsValidDomain(name) && a == Domain(name))
  }

  /** Up to 512 bytes of metadata are read, and more are refused without being read. */
  lemma MetaLimit(unread: seq<byte>, literals: Literals)
    requires |unread| >= 2
    ensures var n, (r, left) := unread[0] as int * 0x100 + unread[1] as int, UnmarshalSpec(unread, literals);
            && (n > 512 ==> r == BadMeta && left == unread[2..])
            && (n <= 512 && 2 + n <= |unread| ==>
                  var m := ParseBody(unread[2..2 + n], literals);
                  r == (if m.Some? then Parsed(m.value) else BadMeta) && left == unread[2 + n..])
  {
    var n := unread[0] as int * 0x100 + unread[1] as int;
    if n <= |unread[2..]| {
      assert unread[2..][..n] == unread[2..2 + n] && unread[2..][n..] == unread[2 + n..];
    }
  }

  // ----- round trip

  /** The targets the byte form can carry. */
  predicate Carried(a: Address, literals: Literals) {
    match a
    case IPv4(ip) => true
    case IPv6(ip) => !IsMapped(ip)
    case Domain(name) =>
      && 1 <= |name| <= 255
      && IsValidDomain(name)
      && !(MaybeIPPrefix(name[0]) && literals(name).Some?)
  }

  predicate Representable(m: Meta, literals: Literals) {
    m.status == STATUS_NEW && m.target.Some? ==>
      !m.target.value.network.Unknown? && Carried(m.target.value.address, literals)
  }

  lemma BehindType(family: byte, ip: seq<byte>)
    ensures ([family] + ip)[0] == family && ([family] + ip)[1..1 + |ip|] == ip
  {
  }

  lemma AddressRoundTrip(a: Address, literals: Literals)
    requires a.WellFormed() && DenoteIPs(literals) && AddressBytes(a).Some?
    ensures ParseAddress(AddressBytes(a).value, literals) == Some(a) <==> Carried(a, literals)
  {
    var b := AddressBytes(a).value;
    match a
    case IPv4(ip) =>
      BehindType(ADDRESS_IPV4, ip);
    case IPv6(ip) =>
      BehindType(ADDRESS_IPV6, ip);
    case Domain(name) =>
      if 1 <= |name| <= 255 {
        assert b[2..2 + |name|] == name;
      }
  }

  /**
    Unmarshal after WriteTo gives back the metadata exactly when the target is representable.
    Whatever else is written (an unknown network, a mapped address, an empty or a 256-byte domain,
    a domain that reads as an IP literal) comes back different or not at all.
   */
  lemma MetaRoundTrip(m: Meta, literals: Literals)
    requires m.WellFormed() && DenoteIPs(literals) && BodyBytes(m).Some?
    ensures ParseBody(BodyBytes(m).value, literals) == Some(m) <==> Representable(m, literals)
  {
    var b := BodyBytes(m).value;
    assert b[..2] == PutUint16(m.id);
    if m.status == STATUS_NEW && !m.target.value.network.Unknown? {
      var t := m.target.value;
      assert b[5..7] == PutUint16(t.port);
      assert b[7..] == AddressBytes(t.address).value;
      AddressRoundTrip(t.address, literals);
    }
  }

  /** WriteTo refuses only over-long domains, and a representable target is never refused. */
  lemma RepresentableIsWritten(m: Meta, literals: Literals)
    requires m.WellFormed() && Representable(m, literals)
    ensures MetaBytes(m).Some?
  {
  }

  /** Unmarshal reads exactly the metadata block WriteTo made and leaves what follows it. */
  lemma UnmarshalUndoesWriteTo(m: Meta, literals: Literals, rest: seq<byte>)
    requires m.WellFormed() && DenoteIPs(literals) && Representable(m, literals)
    requires MetaBytes(m).Some?
    ensures UnmarshalSpec(MetaBytes(m).value + rest, literals) == (Parsed(m), rest)
  {
    var body, unread := BodyBytes(m).value, MetaBytes(m).value + rest;
    BodyLength(m);
    MetaRoundTrip(m, literals);
    assert unread[..2] == PutUint16(|body|);
    assert unread[2..] == body + rest;
    assert (body + rest)[..|body|] == body && (body + rest)[|body|..] == rest;
  }

  /** A 256-byte domain is accepted by WriteTo and can not be read back. */
  lemma DomainOf256IsLost(m: Meta, literals: Literals)
    requires m.WellFormed() && m.status == STATUS_NEW && DenoteIPs(literals)
    requires m.target.value.network == TCP
    requires m.target.value.address.Domain? && |m.target.value.address.name| == 256
    ensures MetaBytes(m).Some?
    ensures ParseBody(BodyBytes(m).value, literals) == None
  {
    var b := BodyBytes(m).value;
    assert b[7..] == AddressBytes(m.target.value.address).value;
  }

  // ----- whole frames

  /** A frame is its metadata and, if the data bit is set, a 16-bit length and the payload. */
  datatype Frame = Frame(meta: Meta, payload: Option<seq<byte>>)

  predicate Writable(f: Frame) {
    && f.meta.WellFormed()
    && MetaBytes(f.meta).Some?
    && (HasData(f.meta.option) <==> f.payload.Some?)
    && (f.payload.Some? ==> |f.payload.value| < 0x1_0000)
  }

  function PayloadBytes(f: Frame): seq<byte>
    requires f.payload.Some? ==> |f.payload.value| < 0x1_0000
  {
    if f.payload.None? then [] else PutUint16(|f.payload.value|) + f.payload.value
  }

  /** The bytes of a frame; a writer hands them to the shared link in one call. */
  function FrameBytes(f: Frame): seq<byte>
    requires Writable(f)
  {
    MetaBytes(f.meta).value + PayloadBytes(f)
  }

  predicate AllWritable(fs: seq<Frame>) {
    forall i :: 0 <= i < |fs| ==> Writable(fs[i])
  }

  function WireBytes(fs: seq<Frame>): seq<byte>
    requires AllWritable(fs)
  {
    if fs == [] then [] else FrameBytes(fs[0]) + WireBytes(fs[1..])
  }
}
