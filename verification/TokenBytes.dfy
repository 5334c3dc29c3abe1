/**
 * The bytes of an Agora access token: little-endian integers, strings with a 16-bit length, and a
 * 32-byte signature between the header and the services. The bytes that are signed are the same
 * without the signature.
 */
module TokenBytes {
  import opened Redis

  type Byte = b: int | 0 <= b < 256
  type Bytes = seq<Byte>

  const U16: nat := 0x1_0000
  const U32: nat := 0x1_0000_0000
  const SIGNATURE: nat := 32

  /** A JavaScript `Map` with numeric keys: entries in insertion order, replaced in place. */
  type Entries = seq<(int, int)>

  datatype Kind = Rtc(channel: Bytes, uid: nat) | Rtm(user: Bytes)
  datatype Service = Service(kind: Kind, privileges: Entries)
  datatype Token = Token(appId: Bytes, issueTs: int, expire: int, salt: int, services: seq<Service>)

  function TypeOf(k: Kind): nat { if k.Rtc? then 1 else 2 }

  // ---- Writing ----

  function Le16(v: int): Bytes
    requires 0 <= v < U16
  {
    [v % 256, v / 256]
  }

  function Le32(v: int): Bytes
    requires 0 <= v < U32
  {
    Le16(v % U16) + Le16(v / U16)
  }

  function Digits(n: nat): (r: Bytes)
    ensures r != []
  {
    if n < 10 then [48 + n] else Digits(n / 10) + [48 + n % 10]
  }

  function Prefixed(s: Bytes): Bytes
    requires |s| < U16
  {
    Le16(|s|) + s
  }

  predicate EntryFits(e: (int, int)) { 0 <= e.0 < U16 && 0 <= e.1 < U32 }

  function PackPrivileges(ps: Entries): Bytes
    requires forall i :: 0 <= i < |ps| ==> EntryFits(ps[i])
  {
    if ps == [] then []
    else
      assert EntryFits(ps[0]);
      Le16(ps[0].0) + Le32(ps[0].1) + PackPrivileges(ps[1..])
  }

  predicate KindFits(k: Kind) {
    match k
    case Rtc(channel, uid) => |channel| < U16 && |Digits(uid)| < U16
    case Rtm(user) => |user| < U16
  }

  predicate PrivilegesFit(ps: Entries) {
    |ps| < U16 && forall i :: 0 <= i < |ps| ==> EntryFits(ps[i])
  }

  predicate ServiceFits(s: Service) { KindFits(s.kind) && PrivilegesFit(s.privileges) }

  function PackKind(k: Kind): Bytes
    requires KindFits(k)
  {
    match k
    case Rtc(channel, uid) => Prefixed(channel) + Prefixed(Digits(uid))
    case Rtm(user) => Prefixed(user)
  }

  function PackService(s: Service): Bytes
    requires ServiceFits(s)
  {
    Le16(TypeOf(s.kind)) + (PackKind(s.kind) + (Le16(|s.privileges|) + PackPrivileges(s.privileges)))
  }

  function PackServices(ss: seq<Service>): Bytes
    requires forall i :: 0 <= i < |ss| ==> ServiceFits(ss[i])
  {
    if ss == [] then [] else PackService(ss[0]) + PackServices(ss[1..])
  }

  predicate HeaderFits(t: Token) {
    |t.appId| < U16 && 0 <= t.issueTs < U32 && 0 <= t.expire < U32 && 0 <= t.salt < U32
  }

  predicate ServicesFit(ss: seq<Service>) {
    |ss| < U16 && forall i :: 0 <= i < |ss| ==> ServiceFits(ss[i])
  }

  /** Everything that is written as 16 or 32 bits fits; otherwise writing throws. */
  predicate Fits(t: Token) { HeaderFits(t) && ServicesFit(t.services) }

  function Header(t: Token): Bytes
    requires HeaderFits(t)
  {
    Prefixed(t.appId) + (Le32(t.issueTs) + (Le32(t.expire) + Le32(t.salt)))
  }

  function Body(ss: seq<Service>): Bytes
    requires ServicesFit(ss)
  {
    Le16(|ss|) + PackServices(ss)
  }

  function Signed(t: Token): Bytes
    requires Fits(t)
  {
    Header(t) + Body(t.services)
  }

  function Content(t: Token, signature: Bytes): Bytes
    requires Fits(t)
  {
    Header(t) + signature + Body(t.services)
  }

  // ---- Reading ----

  datatype Read<+T> = Fail | Got(value: T, rest: Bytes)

  function Read16(b: Bytes): Read<nat> {
    if |b| < 2 then Fail else Got(b[0] as int + 256 * b[1] as int, b[2..])
  }

  function Read32(b: Bytes): Read<nat> {
    if |b| < 4 then Fail else Got(b[0] as int + 256 * b[1] as int + U16 * (b[2] as int + 256 * b[3] as int), b[4..])
  }

  function ReadBytes(b: Bytes, n: nat): Read<Bytes> {
    if |b| < n then Fail else Got(b[..n], b[n..])
  }

  function ReadPrefixed(b: Bytes): Read<Bytes> {
    var n := Read16(b);
    if n.Fail? then Fail else ReadBytes(n.rest, n.value)
  }

  function ReadDigits(b: Bytes): Option<nat> {
    if b == [] then None
    else
      var d := b[|b| - 1];
      if !(48 <= d < 58) then None
      else if |b| == 1 then Some(d - 48)
      else
        var high := ReadDigits(b[..|b| - 1]);
        if high.None? then None else Some(10 * high.value + d - 48)
  }

  function ReadKind(b: Bytes): Read<Kind> {
    var kind := Read16(b);
    if kind.Fail? then Fail
    else
      var first := ReadPrefixed(kind.rest);
      if first.Fail? then Fail
      else if kind.value == 2 then Got(Rtm(first.value), first.rest)
      else if kind.value != 1 then Fail
      else
        var uid := ReadPrefixed(first.rest);
        if uid.Fail? || ReadDigits(uid.value).None? then Fail
        else Got(Rtc(first.value, ReadDigits(uid.value).value), uid.rest)
  }

  function ReadPrivileges(b: Bytes, n: nat): Read<Entries>
    decreases n
  {
    if n == 0 then Got([], b)
    else
      var key := Read16(b);
      if key.Fail? then Fail
      else
        var expire := Read32(key.rest);
        if expire.Fail? then Fail
        else
          var others := ReadPrivileges(expire.rest, n - 1);
          if others.Fail? then Fail else Got([(key.value, expire.value)] + others.value, others.rest)
  }

  function ReadService(b: Bytes): Read<Service> {
    var kind := ReadKind(b);
    if kind.Fail? then Fail
    else
      var n := Read16(kind.rest);
      if n.Fail? then Fail
      else
        var ps := ReadPrivileges(n.rest, n.value);
        if ps.Fail? then Fail else Got(Service(kind.value, ps.value), ps.rest)
  }

  function ReadServices(b: Bytes, n: nat): Read<seq<Service>>
    decreases n
  {
    if n == 0 then Got([], b)
    else
      var s := ReadService(b);
      if s.Fail? then Fail
      else
        var others := ReadServices(s.rest, n - 1);
        if others.Fail? then Fail else Got([s.value] + others.value, others.rest)
  }

  function ReadBody(b: Bytes): Read<seq<Service>> {
    var n := Read16(b);
    if n.Fail? then Fail else ReadServices(n.rest, n.value)
  }

  function ReadHeader(b: Bytes): Read<Token> {
    var appId := ReadPrefixed(b);
    if appId.Fail? then Fail
    else
      var issueTs := Read32(appId.rest);
      if issueTs.Fail? then Fail
      else
        var expire := Read32(issueTs.rest);
        if expire.Fail? then Fail
        else
          var salt := Read32(expire.rest);
          if salt.Fail? then Fail
          else Got(Token(appId.value, issueTs.value, expire.value, salt.value, []), salt.rest)
  }

  datatype Decoded = Malformed | Decoded(token: Token, signature: Bytes)

  /** The whole content: nothing may be left over. */
  function Decode(content: Bytes): Decoded {
    var header := ReadHeader(content);
    if header.Fail? then Malformed
    else
      var signature := ReadBytes(header.rest, SIGNATURE);
      if signature.Fail? then Malformed
      else
        var body := ReadBody(signature.rest);
        if body.Fail? || body.rest != [] then Malformed
        else Decoded(header.value.(services := body.value), signature.value)
  }

  /** Deletes the signature: the 32 bytes after the header, whose length the app id's prefix tells. */
  function WithoutSignature(content: Bytes): Option<Bytes> {
    var appId := ReadPrefixed(content);
    if appId.Fail? then None
    else
      var h := |appId.value| + 14;
      if |content| < h + SIGNATURE then None else Some(content[..h] + content[h + SIGNATURE..])
  }

  // ---- What is written is read back ----

  lemma Assoc(a: Bytes, b: Bytes, c: Bytes)
    ensures (a + b) + c == a + (b + c)
  {
  }

  lemma Read16Back(v: int, rest: Bytes)
    requires 0 <= v < U16
    ensures Read16(Le16(v) + rest) == Got(v, rest)
  {
  }

  lemma Read32Back(v: int, rest: Bytes)
    requires 0 <= v < U32
    ensures Read32(Le32(v) + rest) == Got(v, rest)
  {
  }

  lemma ReadPrefixedBack(s: Bytes, rest: Bytes)
    requires |s| < U16
    ensures ReadPrefixed(Prefixed(s) + rest) == Got(s, rest)
  {
    Assoc(Le16(|s|), s, rest);
    Read16Back(|s|, s + rest);
    assert (s + rest)[..|s|] == s && (s + rest)[|s|..] == rest;
  }

  lemma {:induction false} ReadDigitsBack(n: nat)
    ensures ReadDigits(Digits(n)) == Some(n)
  {
    if n >= 10 {
      ReadDigitsBack(n / 10);
      assert Digits(n)[..|Digits(n)| - 1] == Digits(n / 10);
    }
  }

  lemma ReadTwoBack(a: Bytes, b: Bytes, rest: Bytes)
    requires |a| < U16 && |b| < U16
    ensures ReadPrefixed(Prefixed(a) + Prefixed(b) + rest) == Got(a, Prefixed(b) + rest)
    ensures ReadPrefixed(Prefixed(b) + rest) == Got(b, rest)
  {
    Assoc(Prefixed(a), Prefixed(b), rest);
    ReadPrefixedBack(a, Prefixed(b) + rest);
    ReadPrefixedBack(b, rest);
  }

  lemma ReadRtcBack(channel: Bytes, uid: nat, rest: Bytes)
    requires |channel| < U16 && |Digits(uid)| < U16
    ensures ReadKind(Le16(1) + (Prefixed(channel) + Prefixed(Digits(uid)) + rest)) == Got(Rtc(channel, uid), rest)
  {
    Read16Back(1, Prefixed(channel) + Prefixed(Digits(uid)) + rest);
    ReadTwoBack(channel, Digits(uid), rest);
    ReadDigitsBack(uid);
  }

  lemma ReadRtmBack(user: Bytes, rest: Bytes)
    requires |user| < U16
    ensures ReadKind(Le16(2) + (Prefixed(user) + rest)) == Got(Rtm(user), rest)
  {
    Read16Back(2, Prefixed(user) + rest);
    ReadPrefixedBack(user, rest);
  }

  lemma ReadKindBack(k: Kind, rest: Bytes)
    requires KindFits(k)
    ensures ReadKind(Le16(TypeOf(k)) + (PackKind(k) + rest)) == Got(k, rest)
  {
    match k
    case Rtc(channel, uid) => ReadRtcBack(channel, uid, rest);
    case Rtm(user) => ReadRtmBack(user, rest);
  }

  lemma {:induction false} ReadPrivilegesBack(ps: Entries, rest: Bytes)
    requires forall i :: 0 <= i < |ps| ==> EntryFits(ps[i])
    ensures ReadPrivileges(PackPrivileges(ps) + rest, |ps|) == Got(ps, rest)
  {
    if ps == [] {
      assert [] + rest == rest;
    } else {
      var tail := PackPrivileges(ps[1..]);
      Assoc(Le16(ps[0].0) + Le32(ps[0].1), tail, rest);
      Assoc(Le16(ps[0].0), Le32(ps[0].1), tail + rest);
      Read16Back(ps[0].0, Le32(ps[0].1) + (tail + rest));
      Read32Back(ps[0].1, tail + rest);
      ReadPrivilegesBack(ps[1..], rest);
      assert [ps[0]] + ps[1..] == ps;
    }
  }

  lemma ReadServiceBack(s: Service, rest: Bytes)
    requires ServiceFits(s)
    ensures ReadService(PackService(s) + rest) == Got(s, rest)
  {
    var n, ps := Le16(|s.privileges|), PackPrivileges(s.privileges);
    Assoc(Le16(TypeOf(s.kind)), PackKind(s.kind) + (n + ps), rest);
    Assoc(PackKind(s.kind), n + ps, rest);
    Assoc(n, ps, rest);
    ReadKindBack(s.kind, n + (ps + rest));
    Read16Back(|s.privileges|, ps + rest);
    ReadPrivilegesBack(s.privileges, rest);
  }

  lemma {:induction false} ReadServicesBack(ss: seq<Service>, rest: Bytes)
    requires forall i :: 0 <= i < |ss| ==> ServiceFits(ss[i])
    ensures ReadServices(PackServices(ss) + rest, |ss|) == Got(ss, rest)
  {
    if ss == [] {
      assert [] + rest == rest;
    } else {
      Assoc(PackService(ss[0]), PackServices(ss[1..]), rest);
      ReadServiceBack(ss[0], PackServices(ss[1..]) + rest);
      ReadServicesBack(ss[1..], rest);
      assert [ss[0]] + ss[1..] == ss;
    }
  }

  lemma ReadBodyBack(ss: seq<Service>, rest: Bytes)
    requires ServicesFit(ss)
    ensures ReadBody(Body(ss) + rest) == Got(ss, rest)
  {
    Assoc(Le16(|ss|), PackServices(ss), rest);
    Read16Back(|ss|, PackServices(ss) + rest);
    ReadServicesBack(ss, rest);
  }

  lemma ReadHeaderBack(t: Token, rest: Bytes)
    requires HeaderFits(t)
    ensures ReadHeader(Header(t) + rest) == Got(t.(services := []), rest)
    ensures ReadPrefixed(Header(t) + rest).Got? && ReadPrefixed(Header(t) + rest).value == t.appId
  {
    var i, e, s := Le32(t.issueTs), Le32(t.expire), Le32(t.salt);
    Assoc(Prefixed(t.appId), i + (e + s), rest);
    Assoc(i, e + s, rest);
    Assoc(e, s, rest);
    ReadPrefixedBack(t.appId, i + (e + (s + rest)));
    Read32Back(t.issueTs, e + (s + rest));
    Read32Back(t.expire, s + rest);
    Read32Back(t.salt, rest);
  }

  // ---- The layout ----

  /** A number as two bytes, or as four, the least significant one first. */
  ghost function TwoBytes(v: nat): seq<int> { [v % 256, v / 256] }

  ghost function FourBytes(v: nat): seq<int> { [v % 256, v / 256 % 256, v / 65536 % 256, v / 16777216] }

  lemma IntegerBytes(v: nat)
    ensures v < 65536 ==> Le16(v) == TwoBytes(v)
    ensures v < 4294967296 ==> Le32(v) == FourBytes(v)
  {
    if 65536 <= v < 4294967296 {
      Halves(v / 65536, v % 65536);
    }
  }

  lemma Halves(high: nat, low: nat)
    requires low < 65536
    ensures var v := 65536 * high + low;
            v % 256 == low % 256 && v / 256 % 256 == low / 256 && v / 16777216 == high / 256
  {
    var v := 65536 * high + low;
    Quotient(v, 256 * high + low / 256, low % 256);
    Quotient(256 * high + low / 256, high, low / 256);
    Quotient(high, high / 256, high % 256);
  }

  lemma Quotient(v: nat, q: nat, r: nat)
    requires v == 256 * q + r && r < 256
    ensures v / 256 == q && v % 256 == r
  {
  }

  /** App id with its length, time of issue, expiry and salt, in this order. */
  lemma HeaderBytes(t: Token)
    requires HeaderFits(t)
    ensures Header(t) == TwoBytes(|t.appId|) + t.appId + FourBytes(t.issueTs) + FourBytes(t.expire)
                         + FourBytes(t.salt)
  {
    IntegerBytes(|t.appId|);
    IntegerBytes(t.issueTs);
    IntegerBytes(t.expire);
    IntegerBytes(t.salt);
  }

  /** The service's type, its channel and user (or its user alone) with their lengths, and the number of its
      privileges, each of six bytes: key and expiry. */
  lemma ServiceBytes(s: Service)
    requires ServiceFits(s)
    ensures PackService(s)
         == (match s.kind
             case Rtc(channel, uid) =>
               TwoBytes(1) + TwoBytes(|channel|) + channel
               + TwoBytes(|Digits(uid)|) + Digits(uid)
             case Rtm(user) => TwoBytes(2) + TwoBytes(|user|) + user)
            + TwoBytes(|s.privileges|) + PackPrivileges(s.privileges)
    ensures |PackPrivileges(s.privileges)| == 6 * |s.privileges|
  {
    IntegerBytes(TypeOf(s.kind));
    IntegerBytes(|s.privileges|);
    PrivilegesLength(s.privileges);
    match s.kind
    case Rtc(channel, uid) =>
      IntegerBytes(|channel|);
      IntegerBytes(|Digits(uid)|);
    case Rtm(user) =>
      IntegerBytes(|user|);
  }

  lemma {:induction false} PrivilegesLength(ps: Entries)
    requires forall i :: 0 <= i < |ps| ==> EntryFits(ps[i])
    ensures |PackPrivileges(ps)| == 6 * |ps|
  {
    if ps != [] { PrivilegesLength(ps[1..]); }
  }

  lemma {:induction false} PrivilegeBytes(ps: Entries, i: nat)
    requires (forall j :: 0 <= j < |ps| ==> EntryFits(ps[j])) && i < |ps|
    ensures 6 * i + 6 <= |PackPrivileges(ps)|
    ensures PackPrivileges(ps)[6 * i..6 * i + 6] == TwoBytes(ps[i].0) + FourBytes(ps[i].1)
  {
    PrivilegesLength(ps);
    var first, others := Le16(ps[0].0) + Le32(ps[0].1), PackPrivileges(ps[1..]);
    assert |first| == 6;
    if i == 0 {
      IntegerBytes(ps[0].0);
      IntegerBytes(ps[0].1);
    } else {
      PrivilegeBytes(ps[1..], i - 1);
      assert (first + others)[6 * i..6 * i + 6] == others[6 * (i - 1)..6 * (i - 1) + 6];
    }
  }

  // ---- Main results ----

  /** The content of a token is read back whole: app id, times, salt, signature, and the services in
      order with their privileges. */
  lemma DecodeBack(t: Token, signature: Bytes)
    requires Fits(t) && |signature| == SIGNATURE
    ensures Decode(Content(t, signature)) == Decoded(t, signature)
  {
    var body := Body(t.services);
    Assoc(Header(t), signature, body);
    ReadHeaderBack(t, signature + body);
    assert (signature + body)[..SIGNATURE] == signature && (signature + body)[SIGNATURE..] == body;
    ReadBodyBack(t.services, []);
    assert body + [] == body;
  }

  /** Deleting the signature from the content leaves exactly the bytes that were signed. */
  lemma SignedIsContentWithoutSignature(t: Token, signature: Bytes)
    requires Fits(t) && |signature| == SIGNATURE
    ensures WithoutSignature(Content(t, signature)) == Some(Signed(t))
  {
    var h, body := Header(t), Body(t.services);
    Assoc(h, signature, body);
    ReadHeaderBack(t, signature + body);
    assert |h| == |t.appId| + 14;
    assert (h + signature + body)[..|h|] == h && (h + signature + body)[|h| + SIGNATURE..] == body;
  }

  /** No two tokens are signed over the same bytes. */
  lemma SignedIsUnambiguous(t: Token, u: Token)
    requires Fits(t) && Fits(u) && Signed(t) == Signed(u)
    ensures t == u
  {
    ReadHeaderBack(t, Body(t.services));
    ReadHeaderBack(u, Body(u.services));
    ReadBodyBack(t.services, []);
    ReadBodyBack(u.services, []);
    assert Body(t.services) + [] == Body(t.services) && Body(u.services) + [] == Body(u.services);
  }
}
