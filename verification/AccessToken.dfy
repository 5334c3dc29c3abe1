/**
 * The classes of the video service that write a token: a growing byte buffer, services with their
 * privileges, and the token that packs itself twice, once to be signed and once with the signature.
 * Every number that does not fit its width makes the write throw; `false` and `None` stand for that.
 */
module AccessToken {
  import opened Redis
  import opened TokenBytes

  class ByteBuf {
    var buffer: Bytes

    constructor ()
      ensures buffer == []
    {
      buffer := [];
    }

    method PutUint16(v: int) returns (ok: bool)
      modifies this
      ensures ok <==> 0 <= v < 65536
      ensures buffer == if ok then old(buffer) + Le16(v) else old(buffer)
      ensures ok ==> buffer == old(buffer) + [v % 256, v / 256]
    {
      if v < 0 || U16 <= v {
        return false;
      }
      buffer := buffer + [v % 256, v / 256];
      ok := true;
    }

    method PutUint32(v: int) returns (ok: bool)
      modifies this
      ensures ok <==> 0 <= v < 4294967296
      ensures buffer == if ok then old(buffer) + Le32(v) else old(buffer)
      ensures ok ==> buffer == old(buffer) + [v % 256, v / 256 % 256, v / 65536 % 256, v / 16777216]
    {
      if v < 0 || U32 <= v {
        return false;
      }
      IntegerBytes(v);
      buffer := buffer + [v % 256, v / 256 % 256, v / 65536 % 256, v / 16777216];
      ok := true;
    }

    method PutString(s: Bytes) returns (ok: bool)
      modifies this
      ensures ok <==> |s| < 65536
      ensures buffer == if ok then old(buffer) + Prefixed(s) else old(buffer)
      ensures ok ==> buffer == old(buffer) + ([|s| % 256, |s| / 256] + s)
    {
      ok := PutUint16(|s|);
      if ok {
        Assoc(old(buffer), Le16(|s|), s);
        buffer := buffer + s;
      }
    }

    method PutBytes(s: Bytes)
      modifies this
      ensures buffer == old(buffer) + s
    {
      buffer := buffer + s;
    }
  }

  /** `Map.set`: an old key keeps its place. */
  function MapSet(m: Entries, k: int, v: int): Entries {
    if m == [] then [(k, v)]
    else if m[0].0 == k then [(k, v)] + m[1..]
    else [m[0]] + MapSet(m[1..], k, v)
  }

  predicate DistinctKeys(m: Entries) {
    forall i, j :: 0 <= i < j < |m| ==> m[i].0 != m[j].0
  }

  function Position(m: Entries, k: int): (i: nat)
    ensures i <= |m| && (forall j :: 0 <= j < i ==> m[j].0 != k) && (i < |m| ==> m[i].0 == k)
  {
    if m == [] || m[0].0 == k then 0 else 1 + Position(m[1..], k)
  }

  lemma {:induction false} MapSetAt(m: Entries, k: int, v: int)
    ensures MapSet(m, k, v) == var i := Position(m, k); if i < |m| then m[i := (k, v)] else m + [(k, v)]
  {
    if m != [] && m[0].0 != k {
      MapSetAt(m[1..], k, v);
      var i := Position(m[1..], k);
      if i < |m| - 1 {
        assert [m[0]] + m[1..][i := (k, v)] == m[i + 1 := (k, v)];
      } else {
        assert [m[0]] + (m[1..] + [(k, v)]) == m + [(k, v)];
      }
    }
  }

  /** After a `set` the key has the value, once; every other key keeps its value, and no key that was
      there moves. */
  lemma MapSetKeepsOrder(m: Entries, k: int, v: int)
    requires DistinctKeys(m)
    ensures var r := MapSet(m, k, v);
            && DistinctKeys(r) && |m| <= |r| <= |m| + 1
            && Position(r, k) < |r| && r[Position(r, k)] == (k, v)
            && (forall i :: 0 <= i < |m| ==> r[i] == if m[i].0 == k then (k, v) else m[i])
            && (|r| == |m| <==> Position(m, k) < |m|)
  {
    MapSetAt(m, k, v);
    var i := Position(m, k);
    assert MapSet(m, k, v)[i] == (k, v);
  }

  class ServiceObject {
    const kind: Kind
    var privileges: Entries

    constructor (kind: Kind)
      ensures this.kind == kind && privileges == []
    {
      this.kind, privileges := kind, [];
    }

    function View(): Service
      reads this
    {
      Service(kind, privileges)
    }

    method AddPrivilege(privilege: int, expire: int)
      modifies this
      ensures privileges == MapSet(old(privileges), privilege, expire)
    {
      var i := 0;
      while i < |privileges| && privileges[i].0 != privilege
        invariant 0 <= i <= |privileges|
        invariant forall j :: 0 <= j < i ==> privileges[j].0 != privilege
      {
        i := i + 1;
      }
      assert i == Position(privileges, privilege);
      MapSetAt(privileges, privilege, expire);
      privileges := if i < |privileges| then privileges[i := (privilege, expire)]
                    else privileges + [(privilege, expire)];
    }

    /** On success exactly the service's bytes are appended. */
    method Pack(buf: ByteBuf) returns (ok: bool)
      modifies buf
      ensures ok <==> ServiceFits(View())
      ensures ok ==> buf.buffer == old(buf.buffer) + PackService(View())
    {
      ghost var start := buf.buffer;
      ok := buf.PutUint16(TypeOf(kind));
      ok := PackData(buf);
      if !ok {
        return;
      }
      ok := buf.PutUint16(|privileges|);
      if !ok {
        return;
      }
      ok := PackEntries(buf);
      if ok {
        var a, b, c, d := Le16(TypeOf(kind)), PackKind(kind), Le16(|privileges|), PackPrivileges(privileges);
        Assoc(start + a, b, c);
        Assoc(start + a, b + c, d);
        Assoc(b, c, d);
        Assoc(start, a, b + (c + d));
      }
    }

    method PackData(buf: ByteBuf) returns (ok: bool)
      modifies buf
      ensures ok <==> KindFits(kind)
      ensures ok ==> buf.buffer == old(buf.buffer) + PackKind(kind)
    {
      match kind
      case Rtc(channel, uid) =>
        ok := buf.PutString(channel);
        if ok {
          Assoc(old(buf.buffer), Prefixed(channel), if |Digits(uid)| < U16 then Prefixed(Digits(uid)) else []);
          ok := buf.PutString(Digits(uid));
        }
      case Rtm(user) =>
        ok := buf.PutString(user);
    }

    method PackEntry(buf: ByteBuf, e: (int, int)) returns (ok: bool)
      modifies buf
      ensures ok <==> EntryFits(e)
      ensures ok ==> buf.buffer == old(buf.buffer) + (Le16(e.0) + Le32(e.1))
    {
      ok := buf.PutUint16(e.0);
      if !ok {
        return;
      }
      ok := buf.PutUint32(e.1);
      if ok {
        Assoc(old(buf.buffer), Le16(e.0), Le32(e.1));
      }
    }

    method PackEntries(buf: ByteBuf) returns (ok: bool)
      modifies buf
      ensures ok <==> forall i :: 0 <= i < |privileges| ==> EntryFits(privileges[i])
      ensures ok ==> buf.buffer == old(buf.buffer) + PackPrivileges(privileges)
    {
      ghost var start := buf.buffer;
      for i := 0 to |privileges|
        invariant forall j :: 0 <= j < i ==> EntryFits(privileges[j])
        invariant buf.buffer == start + PackPrivileges(privileges[..i])
      {
        ok := PackEntry(buf, privileges[i]);
        if !ok {
          return;
        }
        assert privileges[..i + 1] == privileges[..i] + [privileges[i]];
        PackPrivilegesSnoc(privileges[..i], privileges[i]);
        Assoc(start, PackPrivileges(privileges[..i]), Le16(privileges[i].0) + Le32(privileges[i].1));
      }
      assert privileges[..|privileges|] == privileges;
      ok := true;
    }
  }

  lemma {:induction false} PackPrivilegesSnoc(ps: Entries, e: (int, int))
    requires (forall i :: 0 <= i < |ps| ==> EntryFits(ps[i])) && EntryFits(e)
    ensures PackPrivileges(ps + [e]) == PackPrivileges(ps) + (Le16(e.0) + Le32(e.1))
  {
    if ps == [] {
      assert [] + [e] == [e] && PackPrivileges([e]) == Le16(e.0) + Le32(e.1) + PackPrivileges([e][1..]);
    } else {
      PackPrivilegesSnoc(ps[1..], e);
      assert (ps + [e])[1..] == ps[1..] + [e] && (ps + [e])[0] == ps[0];
      Assoc(Le16(ps[0].0) + Le32(ps[0].1), PackPrivileges(ps[1..]), Le16(e.0) + Le32(e.1));
    }
  }

  lemma {:induction false} PackServicesSnoc(ss: seq<Service>, s: Service)
    requires (forall i :: 0 <= i < |ss| ==> ServiceFits(ss[i])) && ServiceFits(s)
    ensures PackServices(ss + [s]) == PackServices(ss) + PackService(s)
  {
    if ss == [] {
      assert [] + [s] == [s] && PackServices([s]) == PackService(s) + PackServices([s][1..]);
    } else {
      PackServicesSnoc(ss[1..], s);
      assert (ss + [s])[1..] == ss[1..] + [s] && (ss + [s])[0] == ss[0];
      Assoc(PackService(ss[0]), PackServices(ss[1..]), PackService(s));
    }
  }

  lemma OneServiceMore(start: Bytes, count: Bytes, ss: seq<Service>, i: nat)
    requires i < |ss| && forall j :: 0 <= j <= i ==> ServiceFits(ss[j])
    ensures start + (count + PackServices(ss[..i])) + PackService(ss[i]) == start + (count + PackServices(ss[..i + 1]))
  {
    assert ss[..i + 1] == ss[..i] + [ss[i]];
    PackServicesSnoc(ss[..i], ss[i]);
    var done, next := PackServices(ss[..i]), PackService(ss[i]);
    Assoc(start, count + done, next);
    Assoc(count, done, next);
  }

  type Hmac = (Bytes, Bytes) -> Bytes

  class AccessToken2 {
    const appId: Bytes
    const appCertificate: Bytes
    const expire: int
    const issueTs: int
    const salt: int
    var services: seq<ServiceObject>

    constructor (appId: Bytes, appCertificate: Bytes, expire: int, issueTs: int, salt: int)
      ensures this.appId == appId && this.appCertificate == appCertificate && this.expire == expire
      ensures this.issueTs == issueTs && this.salt == salt && services == []
    {
      this.appId, this.appCertificate, this.expire := appId, appCertificate, expire;
      this.issueTs, this.salt := issueTs, salt;
      services := [];
    }

    function Views(n: nat): (r: seq<Service>)
      requires n <= |services|
      reads this, services
      ensures |r| == n && forall i :: 0 <= i < n ==> r[i] == services[i].View()
    {
      if n == 0 then [] else Views(n - 1) + [services[n - 1].View()]
    }

    function View(): Token
      reads this, services
    {
      Token(appId, issueTs, expire, salt, Views(|services|))
    }

    /** One service of each type; a new one takes the place of the old one. */
    method AddService(s: ServiceObject)
      requires OnePerType(services)
      modifies this
      ensures |old(services)| <= |services| && OnePerType(services)
      ensures forall i :: 0 <= i < |old(services)| ==>
                services[i] == if TypeOf(old(services)[i].kind) == TypeOf(s.kind) then s else old(services)[i]
      ensures |services| == |old(services)| <==>
                exists i :: 0 <= i < |old(services)| && TypeOf(old(services)[i].kind) == TypeOf(s.kind)
      ensures |services| != |old(services)| ==> services == old(services) + [s]
    {
      var i := 0;
      while i < |services| && TypeOf(services[i].kind) != TypeOf(s.kind)
        invariant 0 <= i <= |services|
        invariant forall j :: 0 <= j < i ==> TypeOf(services[j].kind) != TypeOf(s.kind)
      {
        i := i + 1;
      }
      services := if i < |services| then services[i := s] else services + [s];
    }

    method PutHeader(buf: ByteBuf) returns (ok: bool)
      requires buf.buffer == []
      modifies buf
      ensures ok <==> |appId| < U16 && 0 <= issueTs < U32 && 0 <= expire < U32 && 0 <= salt < U32
      ensures ok ==> buf.buffer == Prefixed(appId) + (Le32(issueTs) + (Le32(expire) + Le32(salt)))
    {
      ok := buf.PutString(appId);
      if !ok {
        return;
      }
      ok := buf.PutUint32(issueTs);
      if !ok {
        return;
      }
      ok := buf.PutUint32(expire);
      if !ok {
        return;
      }
      ok := buf.PutUint32(salt);
      if ok {
        var a, b, c, d := Prefixed(appId), Le32(issueTs), Le32(expire), Le32(salt);
        assert [] + a == a;
        Assoc(a, b, c);
        Assoc(a, b + c, d);
        Assoc(b, c, d);
      }
    }

    method PutServices(buf: ByteBuf) returns (ok: bool)
      modifies buf
      ensures ok <==> ServicesFit(Views(|services|))
      ensures ok ==> buf.buffer == old(buf.buffer) + Body(Views(|services|))
    {
      ghost var start, vs := buf.buffer, Views(|services|);
      ok := buf.PutUint16(|services|);
      if !ok {
        return;
      }
      ghost var count := Le16(|services|);
      for i := 0 to |services|
        invariant forall j :: 0 <= j < i ==> ServiceFits(vs[j])
        invariant buf.buffer == start + (count + PackServices(vs[..i]))
      {
        assert services[i].View() == vs[i];
        ok := services[i].Pack(buf);
        if !ok {
          return;
        }
        OneServiceMore(start, count, vs, i);
      }
      assert vs[..|services|] == vs;
      ok := true;
    }

    /** The first buffer of `build`: what is signed. */
    method PackSigning() returns (r: Option<Bytes>)
      ensures r.Some? <==> Fits(View())
      ensures r.Some? ==> r.value == Signed(View())
    {
      var signing := new ByteBuf();
      var ok := PutHeader(signing);
      if !ok {
        return None;
      }
      ok := PutServices(signing);
      if !ok {
        return None;
      }
      r := Some(signing.buffer);
    }

    /** The second buffer; what fitted once fits again. */
    method PackContent(signature: Bytes) returns (r: Bytes)
      requires Fits(View())
      ensures r == Content(View(), signature)
    {
      var content := new ByteBuf();
      var _ := PutHeader(content);
      content.PutBytes(signature);
      var _ := PutServices(content);
      r := content.buffer;
    }

    /** The bytes before Base64. A token is built exactly if everything fits; its content is then read
        back as the token, with the signature of the content without the signature. */
    method Build(hmac: Hmac) returns (r: Option<Bytes>)
      requires forall key, data :: |hmac(key, data)| == 32
      ensures r.Some? <==> Fits(View())
      ensures r.Some? ==> Decode(r.value).Decoded? && Decode(r.value).token == View()
      ensures r.Some? ==> WithoutSignature(r.value).Some? &&
                          Decode(r.value).signature == hmac(appCertificate, WithoutSignature(r.value).value)
      ensures r.Some? ==> r.value == Content(View(), hmac(appCertificate, Signed(View())))
    {
      var signing := PackSigning();
      if signing.None? {
        return None;
      }
      var signature := hmac(appCertificate, signing.value);
      var content := PackContent(signature);
      ReadsBack(View(), signature);
      r := Some(content);
    }
  }

  lemma ReadsBack(t: Token, signature: Bytes)
    requires Fits(t) && |signature| == SIGNATURE
    ensures Decode(Content(t, signature)) == Decoded(t, signature)
    ensures WithoutSignature(Content(t, signature)) == Some(Signed(t))
  {
    DecodeBack(t, signature);
    SignedIsContentWithoutSignature(t, signature);
  }

  ghost predicate OnePerType(ss: seq<ServiceObject>) {
    forall i, j :: 0 <= i < j < |ss| ==> TypeOf(ss[i].kind) != TypeOf(ss[j].kind)
  }
}
