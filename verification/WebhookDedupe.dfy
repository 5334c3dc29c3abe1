/**
 * Hive webhook deliveries: a delivery is accepted while the clock is close to its timestamp and its
 * signature spells the HMAC of its body, and the texts of timestamp and signature are then reserved
 * under a key with an expiry. The machine is written for any window and any expiry; the service's are
 * `DRIFT_MS` and `REPLAY_TTL_MS`.
 */
module WebhookDedupe {
  import opened Redis

  const DRIFT_MS: nat := 5 * 60 * 1000
  const REPLAY_TTL_MS: nat := 10 * 60 * 1000
  const FIRST_MILLISECOND_STAMP: nat := 1_000_000_000_000

  // ---- Timestamps ----

  predicate IsDigit(c: char) { '0' <= c <= '9' }

  function Decimal(s: string): nat
    requires forall i :: 0 <= i < |s| ==> IsDigit(s[i])
  {
    if s == "" then 0
    else
      assert IsDigit(s[|s| - 1]);
      10 * Decimal(s[..|s| - 1]) + (s[|s| - 1] as int - '0' as int)
  }

  /** The instant a header stands for: 10 to 16 digits, in seconds when below 10^12. */
  function Instant(text: string): Option<nat> {
    if !(10 <= |text| <= 16) || exists i :: 0 <= i < |text| && !IsDigit(text[i]) then None
    else
      var ts := Decimal(text);
      Some(if ts < FIRST_MILLISECOND_STAMP then ts * 1000 else ts)
  }

  function Abs(x: int): nat { if x < 0 then -x else x }

  predicate Fresh(text: string, now: Time, drift: nat) {
    Instant(text).Some? && Abs(now - Instant(text).value) <= drift
  }

  /** The prefix that a signature may carry is not part of the key. */
  function StripPrefix(signature: string): string {
    if "sha256=" <= signature then signature[7..] else signature
  }

  /** A number as it is written in a header. */
  function Printed(n: nat): (s: string)
    ensures s != "" && forall i :: 0 <= i < |s| ==> IsDigit(s[i])
  {
    if n < 10 then [('0' as int + n) as char] else Printed(n / 10) + [('0' as int + n % 10) as char]
  }

  lemma {:induction false} DecimalOfPrinted(n: nat)
    ensures Decimal(Printed(n)) == n
  {
    if n >= 10 {
      DecimalOfPrinted(n / 10);
      assert Printed(n)[..|Printed(n)| - 1] == Printed(n / 10);
    } else {
      assert Printed(n)[..0] == "";
    }
  }

  function Power10(k: nat): nat { if k == 0 then 1 else 10 * Power10(k - 1) }

  lemma {:induction false} PrintedLength(n: nat, k: nat)
    requires k > 0
    ensures |Printed(n)| <= k <==> n < Power10(k)
  {
    if n < 10 {
      PowerPositive(k - 1);
    } else if k > 1 {
      PrintedLength(n / 10, k - 1);
    }
  }

  lemma {:induction false} PowerPositive(k: nat)
    ensures Power10(k) > 0
  {
    if k > 0 { PowerPositive(k - 1); }
  }

  lemma Powers()
    ensures Power10(9) == 1_000_000_000 && Power10(16) == 10_000_000_000_000_000
  {
    assert Power10(3) == 1000 && Power10(6) == 1_000_000;
    assert Power10(12) == 1_000_000_000_000;
  }

  /** A number of 10 to 16 digits is an instant: of seconds below 10^12, of milliseconds from there on. The
      delivery is fresh exactly within five minutes of it. */
  lemma FreshIff(n: nat, now: Time)
    ensures Instant(Printed(n))
         == if n < 1_000_000_000 || 10_000_000_000_000_000 <= n then None
            else if n < 1_000_000_000_000 then Some(1000 * n) else Some(n)
    ensures Fresh(Printed(n), now, DRIFT_MS) <==>
              Instant(Printed(n)).Some? && var at := Instant(Printed(n)).value;
                                           now <= at + 300_000 && at <= now + 300_000
  {
    DecimalOfPrinted(n);
    PrintedLength(n, 9);
    PrintedLength(n, 16);
    Powers();
  }

  // ---- Signatures ----

  /** The HMAC of a body, as its 64 half bytes. */
  type Mac = seq<nat>

  function HexValue(c: char): Option<nat> {
    if '0' <= c <= '9' then Some(c as int - '0' as int)
    else if 'a' <= c <= 'f' then Some(c as int - 'a' as int + 10)
    else if 'A' <= c <= 'F' then Some(c as int - 'A' as int + 10)
    else None
  }

  /** 64 hexadecimal digits, in either case, that are the bytes of `mac`. */
  predicate Spells(signature: string, mac: Mac) {
    |signature| == 64 && |mac| == 64 && forall i :: 0 <= i < 64 ==> HexValue(signature[i]) == Some(mac[i])
  }

  // ---- The machine ----

  datatype Key = Key(timestamp: string, signature: string)

  function KeyOf(timestamp: string, signature: string): Key {
    Key(timestamp, StripPrefix(signature))
  }

  /** A signature counts the same with its prefix and without; other than that the key tells any two texts
      apart. */
  lemma KeyIgnoresPrefix(ts: string, sig: string, mac: Mac, ts': string, sig': string, mac': Mac)
    requires Spells(sig, mac) && Spells(sig', mac')
    ensures KeyOf(ts, "sha256=" + sig) == KeyOf(ts, sig)
    ensures KeyOf(ts, sig) == KeyOf(ts', "sha256=" + sig') <==> ts == ts' && sig == sig'
  {
    assert HexValue(sig[0]).Some? && HexValue(sig'[0]).Some?;
    assert ("sha256=" + sig)[7..] == sig && ("sha256=" + sig')[7..] == sig';
  }

  datatype Request = Request(key: Key, mac: Mac, verifiedAt: Time)
  datatype Processed = Processed(key: Key, mac: Mac, verifiedAt: Time, reservedAt: Time)
  datatype Limits = Limits(drift: nat, ttl: nat)

  datatype State = State(
    now: Time, reserved: map<Key, Cell<()>>, pending: map<nat, Request>, log: seq<Processed>)

  datatype Action =
    | Tick(d: nat)
    | Verify(req: nat, timestamp: string, signature: string, mac: Mac)  // `mac` is that of the body
    | Reserve(req: nat)

  predicate Enabled(l: Limits, s: State, a: Action) {
    match a
    case Tick(_) => true
    case Verify(r, ts, sig, mac) => r !in s.pending && Fresh(ts, s.now, l.drift) && Spells(StripPrefix(sig), mac)
    case Reserve(r) => r in s.pending
  }

  /** `Reserve` is the SET NX of `reserveWebhookDelivery`; only its winner is processed. */
  function Apply(l: Limits, s: State, a: Action): State
    requires Enabled(l, s, a)
  {
    match a
    case Tick(d) => s.(now := s.now + d)
    case Verify(r, ts, sig, mac) => s.(pending := s.pending[r := Request(KeyOf(ts, sig), mac, s.now)])
    case Reserve(r) =>
      var q := s.pending[r];
      if CellOf(s.reserved, q.key).Live(s.now) then s.(pending := s.pending - {r})
      else State(s.now, SetNx(s.reserved, q.key, (), s.now, l.ttl), s.pending - {r},
                 s.log + [Processed(q.key, q.mac, q.verifiedAt, s.now)])
  }

  ghost predicate IsRun(l: Limits, tr: seq<State>, acts: seq<Action>) {
    && |tr| == |acts| + 1
    && tr[0].reserved == map[] && tr[0].pending == map[] && tr[0].log == []
    && forall i :: 0 <= i < |acts| ==> Enabled(l, tr[i], acts[i]) && tr[i + 1] == Apply(l, tr[i], acts[i])
  }

  ghost predicate Inv(l: Limits, s: State) {
    && (forall r :: r in s.pending ==>
          s.pending[r].verifiedAt <= s.now && Fresh(s.pending[r].key.timestamp, s.pending[r].verifiedAt, l.drift))
    && (forall i :: 0 <= i < |s.log| ==>
          && s.log[i].verifiedAt <= s.log[i].reservedAt <= s.now
          && Fresh(s.log[i].key.timestamp, s.log[i].verifiedAt, l.drift)
          && s.log[i].key in s.reserved && s.reserved[s.log[i].key].Cell?
          && s.log[i].reservedAt + l.ttl <= s.reserved[s.log[i].key].expiresAt)
    && (forall i, j :: 0 <= i < j < |s.log| && s.log[i].key == s.log[j].key ==>
          s.log[i].reservedAt + l.ttl < s.log[j].reservedAt)
  }

  lemma StepKeepsInv(l: Limits, s: State, a: Action)
    requires Inv(l, s) && Enabled(l, s, a)
    ensures Inv(l, Apply(l, s, a))
  {
  }

  lemma {:induction false} RunInv(l: Limits, tr: seq<State>, acts: seq<Action>, k: nat)
    requires IsRun(l, tr, acts) && k < |tr|
    ensures Inv(l, tr[k])
  {
    if k > 0 {
      RunInv(l, tr, acts, k - 1);
      StepKeepsInv(l, tr[k - 1], acts[k - 1]);
    }
  }

  /** Two deliveries of one pair are processed only if the later one waited between its check and its
      reservation for longer than the expiry exceeds twice the window, plus what the first waited. */
  lemma TwiceOnlyAfterWaiting(l: Limits, tr: seq<State>, acts: seq<Action>, k: nat, i: nat, j: nat)
    requires IsRun(l, tr, acts) && k < |tr| && i < j < |tr[k].log|
    ensures var p, q := tr[k].log[i], tr[k].log[j];
            p.key == q.key ==>
              q.reservedAt - q.verifiedAt > (l.ttl - 2 * l.drift) + (p.reservedAt - p.verifiedAt) >= l.ttl - 2 * l.drift
  {
    RunInv(l, tr, acts, k);
    var p, q := tr[k].log[i], tr[k].log[j];
    assert Fresh(p.key.timestamp, p.verifiedAt, l.drift) && Fresh(q.key.timestamp, q.verifiedAt, l.drift);
  }

  ghost predicate WaitsAtMost(s: State, wait: nat) {
    forall i :: 0 <= i < |s.log| ==> s.log[i].reservedAt - s.log[i].verifiedAt <= wait
  }

  ghost predicate AtMostOnce(s: State) {
    forall i, j :: 0 <= i < j < |s.log| ==> s.log[i].key != s.log[j].key
  }

  /** Every run whose requests wait at most `wait` processes each pair at most once. */
  ghost predicate Safe(l: Limits, wait: nat) {
    forall tr, acts, k: nat :: IsRun(l, tr, acts) && k < |tr| && WaitsAtMost(tr[k], wait) ==> AtMostOnce(tr[k])
  }

  /** A delivery, and `wait` after the check of a second one its reservation. */
  function TwoDeliveries(d: nat, wait: nat, first: Key, second: Key, mac: Mac): seq<Action> {
    [Verify(0, first.timestamp, "sha256=" + first.signature, mac), Reserve(0), Tick(d),
     Verify(1, second.timestamp, "sha256=" + second.signature, mac), Tick(wait), Reserve(1)]
  }

  /** A delivery of a body that may be checked at `at`. */
  predicate Deliverable(l: Limits, k: Key, mac: Mac, at: Time) {
    Fresh(k.timestamp, at, l.drift) && Spells(k.signature, mac)
  }

  /** The two are both processed if the second key is another one, or the first has lapsed. */
  lemma BothProcessed(l: Limits, at: Time, d: nat, wait: nat, first: Key, second: Key, mac: Mac)
    returns (tr: seq<State>)
    requires Deliverable(l, first, mac, at) && Deliverable(l, second, mac, at + d)
    requires first != second || d + wait > l.ttl
    ensures IsRun(l, tr, TwoDeliveries(d, wait, first, second, mac)) && |tr| == 7
    ensures tr[6].log == [Processed(first, mac, at, at), Processed(second, mac, at + d, at + d + wait)]
  {
    var acts := TwoDeliveries(d, wait, first, second, mac);
    assert StripPrefix("sha256=" + first.signature) == first.signature;
    assert StripPrefix("sha256=" + second.signature) == second.signature;
    assert first == Key(first.timestamp, first.signature) && second == Key(second.timestamp, second.signature);
    var s0 := State(at, map[], map[], []);
    var s1 := Apply(l, s0, acts[0]);
    var s2 := Apply(l, s1, acts[1]);
    assert s2.log == [Processed(first, mac, at, at)] && s2.reserved == map[first := Cell((), at + l.ttl)];
    var s3 := Apply(l, s2, acts[2]);
    var s4 := Apply(l, s3, acts[3]);
    var s5 := Apply(l, s4, acts[4]);
    assert s5.pending[1] == Request(second, mac, at + d) && s5.now == at + d + wait;
    tr := [s0, s1, s2, s3, s4, s5, Apply(l, s5, acts[5])];
  }

  /** Ten digits for an instant at least `drift` after 0. */
  const STAMP: string := "1000000000"
  const STAMP_MS: nat := 1_000_000_000_000

  lemma StampInstant()
    ensures Instant(STAMP) == Some(STAMP_MS)
  {
    var s: string := STAMP;
    assert forall i :: 0 <= i < |s| ==> IsDigit(s[i]);
    assert s[..9] == "100000000" && s[..9][..8] == "10000000" && s[..9][..8][..7] == "1000000";
    assert Decimal("1") == 1 by {
      assert "1"[..0] == "";
    }
    assert "10"[..1] == "1" && Decimal("10") == 10;
    assert "100"[..2] == "10" && Decimal("100") == 100;
    assert "1000"[..3] == "100" && Decimal("1000") == 1000;
    assert "10000"[..4] == "1000" && Decimal("10000") == 10000;
    assert "100000"[..5] == "10000" && Decimal("100000") == 100000;
    assert "1000000"[..6] == "100000" && Decimal("1000000") == 1000000;
    assert "10000000"[..7] == "1000000" && Decimal("10000000") == 10000000;
    assert "100000000"[..8] == "10000000" && Decimal("100000000") == 100000000;
    assert "1000000000"[..9] == "100000000" && Decimal("1000000000") == 1000000000;
  }

  function Repeated(c: char): string { seq(64, i => c) }

  /** When twice the window and the wait exceed the expiry, some run processes a pair twice. */
  lemma TwiceReachable(l: Limits, wait: nat)
    requires l.ttl < 2 * l.drift + wait && l.drift <= STAMP_MS
    ensures !Safe(l, wait)
  {
    StampInstant();
    var key, mac := Key(STAMP, Repeated('a')), seq(64, i => 10);
    var tr := BothProcessed(l, STAMP_MS - l.drift, 2 * l.drift, wait, key, key, mac);
    assert tr[6].log[0].key == tr[6].log[1].key;
    assert WaitsAtMost(tr[6], wait) && !AtMostOnce(tr[6]);
  }

  /** At most once, exactly when the expiry covers the whole window and the wait. */
  lemma SafeIff(l: Limits, wait: nat)
    requires l.drift <= STAMP_MS
    ensures Safe(l, wait) <==> 2 * l.drift + wait <= l.ttl
  {
    if l.ttl < 2 * l.drift + wait {
      TwiceReachable(l, wait);
    } else {
      forall tr: seq<State>, acts, k: nat | IsRun(l, tr, acts) && k < |tr| && WaitsAtMost(tr[k], wait)
        ensures AtMostOnce(tr[k])
      {
        forall i, j | 0 <= i < j < |tr[k].log|
          ensures tr[k].log[i].key != tr[k].log[j].key
        {
          TwiceOnlyAfterWaiting(l, tr, acts, k, i, j);
        }
      }
    }
  }

  /** The service's own limits: at most once when a request is reserved in the millisecond in which it
      was checked, with nothing to spare. */
  lemma ServiceLimitsAreTight()
    ensures Safe(Limits(DRIFT_MS, REPLAY_TTL_MS), 0)
    ensures !Safe(Limits(DRIFT_MS, REPLAY_TTL_MS), 1)
    ensures !Safe(Limits(DRIFT_MS, REPLAY_TTL_MS - 1), 0)
    ensures !Safe(Limits(DRIFT_MS + 1, REPLAY_TTL_MS), 0)
  {
    SafeIff(Limits(DRIFT_MS, REPLAY_TTL_MS), 0);
    SafeIff(Limits(DRIFT_MS, REPLAY_TTL_MS), 1);
    SafeIff(Limits(DRIFT_MS, REPLAY_TTL_MS - 1), 0);
    SafeIff(Limits(DRIFT_MS + 1, REPLAY_TTL_MS), 0);
  }

  // ---- One body ----

  ghost predicate BodiesAtMostOnce(s: State) {
    forall i, j :: 0 <= i < j < |s.log| ==> s.log[i].mac != s.log[j].mac
  }

  /** A delivery: the texts that are its key, and the HMAC of its body. */
  type Delivery = (Key, Mac)

  /** A timestamp that denotes an instant, and a signature that spells the HMAC. */
  predicate WellFormed(d: Delivery) { Instant(d.0.timestamp).Some? && Spells(d.0.signature, d.1) }

  /** Every check in the run is of one of the deliveries. */
  ghost predicate Delivers(acts: seq<Action>, ds: set<Delivery>) {
    forall i :: 0 <= i < |acts| && acts[i].Verify? ==> (KeyOf(acts[i].timestamp, acts[i].signature), acts[i].mac) in ds
  }

  /** Requests and log entries come from well-formed deliveries. */
  ghost predicate FromDeliveries(s: State, ds: set<Delivery>) {
    && (forall r :: r in s.pending ==> var d := (s.pending[r].key, s.pending[r].mac); d in ds && WellFormed(d))
    && (forall i :: 0 <= i < |s.log| ==> var d := (s.log[i].key, s.log[i].mac); d in ds && WellFormed(d))
  }

  lemma {:induction false} RunFromDeliveries(l: Limits, tr: seq<State>, acts: seq<Action>, k: nat, ds: set<Delivery>)
    requires IsRun(l, tr, acts) && k < |tr| && Delivers(acts[..k], ds)
    ensures FromDeliveries(tr[k], ds)
  {
    if k > 0 {
      assert forall i :: 0 <= i < k - 1 ==> acts[..k - 1][i] == acts[..k][i];
      RunFromDeliveries(l, tr, acts, k - 1, ds);
      assert acts[..k][k - 1] == acts[k - 1];
    }
  }

  /** Each body is delivered with one spelling and one timestamp; what cannot pass the check does not
      matter. */
  ghost predicate OneKeyPerBody(ds: set<Delivery>) {
    forall d, e :: d in ds && e in ds && WellFormed(d) && WellFormed(e) && d.1 == e.1 ==> d.0 == e.0
  }

  /** A body whose deliveries, up to `k`, all have the same texts is processed at most once by then. */
  lemma OncePerBody(l: Limits, wait: nat, tr: seq<State>, acts: seq<Action>, k: nat, ds: set<Delivery>)
    requires IsRun(l, tr, acts) && k < |tr| && WaitsAtMost(tr[k], wait) && 2 * l.drift + wait <= l.ttl
    requires Delivers(acts[..k], ds) && OneKeyPerBody(ds)
    ensures BodiesAtMostOnce(tr[k])
  {
    RunFromDeliveries(l, tr, acts, k, ds);
    forall i, j | 0 <= i < j < |tr[k].log|
      ensures tr[k].log[i].mac != tr[k].log[j].mac
    {
      TwiceOnlyAfterWaiting(l, tr, acts, k, i, j);
    }
  }

  /** Whatever of the deliveries arrives, how often, when and in whatever order: every run whose requests
      wait at most `wait` processes each body at most once. */
  ghost predicate SafeBodies(l: Limits, wait: nat, ds: set<Delivery>) {
    forall tr: seq<State>, acts, k: nat ::
      IsRun(l, tr, acts) && k < |tr| && Delivers(acts[..k], ds) && WaitsAtMost(tr[k], wait) ==> BodiesAtMostOnce(tr[k])
  }

  lemma TheirDeliveries(later: nat, d: Delivery, e: Delivery, ds: set<Delivery>)
    requires d in ds && e in ds && d.1 == e.1
    ensures Delivers(TwoDeliveries(later, 0, d.0, e.0, d.1), ds)
  {
    assert StripPrefix("sha256=" + d.0.signature) == d.0.signature;
    assert StripPrefix("sha256=" + e.0.signature) == e.0.signature;
    assert d == (Key(d.0.timestamp, d.0.signature), d.1) && e == (Key(e.0.timestamp, e.0.signature), e.1);
  }

  /** Two deliveries of one body that differ are both processed in some run. */
  lemma DifferentTextsUnsafe(l: Limits, wait: nat, ds: set<Delivery>, d: Delivery, e: Delivery)
    requires d in ds && e in ds && d.1 == e.1 && d.0 != e.0 && WellFormed(d) && WellFormed(e)
    requires Instant(d.0.timestamp).value <= Instant(e.0.timestamp).value
    ensures !SafeBodies(l, wait, ds)
  {
    var at := Instant(d.0.timestamp).value;
    var later := Instant(e.0.timestamp).value - at;
    var tr := BothProcessed(l, at, later, 0, d.0, e.0, d.1);
    var acts := TwoDeliveries(later, 0, d.0, e.0, d.1);
    TheirDeliveries(later, d, e, ds);
    assert acts[..6] == acts;
    assert tr[6].log[0].mac == tr[6].log[1].mac && WaitsAtMost(tr[6], wait) && !BodiesAtMostOnce(tr[6]);
  }

  /** Within the limits, bodies are processed at most once exactly if each of them is delivered with one
      spelling of its signature and one timestamp. */
  lemma OncePerBodyIff(l: Limits, wait: nat, ds: set<Delivery>)
    requires 2 * l.drift + wait <= l.ttl
    ensures SafeBodies(l, wait, ds) <==> OneKeyPerBody(ds)
  {
    if OneKeyPerBody(ds) {
      forall tr: seq<State>, acts, k: nat |
        IsRun(l, tr, acts) && k < |tr| && Delivers(acts[..k], ds) && WaitsAtMost(tr[k], wait)
        ensures BodiesAtMostOnce(tr[k])
      {
        OncePerBody(l, wait, tr, acts, k, ds);
      }
    } else {
      var d, e :| d in ds && e in ds && WellFormed(d) && WellFormed(e) && d.1 == e.1 && d.0 != e.0;
      if Instant(d.0.timestamp).value <= Instant(e.0.timestamp).value {
        DifferentTextsUnsafe(l, wait, ds, d, e);
      } else {
        DifferentTextsUnsafe(l, wait, ds, e, d);
      }
    }
  }

  /** Some run without waits processes the body for both deliveries, in this order. */
  ghost predicate TwiceBy(l: Limits, first: Key, second: Key, mac: Mac) {
    exists tr: seq<State>, acts, k: nat, i: nat, j: nat ::
      && IsRun(l, tr, acts) && k < |tr| && WaitsAtMost(tr[k], 0) && i < j < |tr[k].log|
      && tr[k].log[i].key == first && tr[k].log[j].key == second
      && tr[k].log[i].mac == mac && tr[k].log[j].mac == mac
  }

  /** Of two deliveries of one body, each acceptable at some time, both are processed in some run without
      waits exactly if their texts differ. */
  lemma BodyTwiceIff(l: Limits, first: Key, second: Key, mac: Mac)
    requires 2 * l.drift <= l.ttl && Spells(first.signature, mac) && Spells(second.signature, mac)
    requires Instant(first.timestamp).Some? && Instant(second.timestamp).Some?
    requires Instant(first.timestamp).value <= Instant(second.timestamp).value
    ensures TwiceBy(l, first, second, mac) <==> first != second
  {
    if first != second {
      var at := Instant(first.timestamp).value;
      var d := Instant(second.timestamp).value - at;
      var tr := BothProcessed(l, at, d, 0, first, second, mac);
      var log := tr[6].log;
      assert log[0] == Processed(first, mac, at, at) && log[1] == Processed(second, mac, at + d, at + d);
      assert WaitsAtMost(tr[6], 0);
    } else {
      forall tr: seq<State>, acts, k: nat, i: nat, j: nat |
        IsRun(l, tr, acts) && k < |tr| && WaitsAtMost(tr[k], 0) && i < j < |tr[k].log|
        ensures tr[k].log[i].key != tr[k].log[j].key
      {
        TwiceOnlyAfterWaiting(l, tr, acts, k, i, j);
      }
    }
  }

  /** The service's limits: one signed body, its signature once in small and once in capital letters. */
  lemma OtherCaseIsProcessedAgain()
    ensures var mac := seq(64, i => 10);
            TwiceBy(Limits(DRIFT_MS, REPLAY_TTL_MS), Key(STAMP, Repeated('a')), Key(STAMP, Repeated('A')), mac)
  {
    StampInstant();
    assert Repeated('a')[0] != Repeated('A')[0];
    var small, capital := Key(STAMP, Repeated('a')), Key(STAMP, Repeated('A'));
    BodyTwiceIff(Limits(DRIFT_MS, REPLAY_TTL_MS), small, capital, seq(64, i => 10));
  }

  /** And once more with another timestamp, which the signature does not cover. */
  lemma OtherStampIsProcessedAgain(stamp: string, signature: string, mac: Mac)
    requires Instant(stamp).Some? && Instant(stamp).value >= STAMP_MS && stamp != STAMP && Spells(signature, mac)
    ensures TwiceBy(Limits(DRIFT_MS, REPLAY_TTL_MS), Key(STAMP, signature), Key(stamp, signature), mac)
  {
    StampInstant();
    BodyTwiceIff(Limits(DRIFT_MS, REPLAY_TTL_MS), Key(STAMP, signature), Key(stamp, signature), mac);
  }
}
