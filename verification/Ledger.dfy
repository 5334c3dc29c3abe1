/**
 * Where every token goes, over whole runs of the queue operations and of Stripe deliveries.
 */
module Ledger {
  import opened Redis
  import opened SortedSet
  import opened Queue

  // ---- Stripe ----

  /** A webhook event, as far as `handleStripeWebhookEvent` looks at it; `tokens` is what parseInt made
      of the metadata, if a number. */
  datatype StripeEvent = StripeEvent(id: string, completed: bool, paid: bool, checkout: string,
                                     user: string, pack: string, tokensRaw: string, tokens: Option<int>)

  predicate Creditable(e: StripeEvent) {
    e.completed && e.paid && e.user != "" && e.pack != "" && e.tokensRaw != "" && e.tokens.Some? && e.tokens.value > 0
  }

  function CreditOf(e: StripeEvent): Credit
    requires Creditable(e)
  {
    Credit(e.user, e.tokens.value, e.id, e.checkout)
  }

  predicate Known(db: Tables, e: StripeEvent) { exists c :: c in db.credits && c.event == e.id }

  /** The insert or the increment fails and rolls the transaction back: the checkout session was already
      credited under another event, or the user does not exist. */
  predicate RollsBack(db: Tables, e: StripeEvent) {
    e.user !in db.balance || exists c :: c in db.credits && c.checkout == e.checkout
  }

  /** `handleStripeWebhookEvent`. */
  function Deliver(w: World, e: StripeEvent): World {
    if !Creditable(e) || Known(w.db, e) || RollsBack(w.db, e) then w
    else w.(db := w.db.(balance := w.db.balance[e.user := BalanceOf(w.db, e.user) + e.tokens.value],
                            credits := w.db.credits + [CreditOf(e)]))
  }

  // ---- Runs ----

  datatype Action =
    | Tick(to: Time)
    | JoinQueue(user: UserId, key: Key, execFails: bool)
    | LeaveQueue(user: UserId)
    | RemoveFromQueue(user: UserId)
    | MatchOne(key: Key, busy: set<UserId>)
    | CleanupKey(key: Key)
    | SetBlocks(blocks: set<(UserId, UserId)>)
    | StripeWebhook(event: StripeEvent)

  /** `forfeits` counts the queued tokens each user has lost without a match or a refund. */
  datatype State = State(w: World, forfeits: map<UserId, nat>)

  function Forfeits(s: State, u: UserId): nat {
    if u in s.forfeits then s.forfeits[u] else 0
  }

  /** Leaving the queue under a live matched marker gives nothing back. */
  predicate LeaveForfeits(w: World, u: UserId) {
    u in w.keys.entries && Has(ZOf(w.keys, w.keys.entries[u].key), u) && IsMatched(w, u)
  }

  predicate RemoveForfeits(w: World, u: UserId) {
    u in w.keys.entries && Has(ZOf(w.keys, w.keys.entries[u].key), u)
  }

  function Lose(s: State, u: UserId, loses: bool): map<UserId, nat> {
    if loses then s.forfeits[u := Forfeits(s, u) + 1] else s.forfeits
  }

  ghost predicate Enabled(s: State, a: Action) {
    a.Tick? ==> s.w.now <= a.to
  }

  ghost function Apply(s: State, a: Action): State
    requires Enabled(s, a)
  {
    match a
    case Tick(to) => s.(w := s.w.(now := to))
    case JoinQueue(u, k, fails) => s.(w := Join(s.w, u, k, fails).0)
    case LeaveQueue(u) => State(Leave(s.w, u).0, Lose(s, u, LeaveForfeits(s.w, u)))
    case RemoveFromQueue(u) => State(Remove(s.w, u), Lose(s, u, RemoveForfeits(s.w, u)))
    case MatchOne(k, busy) => s.(w := Iterate(s.w, k, busy).0)
    case CleanupKey(k) => s.(w := s.w.(keys := Cleanup(s.w.keys, k)))
    case SetBlocks(bs) => s.(w := s.w.(db := s.w.db.(blocks := bs)))
    case StripeWebhook(e) => s.(w := Deliver(s.w, e))
  }

  /** Runs start from any balances, with nothing queued, matched, created or credited. */
  ghost predicate Init(s: State) {
    && s.w.keys == Keys(map[], map[], map[], {})
    && s.w.db.sessions == [] && s.w.db.credits == []
    && s.forfeits == map[]
  }

  ghost predicate IsRun(tr: seq<State>, acts: seq<Action>) {
    && |tr| == |acts| + 1 && Init(tr[0])
    && forall i :: 0 <= i < |acts| ==> Enabled(tr[i], acts[i]) && tr[i + 1] == Apply(tr[i], acts[i])
  }

  // ---- The books ----

  function QueuedTokens(w: World, u: UserId): nat {
    if u in w.keys.entries then 1 else 0
  }

  function Seats(ss: seq<Session>, u: UserId): nat {
    if ss == [] then 0
    else
      var x := ss[|ss| - 1];
      Seats(ss[..|ss| - 1], u) + (if x.userA == u then 1 else 0) + (if x.userB == u then 1 else 0)
  }

  function Credited(cs: seq<Credit>, u: UserId): nat {
    if cs == [] then 0
    else
      var c := cs[|cs| - 1];
      Credited(cs[..|cs| - 1], u) + (if c.user == u then c.amount else 0)
  }

  /** Everything a user's tokens have become. */
  function Accounted(s: State, u: UserId): nat {
    BalanceOf(s.w.db, u) + QueuedTokens(s.w, u) + Seats(s.w.db.sessions, u) + Forfeits(s, u)
  }

  /** Every user but those in `out` is in the sorted set of exactly the key the queue state names;
      those are in none. */
  ghost predicate InStepBut(ks: Keys, out: set<UserId>) {
    && (forall k :: Sorted(ZOf(ks, k)))
    && (forall k, u :: Has(ZOf(ks, k), u) <==> InQueue(ks, u, k) && u !in out)
  }

  ghost predicate InStep(ks: Keys) { InStepBut(ks, {}) }

  /** Each credit row is the only one of its event and of its checkout session. */
  ghost predicate CreditsUnique(cs: seq<Credit>) {
    forall i, j :: 0 <= i < j < |cs| ==> cs[i].event != cs[j].event && cs[i].checkout != cs[j].checkout
  }

  ghost predicate Inv(s: State, initial: Tables) {
    && InStep(s.w.keys) && CreditsUnique(s.w.db.credits)
    && forall u :: Accounted(s, u) == BalanceOf(initial, u) + Credited(s.w.db.credits, u)
  }

  lemma SeatsAppend(ss: seq<Session>, x: Session, u: UserId)
    ensures Seats(ss + [x], u) == Seats(ss, u) + (if x.userA == u then 1 else 0) + (if x.userB == u then 1 else 0)
  {
  }

  lemma CreditedAppend(cs: seq<Credit>, c: Credit, u: UserId)
    ensures Credited(cs + [c], u) == Credited(cs, u) + (if c.user == u then c.amount else 0)
  {
  }

  // ---- Sorted sets and queue state stay in step ----

  lemma AddHas(z: ZSet, score: int, m: Member, v: Member)
    requires Sorted(z)
    ensures Has(Add(z, score, m), v) <==> v == m || Has(z, v)
  {
    AddContents(z, score, m);
    assert Entry(score, m) in Add(z, score, m);
    if v != m && Has(z, v) {
      var e :| e in z && e.member == v;
      assert e in Add(z, score, m);
    }
  }

  lemma RemHas(z: ZSet, m: Member, v: Member)
    ensures Has(Rem(z, m), v) <==> v != m && Has(z, v)
  {
  }

  lemma PutBackInStep(ks: Keys, k: Key, e: Entry, out: set<UserId>)
    requires InStepBut(ks, out) && e.member in out && InQueue(ks, e.member, k)
    ensures InStepBut(PutBack(ks, k, e), out - {e.member})
  {
    var ks' := PutBack(ks, k, e);
    AddContents(ZOf(ks, k), e.score, e.member);
    forall x ensures ZOf(ks', x) == (if x == k then Add(ZOf(ks, k), e.score, e.member) else ZOf(ks, x)) {}
    forall x, v ensures Has(ZOf(ks', x), v) <==> InQueue(ks', v, x) && v !in out - {e.member} {
      assert Has(ZOf(ks, x), v) <==> InQueue(ks, v, x) && v !in out;
      assert Has(ZOf(ks, x), e.member) <==> InQueue(ks, e.member, x) && e.member !in out;
      AddHas(ZOf(ks, k), e.score, e.member, v);
    }
  }

  lemma TakeOutInStep(ks: Keys, k: Key, u: UserId)
    requires InStep(ks) && InQueue(ks, u, k)
    ensures InStepBut(PutZ(ks, k, Rem(ZOf(ks, k), u)), {u})
  {
    var ks' := PutZ(ks, k, Rem(ZOf(ks, k), u));
    RemContents(ZOf(ks, k), u);
    forall x ensures ZOf(ks', x) == (if x == k then Rem(ZOf(ks, k), u) else ZOf(ks, x)) {}
    forall x, v ensures Has(ZOf(ks', x), v) <==> InQueue(ks', v, x) && v !in {u} {
      assert Has(ZOf(ks, x), v) <==> InQueue(ks, v, x);
      RemHas(ZOf(ks, k), u, v);
    }
  }

  lemma PopInStep(ks: Keys, k: Key)
    requires InStep(ks) && |ZOf(ks, k)| >= 2
    ensures var z := ZOf(ks, k);
            && InQueue(ks, z[0].member, k) && InQueue(ks, z[1].member, k) && z[0].member != z[1].member
            && InStepBut(PutZ(ks, k, z[2..]), {z[0].member, z[1].member})
  {
    var z := ZOf(ks, k);
    assert z[0] in z && z[1] in z && Has(z, z[0].member) && Has(z, z[1].member);
    var ks' := PutZ(ks, k, z[2..]);
    HeadFirst(z);
    HeadFirst(z[1..]);
    assert z[1..][1..] == z[2..];
    forall x ensures Sorted(ZOf(ks', x)) { assert Sorted(ZOf(ks, x)); }
    assert Has(ZOf(ks, k), z[0].member) <==> InQueue(ks, z[0].member, k);
    assert Has(ZOf(ks, k), z[1].member) <==> InQueue(ks, z[1].member, k);
    forall x, v ensures Has(ZOf(ks', x), v) <==> InQueue(ks', v, x) && v !in {z[0].member, z[1].member} {
      assert Has(ZOf(ks, x), v) <==> InQueue(ks, v, x);
      if x == k {
        HasTail(z, v);
        HasTail(z[1..], v);
        if Has(z[2..], v) { SortedOnce(z, v); }
      }
    }
  }

  /** The first two of a sorted set are not among the others. */
  lemma SortedOnce(z: ZSet, v: Member)
    requires Sorted(z) && |z| >= 2 && Has(z[2..], v)
    ensures v != z[0].member && v != z[1].member
  {
  }

  lemma SameInStep(ks: Keys, ks': Keys)
    requires InStep(ks) && ks'.entries == ks.entries && forall x :: ZOf(ks', x) == ZOf(ks, x)
    ensures InStep(ks')
  {
    forall x, v ensures Has(ZOf(ks', x), v) <==> InQueue(ks', v, x) {
      assert Has(ZOf(ks, x), v) <==> InQueue(ks, v, x);
    }
    forall x ensures Sorted(ZOf(ks', x)) { assert Sorted(ZOf(ks, x)); }
  }

  lemma ForgetInStep(ks: Keys, ks': Keys, out: set<UserId>)
    requires InStepBut(ks, out) && ks'.zsets == ks.zsets && ks'.entries == ks.entries - out
    ensures InStep(ks')
  {
    forall x, v ensures Has(ZOf(ks', x), v) <==> InQueue(ks', v, x) {
      assert Has(ZOf(ks, x), v) <==> InQueue(ks, v, x) && v !in out;
    }
    forall x ensures Sorted(ZOf(ks', x)) { assert ZOf(ks', x) == ZOf(ks, x); }
  }

  lemma JoinInStep(w: World, u: UserId, k: Key, fails: bool)
    requires InStep(w.keys)
    ensures InStep(Join(w, u, k, fails).0.keys)
  {
    if Join(w, u, k, fails).1.Queued? {
      var named := w.keys.(entries := w.keys.entries[u := Joined(k, w.now)]);
      forall x, v ensures Has(ZOf(named, x), v) <==> InQueue(named, v, x) && v !in {u} {
        assert Has(ZOf(w.keys, x), v) <==> InQueue(w.keys, v, x);
      }
      forall x ensures Sorted(ZOf(named, x)) { assert ZOf(named, x) == ZOf(w.keys, x); }
      PutBackInStep(named, k, Entry(w.now, u), {u});
      assert {u} - {u} == {};
      SameInStep(PutBack(named, k, Entry(w.now, u)), Join(w, u, k, fails).0.keys);
    }
  }

  lemma LeaveInStep(w: World, u: UserId)
    requires InStep(w.keys)
    ensures InStep(Leave(w, u).0.keys) && InStep(Remove(w, u).keys)
  {
    if u in w.keys.entries {
      var k := w.keys.entries[u].key;
      var out := PutZ(w.keys, k, Rem(ZOf(w.keys, k), u));
      TakeOutInStep(w.keys, k, u);
      ForgetInStep(out, Remove(w, u).keys, {u});
      ForgetInStep(out, Leave(w, u).0.keys, {u});
    }
  }

  lemma PutBackPairInStep(ks: Keys, k: Key, p: Pair)
    requires InStepBut(ks, {p.a.member, p.b.member}) && p.a.member != p.b.member
    requires InQueue(ks, p.a.member, k) && InQueue(ks, p.b.member, k)
    ensures InStep(PutBackPair(ks, k, p))
  {
    PutBackInStep(ks, k, p.a, {p.a.member, p.b.member});
    assert {p.a.member, p.b.member} - {p.a.member} == {p.b.member};
    PutBackInStep(PutBack(ks, k, p.a), k, p.b, {p.b.member});
    assert {p.b.member} - {p.b.member} == {};
  }

  lemma ShortIterate(w: World, k: Key, busy: set<UserId>)
    requires InStep(w.keys) && |ZOf(w.keys, k)| < 2
    ensures var (w', more) := Iterate(w, k, busy);
            InStep(w'.keys) && !more && w'.db == w.db && w'.keys.entries == w.keys.entries
  {
    var z := ZOf(w.keys, k);
    if |z| == 1 { AddBackFirst(z); }
    SameInStep(w.keys, Iterate(w, k, busy).0.keys);
  }

  /** What becomes of a popped pair: it is put back, or matched. */
  ghost predicate PairHandled(w: World, w': World, k: Key, a: UserId, b: UserId) {
    || (w'.db == w.db && w'.keys.entries == w.keys.entries)
    || (&& a != b && a in w.keys.entries && b in w.keys.entries
        && w'.db == w.db.(sessions := w.db.sessions + [Session(a, b, k)])
        && w'.keys.entries == w.keys.entries - {a, b})
  }

  function Deferred(w: World, p: Pair): Pair {
    Pair(Entry(w.now + DEFER_MS, p.a.member), Entry(w.now + DEFER_MS + 1, p.b.member))
  }

  /** For users who are still queued in `k` an attempt has three ends. */
  lemma AttemptEnds(w: World, k: Key, p: Pair, busy: set<UserId>)
    requires InQueue(w.keys, p.a.member, k) && InQueue(w.keys, p.b.member, k)
    ensures Attempt(w, k, p, busy)
         == if Blocked(w.db, p.a.member, p.b.member) then w.(keys := PutBackPair(w.keys, k, Deferred(w, p)))
            else if p.a.member in busy || p.b.member in busy then w.(keys := PutBackPair(w.keys, k, p))
            else Commit(w, k, p.a.member, p.b.member)
  {
  }

  lemma PutBackHandled(w: World, k: Key, p: Pair)
    requires InStepBut(w.keys, {p.a.member, p.b.member}) && p.a.member != p.b.member
    requires InQueue(w.keys, p.a.member, k) && InQueue(w.keys, p.b.member, k)
    ensures var w' := w.(keys := PutBackPair(w.keys, k, p));
            InStep(w'.keys) && PairHandled(w, w', k, p.a.member, p.b.member)
  {
    PutBackPairInStep(w.keys, k, p);
  }

  lemma CommitHandled(w: World, k: Key, a: UserId, b: UserId)
    requires InStepBut(w.keys, {a, b}) && a != b && InQueue(w.keys, a, k) && InQueue(w.keys, b, k)
    ensures var w' := Commit(w, k, a, b); InStep(w'.keys) && PairHandled(w, w', k, a, b)
  {
    ForgetInStep(w.keys, Commit(w, k, a, b).keys, {a, b});
  }

  lemma AttemptCases(w: World, k: Key, p: Pair, busy: set<UserId>, w': World)
    requires InStepBut(w.keys, {p.a.member, p.b.member}) && p.a.member != p.b.member
    requires InQueue(w.keys, p.a.member, k) && InQueue(w.keys, p.b.member, k) && w' == Attempt(w, k, p, busy)
    ensures InStep(w'.keys) && PairHandled(w, w', k, p.a.member, p.b.member)
  {
    AttemptEnds(w, k, p, busy);
    if Blocked(w.db, p.a.member, p.b.member) {
      PutBackHandled(w, k, Deferred(w, p));
    } else if p.a.member in busy || p.b.member in busy {
      PutBackHandled(w, k, p);
    } else {
      CommitHandled(w, k, p.a.member, p.b.member);
    }
  }

  /** In step, an iteration never drops a popped user: it stops, puts the pair back, or matches it. */
  lemma IterateCases(w: World, k: Key, busy: set<UserId>)
    requires InStep(w.keys)
    ensures var (w', more) := Iterate(w, k, busy);
            var z := ZOf(w.keys, k);
            && InStep(w'.keys)
            && (more <==> |z| >= 2)
            && if |z| >= 2 then PairHandled(w, w', k, z[0].member, z[1].member)
               else w'.db == w.db && w'.keys.entries == w.keys.entries
  {
    var z := ZOf(w.keys, k);
    if |z| < 2 {
      ShortIterate(w, k, busy);
    } else {
      PopInStep(w.keys, k);
      var p := Pair(z[0], z[1]);
      var ks := PutZ(w.keys, k, z[2..]);
      assert PopPair(w.keys, k) == (ks, Some(p));
      AttemptCases(w.(keys := ks), k, p, busy, Iterate(w, k, busy).0);
    }
  }

  // ---- The books balance after every step ----

  lemma JoinKeepsInv(s: State, u: UserId, k: Key, fails: bool, initial: Tables)
    requires Inv(s, initial)
    ensures Inv(Apply(s, JoinQueue(u, k, fails)), initial)
  {
    var s' := Apply(s, JoinQueue(u, k, fails));
    JoinInStep(s.w, u, k, fails);
    SameBooks(s, s', initial);
  }

  lemma LeaveKeepsInv(s: State, u: UserId, initial: Tables)
    requires Inv(s, initial)
    ensures Inv(Apply(s, LeaveQueue(u)), initial)
  {
    var s' := Apply(s, LeaveQueue(u));
    LeaveInStep(s.w, u);
    if u in s.w.keys.entries { assert InQueue(s.w.keys, u, s.w.keys.entries[u].key); }
    SameBooks(s, s', initial);
  }

  lemma RemoveKeepsInv(s: State, u: UserId, initial: Tables)
    requires Inv(s, initial)
    ensures Inv(Apply(s, RemoveFromQueue(u)), initial)
  {
    var s' := Apply(s, RemoveFromQueue(u));
    LeaveInStep(s.w, u);
    if u in s.w.keys.entries { assert InQueue(s.w.keys, u, s.w.keys.entries[u].key); }
    SameBooks(s, s', initial);
  }

  /** Matching turns two queued tokens into the two seats of a session. */
  lemma MatchBooks(s: State, s': State, x: Session, u: UserId)
    requires s'.forfeits == s.forfeits && s'.w.db == s.w.db.(sessions := s.w.db.sessions + [x])
    requires x.userA != x.userB && x.userA in s.w.keys.entries && x.userB in s.w.keys.entries
    requires s'.w.keys.entries == s.w.keys.entries - {x.userA, x.userB}
    ensures Accounted(s', u) == Accounted(s, u)
  {
  }

  lemma SameBooks(s: State, s': State, initial: Tables)
    requires Inv(s, initial) && InStep(s'.w.keys) && s'.w.db.credits == s.w.db.credits
    requires forall u :: Accounted(s', u) == Accounted(s, u)
    ensures Inv(s', initial)
  {
  }

  lemma MatchKeepsInv(s: State, k: Key, busy: set<UserId>, initial: Tables)
    requires Inv(s, initial)
    ensures Inv(Apply(s, MatchOne(k, busy)), initial)
  {
    var w' := Iterate(s.w, k, busy).0;
    IterateCases(s.w, k, busy);
    MatchedKeepsInv(s, w', k, initial);
  }

  lemma MatchedKeepsInv(s: State, w': World, k: Key, initial: Tables)
    requires Inv(s, initial) && InStep(w'.keys)
    requires var z := ZOf(s.w.keys, k);
             if |z| >= 2 then PairHandled(s.w, w', k, z[0].member, z[1].member)
             else w'.db == s.w.db && w'.keys.entries == s.w.keys.entries
    ensures Inv(s.(w := w'), initial)
  {
    var z := ZOf(s.w.keys, k);
    forall u ensures Accounted(s.(w := w'), u) == Accounted(s, u) {
      if w'.db != s.w.db {
        MatchBooks(s, s.(w := w'), Session(z[0].member, z[1].member, k), u);
      }
    }
    SameBooks(s, s.(w := w'), initial);
  }

  lemma DeliverKeepsInv(s: State, e: StripeEvent, initial: Tables)
    requires Inv(s, initial)
    ensures Inv(Apply(s, StripeWebhook(e)), initial)
  {
    var s' := Apply(s, StripeWebhook(e));
    if s' != s {
      forall u ensures Accounted(s', u) == BalanceOf(initial, u) + Credited(s'.w.db.credits, u) {
        assert Accounted(s, u) == BalanceOf(initial, u) + Credited(s.w.db.credits, u);
        CreditedAppend(s.w.db.credits, CreditOf(e), u);
      }
    }
  }

  lemma StepKeepsInv(s: State, a: Action, initial: Tables)
    requires Inv(s, initial) && Enabled(s, a)
    ensures Inv(Apply(s, a), initial)
  {
    match a
    case MatchOne(k, busy) => MatchKeepsInv(s, k, busy, initial);
    case StripeWebhook(e) => DeliverKeepsInv(s, e, initial);
    case JoinQueue(u, k, fails) => JoinKeepsInv(s, u, k, fails, initial);
    case LeaveQueue(u) => LeaveKeepsInv(s, u, initial);
    case RemoveFromQueue(u) => RemoveKeepsInv(s, u, initial);
    case _ =>
      SameInStep(s.w.keys, Apply(s, a).w.keys);
      forall u ensures Accounted(Apply(s, a), u) == BalanceOf(initial, u) + Credited(s.w.db.credits, u) {
        assert Accounted(s, u) == BalanceOf(initial, u) + Credited(s.w.db.credits, u);
      }
  }

  lemma {:induction false} RunInv(tr: seq<State>, acts: seq<Action>, i: nat)
    requires IsRun(tr, acts) && i < |tr|
    ensures Inv(tr[i], tr[0].w.db)
  {
    if i > 0 {
      RunInv(tr, acts, i - 1);
      StepKeepsInv(tr[i - 1], acts[i - 1], tr[0].w.db);
    }
  }

  // ---- Rows and deliveries ----

  /** The Stripe events among the actions, with repeats. */
  function Deliveries(acts: seq<Action>): seq<StripeEvent> {
    if acts == [] then []
    else
      var a := acts[|acts| - 1];
      Deliveries(acts[..|acts| - 1]) + if a.StripeWebhook? then [a.event] else []
  }

  lemma DeliveriesSnoc(acts: seq<Action>, i: nat)
    requires i < |acts|
    ensures Deliveries(acts[..i + 1]) == Deliveries(acts[..i]) + if acts[i].StripeWebhook? then [acts[i].event] else []
  {
    assert acts[..i + 1][..i] == acts[..i];
  }

  /** Only a delivery adds a row, and no step adds or drops a user. */
  ghost predicate UsersKept(s: State, s': State) {
    && s'.w.db.balance.Keys == s.w.db.balance.Keys
    && (forall u :: u in s'.w.keys.entries ==> u in s'.w.db.balance)
  }

  lemma StepRows(s: State, a: Action)
    requires Enabled(s, a) && InStep(s.w.keys) && forall u :: u in s.w.keys.entries ==> u in s.w.db.balance
    ensures UsersKept(s, Apply(s, a))
    ensures Apply(s, a).w.db.credits == if a.StripeWebhook? && New(s.w.db, a.event)
                                        then s.w.db.credits + [CreditOf(a.event)] else s.w.db.credits
  {
    if a.MatchOne? {
      IterateCases(s.w, a.key, a.busy);
    }
  }

  lemma {:induction false} UsersStay(tr: seq<State>, acts: seq<Action>, i: nat)
    requires IsRun(tr, acts) && i < |tr|
    ensures UsersKept(tr[0], tr[i])
  {
    if i > 0 {
      UsersStay(tr, acts, i - 1);
      RunInv(tr, acts, i - 1);
      StepRows(tr[i - 1], acts[i - 1]);
    }
  }

  /** Every credit row is that of a creditable event, for a user who is there, that was delivered. */
  lemma {:induction false} RowsAreDeliveries(tr: seq<State>, acts: seq<Action>, i: nat, c: Credit)
    requires IsRun(tr, acts) && i < |tr| && c in tr[i].w.db.credits
    ensures exists e :: e in Deliveries(acts[..i]) && Creditable(e) && e.user in tr[0].w.db.balance && CreditOf(e) == c
  {
    var a := acts[i - 1];
    DeliveriesSnoc(acts, i - 1);
    UsersStay(tr, acts, i - 1);
    RunInv(tr, acts, i - 1);
    StepRows(tr[i - 1], a);
    if c in tr[i - 1].w.db.credits {
      RowsAreDeliveries(tr, acts, i - 1, c);
    } else {
      assert a.event in Deliveries(acts[..i]) && CreditOf(a.event) == c;
    }
  }

  /** What Stripe says of a checkout that is paid, for a user and a pack, with a number of tokens. */
  ghost predicate PaidCheckout(e: StripeEvent) {
    && e.completed && e.paid
    && |e.user| > 0 && |e.pack| > 0 && |e.tokensRaw| > 0
    && exists n: nat :: n > 0 && e.tokens == Some(n)
  }

  /** Every credit row is that of a completed and paid checkout that was delivered, for its user and its
      number of tokens; nothing is ever credited for any other event. */
  lemma EveryRowIsPaid(tr: seq<State>, acts: seq<Action>, i: nat, c: Credit) returns (j: nat)
    requires IsRun(tr, acts) && i < |tr| && c in tr[i].w.db.credits
    ensures j < i && acts[j].StripeWebhook?
    ensures var e := acts[j].event;
            PaidCheckout(e) && c == Credit(e.user, e.tokens.value, e.id, e.checkout)
    ensures c.user in tr[0].w.db.balance
  {
    RowsAreDeliveries(tr, acts, i, c);
    var e :| e in Deliveries(acts[..i]) && Creditable(e) && e.user in tr[0].w.db.balance && CreditOf(e) == c;
    j := DeliveredAt(acts, i, e);
  }

  lemma {:induction false} DeliveredAt(acts: seq<Action>, i: nat, e: StripeEvent) returns (j: nat)
    requires i <= |acts| && e in Deliveries(acts[..i])
    ensures j < i && acts[j] == StripeWebhook(e)
  {
    DeliveriesSnoc(acts, i - 1);
    if acts[i - 1] == StripeWebhook(e) {
      j := i - 1;
    } else {
      j := DeliveredAt(acts, i - 1, e);
    }
  }

  /** A paid checkout that is delivered, to a user who is there and not credited for it before, is in the
      books from then on, once, with its number of tokens. */
  lemma EveryPaidCheckoutHasRow(tr: seq<State>, acts: seq<Action>, j: nat, i: nat)
    requires IsRun(tr, acts) && j < i < |tr| && acts[j].StripeWebhook? && PaidCheckout(acts[j].event)
    requires var e := acts[j].event;
             e.user in tr[0].w.db.balance &&
             forall c :: c in tr[j].w.db.credits ==> c.event != e.id && c.checkout != e.checkout
    ensures var e := acts[j].event;
            && Credit(e.user, e.tokens.value, e.id, e.checkout) in tr[i].w.db.credits
            && BalanceOf(tr[j + 1].w.db, e.user) == BalanceOf(tr[j].w.db, e.user) + e.tokens.value
  {
    UsersStay(tr, acts, j);
    RowStays(tr, acts, j + 1, i, CreditOf(acts[j].event));
  }

  lemma {:induction false} RowStays(tr: seq<State>, acts: seq<Action>, j: nat, i: nat, c: Credit)
    requires IsRun(tr, acts) && j <= i < |tr| && c in tr[j].w.db.credits
    ensures c in tr[i].w.db.credits
  {
    if j < i {
      RowStays(tr, acts, j, i - 1, c);
      UsersStay(tr, acts, i - 1);
      RunInv(tr, acts, i - 1);
      StepRows(tr[i - 1], acts[i - 1]);
    }
  }

  /** Every delivered creditable event has its row from then on: one with its id, if its user is there
      and its checkout session was not credited before; */
  lemma {:induction false} DeliveredHasRow(tr: seq<State>, acts: seq<Action>, j: nat, i: nat)
    requires IsRun(tr, acts) && j < i < |tr| && acts[j].StripeWebhook?
    requires Creditable(acts[j].event) && !RollsBack(tr[j].w.db, acts[j].event)
    ensures Known(tr[i].w.db, acts[j].event)
  {
    UsersStay(tr, acts, i - 1);
    RunInv(tr, acts, i - 1);
    StepRows(tr[i - 1], acts[i - 1]);
    if j < i - 1 {
      DeliveredHasRow(tr, acts, j, i - 1);
      var c :| c in tr[i - 1].w.db.credits && c.event == acts[j].event.id;
      assert c in tr[i].w.db.credits;
    } else if New(tr[j].w.db, acts[j].event) {
      assert CreditOf(acts[j].event) in tr[i].w.db.credits;
    }
  }

  /** The row of `c` is that of one of the events. */
  ghost predicate RowOf(es: seq<StripeEvent>, c: Credit) {
    exists e :: e in es && Creditable(e) && CreditOf(e) == c
  }

  lemma BookedNow(db: Tables, before: seq<StripeEvent>, e: StripeEvent)
    requires Creditable(e) && e.user in db.balance && !New(db, e)
    requires forall f :: f in before && (e.id == f.id || e.checkout == f.checkout) ==> e == f
    requires forall c :: c in db.credits ==> RowOf(before, c)
    ensures CreditOf(e) in db.credits
  {
    var c :| c in db.credits && (c.event == e.id || c.checkout == e.checkout);
    var f :| f in before && Creditable(f) && CreditOf(f) == c;
    assert f == e;
  }

  /** and its own, if ids and checkout sessions stand for one event each. */
  lemma {:induction false} DeliveredIsBooked(tr: seq<State>, acts: seq<Action>, i: nat, e: StripeEvent)
    requires IsRun(tr, acts) && i < |tr| && Consistent(Deliveries(acts[..i]))
    requires e in Deliveries(acts[..i]) && Creditable(e) && e.user in tr[0].w.db.balance
    ensures CreditOf(e) in tr[i].w.db.credits
  {
    var before := Deliveries(acts[..i - 1]);
    DeliveriesSnoc(acts, i - 1);
    assert forall f :: f in before ==> f in Deliveries(acts[..i]);
    UsersStay(tr, acts, i - 1);
    RunInv(tr, acts, i - 1);
    StepRows(tr[i - 1], acts[i - 1]);
    if e in before {
      DeliveredIsBooked(tr, acts, i - 1, e);
    } else {
      assert acts[i - 1] == StripeWebhook(e);
      if !New(tr[i - 1].w.db, e) {
        forall c | c in tr[i - 1].w.db.credits ensures RowOf(before, c) {
          RowsAreDeliveries(tr, acts, i - 1, c);
        }
        BookedNow(tr[i - 1].w.db, before, e);
      }
    }
  }

  // ---- Main results ----

  /** The exact ledger. At every point of every run, a user's balance (a natural number, so never
      negative), queued entry, sessions and forfeits add up to the first balance and the tokens of the
      credit rows, no two of which share an event or a checkout session; the queue state names exactly
      the sorted set the user is in. */
  lemma ExactLedger(tr: seq<State>, acts: seq<Action>, i: nat, u: UserId)
    requires IsRun(tr, acts) && i < |tr|
    ensures var s := tr[i];
            && BalanceOf(s.w.db, u) + QueuedTokens(s.w, u) + Seats(s.w.db.sessions, u) + Forfeits(s, u)
               == BalanceOf(tr[0].w.db, u) + Credited(s.w.db.credits, u)
            && (QueuedTokens(s.w, u) == 1 <==> exists k :: Has(ZOf(s.w.keys, k), u))
            && CreditsUnique(s.w.db.credits)
    ensures forall c :: c in tr[i].w.db.credits ==> RowOf(Deliveries(acts[..i]), c)
    ensures Consistent(Deliveries(acts[..i])) ==>
              forall e :: e in Deliveries(acts[..i]) && Creditable(e) && e.user in tr[0].w.db.balance ==>
                CreditOf(e) in tr[i].w.db.credits
  {
    RunInv(tr, acts, i);
    var s := tr[i];
    assert Accounted(s, u) == BalanceOf(tr[0].w.db, u) + Credited(s.w.db.credits, u);
    forall k ensures Has(ZOf(s.w.keys, k), u) <==> InQueue(s.w.keys, u, k) {}
    if u in s.w.keys.entries {
      assert InQueue(s.w.keys, u, s.w.keys.entries[u].key);
    }
    BooksAreTheEvents(tr, acts, i);
  }

  /** The rows are those of events that were delivered; and, if ids and checkout sessions stand for one
      event each, of every creditable event delivered to a user who is there. */
  lemma BooksAreTheEvents(tr: seq<State>, acts: seq<Action>, i: nat)
    requires IsRun(tr, acts) && i < |tr|
    ensures forall c :: c in tr[i].w.db.credits ==> RowOf(Deliveries(acts[..i]), c)
    ensures Consistent(Deliveries(acts[..i])) ==>
              forall e :: e in Deliveries(acts[..i]) && Creditable(e) && e.user in tr[0].w.db.balance ==>
                CreditOf(e) in tr[i].w.db.credits
  {
    forall c | c in tr[i].w.db.credits
      ensures RowOf(Deliveries(acts[..i]), c)
    {
      RowsAreDeliveries(tr, acts, i, c);
    }
    if Consistent(Deliveries(acts[..i])) {
      forall e | e in Deliveries(acts[..i]) && Creditable(e) && e.user in tr[0].w.db.balance
        ensures CreditOf(e) in tr[i].w.db.credits
      {
        DeliveredIsBooked(tr, acts, i, e);
      }
    }
  }

  /** Forfeits come only from leaving while the marker of an earlier match is live, or from removal. */
  lemma ForfeitsExplained(tr: seq<State>, acts: seq<Action>, i: nat, u: UserId)
    requires IsRun(tr, acts) && i < |acts| && Forfeits(tr[i + 1], u) != Forfeits(tr[i], u)
    ensures Forfeits(tr[i + 1], u) == Forfeits(tr[i], u) + 1 && u in tr[i].w.keys.entries
    ensures acts[i] == RemoveFromQueue(u) || (acts[i] == LeaveQueue(u) && IsMatched(tr[i].w, u))
  {
  }

  lemma LeaveRefunds(w: World, u: UserId)
    requires u in w.keys.entries ==> Has(ZOf(w.keys, w.keys.entries[u].key), u)
    ensures var (w', reply) := Leave(w, u);
            && (reply == Left(true) <==> u in w.keys.entries && !IsMatched(w, u))
            && BalanceOf(w'.db, u) == BalanceOf(w.db, u) + (if reply == Left(true) then 1 else 0)
            && u !in w'.keys.entries
  {
  }

  /** `leaveQueue` gives the token back exactly to a queued user with no live matched marker. The
      documentation promises it whenever no match was made, which fails for a user who was matched
      within the last hour, joined again and leaves unmatched. */
  lemma LeaveRefundsIff(tr: seq<State>, acts: seq<Action>, i: nat, u: UserId)
    requires IsRun(tr, acts) && i < |tr|
    ensures var (w, reply) := Leave(tr[i].w, u);
            && (reply == Left(true) <==> u in tr[i].w.keys.entries && !IsMatched(tr[i].w, u))
            && BalanceOf(w.db, u) == BalanceOf(tr[i].w.db, u) + (if reply == Left(true) then 1 else 0)
            && u !in w.keys.entries && forall k :: !Has(ZOf(w.keys, k), u)
  {
    RunInv(tr, acts, i);
    var w := tr[i].w;
    LeaveInStep(w, u);
    if u in w.keys.entries { assert InQueue(w.keys, u, w.keys.entries[u].key); }
    LeaveRefunds(w, u);
    var left := Leave(w, u).0.keys;
    forall k ensures !Has(ZOf(left, k), u) {
      assert !InQueue(left, u, k);
    }
  }

  const KEY: Key := "canberra:0"

  /** Ann had two tokens and Bob one; they have just been matched. */
  function JustMatched(): State {
    var m := Cell(0, MATCHED_TTL_MS);
    State(World(0, Keys(map[KEY := []], map[], map["ann" := m, "bob" := m], {KEY}),
                Tables(map["ann" := 1, "bob" := 0], [Session("ann", "bob", KEY)], {}, [])), map[])
  }

  lemma MatchAnnAndBob(w: World)
    requires w.now == 0 && w.keys.zsets == map[KEY := [Entry(0, "ann"), Entry(0, "bob")]]
    requires w.keys.entries == map["ann" := Joined(KEY, 0), "bob" := Joined(KEY, 0)]
    requires w.keys.matched == map[] && w.keys.active == {KEY}
    requires w.db == Tables(map["ann" := 1, "bob" := 0], [], {}, [])
    ensures Iterate(w, KEY, {}).0 == JustMatched().w
  {
  }

  lemma TwoAdded()
    ensures Add([], 0, "ann") == [Entry(0, "ann")]
    ensures Add([Entry(0, "ann")], 0, "bob") == [Entry(0, "ann"), Entry(0, "bob")]
  {
    assert Rem([], "ann") == [];
    assert Rem([Entry(0, "ann")], "bob") == [Entry(0, "ann")];
    assert Insert([Entry(0, "ann")], Entry(0, "bob")) == [Entry(0, "ann"), Entry(0, "bob")];
  }

  lemma JustMatchedReachable() returns (tr: seq<State>, acts: seq<Action>)
    ensures IsRun(tr, acts) && tr[|acts|] == JustMatched()
  {
    var (a, b) := (Entry(0, "ann"), Entry(0, "bob"));
    var s0 := State(World(0, Keys(map[], map[], map[], {}), Tables(map["ann" := 2, "bob" := 1], [], {}, [])), map[]);
    acts := [JoinQueue("ann", KEY, false), JoinQueue("bob", KEY, false), MatchOne(KEY, {})];
    var s1 := Apply(s0, acts[0]);
    TwoAdded();
    assert s1.w.keys.zsets == map[KEY := [a]];
    var s2 := Apply(s1, acts[1]);
    assert s2.w.keys.zsets == map[KEY := [a, b]];
    tr := [s0, s1, s2, JustMatched()];
    MatchAnnAndBob(s2.w);
  }

  /** A match seats both: one new row, whose number their markers name for an hour, takes the place of one
      queued token of each; nobody else's books change, and no balance does. */
  lemma CommitSeatsPair(w: World, k: Key, a: UserId, b: UserId, u: UserId, now: Time)
    requires a != b && a in w.keys.entries && b in w.keys.entries && w.now <= now
    ensures var w' := Commit(w, k, a, b);
            var n := |w.db.sessions|;
            && |w'.db.sessions| == n + 1
            && w'.db.sessions[n] == Session(a, b, k) && w'.db.sessions[..n] == w.db.sessions
            && Seats(w'.db.sessions, u) == Seats(w.db.sessions, u) + (if u == a || u == b then 1 else 0)
            && QueuedTokens(w', u) == QueuedTokens(w, u) - (if u == a || u == b then 1 else 0)
            && BalanceOf(w'.db, u) == BalanceOf(w.db, u)
            && (u == a || u == b ==>
                  CellOf(w'.keys.matched, u).Get(now) == if now <= w.now + MATCHED_TTL_MS then Some(n) else None)
  {
    SeatsAppend(w.db.sessions, Session(a, b, k), u);
  }

  /** What the marker does. A matched user cannot leave; one who joins again and leaves unmatched loses
      the token exactly within the hour after the match. */
  lemma RejoinAfterMatch(w: World, k: Key, a: UserId, b: UserId, u: UserId, now: Time, again: Key)
    requires (u == a || u == b) && w.now <= now && BalanceOf(w.db, u) >= 1 && Sorted(ZOf(w.keys, again))
    ensures var w1 := Commit(w, k, a, b).(now := now);
            var w2 := Join(w1, u, again, false).0;
            var (w3, reply) := Leave(w2, u);
            var lost := now <= w.now + MATCHED_TTL_MS;
            && Leave(w1, u) == (w1, NotQueued)
            && reply == (if lost then AlreadyMatched else Left(true))
            && BalanceOf(w3.db, u) == BalanceOf(w.db, u) - if lost then 1 else 0
  {
    var w1 := Commit(w, k, a, b).(now := now);
    AddContents(ZOf(w1.keys, again), now, u);
    var w2 := Join(w1, u, again, false).0;
    assert Has(ZOf(w2.keys, again), u);
    LeaveRefunds(w2, u);
  }

  /** It does fail: matched, joined again within the hour, and left without a partner. */
  lemma RejoinForfeits() returns (tr: seq<State>, acts: seq<Action>)
    ensures IsRun(tr, acts) && |acts| > 0 && acts[|acts| - 1] == LeaveQueue("ann")
    ensures Seats(tr[|acts|].w.db.sessions, "ann") == 1 && Forfeits(tr[|acts|], "ann") == 1
  {
    tr, acts := JustMatchedReachable();
    var s1 := Apply(JustMatched(), JoinQueue("ann", KEY, false));
    assert ZOf(s1.w.keys, KEY) == [Entry(0, "ann")] && Entry(0, "ann") in ZOf(s1.w.keys, KEY);
    var s2 := Apply(s1, LeaveQueue("ann"));
    tr, acts := tr + [s1, s2], acts + [JoinQueue("ann", KEY, false), LeaveQueue("ann")];
    SeatsAppend([], Session("ann", "bob", KEY), "ann");
  }

  // ---- Duplicated and reordered deliveries ----

  function DeliverAll(w: World, es: seq<StripeEvent>): World {
    if es == [] then w else Deliver(DeliverAll(w, es[..|es| - 1]), es[|es| - 1])
  }

  /** Stripe's side of the bargain: an event id, and a checkout session, stand for one event. */
  ghost predicate Consistent(es: seq<StripeEvent>) {
    forall e, f :: e in es && f in es && (e.id == f.id || e.checkout == f.checkout) ==> e == f
  }

  /** The event would be credited. */
  predicate New(db: Tables, e: StripeEvent) {
    Creditable(e) && !Known(db, e) && !RollsBack(db, e)
  }

  ghost predicate NoRepeats(cs: seq<Credit>) {
    forall i, j :: 0 <= i < j < |cs| ==> cs[i] != cs[j]
  }

  /** What delivering `es` adds: the credit of each new event in it, once. */
  ghost predicate Adds(w: World, es: seq<StripeEvent>, w': World, cs: seq<Credit>) {
    && w'.db.credits == w.db.credits + cs && NoRepeats(cs)
    && (forall c :: c in cs <==> exists e :: e in es && New(w.db, e) && CreditOf(e) == c)
    && w'.db.balance.Keys == w.db.balance.Keys
    && forall u :: BalanceOf(w'.db, u) == BalanceOf(w.db, u) + Credited(cs, u)
  }

  lemma {:induction false} DeliverAllAdds(w: World, es: seq<StripeEvent>) returns (cs: seq<Credit>)
    requires Consistent(es)
    ensures Adds(w, es, DeliverAll(w, es), cs)
  {
    if es == [] {
      cs := [];
    } else {
      var rest, e := es[..|es| - 1], es[|es| - 1];
      assert es == rest + [e];
      cs := DeliverAllAdds(w, rest);
      var w1 := DeliverAll(w, rest);
      NewAfter(w, rest, e, w1, cs);
      if New(w1.db, e) {
        var c := CreditOf(e);
        forall u ensures BalanceOf(DeliverAll(w, es).db, u) == BalanceOf(w.db, u) + Credited(cs + [c], u) {
          CreditedAppend(cs, c, u);
        }
        assert w1.db.credits + [c] == w.db.credits + (cs + [c]);
        cs := cs + [c];
      }
    }
  }

  /** After `rest`, an event is new exactly if it was new before and is not in `rest`. */
  lemma NewAfter(w: World, rest: seq<StripeEvent>, e: StripeEvent, w1: World, cs: seq<Credit>)
    requires Consistent(rest + [e]) && Adds(w, rest, w1, cs)
    ensures New(w1.db, e) <==> New(w.db, e) && e !in rest
    ensures New(w1.db, e) ==> CreditOf(e) !in cs
  {
    assert e in rest + [e];
    forall c | c in cs && (c.event == e.id || c.checkout == e.checkout) ensures e in rest {
      var f :| f in rest && New(w.db, f) && CreditOf(f) == c;
      assert f in rest + [e];
    }
    forall c ensures c in w1.db.credits <==> c in w.db.credits || c in cs {}
    if New(w.db, e) && e in rest {
      assert CreditOf(e) in cs && CreditOf(e) in w1.db.credits;
    }
  }

  lemma SomeElement(ds: seq<Credit>)
    ensures ds != [] ==> exists c :: c in ds
  {
    if ds != [] { assert ds[0] in ds; }
  }

  lemma WithoutOne(ds: seq<Credit>, j: nat)
    requires NoRepeats(ds) && j < |ds|
    ensures var ds' := ds[..j] + ds[j + 1..];
            NoRepeats(ds') && forall x :: x in ds' <==> x in ds && x != ds[j]
  {
  }

  /** Lists of the same credits, without repeats, credit the same. */
  lemma {:induction false} SameCredits(cs: seq<Credit>, ds: seq<Credit>, u: UserId)
    requires NoRepeats(cs) && NoRepeats(ds) && forall c :: c in cs <==> c in ds
    ensures Credited(cs, u) == Credited(ds, u)
  {
    if cs == [] {
      SomeElement(ds);
    } else {
      var n := |cs| - 1;
      assert cs[n] in ds;
      var j :| 0 <= j < |ds| && ds[j] == cs[n];
      WithoutOne(cs, n);
      WithoutOne(ds, j);
      CreditedWithout(ds, j, u);
      assert cs[..n] + cs[n + 1..] == cs[..n];
      SameCredits(cs[..n], ds[..j] + ds[j + 1..], u);
    }
  }

  lemma {:induction false} CreditedWithout(ds: seq<Credit>, j: nat, u: UserId)
    requires j < |ds|
    ensures Credited(ds, u) == Credited(ds[..j] + ds[j + 1..], u) + (if ds[j].user == u then ds[j].amount else 0)
  {
    var n := |ds| - 1;
    if j == n {
      assert ds[..j] + ds[j + 1..] == ds[..n];
    } else {
      CreditedWithout(ds[..n], j, u);
      CreditedAppend(ds[..n][..j] + ds[..n][j + 1..], ds[n], u);
      assert ds[..j] + ds[j + 1..] == ds[..n][..j] + ds[..n][j + 1..] + [ds[n]];
    }
  }

  /** Webhooks are idempotent and order-free: any two sequences of deliveries of the same events, with
      whatever repeats and in whatever order, leave every user with the same balance. */
  lemma DeliveryOrderIrrelevant(w: World, es: seq<StripeEvent>, fs: seq<StripeEvent>, u: UserId)
    requires Consistent(es) && forall e :: e in es <==> e in fs
    ensures BalanceOf(DeliverAll(w, es).db, u) == BalanceOf(DeliverAll(w, fs).db, u)
  {
    var cs := DeliverAllAdds(w, es);
    var ds := DeliverAllAdds(w, fs);
    SameCredits(cs, ds, u);
  }
}
