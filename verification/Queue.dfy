/**
 * The queue, its token ledger and Stripe credits, one whole operation at a time: what
 * `joinQueue`, `leaveQueue`, `removeFromQueueIfPresent`, an iteration of the worker's loop and
 * `handleStripeWebhookEvent` do to Redis and to the tables when nothing interferes.
 */
module Queue {
  import opened Redis
  import opened SortedSet

  type UserId = string
  type Key = string

  const MATCHED_TTL_MS: nat := 3_600_000
  const MAX_MATCHES_PER_KEY: nat := 10
  const DEFER_MS: nat := 5000

  datatype Joined = Joined(key: Key, at: Time)
  datatype Session = Session(userA: UserId, userB: UserId, key: Key)

  datatype Keys = Keys(
    zsets: map<Key, ZSet>,                 // queue:zset:*
    entries: map<UserId, Joined>,          // queue:user:*
    matched: map<UserId, Cell<nat>>,       // queue:matched:*
    active: set<Key>)                      // queue:keys

  /** A credit row, with its two unique columns. */
  datatype Credit = Credit(user: UserId, amount: nat, event: string, checkout: string)

  datatype Tables = Tables(
    balance: map<UserId, nat>,             // users and their token balances
    sessions: seq<Session>,
    blocks: set<(UserId, UserId)>,         // active blocks, blocker first
    credits: seq<Credit>)

  datatype World = World(now: Time, keys: Keys, db: Tables)

  function ZOf(ks: Keys, k: Key): ZSet {
    if k in ks.zsets then ks.zsets[k] else []
  }

  function BalanceOf(db: Tables, u: UserId): nat {
    if u in db.balance then db.balance[u] else 0
  }

  function SetBalance(w: World, u: UserId, b: nat): World {
    w.(db := w.db.(balance := w.db.balance[u := b]))
  }

  function PutZ(ks: Keys, k: Key, z: ZSet): Keys {
    ks.(zsets := ks.zsets[k := z])
  }

  predicate Blocked(db: Tables, a: UserId, b: UserId) {
    (a, b) in db.blocks || (b, a) in db.blocks
  }

  // ---- Joining and leaving ----

  datatype JoinReply = AlreadyQueued(key: Key) | InsufficientBalance | RedisFailed | Queued(key: Key)

  /** `joinQueue` with the lock held; `execFails` says that the Redis transaction fails. */
  function Join(w: World, u: UserId, k: Key, execFails: bool): (World, JoinReply) {
    if u in w.keys.entries then (w, AlreadyQueued(w.keys.entries[u].key))
    else if BalanceOf(w.db, u) < 1 then (w, InsufficientBalance)
    else if execFails then (w, RedisFailed)
    else
      (SetBalance(w, u, BalanceOf(w.db, u) - 1)
         .(keys := PutZ(w.keys, k, Add(ZOf(w.keys, k), w.now, u))
                     .(entries := w.keys.entries[u := Joined(k, w.now)], active := w.keys.active + {k})),
       Queued(k))
  }

  datatype LeaveReply = NotQueued | Left(refunded: bool) | AlreadyMatched

  /** `cleanupQueueKey`. */
  function Cleanup(ks: Keys, k: Key): Keys {
    if ZOf(ks, k) == [] then ks.(active := ks.active - {k}) else ks
  }

  predicate IsMatched(w: World, u: UserId) { CellOf(w.keys.matched, u).Live(w.now) }

  /** `leaveQueue` with the lock held. */
  function Leave(w: World, u: UserId): (World, LeaveReply) {
    if u !in w.keys.entries then (w, NotQueued)
    else
      var k := w.keys.entries[u].key;
      var z := ZOf(w.keys, k);
      var w1 := w.(keys := Cleanup(PutZ(w.keys, k, Rem(z, u)).(entries := w.keys.entries - {u}), k));
      if Has(z, u) && !IsMatched(w, u) then (SetBalance(w1, u, BalanceOf(w.db, u) + 1), Left(true))
      else (w1, if IsMatched(w, u) then AlreadyMatched else Left(false))
  }

  /** `removeFromQueueIfPresent`. */
  function Remove(w: World, u: UserId): World {
    if u !in w.keys.entries then w
    else
      var k := w.keys.entries[u].key;
      w.(keys := PutZ(w.keys, k, Rem(ZOf(w.keys, k), u)).(entries := w.keys.entries - {u}))
  }

  // ---- One iteration of the worker's loop ----

  /** The popped users, with the scores they were popped with. */
  datatype Pair = Pair(a: Entry, b: Entry)

  /** `popPair`: two users, or nothing and an odd user put back. */
  function PopPair(ks: Keys, k: Key): (Keys, Option<Pair>) {
    var z := ZOf(ks, k);
    var popped := Take(z, 2);
    var ks1 := PutZ(ks, k, Rest(z, 2));
    if |popped| == 2 then (ks1, Some(Pair(popped[0], popped[1])))
    else if |popped| == 1 then (PutZ(ks1, k, Add(ZOf(ks1, k), popped[0].score, popped[0].member)), None)
    else (ks1, None)
  }

  function PutBack(ks: Keys, k: Key, e: Entry): Keys {
    PutZ(ks, k, Add(ZOf(ks, k), e.score, e.member))
  }

  function PutBackPair(ks: Keys, k: Key, p: Pair): Keys {
    PutBack(PutBack(ks, k, p.a), k, p.b)
  }

  predicate InQueue(ks: Keys, u: UserId, k: Key) { u in ks.entries && ks.entries[u].key == k }

  /** `validatePair`: the keys afterwards, and whether the pair may be matched. */
  function Validate(w: World, k: Key, p: Pair): (Keys, bool) {
    var inA, inB := InQueue(w.keys, p.a.member, k), InQueue(w.keys, p.b.member, k);
    if !inA && !inB then (w.keys, false)
    else if !inA then (PutBack(w.keys, k, p.b), false)
    else if !inB then (PutBack(w.keys, k, p.a), false)
    else if Blocked(w.db, p.a.member, p.b.member) then
      var later := Pair(Entry(w.now + DEFER_MS, p.a.member), Entry(w.now + DEFER_MS + 1, p.b.member));
      (PutBackPair(w.keys, k, later), false)
    else (w.keys, true)
  }

  /** `createSession` and `markMatched`. */
  function Commit(w: World, k: Key, a: UserId, b: UserId): World {
    var id := |w.db.sessions|;
    var m := Cell(id, w.now + MATCHED_TTL_MS);
    w.(db := w.db.(sessions := w.db.sessions + [Session(a, b, k)]),
       keys := w.keys.(entries := w.keys.entries - {a, b}, matched := w.keys.matched[a := m][b := m]))
  }

  /** What the worker does with a popped pair; `busy` are the users whose lock somebody else holds. */
  function Attempt(w: World, k: Key, p: Pair, busy: set<UserId>): World {
    var (ks, valid) := Validate(w, k, p);
    if !valid then w.(keys := ks)
    else if p.a.member in busy || p.b.member in busy then w.(keys := PutBackPair(ks, k, p))
    else Commit(w, k, p.a.member, p.b.member)
  }

  /** One pass of the loop of `processQueueKey`. The second result says whether the loop goes on. */
  function Iterate(w: World, k: Key, busy: set<UserId>): (World, bool) {
    var (ks, popped) := PopPair(w.keys, k);
    match popped
    case None => (w.(keys := ks), false)
    case Some(p) => (Attempt(w.(keys := ks), k, p, busy), true)
  }

  function Loop(w: World, k: Key, busy: set<UserId>, n: nat): World
    decreases n
  {
    if n == 0 then w
    else
      var (w1, more) := Iterate(w, k, busy);
      if more then Loop(w1, k, busy, n - 1) else w1
  }

  /** `processQueueKey`, with at most `max` rounds. */
  function ProcessKey(w: World, k: Key, busy: set<UserId>, max: nat): World {
    var w1 := Loop(w, k, busy, max);
    w1.(keys := Cleanup(w1.keys, k))
  }

  // ---- FIFO ----

  /** `m` sessions: entry `2i` with entry `2i + 1`, in order. */
  function Pairing(z: ZSet, k: Key, m: nat): seq<Session>
    requires 2 * m <= |z|
  {
    seq(m, i requires 0 <= i < m => Session(z[2 * i].member, z[2 * i + 1].member, k))
  }

  /** Everybody in `k` may be matched with anybody there, and holds no lock. */
  ghost predicate Matchable(w: World, k: Key, busy: set<UserId>) {
    && Sorted(ZOf(w.keys, k))
    && forall e, f :: e in ZOf(w.keys, k) && f in ZOf(w.keys, k) ==>
         InQueue(w.keys, e.member, k) && e.member !in busy && !Blocked(w.db, e.member, f.member)
  }

  /** What FIFO matching of `m` pairs leaves: in the tables and the sorted sets, */
  ghost predicate ServedSets(w: World, w': World, k: Key, m: nat)
    requires 2 * m <= |ZOf(w.keys, k)|
  {
    var z := ZOf(w.keys, k);
    && w'.db == w.db.(sessions := w.db.sessions + Pairing(z, k, m))
    && ZOf(w'.keys, k) == z[2 * m..]
    && (forall x :: x != k ==> ZOf(w'.keys, x) == ZOf(w.keys, x))
    && w'.now == w.now
  }

  /** and in the queue states and matched markers of the users. */
  ghost predicate ServedUsers(w: World, w': World, k: Key, m: nat)
    requires 2 * m <= |ZOf(w.keys, k)|
  {
    var z := ZOf(w.keys, k);
    && (forall e :: e in z[2 * m..] ==> InQueue(w'.keys, e.member, k))
    && (forall e :: e in z[..2 * m] ==> e.member !in w'.keys.entries && IsMatched(w', e.member))
    && (forall u :: u in w'.keys.entries ==> u in w.keys.entries && w'.keys.entries[u] == w.keys.entries[u])
    && (forall u :: u in w.keys.entries && w.keys.entries[u].key != k ==> u in w'.keys.entries)
    && (forall u :: IsMatched(w, u) ==> IsMatched(w', u))
  }

  ghost predicate Served(w: World, w': World, k: Key, m: nat)
    requires 2 * m <= |ZOf(w.keys, k)|
  {
    ServedSets(w, w', k, m) && ServedUsers(w, w', k, m)
  }

  /** The first two of a sorted set are not among the rest. */
  ghost predicate FirstTwoApart(z: ZSet) {
    && |z| >= 2 && z[0].member != z[1].member && Sorted(z[2..])
    && forall e :: e in z[2..] ==> e in z && e.member != z[0].member && e.member != z[1].member
  }

  /** On a matchable queue of two or more, one round matches the first two. */
  lemma IterateCommits(w: World, k: Key, busy: set<UserId>)
    requires Matchable(w, k, busy) && |ZOf(w.keys, k)| >= 2
    ensures var z := ZOf(w.keys, k);
            && FirstTwoApart(z)
            && Iterate(w, k, busy)
               == (Commit(w.(keys := PutZ(w.keys, k, z[2..])), k, z[0].member, z[1].member), true)
  {
    var z := ZOf(w.keys, k);
    TakeIsMin(z, 2);
    assert z[0] in z && z[1] in z && z[0] in Take(z, 2) && z[1] in Take(z, 2);
  }

  /** The world after the first two of `k` were matched. */
  ghost predicate FirstTwoMatched(w: World, w': World, k: Key) {
    var z := ZOf(w.keys, k);
    && FirstTwoApart(z)
    && w' == Commit(w.(keys := PutZ(w.keys, k, z[2..])), k, z[0].member, z[1].member)
  }

  lemma MatchServesSets(w: World, w': World, k: Key)
    requires FirstTwoMatched(w, w', k)
    ensures ServedSets(w, w', k, 1)
  {
    var z := ZOf(w.keys, k);
    assert Pairing(z, k, 1) == [Session(z[0].member, z[1].member, k)];
  }

  lemma MatchServesUsers(w: World, w': World, k: Key)
    requires FirstTwoMatched(w, w', k) && forall e :: e in ZOf(w.keys, k) ==> InQueue(w.keys, e.member, k)
    ensures ServedUsers(w, w', k, 1)
  {
    var z := ZOf(w.keys, k);
    assert z[0] in z && z[1] in z && z[..2] == [z[0], z[1]];
  }

  lemma RestMatchable(w: World, w': World, k: Key, busy: set<UserId>)
    requires Matchable(w, k, busy) && FirstTwoApart(ZOf(w.keys, k))
    requires ServedSets(w, w', k, 1) && ServedUsers(w, w', k, 1)
    ensures Matchable(w', k, busy)
  {
  }

  lemma IterateServes(w: World, k: Key, busy: set<UserId>)
    requires Matchable(w, k, busy) && |ZOf(w.keys, k)| >= 2
    ensures var (w', more) := Iterate(w, k, busy); more && Served(w, w', k, 1) && Matchable(w', k, busy)
  {
    IterateCommits(w, k, busy);
    var w' := Iterate(w, k, busy).0;
    MatchServesSets(w, w', k);
    MatchServesUsers(w, w', k);
    RestMatchable(w, w', k, busy);
  }

  lemma PairingAppend(z: ZSet, m: nat, n: nat, k: Key)
    requires 2 * m + 2 * n <= |z|
    ensures Pairing(z, k, m + n) == Pairing(z, k, m) + Pairing(z[2 * m..], k, n)
  {
    forall i | 0 <= i < n
      ensures Pairing(z[2 * m..], k, n)[i] == Pairing(z, k, m + n)[m + i]
    {
      assert z[2 * m..][2 * i] == z[2 * (m + i)] && z[2 * m..][2 * i + 1] == z[2 * (m + i) + 1];
    }
  }

  lemma ServedSetsThen(w: World, w1: World, w2: World, k: Key, m: nat, n: nat)
    requires 2 * m + 2 * n <= |ZOf(w.keys, k)| && ServedSets(w, w1, k, m) && ServedSets(w1, w2, k, n)
    ensures ServedSets(w, w2, k, m + n)
  {
    var z := ZOf(w.keys, k);
    PairingAppend(z, m, n, k);
    assert z[2 * m..][2 * n..] == z[2 * (m + n)..];
  }

  lemma ServedUsersThen(w: World, w1: World, w2: World, k: Key, m: nat, n: nat)
    requires 2 * m + 2 * n <= |ZOf(w.keys, k)| && ZOf(w1.keys, k) == ZOf(w.keys, k)[2 * m..]
    requires ServedUsers(w, w1, k, m) && ServedUsers(w1, w2, k, n)
    ensures ServedUsers(w, w2, k, m + n)
  {
    var z := ZOf(w.keys, k);
    assert z[2 * m..][2 * n..] == z[2 * (m + n)..];
    assert z[..2 * (m + n)] == z[..2 * m] + z[2 * m..][..2 * n];
  }

  lemma ServedThen(w: World, w1: World, w2: World, k: Key, m: nat, n: nat)
    requires 2 * m + 2 * n <= |ZOf(w.keys, k)| && Served(w, w1, k, m) && |ZOf(w1.keys, k)| >= 2 * n
    requires Served(w1, w2, k, n)
    ensures Served(w, w2, k, m + n)
  {
    ServedSetsThen(w, w1, w2, k, m, n);
    ServedUsersThen(w, w1, w2, k, m, n);
  }

  /** How many pairs `n` rounds can make out of `size` users. */
  function Pairs(size: nat, n: nat): nat {
    if n < size / 2 then n else size / 2
  }

  ghost predicate LoopEnds(w: World, k: Key, busy: set<UserId>, n: nat, w': World) {
    w' == Loop(w, k, busy, n)
  }

  /** A matchable queue that the loop takes from `w` to `w'`. */
  ghost predicate Starts(w: World, k: Key, busy: set<UserId>, n: nat, w': World) {
    Matchable(w, k, busy) && LoopEnds(w, k, busy, n, w')
  }

  lemma LoopUnrolls(w: World, k: Key, busy: set<UserId>, n: nat, w1: World, w': World)
    requires n > 0 && Iterate(w, k, busy) == (w1, true) && LoopEnds(w, k, busy, n, w')
    ensures LoopEnds(w1, k, busy, n - 1, w')
  {
  }

  lemma FirstRound(w: World, k: Key, busy: set<UserId>, n: nat, w': World) returns (w1: World)
    requires Starts(w, k, busy, n, w') && |ZOf(w.keys, k)| >= 2 && n > 0
    ensures Served(w, w1, k, 1) && Starts(w1, k, busy, n - 1, w')
  {
    IterateServes(w, k, busy);
    w1 := Iterate(w, k, busy).0;
    LoopUnrolls(w, k, busy, n, w1, w');
  }

  lemma NoRound(w: World, k: Key, busy: set<UserId>, n: nat, w': World)
    requires Starts(w, k, busy, n, w') && (n == 0 || |ZOf(w.keys, k)| < 2)
    ensures Served(w, w', k, Pairs(|ZOf(w.keys, k)|, n))
  {
  }

  lemma NotServedYet(w: World, k: Key)
    requires forall e :: e in ZOf(w.keys, k) ==> InQueue(w.keys, e.member, k)
    ensures Served(w, w, k, 0)
  {
    var z := ZOf(w.keys, k);
    assert z[..0] == [] && z[0..] == z;
  }

  /** After `i` rounds the loop is at `v`, with `n - i` rounds to go. */
  ghost predicate Midway(w: World, v: World, k: Key, busy: set<UserId>, n: nat, i: nat, w': World) {
    i <= Pairs(|ZOf(w.keys, k)|, n) && Served(w, v, k, i) && Starts(v, k, busy, n - i, w')
  }

  lemma OneRoundMore(w: World, v: World, k: Key, busy: set<UserId>, n: nat, i: nat, w': World) returns (v1: World)
    requires i < Pairs(|ZOf(w.keys, k)|, n) && Midway(w, v, k, busy, n, i, w')
    ensures Midway(w, v1, k, busy, n, i + 1, w')
  {
    v1 := FirstRound(v, k, busy, n - i, w');
    ServedThen(w, v, v1, k, i, 1);
  }

  lemma AllRounds(w: World, v: World, k: Key, busy: set<UserId>, n: nat, w': World)
    requires Midway(w, v, k, busy, n, Pairs(|ZOf(w.keys, k)|, n), w')
    ensures Served(w, w', k, Pairs(|ZOf(w.keys, k)|, n))
  {
    var m := Pairs(|ZOf(w.keys, k)|, n);
    NoRound(v, k, busy, n - m, w');
    ServedThen(w, v, w', k, m, 0);
  }

  lemma LoopServes(w: World, k: Key, busy: set<UserId>, n: nat, w': World)
    requires Starts(w, k, busy, n, w')
    ensures Served(w, w', k, Pairs(|ZOf(w.keys, k)|, n))
  {
    NotServedYet(w, k);
    var v := w;
    for i := 0 to Pairs(|ZOf(w.keys, k)|, n)
      invariant Midway(w, v, k, busy, n, i, w')
    {
      v := OneRoundMore(w, v, k, busy, n, i, w');
    }
    AllRounds(w, v, k, busy, n, w');
  }

  /** FIFO refinement. On a queue of n matchable users, one run of the worker's loop (whose bound is
      ten) creates exactly min(bound, n/2) sessions, pairing neighbours in the order of (score, member),
      and leaves the rest of the queue as it was, the odd user who was popped and put back included. */
  lemma ProcessKeyIsFifo(w: World, k: Key, busy: set<UserId>, max: nat)
    requires Matchable(w, k, busy)
    ensures Served(w, ProcessKey(w, k, busy, max), k, Pairs(|ZOf(w.keys, k)|, max))
  {
    var w1 := Loop(w, k, busy, max);
    LoopServes(w, k, busy, max, w1);
    CleanedServed(w, w1, w1.(keys := Cleanup(w1.keys, k)), k, Pairs(|ZOf(w.keys, k)|, max));
  }

  lemma CleanedServed(w: World, w1: World, w2: World, k: Key, m: nat)
    requires 2 * m <= |ZOf(w.keys, k)| && Served(w, w1, k, m) && w2 == w1.(keys := Cleanup(w1.keys, k))
    ensures Served(w, w2, k, m)
  {
  }

  /** The pairing, position by position. */
  lemma PairingAt(w: World, w': World, k: Key, m: nat, i: nat)
    requires 2 * m <= |ZOf(w.keys, k)| && Served(w, w', k, m) && i < m
    ensures var z, n := ZOf(w.keys, k), |w.db.sessions|;
            && |w'.db.sessions| == n + m
            && w'.db.sessions[n + i] == Session(z[2 * i].member, z[2 * i + 1].member, k)
  {
    assert w'.db.sessions == w.db.sessions + Pairing(ZOf(w.keys, k), k, m);
  }
}
