/**
 * The matching queue under every interleaving of single commands: joins, leaves, moderation
 * removals and any number of workers. The per-user locks are not modelled here: what is proved
 * holds even if every lock has lapsed, so acquiring one is simply a command that may fail.
 * Scores do not matter either: a pop takes any two members of a sorted set.
 */
module QueueInterleaving {
  import opened Redis

  type UserId = string
  type Key = string
  type CallId = nat
  type SessionId = nat

  /** The next command of a call, with what it has read or taken so far. */
  datatype Pc =
    // joinQueue, once it has its lock
    | JoinRead(user: UserId, key: Key)
    | JoinDebit(user: UserId, key: Key)
    | JoinMulti(user: UserId, key: Key)
    // leaveQueue
    | LeaveRead(user: UserId)
    | LeaveMatched(user: UserId, key: Key)
    | LeaveRemove(user: UserId, key: Key, matched: bool)
    | LeaveForget(user: UserId, key: Key, refund: bool)
    // the balance increment of a failed join or of a leave
    | Refund(user: UserId)
    // removeFromQueueIfPresent
    | RemoveRead(user: UserId)
    | RemoveEntry(user: UserId, key: Key)
    | RemoveForget(user: UserId, key: Key)
    // one iteration of processQueueKey
    | Pop(key: Key)
    | Validate(key: Key, a: UserId, b: UserId)
    | CheckBlocks(key: Key, a: UserId, b: UserId)
    | Lock(key: Key, a: UserId, b: UserId)
    | Create(key: Key, a: UserId, b: UserId)
    | MarkMatched(key: Key, a: UserId, b: UserId)
    | PutBack(key: Key, users: set<UserId>)
    | Lost(key: Key, a: UserId, b: UserId)  // the session insert failed
    | Over

  datatype Session = Session(userA: UserId, userB: UserId, key: Key)

  datatype Queues = Queues(
    zset: map<Key, set<UserId>>,
    entry: map<UserId, Key>,              // queue:user:*
    blocks: set<(UserId, UserId)>,        // active blocks, blocker first
    sessions: map<SessionId, Session>)

  /** What each user was charged and given back. */
  datatype Ledger = Ledger(debits: map<UserId, nat>, refunds: map<UserId, nat>)

  datatype State = State(q: Queues, l: Ledger, calls: map<CallId, Pc>)

  /** What a command finds outside the model: whether it succeeds (balance, transaction, locks, insert,
      matched marker), which members a pop takes, and the id of a new session row. */
  datatype Luck = Luck(ok: bool, popped: set<UserId>, a: UserId, b: UserId, session: SessionId)

  datatype Action =
    | Join(call: CallId, user: UserId, key: Key)
    | Leave(call: CallId, user: UserId)
    | Remove(call: CallId, user: UserId)
    | Iterate(call: CallId, key: Key)
    | SetBlocks(blocks: set<(UserId, UserId)>)
    | Run(call: CallId, luck: Luck)

  function Members(q: Queues, k: Key): set<UserId> {
    if k in q.zset then q.zset[k] else {}
  }

  /** ZPOPMIN k 2 takes two members, or all there are. */
  ghost predicate PopTakes(q: Queues, k: Key, luck: Luck) {
    && luck.popped <= Members(q, k)
    && if |Members(q, k)| < 2 then luck.popped == Members(q, k)
       else luck.a != luck.b && luck.popped == {luck.a, luck.b}
  }

  ghost predicate Enabled(s: State, a: Action) {
    match a
    case SetBlocks(_) => true
    case Run(call, luck) =>
      && call in s.calls && !s.calls[call].Over? && !s.calls[call].Lost?
      && (s.calls[call].Pop? ==> PopTakes(s.q, s.calls[call].key, luck))
      && (s.calls[call].Create? ==> luck.session !in s.q.sessions)
    case _ => a.call !in s.calls
  }

  function Count(m: map<UserId, nat>, u: UserId): nat {
    if u in m then m[u] else 0
  }

  function Goto(s: State, call: CallId, pc: Pc): State {
    s.(calls := s.calls[call := pc])
  }

  function Zadd(q: Queues, k: Key, us: set<UserId>): Queues {
    q.(zset := q.zset[k := Members(q, k) + us])
  }

  function Zrem(q: Queues, k: Key, us: set<UserId>): Queues {
    q.(zset := q.zset[k := Members(q, k) - us])
  }

  lemma ZremMembers(q: Queues, k: Key, us: set<UserId>)
    ensures forall x :: Members(Zrem(q, k, us), x) == if x == k then Members(q, k) - us else Members(q, x)
  {
  }

  predicate Queued(q: Queues, u: UserId, k: Key) { u in q.entry && q.entry[u] == k }

  predicate Blocked(q: Queues, a: UserId, b: UserId) { (a, b) in q.blocks || (b, a) in q.blocks }

  function RunUser(s: State, call: CallId, pc: Pc, ok: bool): State {
    match pc
    case JoinRead(u, k) => Goto(s, call, if u in s.q.entry then Over else JoinDebit(u, k))
    case JoinDebit(u, k) =>
      if ok then Goto(s, call, JoinMulti(u, k)).(l := s.l.(debits := s.l.debits[u := Count(s.l.debits, u) + 1]))
      else Goto(s, call, Over)  // insufficient balance
    case JoinMulti(u, k) =>
      if ok then Goto(s, call, Over).(q := Zadd(s.q, k, {u}).(entry := s.q.entry[u := k]))
      else Goto(s, call, Refund(u))
    case LeaveRead(u) => Goto(s, call, if u in s.q.entry then LeaveMatched(u, s.q.entry[u]) else Over)
    case LeaveMatched(u, k) => Goto(s, call, LeaveRemove(u, k, ok))
    case LeaveRemove(u, k, matched) =>
      Goto(s, call, LeaveForget(u, k, u in Members(s.q, k) && !matched)).(q := Zrem(s.q, k, {u}))
    case LeaveForget(u, _, refund) =>
      Goto(s, call, if refund then Refund(u) else Over).(q := s.q.(entry := s.q.entry - {u}))
    case Refund(u) => Goto(s, call, Over).(l := s.l.(refunds := s.l.refunds[u := Count(s.l.refunds, u) + 1]))
    case RemoveRead(u) => Goto(s, call, if u in s.q.entry then RemoveEntry(u, s.q.entry[u]) else Over)
    case RemoveEntry(u, k) => Goto(s, call, RemoveForget(u, k)).(q := Zrem(s.q, k, {u}))
    case RemoveForget(u, _) => Goto(s, call, Over).(q := s.q.(entry := s.q.entry - {u}))
    case _ => s
  }

  predicate OfUser(pc: Pc) {
    pc.JoinRead? || pc.JoinDebit? || pc.JoinMulti? || pc.LeaveRead? || pc.LeaveMatched? || pc.LeaveRemove?
    || pc.LeaveForget? || pc.Refund? || pc.RemoveRead? || pc.RemoveEntry? || pc.RemoveForget?
  }

  function RunWorker(s: State, call: CallId, pc: Pc, luck: Luck): State {
    match pc
    case Pop(k) =>
      Goto(s, call, if |luck.popped| == 2 then Validate(k, luck.a, luck.b)
                    else PutBack(k, luck.popped))
        .(q := Zrem(s.q, k, luck.popped))
    case Validate(k, a, b) =>
      var inA, inB := Queued(s.q, a, k), Queued(s.q, b, k);
      Goto(s, call, if !inA && !inB then Over
                    else if !inA then PutBack(k, {b})
                    else if !inB then PutBack(k, {a})
                    else CheckBlocks(k, a, b))
    case CheckBlocks(k, a, b) =>
      Goto(s, call, if Blocked(s.q, a, b) then PutBack(k, {a, b}) else Lock(k, a, b))
    case Lock(k, a, b) => Goto(s, call, if luck.ok then Create(k, a, b) else PutBack(k, {a, b}))
    case Create(k, a, b) =>
      if luck.ok
      then Goto(s, call, MarkMatched(k, a, b))
             .(q := s.q.(sessions := s.q.sessions[luck.session := Session(a, b, k)]))
      else Goto(s, call, Lost(k, a, b))
    case MarkMatched(k, a, b) => Goto(s, call, Over).(q := s.q.(entry := s.q.entry - {a, b}))
    case PutBack(k, us) => Goto(s, call, Over).(q := Zadd(s.q, k, us))
    case _ => s
  }

  function RunCall(s: State, call: CallId, luck: Luck): State
    requires call in s.calls
  {
    var pc := s.calls[call];
    if OfUser(pc) then RunUser(s, call, pc, luck.ok) else RunWorker(s, call, pc, luck)
  }

  ghost function Apply(s: State, a: Action): State
    requires Enabled(s, a)
  {
    match a
    case Join(call, u, k) => Goto(s, call, JoinRead(u, k))
    case Leave(call, u) => Goto(s, call, LeaveRead(u))
    case Remove(call, u) => Goto(s, call, RemoveRead(u))
    case Iterate(call, k) => Goto(s, call, Pop(k))
    case SetBlocks(bs) => s.(q := s.q.(blocks := bs))
    case Run(call, luck) => RunCall(s, call, luck)
  }

  ghost predicate Init(s: State) {
    && s.q.zset == map[] && s.q.entry == map[] && s.q.sessions == map[]
    && s.l == Ledger(map[], map[]) && s.calls == map[]
  }

  ghost predicate IsRun(tr: seq<State>, acts: seq<Action>) {
    && |tr| == |acts| + 1 && Init(tr[0])
    && forall i :: 0 <= i < |acts| ==> Enabled(tr[i], acts[i]) && tr[i + 1] == Apply(tr[i], acts[i])
  }

  // ---- No over-refund, no free session ----

  /** A place where one of a user's tokens is: a sorted set, a call that has taken the token or the
      popped copy and not yet passed it on, or a session. */
  datatype Holding = InQueue(key: Key) | InCall(call: CallId) | Seat(session: SessionId)

  predicate Holds(pc: Pc, u: UserId) {
    match pc
    case JoinMulti(v, _) => v == u
    case LeaveForget(v, _, refund) => v == u && refund
    case Refund(v) => v == u
    case Validate(_, a, b) => u == a || u == b
    case CheckBlocks(_, a, b) => u == a || u == b
    case Lock(_, a, b) => u == a || u == b
    case Create(_, a, b) => u == a || u == b
    case Lost(_, a, b) => u == a || u == b
    case PutBack(_, us) => u in us
    case _ => false
  }

  /** One of `u`'s tokens is at place `h`. */
  predicate HasToken(s: State, u: UserId, h: Holding) {
    match h
    case InQueue(k) => u in Members(s.q, k)
    case InCall(c) => c in s.calls && Holds(s.calls[c], u)
    case Seat(n) => n in s.q.sessions && (s.q.sessions[n].userA == u || s.q.sessions[n].userB == u)
  }

  function Holdings(s: State, u: UserId): set<Holding> {
    (set k | k in s.q.zset && HasToken(s, u, InQueue(k)) :: InQueue(k))
    + (set c | c in s.calls && HasToken(s, u, InCall(c)) :: InCall(c))
    + (set n | n in s.q.sessions && HasToken(s, u, Seat(n)) :: Seat(n))
  }

  lemma InHoldings(s: State, u: UserId, h: Holding)
    ensures h in Holdings(s, u) <==> HasToken(s, u, h)
  {
  }

  ghost predicate Paid(s: State, u: UserId) {
    |Holdings(s, u)| + Count(s.l.refunds, u) <= Count(s.l.debits, u)
  }

  lemma {:induction false} CardinalityMonotone(a: set<Holding>, b: set<Holding>)
    requires a <= b
    ensures |a| <= |b|
  {
    if a != {} {
      var x :| x in a;
      CardinalityMonotone(a - {x}, b - {x});
    }
  }

  function One(h: Option<Holding>): nat { if h.Some? then 1 else 0 }

  /** A step takes at most one new place for `u`, and vacates `from` if it says so; a new place must be
      matched by a vacated one or a debit, a refund likewise. */
  lemma Balances(s: State, s': State, u: UserId, from: Option<Holding>, to: Option<Holding>)
    requires Paid(s, u)
    requires forall h :: HasToken(s', u, h) ==> to == Some(h) || (HasToken(s, u, h) && from != Some(h))
    requires from.Some? ==> HasToken(s, u, from.value)
    requires Count(s'.l.refunds, u) + One(to) + Count(s.l.debits, u)
             <= Count(s.l.refunds, u) + One(from) + Count(s'.l.debits, u)
    ensures Paid(s', u)
  {
    var h, h' := Holdings(s, u), Holdings(s', u);
    var out := if from.Some? then {from.value} else {};
    var new_ := if to.Some? then {to.value} else {};
    forall x | x in h' ensures x in (h - out) + new_ {
      InHoldings(s, u, x);
      InHoldings(s', u, x);
    }
    if from.Some? { InHoldings(s, u, from.value); }
    CardinalityMonotone(h', (h - out) + new_);
  }

  /** A step of `call` that moves a token of `u` between the call, the sorted set of `k`
      and nowhere. */
  ghost predicate MovesAt(s: State, s': State, call: CallId, k: Key, u: UserId,
                          from: Option<Holding>, to: Option<Holding>)
  {
    && s'.calls.Keys == s.calls.Keys + {call}
    && (forall c :: c in s.calls && c != call ==> s'.calls[c] == s.calls[c])
    && (Holds(s'.calls[call], u) ==>
          to == Some(InCall(call)) || (call in s.calls && Holds(s.calls[call], u) && from != Some(InCall(call))))
    && (forall x :: x != k && u in Members(s'.q, x) ==> u in Members(s.q, x))
    && (u in Members(s'.q, k) ==> to == Some(InQueue(k)) || (u in Members(s.q, k) && from != Some(InQueue(k))))
    && (from.Some? ==> (from.value == InCall(call) || from.value == InQueue(k)) && HasToken(s, u, from.value))
  }

  lemma MovePaid(s: State, s': State, call: CallId, k: Key, u: UserId, from: Option<Holding>, to: Option<Holding>)
    requires Paid(s, u) && MovesAt(s, s', call, k, u, from, to)
    requires s'.q.sessions == s.q.sessions
    requires Count(s'.l.refunds, u) + One(to) + Count(s.l.debits, u)
             <= Count(s.l.refunds, u) + One(from) + Count(s'.l.debits, u)
    ensures Paid(s', u)
  {
    Balances(s, s', u, from, to);
  }

  /** A step of `call` that puts `u` into no sorted set and no session. */
  lemma QuietPaid(s: State, s': State, call: CallId, pc': Pc, u: UserId)
    requires Paid(s, u) && s'.calls == s.calls[call := pc']
    requires Holds(pc', u) ==> call in s.calls && Holds(s.calls[call], u)
    requires forall k :: u in Members(s'.q, k) ==> u in Members(s.q, k)
    requires s'.q.sessions == s.q.sessions
    requires Count(s'.l.refunds, u) == Count(s.l.refunds, u) && Count(s'.l.debits, u) == Count(s.l.debits, u)
    ensures Paid(s', u)
  {
    Balances(s, s', u, None, None);
  }

  lemma DebitPaid(s: State, call: CallId, ok: bool, u: UserId)
    requires call in s.calls && Paid(s, u) && s.calls[call].JoinDebit? && s.calls[call].user == u
    ensures Paid(RunUser(s, call, s.calls[call], ok), u)
  {
    var pc := s.calls[call];
    var s' := RunUser(s, call, pc, ok);
    if ok {
      MovePaid(s, s', call, pc.key, u, None, Some(InCall(call)));
    } else {
      QuietPaid(s, s', call, Over, u);
    }
  }

  /** A call puts the `us` it has in hand into `k`. */
  lemma PutInPaid(s: State, s': State, call: CallId, k: Key, us: set<UserId>, u: UserId)
    requires Paid(s, u) && call in s.calls && (Holds(s.calls[call], u) <==> u in us)
    requires s'.calls == s.calls[call := Over] && s'.l == s.l && s'.q.sessions == s.q.sessions
    requires forall x :: Members(s'.q, x) == if x == k then Members(s.q, k) + us else Members(s.q, x)
    ensures Paid(s', u)
  {
    if u in us {
      MovePaid(s, s', call, k, u, Some(InCall(call)), Some(InQueue(k)));
    } else {
      QuietPaid(s, s', call, Over, u);
    }
  }

  lemma EnterPaid(s: State, call: CallId, ok: bool, u: UserId)
    requires call in s.calls && Paid(s, u) && s.calls[call].JoinMulti? && s.calls[call].user == u
    ensures Paid(RunUser(s, call, s.calls[call], ok), u)
  {
    var pc := s.calls[call];
    var s' := RunUser(s, call, pc, ok);
    if ok {
      PutInPaid(s, s', call, pc.key, {u}, u);
    } else {
      QuietPaid(s, s', call, Refund(u), u);
    }
  }

  lemma RefundPaid(s: State, call: CallId, ok: bool, u: UserId)
    requires call in s.calls && Paid(s, u) && s.calls[call] == Refund(u)
    ensures Paid(RunUser(s, call, s.calls[call], ok), u)
  {
    MovePaid(s, RunUser(s, call, s.calls[call], ok), call, "", u, Some(InCall(call)), None);
  }

  lemma LeavePaid(s: State, call: CallId, ok: bool, u: UserId)
    requires call in s.calls && s.calls[call].LeaveRemove? && s.calls[call].user == u && Paid(s, u)
    ensures Paid(RunUser(s, call, s.calls[call], ok), u)
  {
    var pc := s.calls[call];
    var s' := RunUser(s, call, pc, ok);
    if u in Members(s.q, pc.key) {
      MovePaid(s, s', call, pc.key, u, Some(InQueue(pc.key)), Some(InCall(call)));
    } else {
      QuietPaid(s, s', call, s'.calls[call], u);
    }
  }

  /** The sorted set of `k` changes, but not by adding `u`. */
  lemma QuietAt(s: State, s': State, call: CallId, pc': Pc, k: Key, z: set<UserId>, u: UserId)
    requires Paid(s, u) && call in s.calls && s'.calls == s.calls[call := pc'] && !Holds(pc', u)
    requires s'.q.zset == s.q.zset[k := z] && (u in z ==> u in Members(s.q, k))
    requires s'.q.sessions == s.q.sessions && s'.l == s.l
    ensures Paid(s', u)
  {
    QuietPaid(s, s', call, pc', u);
  }

  lemma OtherUserStepPaid(s: State, call: CallId, ok: bool, u: UserId)
    requires call in s.calls && Paid(s, u)
    requires var pc := s.calls[call]; pc.RemoveEntry? || ((pc.JoinMulti? || pc.LeaveRemove?) && pc.user != u)
    ensures Paid(RunUser(s, call, s.calls[call], ok), u)
  {
    var pc := s.calls[call];
    var s' := RunUser(s, call, pc, ok);
    if pc.JoinMulti? && !ok {
      QuietPaid(s, s', call, s'.calls[call], u);
    } else {
      var z := if pc.JoinMulti? then Members(s.q, pc.key) + {pc.user} else Members(s.q, pc.key) - {pc.user};
      QuietAt(s, s', call, s'.calls[call], pc.key, z, u);
    }
  }

  /** The commands of a user's call that concern another user, or move no token. */
  lemma IdleUserStepPaid(s: State, call: CallId, ok: bool, u: UserId)
    requires call in s.calls && OfUser(s.calls[call]) && Paid(s, u)
    requires var pc := s.calls[call];
             && !pc.JoinMulti? && !pc.LeaveRemove? && !pc.RemoveEntry?
             && (pc.JoinDebit? || pc.Refund? ==> pc.user != u)
    ensures Paid(RunUser(s, call, s.calls[call], ok), u)
  {
    var s' := RunUser(s, call, s.calls[call], ok);
    assert s'.q.zset == s.q.zset;
    QuietPaid(s, s', call, s'.calls[call], u);
  }

  lemma UserStepPaid(s: State, call: CallId, ok: bool, u: UserId)
    requires call in s.calls && OfUser(s.calls[call]) && Paid(s, u)
    ensures Paid(RunUser(s, call, s.calls[call], ok), u)
  {
    var pc := s.calls[call];
    if pc.JoinDebit? && u == pc.user {
      DebitPaid(s, call, ok, u);
    } else if pc.JoinMulti? && u == pc.user {
      EnterPaid(s, call, ok, u);
    } else if pc.Refund? && u == pc.user {
      RefundPaid(s, call, ok, u);
    } else if pc.LeaveRemove? && u == pc.user {
      LeavePaid(s, call, ok, u);
    } else if pc.JoinMulti? || pc.LeaveRemove? || pc.RemoveEntry? {
      OtherUserStepPaid(s, call, ok, u);
    } else {
      IdleUserStepPaid(s, call, ok, u);
    }
  }

  /** A call takes `us` out of `k` into its hands. */
  lemma TakeOutPaid(s: State, s': State, call: CallId, k: Key, us: set<UserId>, pc': Pc, u: UserId)
    requires Paid(s, u) && us <= Members(s.q, k) && (Holds(pc', u) <==> u in us)
    requires s'.calls == s.calls[call := pc'] && s'.l == s.l && s'.q.sessions == s.q.sessions
    requires forall x :: Members(s'.q, x) == if x == k then Members(s.q, k) - us else Members(s.q, x)
    ensures Paid(s', u)
  {
    if u in us {
      MovePaid(s, s', call, k, u, Some(InQueue(k)), Some(InCall(call)));
    } else {
      QuietPaid(s, s', call, pc', u);
    }
  }

  lemma PopsPair(q: Queues, k: Key, luck: Luck)
    requires PopTakes(q, k, luck) && |luck.popped| == 2
    ensures luck.popped == {luck.a, luck.b}
  {
  }

  lemma PopPaid(s: State, s': State, call: CallId, k: Key, luck: Luck, u: UserId)
    requires Paid(s, u) && PopTakes(s.q, k, luck)
    requires s'.q == Zrem(s.q, k, luck.popped) && s'.l == s.l
    requires s'.calls == s.calls[call := if |luck.popped| == 2 then Validate(k, luck.a, luck.b)
                                         else PutBack(k, luck.popped)]
    ensures Paid(s', u)
  {
    if |luck.popped| == 2 { PopsPair(s.q, k, luck); }
    ZremMembers(s.q, k, luck.popped);
    TakeOutPaid(s, s', call, k, luck.popped, s'.calls[call], u);
  }

  lemma PutBackPaid(s: State, call: CallId, luck: Luck, u: UserId)
    requires call in s.calls && s.calls[call].PutBack? && Paid(s, u)
    ensures Paid(RunWorker(s, call, s.calls[call], luck), u)
  {
    var PutBack(k, us) := s.calls[call];
    PutInPaid(s, RunWorker(s, call, s.calls[call], luck), call, k, us, u);
  }

  lemma CreatePaid(s: State, call: CallId, luck: Luck, u: UserId)
    requires Enabled(s, Run(call, luck)) && s.calls[call].Create? && Paid(s, u)
    ensures Paid(RunWorker(s, call, s.calls[call], luck), u)
  {
    var pc := s.calls[call];
    var s' := RunWorker(s, call, pc, luck);
    if !luck.ok {
      QuietPaid(s, s', call, s'.calls[call], u);
    } else {
      SeatPaid(s, s', call, luck.session, u);
    }
  }

  /** Seating the pair of `call` in the new session `n`. */
  lemma SeatPaid(s: State, s': State, call: CallId, n: SessionId, u: UserId)
    requires call in s.calls && s.calls[call].Create? && Paid(s, u) && n !in s.q.sessions && s'.l == s.l
    requires var pc := s.calls[call];
             && s'.calls == s.calls[call := MarkMatched(pc.key, pc.a, pc.b)]
             && s'.q == s.q.(sessions := s.q.sessions[n := Session(pc.a, pc.b, pc.key)])
    ensures Paid(s', u)
  {
    var pc := s.calls[call];
    var mine := u == pc.a || u == pc.b;
    forall h | HasToken(s', u, h)
      ensures (mine && h == Seat(n)) || (HasToken(s, u, h) && h != InCall(call))
    {
      match h
      case InQueue(k) => assert Members(s'.q, k) == Members(s.q, k);
      case InCall(c) => assert c != call && s'.calls[c] == s.calls[c];
      case Seat(m) => if m != n { assert s'.q.sessions[m] == s.q.sessions[m]; }
    }
    if mine {
      Balances(s, s', u, Some(InCall(call)), Some(Seat(n)));
    } else {
      Balances(s, s', u, None, None);
    }
  }

  lemma WorkerStepPaid(s: State, call: CallId, luck: Luck, u: UserId)
    requires Enabled(s, Run(call, luck)) && !OfUser(s.calls[call]) && Paid(s, u)
    ensures Paid(RunWorker(s, call, s.calls[call], luck), u)
  {
    var pc := s.calls[call];
    if pc.Pop? {
      PopPaid(s, RunWorker(s, call, pc, luck), call, pc.key, luck, u);
    } else if pc.PutBack? {
      PutBackPaid(s, call, luck, u);
    } else if pc.Create? {
      CreatePaid(s, call, luck, u);
    } else {
      var s' := RunWorker(s, call, pc, luck);
      QuietPaid(s, s', call, s'.calls[call], u);
    }
  }

  lemma StepPaid(s: State, a: Action, u: UserId)
    requires Enabled(s, a) && Paid(s, u)
    ensures Paid(Apply(s, a), u)
  {
    if a.Run? {
      if OfUser(s.calls[a.call]) {
        UserStepPaid(s, a.call, a.luck.ok, u);
      } else {
        WorkerStepPaid(s, a.call, a.luck, u);
      }
    } else {
      if a.SetBlocks? { Balances(s, Apply(s, a), u, None, None); }
      else { QuietPaid(s, Apply(s, a), a.call, Apply(s, a).calls[a.call], u); }
    }
  }

  /** No over-refund and no free session. At every point of every run, for each user, the entries in
      sorted sets, the copies popped or about to be queued or refunded by a call, the sessions created
      and the refunds together never exceed the tokens the user was charged. */
  lemma {:induction false} NeverMoreThanPaid(tr: seq<State>, acts: seq<Action>, i: nat, u: UserId)
    requires IsRun(tr, acts) && i < |tr|
    ensures |Holdings(tr[i], u)| + Count(tr[i].l.refunds, u) <= Count(tr[i].l.debits, u)
  {
    if i == 0 {
      assert Holdings(tr[0], u) == {};
    } else {
      NeverMoreThanPaid(tr, acts, i - 1, u);
      StepPaid(tr[i - 1], acts[i - 1], u);
    }
  }

  // ---- No stranded user ----

  /** The call has `u` in hand for `k`, or is between the two commands by which a leave, a removal or
      a match first takes `u` out of `k` and then forgets the queue state. */
  predicate Carries(pc: Pc, u: UserId, k: Key) {
    match pc
    case LeaveForget(v, key, _) => v == u && key == k
    case RemoveForget(v, key) => v == u && key == k
    case Validate(key, a, b) => key == k && (u == a || u == b)
    case CheckBlocks(key, a, b) => key == k && (u == a || u == b)
    case Lock(key, a, b) => key == k && (u == a || u == b)
    case Create(key, a, b) => key == k && (u == a || u == b)
    case MarkMatched(key, a, b) => key == k && (u == a || u == b)
    case Lost(key, a, b) => key == k && (u == a || u == b)
    case PutBack(key, us) => key == k && u in us
    case _ => false
  }

  ghost predicate Carried(s: State, u: UserId, k: Key) {
    u in Members(s.q, k) || exists c :: c in s.calls && Carries(s.calls[c], u, k)
  }

  ghost predicate NotStranded(s: State, u: UserId) {
    u in s.q.entry ==> Carried(s, u, s.q.entry[u])
  }

  /** A user who leaves a sorted set while queued there is in the hands of the call that did it. */
  lemma MemberCarried(s: State, a: Action, u: UserId, k: Key)
    requires Enabled(s, a) && u in Members(s.q, k)
    ensures Carried(Apply(s, a), u, k)
  {
    var s' := Apply(s, a);
    if u !in Members(s'.q, k) {
      assert a.call in s'.calls && Carries(s'.calls[a.call], u, k);
    }
  }

  /** A call that has the user in hand passes it on, unless it forgets the queue state. */
  lemma CarrierCarries(s: State, a: Action, u: UserId, k: Key, c: CallId)
    requires Enabled(s, a) && c in s.calls && Carries(s.calls[c], u, k) && Queued(Apply(s, a).q, u, k)
    ensures Carried(Apply(s, a), u, k)
  {
    var s' := Apply(s, a);
    if a.Run? && a.call == c {
      assert u in Members(s'.q, k) || Carries(s'.calls[c], u, k);
    } else {
      assert s'.calls[c] == s.calls[c];
    }
  }

  lemma StepNotStranded(s: State, a: Action, u: UserId)
    requires Enabled(s, a) && NotStranded(s, u)
    ensures NotStranded(Apply(s, a), u)
  {
    var s' := Apply(s, a);
    if u in s'.q.entry {
      var k := s'.q.entry[u];
      if u in s.q.entry && s.q.entry[u] == k {
        if u in Members(s.q, k) {
          MemberCarried(s, a, u, k);
        } else {
          var c :| c in s.calls && Carries(s.calls[c], u, k);
          CarrierCarries(s, a, u, k, c);
        }
      } else {
        assert u in Members(s'.q, k);
      }
    }
  }

  /** No stranded user. Whenever a user's stored queue state names a key, the user is in that key's
      sorted set or in the hands of a call working on that key. */
  lemma NoStrandedUser(tr: seq<State>, acts: seq<Action>, i: nat, u: UserId)
    requires IsRun(tr, acts) && i < |tr| && u in tr[i].q.entry
    ensures Carried(tr[i], u, tr[i].q.entry[u])
  {
    RunNotStranded(tr, acts, i, u);
  }

  lemma {:induction false} RunNotStranded(tr: seq<State>, acts: seq<Action>, i: nat, u: UserId)
    requires IsRun(tr, acts) && i < |tr|
    ensures NotStranded(tr[i], u)
  {
    if i > 0 {
      RunNotStranded(tr, acts, i - 1, u);
      StepNotStranded(tr[i - 1], acts[i - 1], u);
    }
  }

  // ---- Safe pairing ----

  /** Step `m` is the validation of `call` itself, and finds both users queued for `k`. */
  ghost predicate Validates(tr: seq<State>, acts: seq<Action>, m: nat, call: CallId, k: Key, a: UserId, b: UserId)
    requires IsRun(tr, acts) && m < |acts|
  {
    && acts[m].Run? && acts[m].call == call && tr[m].calls[call] == Validate(k, a, b)
    && Queued(tr[m].q, a, k) && Queued(tr[m].q, b, k)
  }

  /** Step `n` is the block check of `call` itself, and finds no block either way. */
  ghost predicate Clears(tr: seq<State>, acts: seq<Action>, n: nat, call: CallId, k: Key, a: UserId, b: UserId)
    requires IsRun(tr, acts) && n < |acts|
  {
    && acts[n].Run? && acts[n].call == call && tr[n].calls[call] == CheckBlocks(k, a, b)
    && !Blocked(tr[n].q, a, b)
  }

  /** Before step `i` the call validated the pair, */
  ghost predicate Validated(tr: seq<State>, acts: seq<Action>, i: nat, call: CallId, k: Key, a: UserId, b: UserId)
    requires IsRun(tr, acts) && i <= |acts|
  {
    a != b && exists m: nat :: m < i && Validates(tr, acts, m, call, k, a, b)
  }

  /** and after that checked its blocks. */
  ghost predicate Cleared(tr: seq<State>, acts: seq<Action>, i: nat, call: CallId, k: Key, a: UserId, b: UserId)
    requires IsRun(tr, acts) && i <= |acts|
  {
    a != b && exists m: nat, n: nat ::
      m < n < i && Validates(tr, acts, m, call, k, a, b) && Clears(tr, acts, n, call, k, a, b)
  }

  ghost predicate PcChecked(tr: seq<State>, acts: seq<Action>, i: nat, call: CallId, pc: Pc)
    requires IsRun(tr, acts) && i <= |acts|
  {
    match pc
    case Validate(_, a, b) => a != b
    case CheckBlocks(k, a, b) => Validated(tr, acts, i, call, k, a, b)
    case Lock(k, a, b) => Cleared(tr, acts, i, call, k, a, b)
    case Create(k, a, b) => Cleared(tr, acts, i, call, k, a, b)
    case _ => true
  }

  lemma PcStaysChecked(tr: seq<State>, acts: seq<Action>, i: nat, call: CallId, pc: Pc)
    requires IsRun(tr, acts) && i < |acts| && PcChecked(tr, acts, i, call, pc)
    ensures PcChecked(tr, acts, i + 1, call, pc)
  {
  }

  /** What one command of a worker makes of what was checked. */
  lemma RunChecked(tr: seq<State>, acts: seq<Action>, i: nat, call: CallId)
    requires IsRun(tr, acts) && i < |acts| && acts[i].Run? && acts[i].call == call
    requires PcChecked(tr, acts, i, call, tr[i].calls[call])
    ensures PcChecked(tr, acts, i + 1, call, tr[i + 1].calls[call])
  {
    var pc, pc' := tr[i].calls[call], tr[i + 1].calls[call];
    match pc
    case Validate(k, a, b) =>
      if pc'.CheckBlocks? {
        assert Validates(tr, acts, i, call, k, a, b);
      }
    case CheckBlocks(k, a, b) =>
      if pc'.Lock? {
        var m: nat :| m < i && Validates(tr, acts, m, call, k, a, b);
        assert Clears(tr, acts, i, call, k, a, b);
      }
    case Lock(_, _, _) => PcStaysChecked(tr, acts, i, call, pc);
    case _ =>
  }

  lemma {:induction false} CallsChecked(tr: seq<State>, acts: seq<Action>, i: nat, c: CallId)
    requires IsRun(tr, acts) && i < |tr| && c in tr[i].calls
    ensures PcChecked(tr, acts, i, c, tr[i].calls[c])
  {
    if i > 0 && c in tr[i - 1].calls {
      CallsChecked(tr, acts, i - 1, c);
      if acts[i - 1].Run? && acts[i - 1].call == c {
        RunChecked(tr, acts, i - 1, c);
      } else {
        PcStaysChecked(tr, acts, i - 1, c, tr[i - 1].calls[c]);
      }
    }
  }

  /** Only the creation of one session changes the rows, by a call whose checks are done. */
  lemma CreatedSafely(tr: seq<State>, acts: seq<Action>, p: nat, n: SessionId)
    requires IsRun(tr, acts) && p < |acts| && n in tr[p + 1].q.sessions
    requires n !in tr[p].q.sessions || tr[p].q.sessions[n] != tr[p + 1].q.sessions[n]
    ensures var x := tr[p + 1].q.sessions[n];
            && n !in tr[p].q.sessions && acts[p].Run? && acts[p].luck.session == n
            && tr[p].calls[acts[p].call] == Create(x.key, x.userA, x.userB)
            && Cleared(tr, acts, p, acts[p].call, x.key, x.userA, x.userB)
  {
    CallsChecked(tr, acts, p, acts[p].call);
  }

  /** Safe pairing. Every session was created by a call that had itself, at an earlier step, validated
      that its two different users hold queue state for the session's key, and, at a step between,
      found that neither blocks the other. */
  lemma {:induction false} SafePairing(tr: seq<State>, acts: seq<Action>, i: nat, n: SessionId)
    requires IsRun(tr, acts) && i < |tr| && n in tr[i].q.sessions
    ensures var x := tr[i].q.sessions[n];
            exists p: nat ::
              && p < i && acts[p].Run? && acts[p].luck.session == n
              && tr[p].calls[acts[p].call] == Create(x.key, x.userA, x.userB)
              && Cleared(tr, acts, p, acts[p].call, x.key, x.userA, x.userB)
  {
    if n in tr[i - 1].q.sessions && tr[i - 1].q.sessions[n] == tr[i].q.sessions[n] {
      SafePairing(tr, acts, i - 1, n);
    } else {
      CreatedSafely(tr, acts, i - 1, n);
    }
  }
}
