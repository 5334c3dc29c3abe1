/**
 * The per-user lock of the queue: SET NX PX 3000 with a fresh value, released by a script that
 * deletes the key only if it still holds that value. Calls of `lockUsers` (of which a lock of one
 * user is the case of one) run interleaved, one Redis command at a time, and may stall so long
 * that their leases lapse.
 */
module Leases {
  import opened Redis

  type UserId = string
  type CallId = nat
  type Value = nat

  const LOCK_TTL_MS: nat := 3000

  datatype Lease = Lease(owner: CallId, user: UserId, expiresAt: Time, released: bool)

  /** What a call took so far, in order. */
  type Locks = seq<(UserId, Value)>

  datatype Pc =
    | Taking(wanted: seq<UserId>, locks: Locks)  // acquires wanted[|locks|] next
    | Holding(locks: Locks)                      // lockUsers returned its map
    | Releasing(todo: Locks)                     // releaseUserLocks
    | BackingOut(todo: Locks)                    // releaseUserLocks after a failed acquire
    | Refused                                    // lockUsers returned null
    | Over

  datatype State = State(now: Time, cells: map<UserId, Cell<Value>>, issued: map<Value, Lease>, calls: map<CallId, Pc>)

  datatype Action =
    | Tick(to: Time)
    | LockUsers(call: CallId, users: seq<UserId>)
    | Release(call: CallId)
    | Run(call: CallId, value: Value)  // `value` is the random UUID, used if the command acquires

  ghost predicate Enabled(s: State, a: Action) {
    match a
    case Tick(to) => s.now <= to
    case LockUsers(call, _) => call !in s.calls
    case Release(call) => call in s.calls && s.calls[call].Holding?
    case Run(call, value) =>
      && call in s.calls && (s.calls[call].Taking? || s.calls[call].Releasing? || s.calls[call].BackingOut?)
      && value !in s.issued
  }

  function Goto(s: State, call: CallId, pc: Pc): State {
    s.(calls := s.calls[call := pc])
  }

  /** `acquireLock`. */
  function Acquire(s: State, call: CallId, wanted: seq<UserId>, locks: Locks, v: Value): State
    requires |locks| < |wanted|
  {
    var u := wanted[|locks|];
    if CellOf(s.cells, u).Live(s.now) then Goto(s, call, BackingOut(locks))
    else
      Goto(s, call, Taking(wanted, locks + [(u, v)]))
        .(cells := SetNx(s.cells, u, v, s.now, LOCK_TTL_MS),
          issued := s.issued[v := Lease(call, u, s.now + LOCK_TTL_MS, false)])
  }

  /** `releaseLock`: compare and delete. */
  function ReleaseOne(s: State, lock: (UserId, Value)): State {
    var c := CellOf(s.cells, lock.0);
    if c.Live(s.now) && c.value == lock.1 then
      s.(cells := s.cells - {lock.0},
         issued := if lock.1 in s.issued then s.issued[lock.1 := s.issued[lock.1].(released := true)] else s.issued)
    else s
  }

  function RunCall(s: State, call: CallId, v: Value): State
    requires call in s.calls
  {
    match s.calls[call]
    case Taking(wanted, locks) =>
      if |locks| < |wanted| then Acquire(s, call, wanted, locks, v) else Goto(s, call, Holding(locks))
    case Releasing(todo) =>
      if todo == [] then Goto(s, call, Over) else Goto(ReleaseOne(s, todo[0]), call, Releasing(todo[1..]))
    case BackingOut(todo) =>
      if todo == [] then Goto(s, call, Refused) else Goto(ReleaseOne(s, todo[0]), call, BackingOut(todo[1..]))
    case _ => s
  }

  ghost function Apply(s: State, a: Action): State
    requires Enabled(s, a)
  {
    match a
    case Tick(to) => s.(now := to)
    case LockUsers(call, users) => Goto(s, call, Taking(users, []))
    case Release(call) => Goto(s, call, Releasing(s.calls[call].locks))
    case Run(call, v) => RunCall(s, call, v)
  }

  ghost predicate IsRun(tr: seq<State>, acts: seq<Action>) {
    && |tr| == |acts| + 1
    && tr[0].cells == map[] && tr[0].issued == map[] && tr[0].calls == map[]
    && forall i :: 0 <= i < |acts| ==> Enabled(tr[i], acts[i]) && tr[i + 1] == Apply(tr[i], acts[i])
  }

  // ---- The invariant ----

  ghost predicate LiveLease(s: State, v: Value) {
    v in s.issued && !s.issued[v].released && s.now <= s.issued[v].expiresAt
  }

  /** A live lease is what its user's key holds. */
  ghost predicate Stored(s: State, v: Value) {
    LiveLease(s, v) ==> CellOf(s.cells, s.issued[v].user) == Cell(v, s.issued[v].expiresAt)
  }

  /** The locks a call still has to release, or has returned. */
  function Remaining(pc: Pc): Locks {
    match pc
    case Taking(_, locks) => locks
    case Holding(locks) => locks
    case Releasing(todo) => todo
    case BackingOut(todo) => todo
    case _ => []
  }

  /** Every live lease of a call is still in its hands. */
  ghost predicate InHand(s: State, v: Value) {
    LiveLease(s, v) ==>
      && s.issued[v].owner in s.calls
      && (s.issued[v].user, v) in Remaining(s.calls[s.issued[v].owner])
  }

  /** What a call has in its hands was issued to it, for that user. */
  ghost predicate Owned(s: State, call: CallId, locks: Locks) {
    forall i :: 0 <= i < |locks| ==>
      && locks[i].1 in s.issued
      && s.issued[locks[i].1].owner == call && s.issued[locks[i].1].user == locks[i].0
  }

  ghost predicate PcOk(s: State, call: CallId, pc: Pc) {
    && Owned(s, call, Remaining(pc))
    && (pc.Taking? ==> |pc.locks| <= |pc.wanted| && forall i :: 0 <= i < |pc.locks| ==> pc.locks[i].0 == pc.wanted[i])
  }

  ghost predicate Inv(s: State) {
    && (forall v :: v in s.issued ==> Stored(s, v) && InHand(s, v))
    && (forall c :: c in s.calls ==> PcOk(s, c, s.calls[c]))
  }

  /** A command that touches no key and leaves the call with the same locks in hand. */
  lemma GotoKeepsInv(s: State, call: CallId, pc: Pc)
    requires Inv(s) && (call in s.calls ==> Remaining(pc) == Remaining(s.calls[call]))
    requires PcOk(s, call, pc)
    ensures Inv(Goto(s, call, pc))
  {
  }

  lemma TakeKeepsInv(s: State, call: CallId, v: Value)
    requires Inv(s) && call in s.calls && s.calls[call].Taking? && v !in s.issued
    requires var Taking(wanted, locks) := s.calls[call];
             |locks| < |wanted| && !CellOf(s.cells, wanted[|locks|]).Live(s.now)
    ensures Inv(RunCall(s, call, v))
  {
    var s' := RunCall(s, call, v);
    assert PcOk(s, call, s.calls[call]);
    forall w | w in s'.issued ensures Stored(s', w) && InHand(s', w) {
      if w == v {
        assert (s'.issued[v].user, v) == Remaining(s'.calls[call])[|s.calls[call].locks|];
      } else {
        assert Stored(s, w) && InHand(s, w);
        assert Remaining(s.calls[call]) <= Remaining(s'.calls[call]);
      }
    }
    forall c | c in s'.calls ensures PcOk(s', c, s'.calls[c]) {
      if c != call { assert PcOk(s, c, s.calls[c]); }
    }
  }

  lemma AcquireKeepsInv(s: State, call: CallId, v: Value)
    requires Inv(s) && call in s.calls && s.calls[call].Taking? && v !in s.issued
    ensures Inv(RunCall(s, call, v))
  {
    assert PcOk(s, call, s.calls[call]);
    var Taking(wanted, locks) := s.calls[call];
    if |locks| == |wanted| {
      GotoKeepsInv(s, call, Holding(locks));
    } else if CellOf(s.cells, wanted[|locks|]).Live(s.now) {
      GotoKeepsInv(s, call, BackingOut(locks));
    } else {
      TakeKeepsInv(s, call, v);
    }
  }

  lemma ReleaseOneKeepsInv(s: State, call: CallId, s': State, todo: Locks)
    requires Inv(s) && call in s.calls && todo == Remaining(s.calls[call]) && todo != []
    requires call in s'.calls && Remaining(s'.calls[call]) == todo[1..] && !s'.calls[call].Taking?
    requires s' == Goto(ReleaseOne(s, todo[0]), call, s'.calls[call])
    ensures Inv(s')
  {
    assert PcOk(s, call, s.calls[call]);
    assert todo == [todo[0]] + todo[1..];
    forall w | w in s'.issued ensures Stored(s', w) && InHand(s', w) {
      assert Stored(s, w) && InHand(s, w);
    }
    forall c | c in s'.calls ensures PcOk(s', c, s'.calls[c]) {
      assert PcOk(s, c, s.calls[c]);
    }
  }

  lemma ReleaseKeepsInv(s: State, call: CallId, v: Value)
    requires Inv(s) && call in s.calls && (s.calls[call].Releasing? || s.calls[call].BackingOut?) && v !in s.issued
    ensures Inv(RunCall(s, call, v))
  {
    assert PcOk(s, call, s.calls[call]);
    var todo := Remaining(s.calls[call]);
    if todo == [] {
      GotoKeepsInv(s, call, if s.calls[call].Releasing? then Over else Refused);
    } else {
      ReleaseOneKeepsInv(s, call, RunCall(s, call, v), todo);
    }
  }

  lemma StepKeepsInv(s: State, a: Action)
    requires Inv(s) && Enabled(s, a)
    ensures Inv(Apply(s, a))
  {
    var s' := Apply(s, a);
    if a.Run? {
      if s.calls[a.call].Taking? { AcquireKeepsInv(s, a.call, a.value); } else { ReleaseKeepsInv(s, a.call, a.value); }
    } else {
      forall w | w in s'.issued ensures Stored(s', w) && InHand(s', w) {
        assert Stored(s, w) && InHand(s, w);
      }
      forall c | c in s'.calls ensures PcOk(s', c, s'.calls[c]) {
        if c in s.calls { assert PcOk(s, c, s.calls[c]); }
      }
    }
  }

  lemma {:induction false} RunInv(tr: seq<State>, acts: seq<Action>, i: nat)
    requires IsRun(tr, acts) && i < |tr|
    ensures Inv(tr[i])
  {
    if i > 0 {
      RunInv(tr, acts, i - 1);
      StepKeepsInv(tr[i - 1], acts[i - 1]);
    }
  }

  // ---- A call keeps what it took ----

  ghost predicate Unreleased(s: State, locks: Locks) {
    forall k :: 0 <= k < |locks| ==> locks[k].1 in s.issued && !s.issued[locks[k].1].released
  }

  /** No lease of a call that has not begun to release was released. */
  ghost predicate Keeps(s: State, call: CallId) {
    call in s.calls && (s.calls[call].Taking? || s.calls[call].Holding?) ==> Unreleased(s, s.calls[call].locks)
  }

  lemma ReleaseOneKeeps(s: State, call: CallId, todo: Locks, c: CallId)
    requires Inv(s) && call in s.calls && todo == Remaining(s.calls[call]) && todo != []
    requires c in s.calls && c != call && Keeps(s, c)
    ensures s.calls[c].Taking? || s.calls[c].Holding? ==> Unreleased(ReleaseOne(s, todo[0]), s.calls[c].locks)
  {
    assert PcOk(s, call, s.calls[call]) && PcOk(s, c, s.calls[c]);
  }

  lemma StepKeeps(s: State, a: Action, c: CallId)
    requires Inv(s) && Enabled(s, a) && Keeps(s, c)
    ensures Keeps(Apply(s, a), c)
  {
    if a.Run? && !s.calls[a.call].Taking? {
      var todo := Remaining(s.calls[a.call]);
      if c in s.calls && c != a.call && todo != [] {
        ReleaseOneKeeps(s, a.call, todo, c);
      }
    }
  }

  lemma {:induction false} RunKeeps(tr: seq<State>, acts: seq<Action>, i: nat, c: CallId)
    requires IsRun(tr, acts) && i < |tr|
    ensures Keeps(tr[i], c)
  {
    if i > 0 {
      RunKeeps(tr, acts, i - 1, c);
      RunInv(tr, acts, i - 1);
      StepKeeps(tr[i - 1], acts[i - 1], c);
    }
  }

  // ---- Main results ----

  /** At every time of every run each user has at most one live lease. */
  lemma OneLeasePerUser(tr: seq<State>, acts: seq<Action>, i: nat, v: Value, w: Value)
    requires IsRun(tr, acts) && i < |tr|
    requires LiveLease(tr[i], v) && LiveLease(tr[i], w) && tr[i].issued[v].user == tr[i].issued[w].user
    ensures v == w
  {
    RunInv(tr, acts, i);
    assert Stored(tr[i], v) && Stored(tr[i], w);
  }

  /** No command ends a lease of another call: a lease that was live before a step and is not yet
      past its expiry after it is still live, unless the step was its own owner's release of it. */
  lemma OnlyOwnerReleases(tr: seq<State>, acts: seq<Action>, i: nat, v: Value)
    requires IsRun(tr, acts) && i < |acts| && LiveLease(tr[i], v)
    requires tr[i + 1].now <= tr[i].issued[v].expiresAt && !LiveLease(tr[i + 1], v)
    ensures acts[i].Run? && acts[i].call == tr[i].issued[v].owner
  {
    RunInv(tr, acts, i);
    assert Stored(tr[i], v);
    if acts[i].Run? {
      assert PcOk(tr[i], acts[i].call, tr[i].calls[acts[i].call]);
    }
  }

  /** The leases are the call's own, none of them was released, and until its expiry each is live and
      stored under its user's key. */
  ghost predicate Held(s: State, call: CallId, locks: Locks) {
    && Owned(s, call, locks) && Unreleased(s, locks)
    && forall k :: 0 <= k < |locks| && s.now <= s.issued[locks[k].1].expiresAt ==>
         LiveLease(s, locks[k].1) && CellOf(s.cells, locks[k].0) == Cell(locks[k].1, s.issued[locks[k].1].expiresAt)
  }

  /** `lockUsers` is all or nothing: when it has been refused, none of the leases it took is live; from
      when it returns until its release, the call holds one lease for each requested user, in order, of
      which those are live that have not lapsed meanwhile. */
  lemma AllOrNothing(tr: seq<State>, acts: seq<Action>, i: nat, call: CallId)
    requires IsRun(tr, acts) && i < |tr| && call in tr[i].calls
    ensures tr[i].calls[call].Refused? ==> forall v :: LiveLease(tr[i], v) ==> tr[i].issued[v].owner != call
    ensures tr[i].calls[call].Holding? ==> Held(tr[i], call, tr[i].calls[call].locks)
    ensures i < |acts| && acts[i].Run? && acts[i].call == call && tr[i + 1].calls[call].Holding? ==>
      var pc := tr[i].calls[call];
      && pc.Taking? && tr[i + 1].calls[call].locks == pc.locks && |pc.locks| == |pc.wanted|
      && Held(tr[i + 1], call, pc.locks) && forall k :: 0 <= k < |pc.locks| ==> pc.locks[k].0 == pc.wanted[k]
  {
    RunInv(tr, acts, i);
    assert PcOk(tr[i], call, tr[i].calls[call]);
    forall v | LiveLease(tr[i], v) && tr[i].calls[call].Refused? ensures tr[i].issued[v].owner != call {
      assert InHand(tr[i], v);
    }
    if tr[i].calls[call].Holding? {
      HoldingIsHeld(tr, acts, i, call);
    }
    if i < |acts| && acts[i].Run? && acts[i].call == call && tr[i + 1].calls[call].Holding? {
      HoldingIsHeld(tr, acts, i + 1, call);
    }
  }

  lemma HoldingIsHeld(tr: seq<State>, acts: seq<Action>, i: nat, call: CallId)
    requires IsRun(tr, acts) && i < |tr| && call in tr[i].calls && tr[i].calls[call].Holding?
    ensures Held(tr[i], call, tr[i].calls[call].locks)
  {
    var s, locks := tr[i], tr[i].calls[call].locks;
    RunInv(tr, acts, i);
    RunKeeps(tr, acts, i, call);
    assert PcOk(s, call, s.calls[call]);
    forall k | 0 <= k < |locks| && s.now <= s.issued[locks[k].1].expiresAt
      ensures LiveLease(s, locks[k].1)
      ensures CellOf(s.cells, locks[k].0) == Cell(locks[k].1, s.issued[locks[k].1].expiresAt)
    {
      assert Stored(s, locks[k].1);
    }
  }
}
