/**
 * `QueueService` and the worker's `processQueueKey`: Redis keys, locks and tables as fields that
 * the methods update, each method proved against the operations of `Queue`.
 */
module QueueService {
  import opened Redis
  import opened SortedSet
  import opened Queue
  import Contents = QueueContents

  type Value = nat
  type Locks = seq<(UserId, Value)>

  const LOCK_TTL_MS: nat := 3000

  datatype JoinResult = Banned | Conflict | Replied(reply: JoinReply)
  datatype LeaveResult = LeaveConflict | LeaveReplied(reply: LeaveReply)

  class QueueService {
    var now: Time
    // Redis
    var zsets: map<Key, ZSet>
    var entries: map<UserId, Joined>
    var matched: map<UserId, Cell<nat>>
    var active: set<Key>
    var locks: map<UserId, Cell<Value>>
    // tables
    var balance: map<UserId, nat>
    var sessions: seq<Session>
    var blocks: set<(UserId, UserId)>
    var credits: seq<Credit>
    // every lock value is new
    var nextValue: Value

    constructor (at: Time, users: map<UserId, nat>)
      ensures View() == World(at, Keys(map[], map[], map[], {}), Tables(users, [], {}, [])) && locks == map[]
    {
      now, zsets, entries, matched, active, locks := at, map[], map[], map[], {}, map[];
      balance, sessions, blocks, credits, nextValue := users, [], {}, [], 0;
    }

    function KeysView(): Keys
      reads this`zsets, this`entries, this`matched, this`active
    {
      Keys(zsets, entries, matched, active)
    }

    function View(): World
      reads this
    {
      World(now, KeysView(), Tables(balance, sessions, blocks, credits))
    }

    /** The value under a user's lock key, if it is live. */
    function LockOf(u: UserId): Option<Value>
      reads this`locks, this`now
    {
      CellOf(locks, u).Get(now)
    }

    ghost function Busy(): set<UserId>
      reads this`locks, this`now
    {
      set u | u in locks && locks[u].Live(now)
    }

    // ---- Locks ----

    method AcquireLock(u: UserId) returns (v: Option<Value>)
      modifies this`locks, this`nextValue
      ensures v.None? <==> old(LockOf(u)).Some?
      ensures v.None? ==> locks == old(locks)
      ensures v.Some? ==> v.value == old(nextValue) && locks == old(locks)[u := Cell(v.value, now + 3000)]
      ensures nextValue == old(nextValue) + 1
    {
      var value := nextValue;
      nextValue := nextValue + 1;
      if CellOf(locks, u).Live(now) {
        return None;
      }
      locks := locks[u := Cell(value, now + LOCK_TTL_MS)];
      v := Some(value);
    }

    method ReleaseLock(u: UserId, v: Value)
      modifies this`locks
      ensures locks == if old(LockOf(u)) == Some(v) then old(locks) - {u} else old(locks)
    {
      var c := CellOf(locks, u);
      if c.Live(now) && c.value == v {
        locks := locks - {u};
      }
    }

    /** All the locks asked for, or none: a refused call leaves every user's lock as it was. */
    method LockUsers(users: seq<UserId>) returns (r: Option<Locks>)
      modifies this`locks, this`nextValue
      ensures r.Some? <==> Lockable(users, old(Busy()))
      ensures r.Some? ==> |r.value| == |users| && HoldsExactly(r.value, locks, old(locks), now) &&
                          forall i :: 0 <= i < |users| ==> r.value[i].0 == users[i]
      ensures r.None? ==> forall u :: LockOf(u) == old(LockOf(u))
    {
      var taken: Locks := [];
      ghost var before := locks;
      for i := 0 to |users|
        invariant |taken| == i && forall j :: 0 <= j < i ==> taken[j].0 == users[j]
        invariant HoldsExactly(taken, locks, before, now) && Lockable(users[..i], old(Busy()))
      {
        assert users[..i + 1] == users[..i] + [users[i]];
        ghost var held := locks;
        var v := AcquireLock(users[i]);
        if v.None? {
          NotLockable(users, i, taken, locks, before, now, old(Busy()));
          ReleaseUserLocks(taken);
          forall u ensures LockOf(u) == old(LockOf(u)) {
            Restored(taken, held, before, now, u);
          }
          return None;
        }
        TookOne(taken, held, before, now, users[i], v.value);
        taken := taken + [(users[i], v.value)];
      }
      assert users[..|users|] == users;
      r := Some(taken);
    }

    /** Exactly the leases in `taken` that are still live under their own value are gone; one that has
        lapsed, or whose key somebody else has taken since, is left alone. */
    method ReleaseUserLocks(taken: Locks)
      modifies this`locks
      ensures forall u :: LockOf(u) == if old(LockOf(u)).Some? && (u, old(LockOf(u)).value) in taken then None
                                       else old(LockOf(u))
    {
      for i := 0 to |taken|
        invariant forall u :: LockOf(u) == if old(LockOf(u)).Some? && (u, old(LockOf(u)).value) in taken[..i] then None
                                           else old(LockOf(u))
      {
        assert taken[..i + 1] == taken[..i] + [taken[i]];
        ReleaseLock(taken[i].0, taken[i].1);
      }
      assert taken[..|taken|] == taken;
    }

    // ---- Joining, leaving, removal ----

    /** `key` is `buildQueueKey` of the input; `execFails` says that the Redis transaction fails. */
    method JoinQueue(u: UserId, key: Key, banned: bool, execFails: bool) returns (r: JoinResult)
      modifies this`locks, this`nextValue, this`balance, this`zsets, this`entries, this`active
      ensures forall v :: LockOf(v) == old(LockOf(v))
      ensures r.Banned? <==> banned
      ensures r.Conflict? <==> !banned && old(LockOf(u)).Some? && u !in old(entries)
      ensures r.Replied? && old(LockOf(u)).Some? ==>
                r.reply == AlreadyQueued(old(entries)[u].key) && View() == old(View())
      ensures r.Replied? && old(LockOf(u)).None? ==> (View(), r.reply) == Join(old(View()), u, key, execFails)
      ensures !r.Replied? ==> View() == old(View())
      ensures r.Replied? && r.reply.Queued? && Sorted(ZOf(old(KeysView()), key)) ==>
                Contents.QueuedNow(old(View()), View(), u, key)
    {
      if banned {
        return Banned;
      }
      var lock := AcquireLock(u);
      if lock.None? {
        if u in entries {
          return Replied(AlreadyQueued(entries[u].key));
        }
        return Conflict;
      }
      var reply := JoinLocked(u, key, execFails);
      ReleaseLock(u, lock.value);
      r := Replied(reply);
    }

    /** The body of the `try`. */
    method JoinLocked(u: UserId, key: Key, execFails: bool) returns (reply: JoinReply)
      modifies this`balance, this`zsets, this`entries, this`active
      ensures (View(), reply) == Join(old(View()), u, key, execFails)
      ensures reply.Queued? && Sorted(ZOf(old(KeysView()), key)) ==>
                Contents.QueuedNow(old(View()), View(), u, key)
    {
      if Sorted(ZOf(KeysView(), key)) {
        Contents.JoinContents(View(), u, key, execFails, Join(View(), u, key, execFails).0,
                              Join(View(), u, key, execFails).1);
      }
      if u in entries {
        return AlreadyQueued(entries[u].key);
      }
      if u !in balance || balance[u] < 1 {
        return InsufficientBalance;
      }
      balance := balance[u := balance[u] - 1];
      if execFails {
        balance := balance[u := balance[u] + 1];
        assert balance == old(balance);
        return RedisFailed;
      }
      var z := ZOf(KeysView(), key);
      zsets := zsets[key := Add(z, now, u)];
      entries := entries[u := Joined(key, now)];
      active := active + {key};
      reply := Queued(key);
    }

    method LeaveQueue(u: UserId) returns (r: LeaveResult)
      modifies this`locks, this`nextValue, this`balance, this`zsets, this`entries, this`active
      ensures forall v :: LockOf(v) == old(LockOf(v))
      ensures r.LeaveConflict? <==> old(LockOf(u)).Some?
      ensures if r.LeaveConflict? then View() == old(View()) else (View(), r.reply) == Leave(old(View()), u)
    {
      var lock := AcquireLock(u);
      if lock.None? {
        return LeaveConflict;
      }
      var reply := LeaveLocked(u);
      ReleaseLock(u, lock.value);
      r := LeaveReplied(reply);
    }

    method LeaveLocked(u: UserId) returns (reply: LeaveReply)
      modifies this`balance, this`zsets, this`entries, this`active
      ensures (View(), reply) == Leave(old(View()), u)
    {
      if u !in entries {
        return NotQueued;
      }
      var key := entries[u].key;
      var wasMatched := CellOf(matched, u).Live(now);
      var z := ZOf(KeysView(), key);
      var removed := Has(z, u);
      zsets := zsets[key := Rem(z, u)];
      entries := entries - {u};
      CleanupQueueKey(key);
      if removed && !wasMatched {
        balance := balance[u := (if u in balance then balance[u] else 0) + 1];
        return Left(true);
      }
      reply := if wasMatched then AlreadyMatched else Left(false);
    }

    method CleanupQueueKey(key: Key)
      modifies this`active
      ensures KeysView() == Cleanup(old(KeysView()), key)
    {
      var z := ZOf(KeysView(), key);
      if z == [] {
        active := active - {key};
      }
    }

    method RemoveFromQueueIfPresent(u: UserId)
      modifies this`zsets, this`entries
      ensures View() == Remove(old(View()), u)
    {
      if u !in entries {
        return;
      }
      var key := entries[u].key;
      var z := ZOf(KeysView(), key);
      zsets := zsets[key := Rem(z, u)];
      entries := entries - {u};
    }

    // ---- The worker ----

    method Zadd(key: Key, e: Entry)
      modifies this`zsets
      ensures KeysView() == PutBack(old(KeysView()), key, e)
      ensures KeptSorted(old(KeysView()), KeysView(), key)
    {
      var z := ZOf(KeysView(), key);
      if Sorted(z) {
        AddContents(z, e.score, e.member);
      }
      zsets := zsets[key := Add(z, e.score, e.member)];
    }

    method PopPair(key: Key) returns (r: Option<Pair>)
      modifies this`zsets
      ensures (KeysView(), r) == Queue.PopPair(old(KeysView()), key)
      ensures KeptSorted(old(KeysView()), KeysView(), key)
      ensures r.Some? && Sorted(ZOf(old(KeysView()), key)) ==> r.value.a.member != r.value.b.member
    {
      var z := ZOf(KeysView(), key);
      var popped := Take(z, 2);
      if Sorted(z) {
        TakeIsMin(z, 2);
      }
      zsets := zsets[key := Rest(z, 2)];
      if |popped| < 2 {
        for i := 0 to |popped|
          invariant KeysView() == if i == 0 then PutZ(old(KeysView()), key, Rest(z, 2))
                                  else PutBack(PutZ(old(KeysView()), key, Rest(z, 2)), key, popped[0])
          invariant KeptSorted(old(KeysView()), KeysView(), key)
        {
          Zadd(key, popped[i]);
        }
        return None;
      }
      r := Some(Pair(popped[0], popped[1]));
    }

    method RequeuePair(key: Key, p: Pair)
      modifies this`zsets
      ensures KeysView() == PutBackPair(old(KeysView()), key, p)
      ensures KeptSorted(old(KeysView()), KeysView(), key)
    {
      Zadd(key, p.a);
      Zadd(key, p.b);
    }

    method DeferBlockedPair(key: Key, p: Pair)
      modifies this`zsets
      ensures KeysView() == PutBackPair(old(KeysView()), key,
                                        Pair(Entry(now + DEFER_MS, p.a.member), Entry(now + DEFER_MS + 1, p.b.member)))
      ensures KeptSorted(old(KeysView()), KeysView(), key)
    {
      RequeuePair(key, Pair(Entry(now + DEFER_MS, p.a.member), Entry(now + DEFER_MS + 1, p.b.member)));
    }

    method ValidatePair(key: Key, p: Pair) returns (valid: bool)
      modifies this`zsets
      ensures (KeysView(), valid) == Validate(old(View()), key, p)
      ensures KeptSorted(old(KeysView()), KeysView(), key)
    {
      var inA := p.a.member in entries && entries[p.a.member].key == key;
      var inB := p.b.member in entries && entries[p.b.member].key == key;
      if !inA && !inB {
        return false;
      }
      if !inA {
        Zadd(key, p.b);
        return false;
      }
      if !inB {
        Zadd(key, p.a);
        return false;
      }
      if (p.a.member, p.b.member) in blocks || (p.b.member, p.a.member) in blocks {
        DeferBlockedPair(key, p);
        return false;
      }
      valid := true;
    }

    method CreateSession(a: UserId, b: UserId, key: Key) returns (id: nat)
      modifies this`sessions
      ensures id == |old(sessions)| && sessions == old(sessions) + [Session(a, b, key)]
    {
      id := |sessions|;
      sessions := sessions + [Session(a, b, key)];
    }

    method MarkMatched(a: UserId, b: UserId, id: nat)
      modifies this`entries, this`matched
      ensures entries == old(entries) - {a, b}
      ensures matched == var m := Cell(id, now + MATCHED_TTL_MS); old(matched)[a := m][b := m]
    {
      entries := entries - {a, b};
      matched := matched[a := Cell(id, now + MATCHED_TTL_MS)];
      matched := matched[b := Cell(id, now + MATCHED_TTL_MS)];
    }

    method CommitPair(a: UserId, b: UserId, key: Key)
      modifies this`entries, this`matched, this`sessions
      ensures View() == Commit(old(View()), key, a, b)
    {
      var id := CreateSession(a, b, key);
      MarkMatched(a, b, id);
    }

    /** A valid pair is locked and matched, or put back when one of the locks is taken. */
    method LockAndMatch(key: Key, p: Pair)
      requires p.a.member != p.b.member
      modifies this`locks, this`nextValue, this`zsets, this`entries, this`matched, this`sessions
      ensures View() == if p.a.member in old(Busy()) || p.b.member in old(Busy())
                        then old(View()).(keys := PutBackPair(old(KeysView()), key, p))
                        else Commit(old(View()), key, p.a.member, p.b.member)
      ensures KeptSorted(old(KeysView()), KeysView(), key)
      ensures forall v :: LockOf(v) == old(LockOf(v))
    {
      ghost var before := locks;
      var taken := LockUsers([p.a.member, p.b.member]);
      TwoLockable(p.a.member, p.b.member, old(Busy()));
      if taken.None? {
        RequeuePair(key, p);
        return;
      }
      CommitPair(p.a.member, p.b.member, key);
      ghost var held := locks;
      ReleaseUserLocks(taken.value);
      forall u ensures LockOf(u) == old(LockOf(u)) {
        Restored(taken.value, held, before, now, u);
      }
    }

    /** A popped pair is validated, locked and matched, or put back. */
    method AttemptPair(key: Key, p: Pair)
      requires p.a.member != p.b.member
      modifies this`locks, this`nextValue, this`zsets, this`entries, this`matched, this`sessions
      ensures View() == Attempt(old(View()), key, p, old(Busy()))
      ensures KeptSorted(old(KeysView()), KeysView(), key)
      ensures forall v :: LockOf(v) == old(LockOf(v))
    {
      var valid := ValidatePair(key, p);
      if valid {
        LockAndMatch(key, p);
      }
    }

    /** One pass of the loop. */
    method ProcessOne(key: Key) returns (more: bool)
      requires Sorted(ZOf(KeysView(), key))
      modifies this`locks, this`nextValue, this`zsets, this`entries, this`matched, this`sessions
      ensures (View(), more) == Iterate(old(View()), key, old(Busy()))
      ensures Sorted(ZOf(KeysView(), key))
      ensures forall v :: LockOf(v) == old(LockOf(v))
    {
      var popped := PopPair(key);
      if popped.None? {
        return false;
      }
      AttemptPair(key, popped.value);
      more := true;
    }

    method ProcessQueueKey(key: Key)
      requires Sorted(ZOf(KeysView(), key))
      modifies this`locks, this`nextValue, this`zsets, this`entries, this`matched, this`sessions, this`active
      ensures View() == ProcessKey(old(View()), key, old(Busy()), MAX_MATCHES_PER_KEY)
      ensures Matchable(old(View()), key, old(Busy())) ==>
                Served(old(View()), View(), key, Pairs(|ZOf(old(KeysView()), key)|, 10))
      ensures Sorted(ZOf(KeysView(), key))
      ensures forall v :: LockOf(v) == old(LockOf(v))
    {
      var i := 0;
      var more := true;
      while i < MAX_MATCHES_PER_KEY && more
        invariant 0 <= i <= MAX_MATCHES_PER_KEY
        invariant Sorted(ZOf(KeysView(), key))
        invariant forall v :: LockOf(v) == old(LockOf(v))
        invariant Loop(old(View()), key, old(Busy()), MAX_MATCHES_PER_KEY)
                  == if more then Loop(View(), key, old(Busy()), MAX_MATCHES_PER_KEY - i) else View()
      {
        forall u ensures u in Busy() <==> u in old(Busy()) {
          assert LockOf(u) == old(LockOf(u));
        }
        more := ProcessOne(key);
        i := i + 1;
      }
      CleanupQueueKey(key);
      ServesTen(old(View()), View(), key, old(Busy()));
    }
  }

  /** Ten pairs at most, first come first served. */
  lemma ServesTen(w: World, w': World, key: Key, busy: set<UserId>)
    requires w' == ProcessKey(w, key, busy, MAX_MATCHES_PER_KEY)
    ensures Matchable(w, key, busy) ==> Served(w, w', key, Pairs(|ZOf(w.keys, key)|, 10))
  {
    if Matchable(w, key, busy) {
      ProcessKeyIsFifo(w, key, busy, MAX_MATCHES_PER_KEY);
    }
  }

  function At(locks: map<UserId, Cell<Value>>, now: Time, u: UserId): Option<Value> {
    CellOf(locks, u).Get(now)
  }

  /** The locks in `taken` are live in `held` and its own; every other user's lock is as in `before`,
      where nobody in `taken` had one. */
  ghost predicate HoldsExactly(taken: Locks, held: map<UserId, Cell<Value>>,
                               before: map<UserId, Cell<Value>>, now: Time)
  {
    && (forall i, j :: 0 <= i < j < |taken| ==> taken[i].0 != taken[j].0)
    && (forall i :: 0 <= i < |taken| ==>
          At(held, now, taken[i].0) == Some(taken[i].1) && At(before, now, taken[i].0) == None)
    && (forall u :: (forall i :: 0 <= i < |taken| ==> taken[i].0 != u) ==> At(held, now, u) == At(before, now, u))
  }

  lemma TookOne(taken: Locks, held: map<UserId, Cell<Value>>, before: map<UserId, Cell<Value>>, now: Time,
                u: UserId, v: Value)
    requires HoldsExactly(taken, held, before, now) && At(held, now, u) == None
    ensures HoldsExactly(taken + [(u, v)], held[u := Cell(v, now + LOCK_TTL_MS)], before, now)
  {
    var more, held' := taken + [(u, v)], held[u := Cell(v, now + LOCK_TTL_MS)];
    assert more[|taken|].0 == u && forall i :: 0 <= i < |taken| ==> more[i] == taken[i];
    forall x | forall i :: 0 <= i < |more| ==> more[i].0 != x
      ensures At(held', now, x) == At(before, now, x)
    {
      assert forall i :: 0 <= i < |taken| ==> taken[i].0 != x;
    }
  }

  /** A lock that cannot be taken was live before, or belongs to a user asked for twice. */
  lemma NotLockable(users: seq<UserId>, i: nat, taken: Locks, held: map<UserId, Cell<Value>>,
                    before: map<UserId, Cell<Value>>, now: Time, busy: set<UserId>)
    requires i < |users| && |taken| == i && forall j :: 0 <= j < i ==> taken[j].0 == users[j]
    requires HoldsExactly(taken, held, before, now) && At(held, now, users[i]).Some?
    requires forall u :: u in busy <==> At(before, now, u).Some?
    ensures !Lockable(users, busy)
  {
    if forall j :: 0 <= j < i ==> users[j] != users[i] {
      assert At(held, now, users[i]) == At(before, now, users[i]);
    }
  }

  /** Releasing what is held exactly undoes the taking. */
  lemma Restored(taken: Locks, held: map<UserId, Cell<Value>>, before: map<UserId, Cell<Value>>, now: Time, u: UserId)
    requires HoldsExactly(taken, held, before, now)
    ensures At(before, now, u)
         == if At(held, now, u).Some? && (u, At(held, now, u).value) in taken then None else At(held, now, u)
  {
    if exists i :: 0 <= i < |taken| && taken[i].0 == u {
      var i :| 0 <= i < |taken| && taken[i].0 == u;
      assert taken[i] == (u, At(held, now, u).value);
    }
  }

  ghost predicate KeptSorted(ks: Keys, ks': Keys, key: Key) {
    Sorted(ZOf(ks, key)) ==> Sorted(ZOf(ks', key))
  }

  lemma TwoLockable(a: UserId, b: UserId, busy: set<UserId>)
    requires a != b
    ensures Lockable([a, b], busy) <==> a !in busy && b !in busy
  {
    assert [a, b][0] == a && [a, b][1] == b;
  }

  /** No user twice, and nobody busy. */
  ghost predicate Lockable(users: seq<UserId>, busy: set<UserId>) {
    && (forall i, j :: 0 <= i < j < |users| ==> users[i] != users[j])
    && (forall i :: 0 <= i < |users| ==> users[i] !in busy)
  }
}
