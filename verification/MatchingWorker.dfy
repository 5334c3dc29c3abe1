/**
 * The worker's `tick`: every active queue in turn, and the cleanup of sessions every ten minutes.
 */
module MatchingWorker {
  import opened Redis
  import opened SortedSet
  import opened Queue
  import QueueService

  const CLEANUP_INTERVAL_MS: nat := 10 * 60 * 1000

  /** `processQueueKey` for each key. */
  function ProcessAll(w: World, keys: seq<Key>, busy: set<UserId>, max: nat): World
    decreases |keys|
  {
    if keys == [] then w else ProcessAll(ProcessKey(w, keys[0], busy, max), keys[1..], busy, max)
  }

  /** The sessions that serving each queue once makes, queue after queue. */
  function AllPairings(w: World, keys: seq<Key>, max: nat): seq<Session> {
    if keys == [] then []
    else
      var z := ZOf(w.keys, keys[0]);
      Pairing(z, keys[0], Pairs(|z|, max)) + AllPairings(w, keys[1..], max)
  }

  /** Serving one queue leaves the others matchable as they were. */
  lemma OthersStayMatchable(w: World, w': World, k: Key, x: Key, busy: set<UserId>, m: nat)
    requires 2 * m <= |ZOf(w.keys, k)| && Served(w, w', k, m) && x != k && Matchable(w, x, busy)
    ensures Matchable(w', x, busy) && ZOf(w'.keys, x) == ZOf(w.keys, x)
  {
  }

  lemma {:induction false} SamePairings(w: World, w': World, keys: seq<Key>, max: nat)
    requires forall k :: k in keys ==> ZOf(w'.keys, k) == ZOf(w.keys, k)
    ensures AllPairings(w', keys, max) == AllPairings(w, keys, max)
  {
    if keys != [] {
      assert keys[0] in keys;
      SamePairings(w, w', keys[1..], max);
    }
  }

  /** The first pairs of the queue are gone. */
  ghost predicate Left(w: World, w': World, k: Key, max: nat) {
    var z := ZOf(w.keys, k);
    ZOf(w'.keys, k) == z[2 * Pairs(|z|, max)..]
  }

  /** What a tick over `keys` leaves. */
  ghost predicate AllServed(w: World, w': World, keys: seq<Key>, max: nat) {
    && w'.db == w.db.(sessions := w.db.sessions + AllPairings(w, keys, max))
    && forall k :: if k in keys then Left(w, w', k, max) else ZOf(w'.keys, k) == ZOf(w.keys, k)
  }

  lemma FirstQueue(w: World, keys: seq<Key>, busy: set<UserId>, max: nat) returns (w1: World)
    requires keys != [] && Matchable(w, keys[0], busy)
    ensures Served(w, w1, keys[0], Pairs(|ZOf(w.keys, keys[0])|, max))
    ensures ProcessAll(w, keys, busy, max) == ProcessAll(w1, keys[1..], busy, max)
  {
    ProcessKeyIsFifo(w, keys[0], busy, max);
    w1 := ProcessKey(w, keys[0], busy, max);
  }

  lemma BooksThenTheRest(w: World, w1: World, w2: World, keys: seq<Key>, max: nat)
    requires keys != [] && keys[0] !in keys[1..]
    requires ServedSets(w, w1, keys[0], Pairs(|ZOf(w.keys, keys[0])|, max))
    requires w2.db == w1.db.(sessions := w1.db.sessions + AllPairings(w1, keys[1..], max))
    ensures w2.db == w.db.(sessions := w.db.sessions + AllPairings(w, keys, max))
  {
    SamePairings(w, w1, keys[1..], max);
    var z := ZOf(w.keys, keys[0]);
    Append(w.db.sessions, Pairing(z, keys[0], Pairs(|z|, max)), AllPairings(w, keys[1..], max));
  }

  lemma Append(a: seq<Session>, b: seq<Session>, c: seq<Session>)
    ensures (a + b) + c == a + (b + c)
  {
  }

  lemma QueuesThenTheRest(w: World, w1: World, w2: World, keys: seq<Key>, max: nat, k: Key)
    requires keys != [] && keys[0] !in keys[1..]
    requires Left(w, w1, keys[0], max) && (k != keys[0] ==> ZOf(w1.keys, k) == ZOf(w.keys, k))
    requires if k in keys[1..] then Left(w1, w2, k, max) else ZOf(w2.keys, k) == ZOf(w1.keys, k)
    ensures if k in keys then Left(w, w2, k, max) else ZOf(w2.keys, k) == ZOf(w.keys, k)
  {
    assert k in keys <==> k == keys[0] || k in keys[1..];
  }

  lemma ThenTheRest(w: World, w1: World, w2: World, keys: seq<Key>, max: nat)
    requires keys != [] && keys[0] !in keys[1..]
    requires ServedSets(w, w1, keys[0], Pairs(|ZOf(w.keys, keys[0])|, max))
    requires AllServed(w1, w2, keys[1..], max)
    ensures AllServed(w, w2, keys, max)
  {
    BooksThenTheRest(w, w1, w2, keys, max);
    forall k
      ensures if k in keys then Left(w, w2, k, max) else ZOf(w2.keys, k) == ZOf(w.keys, k)
    {
      QueuesThenTheRest(w, w1, w2, keys, max, k);
    }
  }

  /** One tick over queues of matchable users serves each of them first come first served: no queue is
      passed over or served twice, and none disturbs another. */
  lemma {:induction false} TickServesEveryQueue(w: World, keys: seq<Key>, busy: set<UserId>, max: nat)
    requires forall i, j :: 0 <= i < j < |keys| ==> keys[i] != keys[j]
    requires forall k :: k in keys ==> Matchable(w, k, busy)
    ensures AllServed(w, ProcessAll(w, keys, busy, max), keys, max)
    decreases |keys|
  {
    if keys != [] {
      var w1 := FirstQueue(w, keys, busy, max);
      forall x | x in keys[1..]
        ensures Matchable(w1, x, busy)
      {
        OthersStayMatchable(w, w1, keys[0], x, busy, Pairs(|ZOf(w.keys, keys[0])|, max));
      }
      TickServesEveryQueue(w1, keys[1..], busy, max);
      ThenTheRest(w, w1, ProcessAll(w, keys, busy, max), keys, max);
    }
  }

  // ---- Sorted sets stay sorted ----

  lemma IterateElsewhere(w: World, k: Key, busy: set<UserId>, x: Key)
    requires x != k
    ensures ZOf(Iterate(w, k, busy).0.keys, x) == ZOf(w.keys, x)
  {
  }

  lemma {:induction false} LoopElsewhere(w: World, k: Key, busy: set<UserId>, n: nat, x: Key)
    requires x != k
    ensures ZOf(Loop(w, k, busy, n).keys, x) == ZOf(w.keys, x)
    decreases n
  {
    if n > 0 {
      IterateElsewhere(w, k, busy, x);
      LoopElsewhere(Iterate(w, k, busy).0, k, busy, n - 1, x);
    }
  }

  predicate Throws(keys: seq<Key>, fault: Option<nat>) { fault.Some? && fault.value < |keys| }

  /** How many keys a tick gets through. */
  function Reached(keys: seq<Key>, fault: Option<nat>): (n: nat)
    ensures n <= |keys|
  {
    if Throws(keys, fault) then fault.value else |keys|
  }

  class MatchingWorker {
    const queue: QueueService.QueueService
    var running: bool
    var lastCleanupAt: Time

    constructor (queue: QueueService.QueueService)
      ensures this.queue == queue && !running && lastCleanupAt == 0
    {
      this.queue, running, lastCleanupAt := queue, false, 0;
    }

    /** `keys` is the answer of SMEMBERS. A tick that finds another one running does nothing. `fault` says
        before which key the body throws (SMEMBERS itself: before the first), if it does; then the keys
        before that one are processed and the cleanup waits. The result says whether expired sessions are
        cleaned up, which is more than ten minutes after the last time. However the tick ends, the
        next one may run. */
    method Tick(keys: seq<Key>, fault: Option<nat>) returns (cleanup: bool)
      requires forall k :: Sorted(ZOf(queue.KeysView(), k))
      modifies this, queue`locks, queue`nextValue, queue`zsets, queue`entries, queue`matched, queue`sessions
      modifies queue`active
      ensures running == old(running)
      ensures old(running) ==> queue.View() == old(queue.View()) && !cleanup && lastCleanupAt == old(lastCleanupAt)
      ensures !old(running) ==>
                && queue.View() == ProcessAll(old(queue.View()), keys[..Reached(keys, fault)], old(queue.Busy()), 10)
                && (cleanup <==> !Throws(keys, fault) && queue.now > old(lastCleanupAt) + 600_000)
                && lastCleanupAt == if cleanup then queue.now else old(lastCleanupAt)
      ensures forall k :: Sorted(ZOf(queue.KeysView(), k))
    {
      if running {
        return false;
      }
      running := true;
      cleanup := false;
      ProcessKeys(keys, fault);
      if !Throws(keys, fault) {
        cleanup := queue.now > lastCleanupAt + CLEANUP_INTERVAL_MS;
        if cleanup {
          lastCleanupAt := queue.now;
        }
      }
      running := false;
    }

    /** The loop of the tick. */
    method ProcessKeys(keys: seq<Key>, fault: Option<nat>)
      requires forall k :: Sorted(ZOf(queue.KeysView(), k))
      modifies queue`locks, queue`nextValue, queue`zsets, queue`entries, queue`matched, queue`sessions, queue`active
      ensures forall k :: Sorted(ZOf(queue.KeysView(), k))
      ensures queue.View() == ProcessAll(old(queue.View()), keys[..Reached(keys, fault)], old(queue.Busy()), 10)
    {
      ghost var reached := keys[..Reached(keys, fault)];
      var i := 0;
      while i < |keys| && fault != Some(i)
        invariant 0 <= i <= |reached|
        invariant forall k :: Sorted(ZOf(queue.KeysView(), k))
        invariant queue.Busy() == old(queue.Busy())
        invariant ProcessAll(old(queue.View()), reached, old(queue.Busy()), MAX_MATCHES_PER_KEY)
               == ProcessAll(queue.View(), reached[i..], old(queue.Busy()), MAX_MATCHES_PER_KEY)
      {
        ProcessNext(keys[i]);
        assert reached[i..][1..] == reached[i + 1..];
        i := i + 1;
      }
    }

    method ProcessNext(key: Key)
      requires forall k :: Sorted(ZOf(queue.KeysView(), k))
      modifies queue`locks, queue`nextValue, queue`zsets, queue`entries, queue`matched, queue`sessions, queue`active
      ensures forall k :: Sorted(ZOf(queue.KeysView(), k))
      ensures queue.Busy() == old(queue.Busy())
      ensures queue.View() == ProcessKey(old(queue.View()), key, old(queue.Busy()), MAX_MATCHES_PER_KEY)
    {
      queue.ProcessQueueKey(key);
      forall u
        ensures u in queue.Busy() <==> u in old(queue.Busy())
      {
        assert queue.LockOf(u) == old(queue.LockOf(u));
      }
      forall k
        ensures Sorted(ZOf(queue.KeysView(), k))
      {
        if k != key {
          LoopElsewhere(old(queue.View()), key, old(queue.Busy()), MAX_MATCHES_PER_KEY, k);
        }
      }
    }
  }
}
