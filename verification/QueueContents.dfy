/**
 * What the operations of `Queue` leave, by contents: who is in which sorted set with which score, what the
 * queue state and the matched marker of a user say, which keys are active, and what the balances are.
 */
module QueueContents {
  import opened Redis
  import opened SortedSet
  import opened Text
  import opened Queue

  // ---- Order ----

  /** By score, and by member where scores are equal; each member once. */
  ghost predicate InOrder(z: ZSet) {
    forall i, j :: 0 <= i < j < |z| ==>
      && z[i].score <= z[j].score && z[i].member != z[j].member
      && (z[i].score == z[j].score ==> EarlierText(z[i].member, z[j].member))
  }

  lemma SortedIsInOrder(z: ZSet)
    ensures Sorted(z) <==> InOrder(z)
  {
    forall i, j | 0 <= i < j < |z|
      ensures Less(z[i].member, z[j].member) <==> EarlierText(z[i].member, z[j].member)
    {
      LessIsLexicographic(z[i].member, z[j].member);
    }
  }

  // ---- Sets ----

  ghost predicate OtherSetsSame(ks: Keys, ks': Keys, k: Key) {
    forall x :: x != k ==> ZOf(ks', x) == ZOf(ks, x)
  }

  ghost predicate OnlySetsDiffer(ks: Keys, ks': Keys) {
    ks'.entries == ks.entries && ks'.matched == ks.matched && ks'.active == ks.active
  }

  /** The set of `k` holds `e`, and of its old entries those of other members; no other set changes. */
  ghost predicate Gains(ks: Keys, ks': Keys, k: Key, e: Entry) {
    && (forall x :: x in ZOf(ks', k) <==> x == e || (x in ZOf(ks, k) && x.member != e.member))
    && InOrder(ZOf(ks', k))
    && OtherSetsSame(ks, ks', k)
  }

  /** Two new entries. */
  ghost predicate GainsBoth(ks: Keys, ks': Keys, k: Key, e: Entry, f: Entry) {
    && (forall x :: x in ZOf(ks', k) <==>
          x == e || x == f || (x in ZOf(ks, k) && x.member != e.member && x.member != f.member))
    && InOrder(ZOf(ks', k))
    && OtherSetsSame(ks, ks', k)
  }

  /** The set of `k` has lost the entry of `u`. */
  ghost predicate Loses(ks: Keys, ks': Keys, k: Key, u: UserId) {
    && (forall x :: x in ZOf(ks', k) <==> x in ZOf(ks, k) && x.member != u)
    && (InOrder(ZOf(ks, k)) ==> InOrder(ZOf(ks', k)))
    && OtherSetsSame(ks, ks', k)
  }

  lemma PutBackGains(ks: Keys, k: Key, e: Entry)
    requires Sorted(ZOf(ks, k))
    ensures Gains(ks, PutBack(ks, k, e), k, e) && OnlySetsDiffer(ks, PutBack(ks, k, e))
  {
    AddContents(ZOf(ks, k), e.score, e.member);
    SortedIsInOrder(ZOf(PutBack(ks, k, e), k));
  }

  lemma PutBackPairGains(ks: Keys, k: Key, p: Pair)
    requires Sorted(ZOf(ks, k)) && p.a.member != p.b.member
    ensures GainsBoth(ks, PutBackPair(ks, k, p), k, p.a, p.b) && OnlySetsDiffer(ks, PutBackPair(ks, k, p))
  {
    PutBackGains(ks, k, p.a);
    SortedIsInOrder(ZOf(PutBack(ks, k, p.a), k));
    PutBackGains(PutBack(ks, k, p.a), k, p.b);
  }

  lemma RemLoses(ks: Keys, k: Key, u: UserId)
    ensures Loses(ks, PutZ(ks, k, Rem(ZOf(ks, k), u)), k, u)
  {
    RemContents(ZOf(ks, k), u);
    SortedIsInOrder(ZOf(ks, k));
    SortedIsInOrder(Rem(ZOf(ks, k), u));
  }

  // ---- Joining ----

  /** `u` has paid one token and is in the set of `k`, scored with the time of the join, and the state
      names both. */
  ghost predicate QueuedNow(w: World, w': World, u: UserId, k: Key) {
    && Gains(w.keys, w'.keys, k, Entry(w.now, u))
    && w'.keys.entries == w.keys.entries[u := Joined(k, w.now)]
    && w'.keys.active == w.keys.active + {k}
    && w'.keys.matched == w.keys.matched && w'.now == w.now
    && u in w.db.balance && w.db.balance[u] >= 1
    && w'.db == w.db.(balance := w.db.balance[u := w.db.balance[u] - 1])
  }

  /** A join queues exactly a user without queue state who has a token, unless Redis fails; whatever else
      it answers, nothing changes. */
  lemma JoinContents(w: World, u: UserId, k: Key, execFails: bool, w': World, r: JoinReply)
    requires Sorted(ZOf(w.keys, k)) && (w', r) == Join(w, u, k, execFails)
    ensures r.Queued? <==> u !in w.keys.entries && u in w.db.balance && w.db.balance[u] >= 1 && !execFails
    ensures if r.Queued? then r.key == k && QueuedNow(w, w', u, k) else w' == w
    ensures r.AlreadyQueued? <==> u in w.keys.entries
    ensures r.AlreadyQueued? ==> r.key == w.keys.entries[u].key
    ensures r.InsufficientBalance? <==> u !in w.keys.entries && (u in w.db.balance ==> w.db.balance[u] == 0)
  {
    PutBackGains(w.keys, k, Entry(w.now, u));
  }

  // ---- Leaving ----

  /** The marker of an earlier match is still there. */
  ghost predicate Marked(w: World, u: UserId) {
    u in w.keys.matched && w.keys.matched[u].Cell? && w.now <= w.keys.matched[u].expiresAt
  }

  ghost predicate InSet(ks: Keys, k: Key, u: UserId) {
    exists e :: e in ZOf(ks, k) && e.member == u
  }

  /** `k` is forgotten exactly if nobody is left in its set. */
  ghost predicate Forgets(ks: Keys, ks': Keys, k: Key) {
    ks'.active == if (exists e :: e in ZOf(ks', k)) then ks.active else ks.active - {k}
  }

  lemma CleanupContents(ks: Keys, k: Key)
    ensures var ks' := Cleanup(ks, k);
            && Forgets(ks, ks', k)
            && ks'.zsets == ks.zsets && ks'.entries == ks.entries && ks'.matched == ks.matched
  {
    var z := ZOf(ks, k);
    if z != [] { assert z[0] in z; }
  }

  /** `u` is in no set and has no state. */
  ghost predicate Unqueued(w: World, w': World, u: UserId, k: Key) {
    && Loses(w.keys, w'.keys, k, u)
    && w'.keys.entries == w.keys.entries - {u}
    && w'.keys.matched == w.keys.matched && w'.now == w.now
    && w'.db.sessions == w.db.sessions && w'.db.blocks == w.db.blocks && w'.db.credits == w.db.credits
  }

  lemma LeaveKeys(w: World, u: UserId)
    requires u in w.keys.entries
    ensures var k := w.keys.entries[u].key;
            Unqueued(w, Leave(w, u).0, u, k) && Forgets(w.keys, Leave(w, u).0.keys, k)
  {
    var k := w.keys.entries[u].key;
    var out := PutZ(w.keys, k, Rem(ZOf(w.keys, k), u)).(entries := w.keys.entries - {u});
    RemLoses(w.keys, k, u);
    CleanupContents(out, k);
    var w' := Leave(w, u).0;
    assert w'.keys == Cleanup(out, k);
  }

  /** A leave takes out exactly the user who is queued; the token comes back exactly if the user was in
      the set and not under a marker, and the answer says so. */
  lemma LeaveContents(w: World, u: UserId, w': World, r: LeaveReply)
    requires (w', r) == Leave(w, u)
    ensures r.NotQueued? <==> u !in w.keys.entries
    ensures r.NotQueued? ==> w' == w
    ensures !r.NotQueued? ==>
              var k := w.keys.entries[u].key;
              && Unqueued(w, w', u, k) && Forgets(w.keys, w'.keys, k)
              && (r == Left(true) <==> InSet(w.keys, k, u) && !Marked(w, u))
              && (r == Left(false) <==> !InSet(w.keys, k, u) && !Marked(w, u))
              && w'.db.balance == if r == Left(true)
                                  then w.db.balance[u := (if u in w.db.balance then w.db.balance[u] else 0) + 1]
                                  else w.db.balance
  {
    if u in w.keys.entries { LeaveKeys(w, u); }
  }

  /** A removal does the same without refund, and the key stays known. */
  lemma RemoveContents(w: World, u: UserId)
    ensures if u !in w.keys.entries then Remove(w, u) == w
            else
              && Unqueued(w, Remove(w, u), u, w.keys.entries[u].key)
              && Remove(w, u).keys.active == w.keys.active && Remove(w, u).db == w.db
  {
    if u in w.keys.entries { RemLoses(w.keys, w.keys.entries[u].key, u); }
  }

  // ---- Pairs ----

  /** ZPOPMIN takes the first two; of a shorter set nothing is taken. */
  lemma PopPairContents(ks: Keys, k: Key, ks': Keys, r: Option<Pair>)
    requires Sorted(ZOf(ks, k)) && (ks', r) == PopPair(ks, k)
    ensures var z := ZOf(ks, k);
            if |z| >= 2 then r == Some(Pair(z[0], z[1])) && ZOf(ks', k) == z[2..] else r == None && ZOf(ks', k) == z
    ensures OtherSetsSame(ks, ks', k) && OnlySetsDiffer(ks, ks')
  {
    var z := ZOf(ks, k);
    if |z| == 1 { AddBackFirst(z); }
  }

  ghost predicate QueuedIn(ks: Keys, u: UserId, k: Key) {
    u in ks.entries && ks.entries[u].key == k
  }

  ghost predicate BlockedPair(w: World, a: UserId, b: UserId) {
    (a, b) in w.db.blocks || (b, a) in w.db.blocks
  }

  /** A pair is valid exactly if both are still queued for `k` and neither blocks the other. A user whose
      partner has left goes back with the score they had; a blocked pair goes back five seconds from now,
      one millisecond apart; who has left does not go back. */
  lemma ValidateCases(w: World, k: Key, p: Pair, ks': Keys, valid: bool)
    requires Sorted(ZOf(w.keys, k)) && p.a.member != p.b.member && (ks', valid) == Validate(w, k, p)
    ensures var (a, b) := (p.a.member, p.b.member);
            var (inA, inB) := (QueuedIn(w.keys, a, k), QueuedIn(w.keys, b, k));
            && (valid <==> inA && inB && !BlockedPair(w, a, b))
            && (valid || (!inA && !inB) ==> ks' == w.keys)
            && (inA && !inB ==> Gains(w.keys, ks', k, p.a))
            && (!inA && inB ==> Gains(w.keys, ks', k, p.b))
            && (inA && inB && BlockedPair(w, a, b) ==>
                  GainsBoth(w.keys, ks', k, Entry(w.now + 5000, a), Entry(w.now + 5001, b)))
            && OnlySetsDiffer(w.keys, ks')
  {
    if !QueuedIn(w.keys, p.a.member, k) {
      PutBackGains(w.keys, k, p.b);
    } else if !QueuedIn(w.keys, p.b.member, k) {
      PutBackGains(w.keys, k, p.a);
    } else {
      PutBackPairGains(w.keys, k, Pair(Entry(w.now + 5000, p.a.member), Entry(w.now + 5001, p.b.member)));
    }
  }

  /** The two have a session, and for an hour a marker with its number, and no queue state. */
  ghost predicate MatchedNow(w: World, w': World, k: Key, a: UserId, b: UserId) {
    var m := Cell(|w.db.sessions|, w.now + 3_600_000);
    && w'.db == w.db.(sessions := w.db.sessions + [Session(a, b, k)])
    && w'.keys == w.keys.(entries := w.keys.entries - {a, b}, matched := w.keys.matched[a := m][b := m])
    && w'.now == w.now
  }

  /** A valid pair is matched, or goes back with its own scores if the lock of one of them is taken. */
  lemma AttemptContents(w: World, k: Key, p: Pair, busy: set<UserId>, w': World)
    requires Sorted(ZOf(w.keys, k)) && p.a.member != p.b.member && w' == Attempt(w, k, p, busy)
    requires QueuedIn(w.keys, p.a.member, k) && QueuedIn(w.keys, p.b.member, k)
    requires !BlockedPair(w, p.a.member, p.b.member)
    ensures if p.a.member in busy || p.b.member in busy
            then w'.db == w.db && GainsBoth(w.keys, w'.keys, k, p.a, p.b) && OnlySetsDiffer(w.keys, w'.keys)
            else MatchedNow(w, w', k, p.a.member, p.b.member)
  {
    PutBackPairGains(w.keys, k, p);
  }
}
