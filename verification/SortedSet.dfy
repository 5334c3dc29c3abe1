/** Redis sorted sets: members in the order of (score, member), each member once. */
module SortedSet {
  import opened Text

  type Member = string

  datatype Entry = Entry(score: int, member: Member)

  type ZSet = seq<Entry>

  predicate Before(e: Entry, f: Entry) {
    e.score < f.score || (e.score == f.score && Less(e.member, f.member))
  }

  ghost predicate Sorted(z: ZSet) {
    forall i, j :: 0 <= i < j < |z| ==> Before(z[i], z[j]) && z[i].member != z[j].member
  }

  predicate Has(z: ZSet, m: Member) {
    exists e :: e in z && e.member == m
  }

  /** ZREM. */
  function Rem(z: ZSet, m: Member): ZSet {
    if z == [] then []
    else if z[0].member == m then Rem(z[1..], m)
    else [z[0]] + Rem(z[1..], m)
  }

  function Insert(z: ZSet, e: Entry): ZSet {
    if z == [] || Before(e, z[0]) then [e] + z else [z[0]] + Insert(z[1..], e)
  }

  /** ZADD: a member already there is moved to its new score. */
  function Add(z: ZSet, score: int, m: Member): ZSet {
    Insert(Rem(z, m), Entry(score, m))
  }

  /** What ZPOPMIN takes; the rest stays. */
  function Take(z: ZSet, count: nat): ZSet {
    if count <= |z| then z[..count] else z
  }

  function Rest(z: ZSet, count: nat): ZSet {
    if count <= |z| then z[count..] else []
  }

  lemma HasTail(z: ZSet, m: Member)
    requires z != []
    ensures Has(z, m) <==> z[0].member == m || Has(z[1..], m)
  {
  }

  /** An entry ahead of a whole sorted set can stand first. */
  lemma ConsSorted(e: Entry, z: ZSet)
    requires Sorted(z) && forall f :: f in z ==> Before(e, f) && e.member != f.member
    ensures Sorted([e] + z)
  {
  }

  lemma HeadFirst(z: ZSet)
    requires Sorted(z) && z != []
    ensures Sorted(z[1..]) && forall f :: f in z[1..] ==> Before(z[0], f) && z[0].member != f.member
  {
  }

  lemma {:induction false} RemContents(z: ZSet, m: Member)
    ensures forall e :: e in Rem(z, m) <==> e in z && e.member != m
    ensures Sorted(z) ==> Sorted(Rem(z, m))
    ensures !Has(z, m) ==> Rem(z, m) == z
  {
    if z != [] {
      RemContents(z[1..], m);
      HasTail(z, m);
      assert z == [z[0]] + z[1..];
      if Sorted(z) {
        HeadFirst(z);
        ConsSorted(z[0], Rem(z[1..], m));
      }
    }
  }

  lemma BeforeTotal(e: Entry, f: Entry)
    requires e.member != f.member
    ensures Before(e, f) || Before(f, e)
  {
    LessTotal(e.member, f.member);
  }

  lemma BeforeTransitive(e: Entry, f: Entry, g: Entry)
    requires Before(e, f) && Before(f, g)
    ensures Before(e, g)
  {
    if e.score == f.score == g.score { LessTransitive(e.member, f.member, g.member); }
  }

  lemma {:induction false} InsertContents(z: ZSet, e: Entry)
    requires Sorted(z) && !Has(z, e.member)
    ensures Sorted(Insert(z, e))
    ensures forall x :: x in Insert(z, e) <==> x in z || x == e
  {
    if z != [] {
      HasTail(z, e.member);
      HeadFirst(z);
      assert z == [z[0]] + z[1..];
      if Before(e, z[0]) {
        forall f | f in z ensures Before(e, f) && e.member != f.member {
          if f != z[0] { BeforeTransitive(e, z[0], f); }
        }
        ConsSorted(e, z);
      } else {
        InsertContents(z[1..], e);
        BeforeTotal(e, z[0]);
        ConsSorted(z[0], Insert(z[1..], e));
      }
    }
  }

  /** ZADD leaves a sorted set in which `m` has its new score and nobody else has changed. */
  lemma AddContents(z: ZSet, score: int, m: Member)
    requires Sorted(z)
    ensures Sorted(Add(z, score, m))
    ensures forall e :: e in Add(z, score, m) <==> e == Entry(score, m) || (e in z && e.member != m)
  {
    RemContents(z, m);
    InsertContents(Rem(z, m), Entry(score, m));
  }

  /** What is taken comes before everything that stays. */
  lemma TakeIsMin(z: ZSet, count: nat)
    requires Sorted(z)
    ensures Take(z, count) + Rest(z, count) == z
    ensures Sorted(Take(z, count)) && Sorted(Rest(z, count))
    ensures forall e, f :: e in Take(z, count) && f in Rest(z, count) ==> Before(e, f) && e.member != f.member
  {
  }

  /** Putting the minimum back where it was, as `popPair` does with an odd user. */
  lemma AddBackFirst(z: ZSet)
    requires Sorted(z) && z != []
    ensures Add(z[1..], z[0].score, z[0].member) == z
  {
    HeadFirst(z);
    RemContents(z[1..], z[0].member);
    if |z| > 1 {
      assert Before(z[0], z[1]);
    }
  }
}
