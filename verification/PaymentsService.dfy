/**
 * The crediting of paid checkouts: `handleStripeWebhookEvent` over the balances and the rows it
 * writes. A transaction that fails is rolled back, and the event is delivered again later.
 */
module PaymentsService {
  import opened Redis
  import opened Queue
  import opened Ledger

  datatype Reply = Received | Failed

  class PaymentsService {
    var balance: map<UserId, nat>
    var credits: seq<Credit>

    constructor (users: map<UserId, nat>)
      ensures balance == users && credits == []
    {
      balance, credits := users, [];
    }

    /** A row with this event id, or this checkout session; both columns are unique. */
    method FindCredit(event: string, checkout: string) returns (sameEvent: bool, sameCheckout: bool)
      ensures sameEvent <==> exists c :: c in credits && c.event == event
      ensures sameCheckout <==> exists c :: c in credits && c.checkout == checkout
    {
      sameEvent, sameCheckout := false, false;
      for i := 0 to |credits|
        invariant sameEvent <==> exists c :: c in credits[..i] && c.event == event
        invariant sameCheckout <==> exists c :: c in credits[..i] && c.checkout == checkout
      {
        assert credits[..i + 1] == credits[..i] + [credits[i]];
        sameEvent := sameEvent || credits[i].event == event;
        sameCheckout := sameCheckout || credits[i].checkout == checkout;
      }
      assert credits[..|credits|] == credits;
    }

    /** The balance grows by the tokens of the event exactly when it is creditable, its id is new, and
        the transaction goes through; otherwise nothing changes. */
    method HandleStripeWebhookEvent(e: StripeEvent) returns (r: Reply)
      modifies this
      ensures forall w: World :: w.db.balance == old(balance) && w.db.credits == old(credits) ==>
                Deliver(w, e).db == w.db.(balance := balance, credits := credits)
      ensures r.Failed? <==> Creditable(e) && (forall c :: c in old(credits) ==> c.event != e.id) &&
                             (e.user !in old(balance) || exists c :: c in old(credits) && c.checkout == e.checkout)
      ensures credits == old(credits) || (Creditable(e) && credits == old(credits) + [CreditOf(e)])
      ensures balance == if credits == old(credits) || e.user !in old(balance) then old(balance)
                         else old(balance)[e.user := old(balance)[e.user] + e.tokens.value]
      ensures balance != old(balance) || credits != old(credits) ==>
                && e.completed && e.paid && e.user != "" && e.pack != "" && e.tokensRaw != ""
                && e.tokens.Some? && e.tokens.value > 0
                && e.user in old(balance)
                && (forall c :: c in old(credits) ==> c.event != e.id && c.checkout != e.checkout)
      ensures e.completed && e.paid && e.user != "" && e.pack != "" && e.tokensRaw != "" &&
              e.tokens.Some? && e.tokens.value > 0 && e.user in old(balance) &&
              (forall c :: c in old(credits) ==> c.event != e.id && c.checkout != e.checkout) ==>
                && r == Received
                && balance == old(balance)[e.user := old(balance)[e.user] + e.tokens.value]
                && credits == old(credits) + [Credit(e.user, e.tokens.value, e.id, e.checkout)]
    {
      if !e.completed || !e.paid {
        return Received;
      }
      if e.user == "" || e.pack == "" || e.tokensRaw == "" {
        return Received;
      }
      if e.tokens.None? || e.tokens.value <= 0 {
        return Received;
      }
      var sameEvent, sameCheckout := FindCredit(e.id, e.checkout);
      if sameEvent {
        return Received;
      }
      if e.user !in balance || sameCheckout {
        return Failed;
      }
      balance := balance[e.user := balance[e.user] + e.tokens.value];
      credits := credits + [Credit(e.user, e.tokens.value, e.id, e.checkout)];
      r := Received;
    }
  }
}
