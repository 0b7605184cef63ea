/**
 * The first three stages of the settlement computation
 * (backend/src/controllers/paymentsController.js, `calculateSettlements`, and
 * its inline copy in settlementController.js, `getTripSettlements`):
 * the validity filter, the balance fold over counted expenses, and the
 * adjustment by completed payments.
 *
 * The fold and the adjustment mutate a balance map in loops in the source;
 * they are methods here, proved against the functions Paid, Owes, Sent and
 * Received, and the conservation of money is proved about those functions.
 */
module Balances {
  import opened Ledger

  // ---------------------------------------------------------------------------
  // Validity filter
  // ---------------------------------------------------------------------------

  /** An expense counts when its payer is a trip member and its participant
      list is empty or made up of trip members only. */
  predicate Counts(e: Expense, members: seq<string>) {
    e.payer in members && forall p :: p in e.participants ==> p in members
  }

  /** `expenses.filter(...)`: keeps exactly the counting expenses, in order. */
  function ValidExpenses(es: seq<Expense>, members: seq<string>): (r: seq<Expense>)
    ensures forall e :: multiset(r)[e] == if Counts(e, members) then multiset(es)[e] else 0
    ensures forall e :: e in r ==> Counts(e, members)
    ensures |r| <= |es|
  {
    if es == [] then []
    else
      var init := es[..|es| - 1];
      var last := es[|es| - 1];
      assert es == init + [last];
      ValidExpenses(init, members) + (if Counts(last, members) then [last] else [])
  }

  /** Every expense that the filter keeps has its payer and all its
      participants among the members. */
  predicate AllCount(es: seq<Expense>, members: seq<string>) {
    forall e :: e in es ==> Counts(e, members)
  }

  // ---------------------------------------------------------------------------
  // What the balance fold computes
  // ---------------------------------------------------------------------------

  /** Sum of the amounts `m` paid, over expenses with at least one participant. */
  function Paid(m: string, es: seq<Expense>): real
  {
    if es == [] then 0.0
    else
      Paid(m, es[..|es| - 1]) + PaidIn(es[|es| - 1], m)
  }

  /** `amount / participants.length`. */
  function Share(e: Expense): real
    requires |e.participants| > 0
  {
    e.amount / |e.participants| as real
  }

  /** What `m` owes for one expense: the share, once per time `m` is listed. */
  function OwedIn(ps: seq<string>, m: string, share: real): real
  {
    if ps == [] then 0.0
    else OwedIn(ps[..|ps| - 1], m, share) + (if ps[|ps| - 1] == m then share else 0.0)
  }

  /** Sum of `m`'s shares over expenses with at least one participant. */
  function Owes(m: string, es: seq<Expense>): real
  {
    if es == [] then 0.0
    else
      Owes(m, es[..|es| - 1]) + OwedFor(es[|es| - 1], m)
  }

  /** Total of the completed payments `m` made. */
  function Sent(m: string, ts: seq<Transfer>): real
  {
    if ts == [] then 0.0
    else Sent(m, ts[..|ts| - 1]) + (if ts[|ts| - 1].from == m then ts[|ts| - 1].amount else 0.0)
  }

  /** Total of the completed payments `m` received. */
  function Received(m: string, ts: seq<Transfer>): real
  {
    if ts == [] then 0.0
    else Received(m, ts[..|ts| - 1]) + (if ts[|ts| - 1].to == m then ts[|ts| - 1].amount else 0.0)
  }

  /** The net of `m` after the completed-payment adjustment. */
  function NetOf(m: string, es: seq<Expense>, completed: seq<Transfer>): real
  {
    Paid(m, es) - Owes(m, es) + Sent(m, completed) - Received(m, completed)
  }

  /** The balance map after both stages: keyed by exactly the members. */
  function BalanceMap(members: seq<string>, es: seq<Expense>, completed: seq<Transfer>): map<string, Balance>
  {
    map m | m in members :: Balance(Paid(m, es), Owes(m, es), NetOf(m, es, completed))
  }

  // ---------------------------------------------------------------------------
  // The fold and the adjustment, as the source runs them
  // ---------------------------------------------------------------------------

  /** The contribution of one expense to `m`'s `paid`. */
  function PaidIn(e: Expense, m: string): real
  {
    if |e.participants| > 0 && e.payer == m then e.amount else 0.0
  }

  /** The contribution of one expense to `m`'s `owes`. */
  function OwedFor(e: Expense, m: string): real
  {
    if |e.participants| > 0 then OwedIn(e.participants, m, Share(e)) else 0.0
  }

  /** `balances[username] = { paid: 0, owes: 0, net: 0 }` for every member. */
  method SeedBalances(members: seq<string>) returns (balances: map<string, Balance>)
    ensures balances.Keys == set m | m in members
    ensures forall m :: m in balances ==> balances[m] == Balance(0.0, 0.0, 0.0)
  {
    balances := map[];
    var i := 0;
    while i < |members|
      invariant i <= |members|
      invariant balances.Keys == set m | m in members[..i]
      invariant forall m :: m in balances ==> balances[m] == Balance(0.0, 0.0, 0.0)
    {
      balances := balances[members[i] := Balance(0.0, 0.0, 0.0)];
      i := i + 1;
    }
    assert members[..i] == members;
  }

  /**
   * One step of the fold: an expense with participants adds its amount to
   * the payer's `paid` and its share to each listed participant's `owes`,
   * for names that have an entry; one without participants adds nothing.
   */
  method AddExpense(balances: map<string, Balance>, e: Expense) returns (out: map<string, Balance>)
    ensures out.Keys == balances.Keys
    ensures forall m :: m in out ==>
      out[m] == balances[m].(paid := balances[m].paid + PaidIn(e, m), owes := balances[m].owes + OwedFor(e, m))
  {
    out := balances;
    if |e.participants| == 0 {
      return;
    }
    var share := e.amount / |e.participants| as real;
    if e.payer in out {
      out := out[e.payer := out[e.payer].(paid := out[e.payer].paid + e.amount)];
    }
    var j := 0;
    while j < |e.participants|
      invariant j <= |e.participants|
      invariant out.Keys == balances.Keys
      invariant forall m :: m in out ==>
        out[m] == balances[m].(paid := balances[m].paid + PaidIn(e, m),
                               owes := balances[m].owes + OwedIn(e.participants[..j], m, share))
    {
      var p := e.participants[j];
      assert e.participants[..j + 1][..j] == e.participants[..j];
      if p in out {
        out := out[p := out[p].(owes := out[p].owes + share)];
      }
      j := j + 1;
    }
    assert e.participants[..j] == e.participants;
  }

  /** `net = paid - owes` for every member. */
  method SetNets(balances: map<string, Balance>, members: seq<string>) returns (out: map<string, Balance>)
    requires balances.Keys == set m | m in members
    ensures out.Keys == balances.Keys
    ensures forall m :: m in out ==> out[m] == balances[m].(net := balances[m].paid - balances[m].owes)
  {
    out := balances;
    var i := 0;
    while i < |members|
      invariant i <= |members|
      invariant out.Keys == balances.Keys
      invariant forall m :: m in out ==>
        out[m] == if m in members[..i] then balances[m].(net := balances[m].paid - balances[m].owes) else balances[m]
    {
      var u := members[i];
      out := out[u := out[u].(net := out[u].paid - out[u].owes)];
      i := i + 1;
    }
    assert members[..i] == members;
  }

  /**
   * Seeds every member with zeros, folds the expenses in order, then sets
   * each member's net to paid minus owes.
   */
  method ComputeBalances(members: seq<string>, valid: seq<Expense>) returns (balances: map<string, Balance>)
    ensures balances.Keys == set m | m in members
    ensures forall m :: m in balances ==>
      balances[m] == Balance(Paid(m, valid), Owes(m, valid), Paid(m, valid) - Owes(m, valid))
  {
    balances := SeedBalances(members);
    var k := 0;
    while k < |valid|
      invariant k <= |valid|
      invariant balances.Keys == set m | m in members
      invariant forall m :: m in balances ==> balances[m] == Balance(Paid(m, valid[..k]), Owes(m, valid[..k]), 0.0)
    {
      assert valid[..k + 1][..k] == valid[..k];
      balances := AddExpense(balances, valid[k]);
      k := k + 1;
    }
    assert valid[..k] == valid;
    balances := SetNets(balances, members);
  }

  /**
   * For each completed payment, adds its amount to the payer's `net` and
   * subtracts it from the receiver's, each side only when that party has an
   * entry. `paid`, `owes` and the key set do not change.
   */
  method ApplyCompleted(balances: map<string, Balance>, completed: seq<Transfer>) returns (adjusted: map<string, Balance>)
    ensures adjusted.Keys == balances.Keys
    ensures forall m :: m in adjusted ==>
      adjusted[m] == balances[m].(net := balances[m].net + Sent(m, completed) - Received(m, completed))
  {
    adjusted := balances;
    var i := 0;
    while i < |completed|
      invariant i <= |completed|
      invariant adjusted.Keys == balances.Keys
      invariant forall m :: m in adjusted ==>
        adjusted[m] == balances[m].(net := balances[m].net + Sent(m, completed[..i]) - Received(m, completed[..i]))
    {
      assert completed[..i + 1][..i] == completed[..i];
      adjusted := ApplyPayment(adjusted, completed[i]);
      i := i + 1;
    }
    assert completed[..i] == completed;
  }

  /** The fold followed by the adjustment: the balance map of the members
      over the counted expenses and the completed payments. */
  method AdjustedBalances(members: seq<string>, valid: seq<Expense>, completed: seq<Transfer>)
    returns (balances: map<string, Balance>)
    ensures balances == BalanceMap(members, valid, completed)
  {
    balances := ComputeBalances(members, valid);
    balances := ApplyCompleted(balances, completed);
    var expected := BalanceMap(members, valid, completed);
    assert balances.Keys == expected.Keys;
    forall m | m in balances
      ensures balances[m] == expected[m]
    {
    }
  }

  /** One completed payment: the payer's net goes up and the receiver's goes
      down by its amount, each only when that party has an entry. */
  method ApplyPayment(balances: map<string, Balance>, p: Transfer) returns (adjusted: map<string, Balance>)
    ensures adjusted.Keys == balances.Keys
    ensures forall m :: m in adjusted ==>
      adjusted[m] == balances[m].(net := balances[m].net + (if p.from == m then p.amount else 0.0)
                                                        - (if p.to == m then p.amount else 0.0))
  {
    adjusted := balances;
    if p.from in adjusted {
      adjusted := adjusted[p.from := adjusted[p.from].(net := adjusted[p.from].net + p.amount)];
    }
    if p.to in adjusted {
      adjusted := adjusted[p.to := adjusted[p.to].(net := adjusted[p.to].net - p.amount)];
    }
  }

  // ---------------------------------------------------------------------------
  // Conservation of money
  // ---------------------------------------------------------------------------

  /** Sum of the amounts of expenses with at least one participant. */
  function CountedTotal(es: seq<Expense>): real
  {
    if es == [] then 0.0
    else
      var e := es[|es| - 1];
      CountedTotal(es[..|es| - 1]) + (if |e.participants| > 0 then e.amount else 0.0)
  }

  /** Sum of the amounts of payments whose payer is one of `ms`. */
  function AmountFrom(ts: seq<Transfer>, ms: seq<string>): real
  {
    if ts == [] then 0.0
    else AmountFrom(ts[..|ts| - 1], ms) + (if ts[|ts| - 1].from in ms then ts[|ts| - 1].amount else 0.0)
  }

  /** Sum of the amounts of payments whose receiver is one of `ms`. */
  function AmountTo(ts: seq<Transfer>, ms: seq<string>): real
  {
    if ts == [] then 0.0
    else AmountTo(ts[..|ts| - 1], ms) + (if ts[|ts| - 1].to in ms then ts[|ts| - 1].amount else 0.0)
  }

  /** Each counted amount lands once, in its payer's `paid`. */
  lemma {:induction false} TotalPaid(members: seq<string>, es: seq<Expense>, paid: string -> real)
    requires Distinct(members) && AllCount(es, members)
    requires forall m :: paid(m) == Paid(m, es)
    ensures SumOver(members, paid) == CountedTotal(es)
  {
    if es != [] {
      var init, e := es[..|es| - 1], es[|es| - 1];
      assert forall x :: x in init ==> x in es;
      assert Counts(e, members);
      var before := m => Paid(m, init);
      var v := if |e.participants| > 0 then e.amount else 0.0;
      var step := m => if m == e.payer then v else 0.0;
      TotalPaid(members, init, before);
      SumOverAdd(members, before, step, paid);
      SumOverPoint(members, e.payer, v, step);
    } else {
      SumOverZero(members, paid);
    }
  }

  /** Splitting a share over a list of members hands out share × |list|. */
  lemma {:induction false} OwedInTotal(members: seq<string>, ps: seq<string>, share: real, owed: string -> real)
    requires Distinct(members)
    requires forall p :: p in ps ==> p in members
    requires forall m :: owed(m) == OwedIn(ps, m, share)
    ensures SumOver(members, owed) == share * |ps| as real
  {
    if ps != [] {
      var init, p := ps[..|ps| - 1], ps[|ps| - 1];
      var before := m => OwedIn(init, m, share);
      var step := m => if m == p then share else 0.0;
      assert SumOver(members, before) == share * |init| as real by {
        assert forall x :: x in init ==> x in ps;
        OwedInTotal(members, init, share, before);
      }
      assert SumOver(members, step) == share by {
        SumOverPoint(members, p, share, step);
      }
      assert SumOver(members, owed) == SumOver(members, before) + SumOver(members, step) by {
        assert forall m :: owed(m) == before(m) + step(m);
        SumOverAdd(members, before, step, owed);
      }
      OneMoreShare(SumOver(members, owed), SumOver(members, before), SumOver(members, step), share, |init|);
    } else {
      SumOverZero(members, owed);
    }
  }

  /** n shares plus one more make n + 1 shares. */
  lemma OneMoreShare(total: real, sofar: real, more: real, share: real, n: nat)
    requires total == sofar + more && sofar == share * n as real && more == share
    ensures total == share * (n + 1) as real
  {
    MulSucc(share, n);
  }

  lemma MulSucc(a: real, n: nat)
    ensures a * (n + 1) as real == a * n as real + a
  {
  }

  lemma ShareTimesCount(e: Expense)
    requires |e.participants| > 0
    ensures Share(e) * |e.participants| as real == e.amount
  {
  }

  /** Each counted amount is split fully over the participants' `owes`. */
  lemma {:induction false} TotalOwes(members: seq<string>, es: seq<Expense>, owes: string -> real)
    requires Distinct(members) && AllCount(es, members)
    requires forall m :: owes(m) == Owes(m, es)
    ensures SumOver(members, owes) == CountedTotal(es)
  {
    if es != [] {
      var init, e := es[..|es| - 1], es[|es| - 1];
      var before := m => Owes(m, init);
      assert SumOver(members, before) == CountedTotal(init) by {
        assert forall x :: x in init ==> x in es;
        TotalOwes(members, init, before);
      }
      if |e.participants| > 0 {
        var step := m => OwedIn(e.participants, m, Share(e));
        assert SumOver(members, step) == e.amount by {
          assert e in es;
          OwedInTotal(members, e.participants, Share(e), step);
          ShareTimesCount(e);
        }
        assert SumOver(members, owes) == SumOver(members, before) + SumOver(members, step) by {
          assert forall m :: owes(m) == before(m) + step(m);
          SumOverAdd(members, before, step, owes);
        }
      } else {
        assert forall m :: owes(m) == before(m);
        SumOverCongruent(members, owes, before);
      }
    } else {
      SumOverZero(members, owes);
    }
  }

  /** Before the completed-payment adjustment, the nets of the members sum to 0. */
  lemma FoldConservesMoney(members: seq<string>, es: seq<Expense>, net: string -> real)
    requires Distinct(members) && AllCount(es, members)
    requires forall m :: net(m) == Paid(m, es) - Owes(m, es)
    ensures SumOver(members, net) == 0.0
  {
    var paid, owes := m => Paid(m, es), m => Owes(m, es);
    TotalPaid(members, es, paid);
    TotalOwes(members, es, owes);
    SumOverSub(members, paid, owes, net);
  }

  lemma {:induction false} TotalSent(members: seq<string>, ts: seq<Transfer>, sent: string -> real)
    requires Distinct(members)
    requires forall m :: sent(m) == Sent(m, ts)
    ensures SumOver(members, sent) == AmountFrom(ts, members)
  {
    if ts != [] {
      var init, t := ts[..|ts| - 1], ts[|ts| - 1];
      var before := m => Sent(m, init);
      var step := m => if m == t.from then t.amount else 0.0;
      TotalSent(members, init, before);
      SumOverAdd(members, before, step, sent);
      SumOverPoint(members, t.from, t.amount, step);
    } else {
      SumOverZero(members, sent);
    }
  }

  lemma {:induction false} TotalReceived(members: seq<string>, ts: seq<Transfer>, received: string -> real)
    requires Distinct(members)
    requires forall m :: received(m) == Received(m, ts)
    ensures SumOver(members, received) == AmountTo(ts, members)
  {
    if ts != [] {
      var init, t := ts[..|ts| - 1], ts[|ts| - 1];
      var before := m => Received(m, init);
      var step := m => if m == t.to then t.amount else 0.0;
      TotalReceived(members, init, before);
      SumOverAdd(members, before, step, received);
      SumOverPoint(members, t.to, t.amount, step);
    } else {
      SumOverZero(members, received);
    }
  }

  /** Payments between members move as much out of one side as into the other. */
  lemma {:induction false} BetweenMembersBalance(ts: seq<Transfer>, members: seq<string>)
    requires forall t :: t in ts ==> t.from in members && t.to in members
    ensures AmountFrom(ts, members) == AmountTo(ts, members)
  {
    if ts != [] {
      assert forall t :: t in ts[..|ts| - 1] ==> t in ts;
      assert ts[|ts| - 1] in ts;
      BetweenMembersBalance(ts[..|ts| - 1], members);
    }
  }

  /**
   * The adjustment shifts the members' total net by the payments made by
   * members minus the payments received by members: a payment with one side
   * outside the trip moves the total, one between members does not.
   */
  lemma AdjustmentTotal(members: seq<string>, ts: seq<Transfer>, shift: string -> real)
    requires Distinct(members)
    requires forall m :: shift(m) == Sent(m, ts) - Received(m, ts)
    ensures SumOver(members, shift) == AmountFrom(ts, members) - AmountTo(ts, members)
  {
    var sent, received := m => Sent(m, ts), m => Received(m, ts);
    TotalSent(members, ts, sent);
    TotalReceived(members, ts, received);
    SumOverSub(members, sent, received, shift);
  }

  /** Conservation: with counted expenses and completed payments between
      members, the adjusted nets of the members sum to 0. */
  lemma AdjustedConservesMoney(members: seq<string>, es: seq<Expense>, completed: seq<Transfer>, net: string -> real)
    requires Distinct(members) && AllCount(es, members)
    requires forall t :: t in completed ==> t.from in members && t.to in members
    requires forall m :: net(m) == NetOf(m, es, completed)
    ensures SumOver(members, net) == 0.0
  {
    var base := m => Paid(m, es) - Owes(m, es);
    var shift := m => Sent(m, completed) - Received(m, completed);
    FoldConservesMoney(members, es, base);
    AdjustmentTotal(members, completed, shift);
    BetweenMembersBalance(completed, members);
    SumOverAdd(members, base, shift, net);
  }

  /** An expense the filter rejects changes no member's balance. */
  lemma RejectedExpenseIgnored(es: seq<Expense>, e: Expense, members: seq<string>)
    requires !Counts(e, members)
    ensures ValidExpenses(es + [e], members) == ValidExpenses(es, members)
  {
    assert (es + [e])[..|es|] == es;
  }

  /** An expense with no participants adds nothing, not even to its payer's `paid`. */
  lemma EmptySplitIgnored(m: string, es: seq<Expense>, e: Expense)
    requires e.participants == []
    ensures Paid(m, es + [e]) == Paid(m, es) && Owes(m, es + [e]) == Owes(m, es)
  {
    assert (es + [e])[..|es|] == es;
  }
}
