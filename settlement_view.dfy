/**
 * `getTripSettlements` of backend/src/controllers/settlementController.js:
 * the trip's balances, the settlement instructions and the expense summary
 * as shown to a member of the trip's group.
 *
 * The handler repeats the pipeline of `calculateSettlements` inline; the
 * model runs the same filter, fold, adjustment, partition, sorts and greedy
 * loop, and adds the two copies of the balance map the handler makes
 * (`filteredBalances`, `finalBalances`) and the clean-up pass between them.
 * Unlike the payments handlers, a failed read of the completed payments is
 * an error here.
 */
module SettlementView {
  import opened Ledger
  import opened Balances
  import opened Simplifier
  import opened Payments
  import opened PaymentTable

  /** `summary`: `total_expenses` and `total_expenses_count`. */
  datatype Summary = Summary(totalExpenses: real, count: nat)

  /** The response body. */
  datatype View = View(balances: map<string, Balance>, settlements: seq<Transfer>, summary: Summary)

  /** Which of the handler's reads fails, if any. */
  datatype ReadFault = NoReadFault | ExpensesUnread | MembersUnread | PaymentsUnread

  /** The view of a trip: the balances and settlements of the payment
      reconciler and the total and number of the counted expenses. */
  function ViewOf(expenses: seq<Expense>, memberRows: seq<string>, completed: seq<Transfer>): (r: View)
    ensures r.summary.count <= |expenses|
    ensures |r.settlements| <= |MemberSet(memberRows)|
  {
    var valid := ValidExpenses(expenses, MemberSet(memberRows));
    View(TripBalances(expenses, memberRows, completed), Settlements(expenses, memberRows, completed),
         Summary(TotalAmount(valid), |valid|))
  }

  /** `filteredBalances` (and later `finalBalances`): a copy of the entry of
      every member that has one, in member order; `order` is the key order
      of the copy. */
  method CopyMembers(members: seq<string>, balances: map<string, Balance>)
    returns (copy: map<string, Balance>, order: seq<string>)
    ensures copy.Keys == set m | m in members && m in balances
    ensures forall m :: m in copy ==> copy[m] == balances[m]
    ensures forall k :: k in order <==> k in copy
    ensures (forall m :: m in members ==> m in balances) ==> order == members
  {
    copy, order := map[], [];
    for i := 0 to |members|
      invariant copy.Keys == set m | m in members[..i] && m in balances
      invariant forall m :: m in copy ==> copy[m] == balances[m]
      invariant forall k :: k in order <==> k in copy
      invariant (forall m :: m in members ==> m in balances) ==> order == members[..i]
    {
      assert members[..i + 1] == members[..i] + [members[i]];
      if members[i] in balances {
        copy := copy[members[i] := balances[members[i]]];
        order := order + [members[i]];
      }
    }
    assert members[..|members|] == members;
  }

  /** The safety net: delete every listed key that is not a member. */
  method DropNonMembers(keys: seq<string>, members: seq<string>, balances: map<string, Balance>)
    returns (pruned: map<string, Balance>)
    ensures pruned.Keys == set k | k in balances && (k in members || k !in keys)
    ensures forall k :: k in pruned ==> pruned[k] == balances[k]
    ensures (forall k :: k in balances ==> k in members) ==> pruned == balances
  {
    pruned := balances;
    for i := 0 to |keys|
      invariant pruned.Keys == set k | k in balances && (k in members || k !in keys[..i])
      invariant forall k :: k in pruned ==> pruned[k] == balances[k]
    {
      assert keys[..i + 1] == keys[..i] + [keys[i]];
      if keys[i] !in members {
        pruned := pruned - {keys[i]};
      }
    }
    assert keys[..|keys|] == keys;
  }

  /** `filteredBalances` after the clean-up pass: the fold, the adjustment,
      the copy and the pass, which leave the balance map as it was; `order`
      is its key order. */
  method FilteredBalances(expenses: seq<Expense>, memberRows: seq<string>, completed: seq<Transfer>)
    returns (filtered: map<string, Balance>, order: seq<string>)
    ensures filtered == TripBalances(expenses, memberRows, completed)
    ensures order == MemberSet(memberRows)
  {
    var members := MemberSet(memberRows);
    var valid := ValidExpenses(expenses, members);
    var balances := AdjustedBalances(members, valid, completed);
    filtered, order := CopyMembers(members, balances);
    assert filtered == balances;
    filtered := DropNonMembers(order, members, filtered);
  }

  /** The computation of a trip with members, from the balance fold to the
      `finalBalances` copy. */
  method BuildView(expenses: seq<Expense>, memberRows: seq<string>, completed: seq<Transfer>)
    returns (view: View)
    requires MemberSet(memberRows) != []
    ensures view == ViewOf(expenses, memberRows, completed)
  {
    var members := MemberSet(memberRows);
    var filtered, order := FilteredBalances(expenses, memberRows, completed);
    var creditors, debtors := Partition(order, filtered);
    creditors, debtors := SortDesc(creditors), SortDesc(debtors);
    ghost var rounds;
    var settlements;
    settlements, rounds := SimplifyDebts(creditors, debtors);
    var final, _ := CopyMembers(members, filtered);
    assert final == filtered;
    var valid := ValidExpenses(expenses, members);
    view := View(final, settlements, Summary(TotalAmount(valid), |valid|));
  }

  /**
   * `getTripSettlements`: the access checks, the reads, the empty answer
   * for a trip without members (which skips the read of the completed
   * payments), and otherwise the view the pipeline computes.
   */
  method TripSettlements(
    access: Access, fault: ReadFault,
    expenses: seq<Expense>, memberRows: seq<string>, completed: seq<Transfer>)
    returns (r: Result<View>)
    ensures AccessError(access).Some? ==> r == Err(AccessError(access).value)
    ensures AccessError(access).None? ==>
      r == if fault == ExpensesUnread || fault == MembersUnread then Err(StorageError)
           else if fault == PaymentsUnread && memberRows != [] then Err(StorageError)
           else Ok(ViewOf(expenses, memberRows, completed))
  {
    var denied := AccessError(access);
    if denied.Some? {
      return Err(denied.value);
    }
    if fault == ExpensesUnread || fault == MembersUnread {
      return Err(StorageError);
    }
    var members := MemberSet(memberRows);
    if |members| == 0 {
      EmptyTripView(expenses, memberRows, completed);
      return Ok(View(map[], [], Summary(0.0, 0)));
    }
    if fault == PaymentsUnread {
      return Err(StorageError);
    }
    var view := BuildView(expenses, memberRows, completed);
    return Ok(view);
  }

  // ---------------------------------------------------------------------------
  // The copy as written: `hasOwnProperty` on a plain object
  // ---------------------------------------------------------------------------

  /** The member name that replaces the inherited method of `balances`. */
  const HasOwnPropertyName: string := "hasOwnProperty"

  /** `balances.hasOwnProperty(u)` on a plain object with own keys `keys`.
      When a member is named "hasOwnProperty", its balance record has
      replaced the method, the call is a TypeError, and the handler answers
      500 through `next(err)`, as it does for a failed read. */
  function HasOwnPropertyCall(keys: set<string>, u: string): (r: Result<bool>)
    ensures r.Err? <==> HasOwnPropertyName in keys
    ensures r.Ok? ==> (r.value <==> u in keys)
  {
    if HasOwnPropertyName in keys then Err(StorageError) else Ok(u in keys)
  }

  /** The `filteredBalances` loop as written: the copy of `CopyMembers`, or
      the error of the first call. */
  method CopyMembersAsWritten(members: seq<string>, balances: map<string, Balance>)
    returns (r: Result<map<string, Balance>>)
    ensures r.Err? <==> members != [] && HasOwnPropertyName in balances
    ensures r.Err? ==> r.error == StorageError
    ensures r.Ok? ==> r.value.Keys == (set m | m in members && m in balances)
    ensures r.Ok? ==> forall m :: m in r.value ==> r.value[m] == balances[m]
  {
    var copy: map<string, Balance> := map[];
    for i := 0 to |members|
      invariant copy.Keys == set m | m in members[..i] && m in balances
      invariant forall m :: m in copy ==> copy[m] == balances[m]
      invariant i > 0 ==> HasOwnPropertyName !in balances
    {
      assert members[..i + 1] == members[..i] + [members[i]];
      var own := HasOwnPropertyCall(balances.Keys, members[i]);
      if own.Err? {
        return Err(own.error);
      }
      if own.value {
        copy := copy[members[i] := balances[members[i]]];
      }
    }
    assert members[..|members|] == members;
    return Ok(copy);
  }

  /** `getTripSettlements` as written: the handler of `TripSettlements`, but
      with the copy that throws for a member named "hasOwnProperty". */
  method TripSettlementsAsWritten(
    access: Access, fault: ReadFault,
    expenses: seq<Expense>, memberRows: seq<string>, completed: seq<Transfer>)
    returns (r: Result<View>)
    ensures AccessError(access).Some? ==> r == Err(AccessError(access).value)
    ensures AccessError(access).None? ==>
      r == if fault == ExpensesUnread || fault == MembersUnread then Err(StorageError)
           else if memberRows == [] then Ok(View(map[], [], Summary(0.0, 0)))
           else if fault == PaymentsUnread || HasOwnPropertyName in memberRows then Err(StorageError)
           else Ok(ViewOf(expenses, memberRows, completed))
  {
    var denied := AccessError(access);
    if denied.Some? {
      return Err(denied.value);
    }
    if fault == ExpensesUnread || fault == MembersUnread {
      return Err(StorageError);
    }
    var members := MemberSet(memberRows);
    if |members| == 0 {
      return Ok(View(map[], [], Summary(0.0, 0)));
    }
    if fault == PaymentsUnread {
      return Err(StorageError);
    }
    var balances := AdjustedBalances(members, ValidExpenses(expenses, members), completed);
    var copied := CopyMembersAsWritten(members, balances);
    if copied.Err? {
      return Err(copied.error);
    }
    var view := BuildView(expenses, memberRows, completed);
    return Ok(view);
  }

  /** Members "hasOwnProperty" and "bob" with nothing spent: as written the
      view answers 500, while the corrected handler shows both members. */
  lemma HasOwnPropertyMemberBreaksView()
    ensures var rows := [HasOwnPropertyName, "bob"];
      && HasOwnPropertyName in rows
      && ViewOf([], rows, []).balances.Keys == {HasOwnPropertyName, "bob"}
  {
  }

  // ---------------------------------------------------------------------------
  // What the view guarantees
  // ---------------------------------------------------------------------------

  /** A trip without members has an empty view. */
  lemma EmptyTripView(expenses: seq<Expense>, memberRows: seq<string>, completed: seq<Transfer>)
    requires MemberSet(memberRows) == []
    ensures ViewOf(expenses, memberRows, completed) == View(map[], [], Summary(0.0, 0))
  {
    var valid := ValidExpenses(expenses, []);
    assert multiset(valid) == multiset{};
    assert valid == [];
  }

  /** The balances are keyed by exactly the trip members. This unfolds
      `ViewOf` and `BalanceMap` only; that the handler's loops compute
      `ViewOf` is what `BuildView` and `AdjustedBalances` prove. */
  lemma ViewKeys(expenses: seq<Expense>, memberRows: seq<string>, completed: seq<Transfer>)
    ensures forall m :: m in ViewOf(expenses, memberRows, completed).balances <==> m in memberRows
  {
  }

  /**
   * Completed payments leave `paid` and `owes` alone and move only `net`,
   * by what the member sent minus what they received. This unfolds `ViewOf`
   * and `BalanceMap` only; that the handler's loops compute `ViewOf` is what
   * `BuildView` and `AdjustedBalances` prove.
   */
  lemma ViewNet(expenses: seq<Expense>, memberRows: seq<string>, completed: seq<Transfer>, m: string)
    requires m in memberRows
    ensures var b := ViewOf(expenses, memberRows, completed).balances[m];
      var b0 := ViewOf(expenses, memberRows, []).balances[m];
      && b.paid == b0.paid && b.owes == b0.owes
      && b0.net == b0.paid - b0.owes
      && b.net == b.paid - b.owes + Sent(m, completed) - Received(m, completed)
  {
  }

  /** When every completed payment is between trip members, the nets of the
      view add up to zero. */
  lemma ViewNetSumZero(expenses: seq<Expense>, memberRows: seq<string>, completed: seq<Transfer>, net: string -> real)
    requires forall t :: t in completed ==> t.from in memberRows && t.to in memberRows
    requires forall m :: m in memberRows ==> net(m) == ViewOf(expenses, memberRows, completed).balances[m].net
    ensures SumOver(MemberSet(memberRows), net) == 0.0
  {
    var members := MemberSet(memberRows);
    var valid := ValidExpenses(expenses, members);
    var exact := m => NetOf(m, valid, completed);
    AdjustedConservesMoney(members, valid, completed, exact);
    SumOverCongruent(members, net, exact);
  }

  /**
   * A counted expense without participants adds its amount to the total and
   * one to the count of the view's summary, and changes no balance and no
   * settlement of the view.
   */
  lemma EmptySplitInSummaryOnly(expenses: seq<Expense>, memberRows: seq<string>, completed: seq<Transfer>, e: Expense)
    requires e.payer in memberRows && e.participants == []
    ensures var valid := ValidExpenses(expenses, MemberSet(memberRows));
      var valid' := ValidExpenses(expenses + [e], MemberSet(memberRows));
      && TotalAmount(valid') == TotalAmount(valid) + e.amount && |valid'| == |valid| + 1
      && TripBalances(expenses + [e], memberRows, completed) == TripBalances(expenses, memberRows, completed)
      && Settlements(expenses + [e], memberRows, completed) == Settlements(expenses, memberRows, completed)
  {
    var members := MemberSet(memberRows);
    var valid := ValidExpenses(expenses, members);
    EmptySplitValid(expenses, members, e);
    assert (valid + [e])[..|valid|] == valid;
    assert TripBalances(expenses + [e], memberRows, completed) == TripBalances(expenses, memberRows, completed) by {
      EmptySplitBalances(valid, members, completed, e);
    }
    SettlementsFollowBalances(expenses + [e], expenses, memberRows, completed, completed);
  }

  lemma EmptySplitValid(expenses: seq<Expense>, members: seq<string>, e: Expense)
    requires e.payer in members && e.participants == []
    ensures ValidExpenses(expenses + [e], members) == ValidExpenses(expenses, members) + [e]
  {
    assert (expenses + [e])[..|expenses|] == expenses;
  }

  lemma EmptySplitBalances(valid: seq<Expense>, members: seq<string>, completed: seq<Transfer>, e: Expense)
    requires e.participants == []
    ensures BalanceMap(members, valid + [e], completed) == BalanceMap(members, valid, completed)
  {
    forall m | m in members
      ensures Paid(m, valid + [e]) == Paid(m, valid) && Owes(m, valid + [e]) == Owes(m, valid)
    {
      EmptySplitIgnored(m, valid, e);
    }
  }

  /**
   * The instructions the view shows are the pending rows a soft sync of the
   * trip leaves behind, and that sync does not change what the view shows.
   */
  lemma ViewMatchesSync(
    rows: seq<Payment>, nextId: nat, trip: string, actor: string,
    expenses: seq<Expense>, memberRows: seq<string>)
    ensures var e := SyncEffect(rows, nextId, trip, actor, expenses, memberRows, false, NoFault);
      && PendingOf(e.rows, trip) == ViewOf(expenses, memberRows, CompletedOf(rows, trip)).settlements
      && ViewOf(expenses, memberRows, CompletedOf(e.rows, trip)) == ViewOf(expenses, memberRows, CompletedOf(rows, trip))
  {
    var plan := SyncPlan(rows, trip, expenses, memberRows, NoFault);
    SyncReplacesPending(rows, nextId, trip, actor, plan, false, NoFault);
    SoftSyncKeepsCompleted(rows, nextId, trip, actor, plan, NoFault);
  }
}
