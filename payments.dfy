/**
 * `calculateSettlements` of backend/src/controllers/paymentsController.js,
 * which chains the filter, the balance fold, the completed-payment
 * adjustment and the greedy simplifier, and what its instructions
 * guarantee. The payments table and the handlers that change it are in
 * module PaymentTable.
 */
module Payments {
  import opened Ledger
  import opened Balances
  import opened Simplifier

  // ---------------------------------------------------------------------------
  // calculateSettlements
  // ---------------------------------------------------------------------------

  /** The balances the simplifier starts from: the filter, the fold and the
      completed-payment adjustment over the trip's member set. */
  function TripBalances(expenses: seq<Expense>, memberRows: seq<string>, completed: seq<Transfer>): map<string, Balance>
  {
    var members := MemberSet(memberRows);
    BalanceMap(members, ValidExpenses(expenses, members), completed)
  }

  function SortedCreditors(expenses: seq<Expense>, memberRows: seq<string>, completed: seq<Transfer>): seq<Party>
  {
    SortDesc(CreditorsOf(MemberSet(memberRows), TripBalances(expenses, memberRows, completed)))
  }

  function SortedDebtors(expenses: seq<Expense>, memberRows: seq<string>, completed: seq<Transfer>): seq<Party>
  {
    SortDesc(DebtorsOf(MemberSet(memberRows), TripBalances(expenses, memberRows, completed)))
  }

  /** The transfers before `toFixed(2)`; none when the trip has no member. */
  function SettlementsExact(expenses: seq<Expense>, memberRows: seq<string>, completed: seq<Transfer>): seq<Transfer>
  {
    if MemberSet(memberRows) == [] then []
    else GreedyExact(SortedCreditors(expenses, memberRows, completed), SortedDebtors(expenses, memberRows, completed))
  }

  /** What `calculateSettlements` returns. */
  function Settlements(expenses: seq<Expense>, memberRows: seq<string>, completed: seq<Transfer>): (r: seq<Transfer>)
    ensures MemberSet(memberRows) == [] ==> r == []
    ensures |r| <= |MemberSet(memberRows)|
  {
    PartiesCount(MemberSet(memberRows), TripBalances(expenses, memberRows, completed));
    RoundAmounts(SettlementsExact(expenses, memberRows, completed))
  }

  /**
   * `calculateSettlements` on the rows its queries return: the member set,
   * the early return for an empty trip, the filter, the fold, the
   * adjustment, the partition, the two sorts and the greedy loop.
   */
  method CalculateSettlements(expenses: seq<Expense>, memberRows: seq<string>, completed: seq<Transfer>)
    returns (settlements: seq<Transfer>)
    ensures settlements == Settlements(expenses, memberRows, completed)
  {
    var members := MemberSet(memberRows);
    if |members| == 0 {
      return [];
    }
    var valid := ValidExpenses(expenses, members);
    var balances := AdjustedBalances(members, valid, completed);
    var creditors, debtors := Partition(members, balances);
    creditors, debtors := SortDesc(creditors), SortDesc(debtors);
    ghost var rounds;
    settlements, rounds := SimplifyDebts(creditors, debtors);
  }

  // ---------------------------------------------------------------------------
  // What the settlements guarantee
  // ---------------------------------------------------------------------------

  /** The instructions depend on the expenses and the completed payments
      only through the balances they produce. This unfolds `Settlements` and
      `TripBalances` only; that the loops compute those functions is what
      `CalculateSettlements` and `AdjustedBalances` prove. */
  lemma SettlementsFollowBalances(
    expenses1: seq<Expense>, expenses2: seq<Expense>, memberRows: seq<string>,
    completed1: seq<Transfer>, completed2: seq<Transfer>)
    requires TripBalances(expenses1, memberRows, completed1) == TripBalances(expenses2, memberRows, completed2)
    ensures Settlements(expenses1, memberRows, completed1) == Settlements(expenses2, memberRows, completed2)
  {
    assert SortedCreditors(expenses1, memberRows, completed1) == SortedCreditors(expenses2, memberRows, completed2);
    assert SortedDebtors(expenses1, memberRows, completed1) == SortedDebtors(expenses2, memberRows, completed2);
  }

  lemma SortedParties(expenses: seq<Expense>, memberRows: seq<string>, completed: seq<Transfer>)
    ensures var bal := TripBalances(expenses, memberRows, completed);
      && (forall p :: p in SortedCreditors(expenses, memberRows, completed) <==>
            p.name in bal && p.amount == bal[p.name].net && p.amount > Eps)
      && (forall p :: p in SortedDebtors(expenses, memberRows, completed) <==>
            p.name in bal && p.amount == -bal[p.name].net && p.amount > Eps)
      && NamesDistinct(SortedCreditors(expenses, memberRows, completed))
      && NamesDistinct(SortedDebtors(expenses, memberRows, completed))
      && NonNegative(SortedCreditors(expenses, memberRows, completed))
      && NonNegative(SortedDebtors(expenses, memberRows, completed))
  {
    var members := MemberSet(memberRows);
    var bal := TripBalances(expenses, memberRows, completed);
    var cs, ds := CreditorsOf(members, bal), DebtorsOf(members, bal);
    CreditorsMembership(members, bal);
    DebtorsMembership(members, bal);
    CreditorsDistinct(members, bal);
    DebtorsDistinct(members, bal);
    SortKeepsEntries(cs);
    SortKeepsEntries(ds);
    SortKeepsNamesDistinct(cs);
    SortKeepsNamesDistinct(ds);
  }

  /**
   * Every transfer goes from a member whose adjusted net is below minus the
   * tolerance to a member whose adjusted net is above it, so a member with
   * |net| at most the tolerance is in no transfer, and no one pays
   * themselves; every amount is at least the tolerance.
   */
  lemma SettlementEndpoints(expenses: seq<Expense>, memberRows: seq<string>, completed: seq<Transfer>)
    ensures var bal := TripBalances(expenses, memberRows, completed);
      forall t :: t in Settlements(expenses, memberRows, completed) ==>
        && t.from in memberRows && t.to in memberRows
        && t.from in bal && bal[t.from].net < -Eps
        && t.to in bal && bal[t.to].net > Eps
        && t.from != t.to
        && t.amount >= Eps
  {
    var bal := TripBalances(expenses, memberRows, completed);
    var exact := SettlementsExact(expenses, memberRows, completed);
    RoundAmountsAt(exact);
    if MemberSet(memberRows) != [] {
      var cs, ds := SortedCreditors(expenses, memberRows, completed), SortedDebtors(expenses, memberRows, completed);
      GreedyEndpoints(cs, ds);
      SortedParties(expenses, memberRows, completed);
      forall t | t in Settlements(expenses, memberRows, completed)
        ensures t.from in bal && bal[t.from].net < -Eps && t.to in bal && bal[t.to].net > Eps && t.amount >= Eps
      {
        var i :| 0 <= i < |exact| && Settlements(expenses, memberRows, completed)[i] == t;
        assert exact[i] in exact;
      }
    }
  }

  /** At most one transfer fewer than there are members. */
  lemma SettlementCount(expenses: seq<Expense>, memberRows: seq<string>, completed: seq<Transfer>)
    ensures var n := |MemberSet(memberRows)|;
      |Settlements(expenses, memberRows, completed)| <= if n == 0 then 0 else n - 1
  {
    var members := MemberSet(memberRows);
    var bal := TripBalances(expenses, memberRows, completed);
    var exact := SettlementsExact(expenses, memberRows, completed);
    RoundAmountsAt(exact);
    if members != [] {
      var cs, ds := SortedCreditors(expenses, memberRows, completed), SortedDebtors(expenses, memberRows, completed);
      assert |cs| + |ds| <= |members| by {
        var cs0, ds0 := CreditorsOf(members, bal), DebtorsOf(members, bal);
        SortDescSorts(cs0);
        SortDescSorts(ds0);
        assert |cs| == |multiset(cs)| == |cs0|;
        assert |ds| == |multiset(ds)| == |ds0|;
        PartiesCount(members, bal);
      }
      GreedyCount(cs, ds);
    }
  }

  /** No transfer at all when no member is owed more than the tolerance, or
      when no member owes more than it. */
  lemma SettlementOneSided(expenses: seq<Expense>, memberRows: seq<string>, completed: seq<Transfer>)
    requires var bal := TripBalances(expenses, memberRows, completed);
      (forall m :: m in bal ==> bal[m].net <= Eps) || (forall m :: m in bal ==> bal[m].net >= -Eps)
    ensures Settlements(expenses, memberRows, completed) == []
  {
    var bal := TripBalances(expenses, memberRows, completed);
    if MemberSet(memberRows) != [] {
      if forall m :: m in bal ==> bal[m].net <= Eps {
        NoCreditors(MemberSet(memberRows), bal);
      } else {
        NoDebtors(MemberSet(memberRows), bal);
      }
    }
  }

  /**
   * Before rounding, no member is told to pay more than it owes (its
   * adjusted net below minus the tolerance) or to receive more than it is
   * owed, and a member on neither side is told to pay or receive nothing.
   */
  lemma SettlementNoOverpay(expenses: seq<Expense>, memberRows: seq<string>, completed: seq<Transfer>, m: string)
    requires m in TripBalances(expenses, memberRows, completed)
    ensures var net := TripBalances(expenses, memberRows, completed)[m].net;
      var exact := SettlementsExact(expenses, memberRows, completed);
      && Outflow(exact, m) <= (if net < -Eps then -net else 0.0)
      && Inflow(exact, m) <= (if net > Eps then net else 0.0)
  {
    var bal := TripBalances(expenses, memberRows, completed);
    var net := bal[m].net;
    var exact := SettlementsExact(expenses, memberRows, completed);
    if MemberSet(memberRows) == [] {
      FlowsOfOthers(exact, m);
    } else {
      var cs, ds := SortedCreditors(expenses, memberRows, completed), SortedDebtors(expenses, memberRows, completed);
      SortedParties(expenses, memberRows, completed);
      GreedyEndpoints(cs, ds);
      if net < -Eps {
        GreedyNoOverpay(cs, ds, Party(m, -net));
      } else {
        assert forall t :: t in exact ==> t.from != m;
        FlowsOfOthers(exact, m);
      }
      if net > Eps {
        GreedyNoOverReceive(cs, ds, Party(m, net));
      } else {
        assert forall t :: t in exact ==> t.to != m;
        FlowsOfOthers(exact, m);
      }
    }
  }

  /** Each returned amount is its exact amount rounded to the cent, within
      half a cent, between the same two members. */
  lemma SettlementRounding(expenses: seq<Expense>, memberRows: seq<string>, completed: seq<Transfer>)
    ensures var exact := SettlementsExact(expenses, memberRows, completed);
      var s := Settlements(expenses, memberRows, completed);
      |s| == |exact| &&
      forall i :: 0 <= i < |s| ==>
        s[i].from == exact[i].from && s[i].to == exact[i].to && -0.005 <= s[i].amount - exact[i].amount <= 0.005
  {
    RoundAmountsAt(SettlementsExact(expenses, memberRows, completed));
  }

  // ---------------------------------------------------------------------------
  // A worked example
  // ---------------------------------------------------------------------------

  /** Member a pays 10 for a dinner shared by a and b. */
  function Dinner(): seq<Expense>
  {
    [Expense("a", 10.0, ["a", "b"], "")]
  }

  lemma DinnerMembers()
    ensures MemberSet(["a", "b"]) == ["a", "b"]
    ensures ValidExpenses(Dinner(), ["a", "b"]) == Dinner()
  {
    assert ["a", "b"][..1] == ["a"];
    assert MemberSet(["a"]) == ["a"];
  }

  lemma DinnerShares()
    ensures Paid("a", Dinner()) == 10.0 && Paid("b", Dinner()) == 0.0
    ensures Owes("a", Dinner()) == 5.0 && Owes("b", Dinner()) == 5.0
  {
    var es := Dinner();
    assert es[..0] == [];
    assert ["a", "b"][..1] == ["a"];
    assert Share(es[0]) == 5.0;
    assert OwedIn(["a"], "a", 5.0) == 5.0;
    assert OwedIn(["a"], "b", 5.0) == 0.0;
  }

  /** Once b's payment of 5 to a is completed, nothing is left to settle. */
  lemma DinnerSettled()
    ensures Settlements(Dinner(), ["a", "b"], [Transfer("b", "a", 5.0)]) == []
  {
    var done := [Transfer("b", "a", 5.0)];
    DinnerMembers();
    DinnerShares();
    assert done[..0] == [];
    var bal := TripBalances(Dinner(), ["a", "b"], done);
    assert bal["a"].net == 0.0 && bal["b"].net == 0.0;
    assert forall m :: m in bal ==> m == "a" || m == "b";
    SettlementOneSided(Dinner(), ["a", "b"], done);
  }

  /** Without that payment, a is owed 5 and b owes 5. */
  lemma DinnerParties()
    ensures SortedCreditors(Dinner(), ["a", "b"], []) == [Party("a", 5.0)]
    ensures SortedDebtors(Dinner(), ["a", "b"], []) == [Party("b", 5.0)]
  {
    var ms := ["a", "b"];
    DinnerMembers();
    var bal := TripBalances(Dinner(), ms, []);
    assert bal["a"].net == 5.0 && bal["b"].net == -5.0 by {
      DinnerShares();
    }
    assert ms[..1] == ["a"];
    assert CreditorsOf(ms, bal) == [Party("a", 5.0)];
    assert DebtorsOf(ms, bal) == [Party("b", 5.0)];
  }

  /** One creditor and one debtor owed the same amount: one transfer of it. */
  lemma GreedyOnePair(c: Party, d: Party)
    requires c.amount == d.amount > Eps
    ensures GreedyExact([c], [d]) == [Transfer(d.name, c.name, c.amount)]
  {
    assert NextCs([c], [d]) == [] && NextDs([c], [d]) == [];
  }

  /** Without that payment, b is told to pay a 5. */
  lemma DinnerOwed()
    ensures Settlements(Dinner(), ["a", "b"], []) == [Transfer("b", "a", 5.0)]
  {
    var exact := SettlementsExact(Dinner(), ["a", "b"], []);
    assert exact == GreedyExact(SortedCreditors(Dinner(), ["a", "b"], []), SortedDebtors(Dinner(), ["a", "b"], [])) by {
      assert "a" in MemberSet(["a", "b"]);
    }
    assert exact == [Transfer("b", "a", 5.0)] by {
      DinnerParties();
      GreedyOnePair(Party("a", 5.0), Party("b", 5.0));
    }
    assert RoundAmounts(exact) == [Transfer("b", "a", Round2(5.0))];
    assert Round2(5.0) == 5.0;
  }
}
