/**
 * The last stage of the settlement computation
 * (backend/src/controllers/paymentsController.js, `calculateSettlements`,
 * lines 71-111, repeated in settlementController.js, lines 143-185):
 * members are split into creditors and debtors, each list is sorted by
 * amount, largest first, and a two-index loop pairs the head creditor with
 * the head debtor, emitting `{from: debtor, to: creditor, amount}`.
 *
 * The loop is the method SimplifyDebts, proved equal to the recursive
 * function GreedyExact followed by rounding; the properties of the greedy
 * matching are lemmas about GreedyExact.
 */
module Simplifier {
  import opened Ledger

  /** An entry of the `creditors` or `debtors` array: `{username, amount}`. */
  datatype Party = Party(name: string, amount: real)

  function Names(ps: seq<Party>): set<string>
  {
    set p | p in ps :: p.name
  }

  predicate NamesDistinct(ps: seq<Party>) {
    forall i, j :: 0 <= i < j < |ps| ==> ps[i].name != ps[j].name
  }

  predicate NonNegative(ps: seq<Party>) {
    forall p :: p in ps ==> p.amount >= 0.0
  }

  // ---------------------------------------------------------------------------
  // Creditors and debtors
  // ---------------------------------------------------------------------------

  /** The members whose net exceeds the tolerance, in member order, each with
      its net as the amount owed to it. */
  function CreditorsOf(members: seq<string>, balances: map<string, Balance>): seq<Party>
    requires forall m :: m in members ==> m in balances
  {
    if members == [] then []
    else
      var m := members[|members| - 1];
      CreditorsOf(members[..|members| - 1], balances) + (if balances[m].net > Eps then [Party(m, balances[m].net)] else [])
  }

  /** The members whose net is below minus the tolerance, in member order,
      each with the absolute value of its net as the amount it owes. */
  function DebtorsOf(members: seq<string>, balances: map<string, Balance>): seq<Party>
    requires forall m :: m in members ==> m in balances
  {
    if members == [] then []
    else
      var m := members[|members| - 1];
      DebtorsOf(members[..|members| - 1], balances) + (if balances[m].net < -Eps then [Party(m, -balances[m].net)] else [])
  }

  /** A creditor entry is exactly a member whose net exceeds the tolerance,
      carrying that net. */
  lemma {:induction false} CreditorsMembership(members: seq<string>, balances: map<string, Balance>)
    requires forall m :: m in members ==> m in balances
    ensures forall p :: p in CreditorsOf(members, balances) <==>
      p.name in members && p.amount == balances[p.name].net && p.amount > Eps
  {
    if members != [] {
      var init, m := members[..|members| - 1], members[|members| - 1];
      assert members == init + [m];
      CreditorsMembership(init, balances);
    }
  }

  /** A debtor entry is exactly a member whose net is below minus the
      tolerance, carrying the absolute value of that net. */
  lemma {:induction false} DebtorsMembership(members: seq<string>, balances: map<string, Balance>)
    requires forall m :: m in members ==> m in balances
    ensures forall p :: p in DebtorsOf(members, balances) <==>
      p.name in members && p.amount == -balances[p.name].net && p.amount > Eps
  {
    if members != [] {
      var init, m := members[..|members| - 1], members[|members| - 1];
      assert members == init + [m];
      DebtorsMembership(init, balances);
    }
  }

  /** Over distinct members, no name is a creditor twice. */
  lemma {:induction false} CreditorsDistinct(members: seq<string>, balances: map<string, Balance>)
    requires forall m :: m in members ==> m in balances
    requires Distinct(members)
    ensures NamesDistinct(CreditorsOf(members, balances))
  {
    if members != [] {
      var init, m := members[..|members| - 1], members[|members| - 1];
      assert members == init + [m];
      CreditorsDistinct(init, balances);
      CreditorsMembership(init, balances);
      var cs, r := CreditorsOf(init, balances), CreditorsOf(members, balances);
      forall i, j | 0 <= i < j < |r| ensures r[i].name != r[j].name {
        if j >= |cs| {
          assert r[i] in cs;
        }
      }
    }
  }

  /** Over distinct members, no name is a debtor twice. */
  lemma {:induction false} DebtorsDistinct(members: seq<string>, balances: map<string, Balance>)
    requires forall m :: m in members ==> m in balances
    requires Distinct(members)
    ensures NamesDistinct(DebtorsOf(members, balances))
  {
    if members != [] {
      var init, m := members[..|members| - 1], members[|members| - 1];
      assert members == init + [m];
      DebtorsDistinct(init, balances);
      DebtorsMembership(init, balances);
      var ds, r := DebtorsOf(init, balances), DebtorsOf(members, balances);
      forall i, j | 0 <= i < j < |r| ensures r[i].name != r[j].name {
        if j >= |ds| {
          assert r[i] in ds;
        }
      }
    }
  }

  /** No member is both a creditor and a debtor, so together they number at
      most the members. */
  lemma {:induction false} PartiesCount(members: seq<string>, balances: map<string, Balance>)
    requires forall m :: m in members ==> m in balances
    ensures |CreditorsOf(members, balances)| + |DebtorsOf(members, balances)| <= |members|
  {
    if members != [] {
      PartiesCount(members[..|members| - 1], balances);
    }
  }

  lemma {:induction false} NoCreditors(members: seq<string>, balances: map<string, Balance>)
    requires forall m :: m in members ==> m in balances && balances[m].net <= Eps
    ensures CreditorsOf(members, balances) == []
  {
    if members != [] {
      NoCreditors(members[..|members| - 1], balances);
    }
  }

  lemma {:induction false} NoDebtors(members: seq<string>, balances: map<string, Balance>)
    requires forall m :: m in members ==> m in balances && balances[m].net >= -Eps
    ensures DebtorsOf(members, balances) == []
  {
    if members != [] {
      NoDebtors(members[..|members| - 1], balances);
    }
  }

  /** The `forEach` that pushes each member onto `creditors` or `debtors`. */
  method Partition(members: seq<string>, balances: map<string, Balance>) returns (creditors: seq<Party>, debtors: seq<Party>)
    requires forall m :: m in members ==> m in balances
    ensures creditors == CreditorsOf(members, balances)
    ensures debtors == DebtorsOf(members, balances)
  {
    creditors, debtors := [], [];
    var i := 0;
    while i < |members|
      invariant i <= |members|
      invariant creditors == CreditorsOf(members[..i], balances)
      invariant debtors == DebtorsOf(members[..i], balances)
    {
      var m := members[i];
      assert members[..i + 1][..i] == members[..i];
      var net := balances[m].net;
      if net > Eps {
        creditors := creditors + [Party(m, net)];
      } else if net < -Eps {
        debtors := debtors + [Party(m, -net)];
      }
      i := i + 1;
    }
    assert members[..i] == members;
  }

  // ---------------------------------------------------------------------------
  // Stable sort by amount, largest first
  // ---------------------------------------------------------------------------

  predicate SortedDesc(ps: seq<Party>) {
    forall i, j :: 0 <= i < j < |ps| ==> ps[i].amount >= ps[j].amount
  }

  /** Places `x` after every entry whose amount is at least its own. */
  function InsertDesc(sorted: seq<Party>, x: Party): (r: seq<Party>)
    ensures |r| == |sorted| + 1
    ensures forall y :: y in r <==> y in sorted || y == x
  {
    if sorted == [] then [x]
    else if sorted[0].amount >= x.amount then [sorted[0]] + InsertDesc(sorted[1..], x)
    else [x] + sorted
  }

  lemma {:induction false} InsertPermutes(sorted: seq<Party>, x: Party)
    ensures multiset(InsertDesc(sorted, x)) == multiset(sorted) + multiset{x}
  {
    if sorted != [] && sorted[0].amount >= x.amount {
      assert sorted == [sorted[0]] + sorted[1..];
      InsertPermutes(sorted[1..], x);
    }
  }

  lemma {:induction false} InsertMembers(sorted: seq<Party>, x: Party)
    ensures forall y :: y in InsertDesc(sorted, x) ==> y == x || y in sorted
  {
    if sorted != [] && sorted[0].amount >= x.amount {
      InsertMembers(sorted[1..], x);
    }
  }

  lemma {:induction false} InsertSorted(sorted: seq<Party>, x: Party)
    requires SortedDesc(sorted)
    ensures SortedDesc(InsertDesc(sorted, x))
  {
    if sorted != [] && sorted[0].amount >= x.amount {
      var r' := InsertDesc(sorted[1..], x);
      InsertSorted(sorted[1..], x);
      InsertMembers(sorted[1..], x);
      forall y | y in r' ensures y.amount <= sorted[0].amount {
        if y != x {
          var i :| 0 <= i < |sorted[1..]| && sorted[1..][i] == y;
          assert sorted[i + 1] == y;
        }
      }
      ConsSorted(sorted[0], r');
    }
  }

  lemma ConsSorted(h: Party, ps: seq<Party>)
    requires SortedDesc(ps) && forall y :: y in ps ==> y.amount <= h.amount
    ensures SortedDesc([h] + ps)
  {
    var r := [h] + ps;
    forall i, j | 0 <= i < j < |r| ensures r[i].amount >= r[j].amount {
      assert r[j] == ps[j - 1];
      if i == 0 {
        assert ps[j - 1] in ps;
      } else {
        assert r[i] == ps[i - 1];
      }
    }
  }

  /**
   * `array.sort((a, b) => b.amount - a.amount)`: the library sort is stable,
   * so this is insertion of each entry, in order, after the entries with an
   * amount at least as large.
   */
  function SortDesc(ps: seq<Party>): (r: seq<Party>)
    ensures |r| == |ps|
    ensures forall p :: p in r <==> p in ps
  {
    if ps == [] then [] else InsertDesc(SortDesc(ps[..|ps| - 1]), ps[|ps| - 1])
  }

  /** The sort orders by amount, largest first, and is a permutation. */
  lemma {:induction false} SortDescSorts(ps: seq<Party>)
    ensures SortedDesc(SortDesc(ps))
    ensures multiset(SortDesc(ps)) == multiset(ps)
  {
    if ps != [] {
      var init, last := ps[..|ps| - 1], ps[|ps| - 1];
      assert ps == init + [last];
      SortDescSorts(init);
      InsertSorted(SortDesc(init), last);
      InsertPermutes(SortDesc(init), last);
    }
  }

  /** The entries with amount exactly `v`, in order. */
  function WithAmount(ps: seq<Party>, v: real): seq<Party>
  {
    if ps == [] then []
    else (if ps[0].amount == v then [ps[0]] else []) + WithAmount(ps[1..], v)
  }

  lemma {:induction false} WithAmountAppend(a: seq<Party>, b: seq<Party>, v: real)
    ensures WithAmount(a + b, v) == WithAmount(a, v) + WithAmount(b, v)
  {
    if a == [] {
      assert a + b == b;
    } else {
      var head := if a[0].amount == v then [a[0]] else [];
      assert WithAmount(a + b, v) == head + WithAmount(a[1..] + b, v) by {
        assert (a + b)[0] == a[0];
        assert (a + b)[1..] == a[1..] + b;
      }
      WithAmountAppend(a[1..], b, v);
      assert head + (WithAmount(a[1..], v) + WithAmount(b, v)) == (head + WithAmount(a[1..], v)) + WithAmount(b, v);
    }
  }

  /** Appending one entry appends it to the entries of its amount. */
  lemma WithAmountSnoc(ps: seq<Party>, x: Party, v: real)
    ensures WithAmount(ps + [x], v) == WithAmount(ps, v) + (if x.amount == v then [x] else [])
  {
    assert [x][1..] == [];
    WithAmountAppend(ps, [x], v);
  }

  lemma {:induction false} WithAmountNone(ps: seq<Party>, v: real)
    requires forall p :: p in ps ==> p.amount != v
    ensures WithAmount(ps, v) == []
  {
    if ps != [] {
      assert forall p :: p in ps[1..] ==> p in ps;
      WithAmountNone(ps[1..], v);
    }
  }

  lemma {:induction false} InsertStable(sorted: seq<Party>, x: Party, v: real)
    requires SortedDesc(sorted)
    ensures WithAmount(InsertDesc(sorted, x), v) == WithAmount(sorted, v) + (if x.amount == v then [x] else [])
  {
    if sorted == [] {
    } else if sorted[0].amount >= x.amount {
      InsertStable(sorted[1..], x, v);
      assert ([sorted[0]] + InsertDesc(sorted[1..], x))[1..] == InsertDesc(sorted[1..], x);
    } else {
      assert ([x] + sorted)[1..] == sorted;
      if x.amount == v {
        forall p | p in sorted ensures p.amount != v {
          var i :| 0 <= i < |sorted| && sorted[i] == p;
          assert sorted[i].amount <= sorted[0].amount;
        }
        WithAmountNone(sorted, v);
      }
    }
  }

  /** Stability: among entries of equal amount, the sort keeps input order. */
  lemma {:induction false} SortStable(ps: seq<Party>, v: real)
    ensures WithAmount(SortDesc(ps), v) == WithAmount(ps, v)
  {
    if ps != [] {
      var init, last := ps[..|ps| - 1], ps[|ps| - 1];
      var tail := if last.amount == v then [last] else [];
      var sortedInit := SortDesc(init);
      assert WithAmount(SortDesc(ps), v) == WithAmount(sortedInit, v) + tail by {
        assert SortDesc(ps) == InsertDesc(sortedInit, last);
        SortDescSorts(init);
        InsertStable(sortedInit, last, v);
      }
      assert WithAmount(sortedInit, v) == WithAmount(init, v) by {
        SortStable(init, v);
      }
      assert WithAmount(ps, v) == WithAmount(init, v) + tail by {
        assert ps == init + [last];
        WithAmountSnoc(init, last, v);
      }
    }
  }

  lemma SortKeepsEntries(ps: seq<Party>)
    ensures forall p :: p in SortDesc(ps) <==> p in ps
  {
    var r := SortDesc(ps);
    SortDescSorts(ps);
    assert forall p :: p in r <==> p in multiset(r);
    assert forall p :: p in ps <==> p in multiset(ps);
  }

  lemma NamesCons(p: Party, ps: seq<Party>)
    ensures Names([p] + ps) == {p.name} + Names(ps)
  {
    forall n | n in Names([p] + ps) ensures n in {p.name} + Names(ps) {
      var q :| q in [p] + ps && q.name == n;
      if q != p {
        assert q in ps;
      }
    }
    forall n | n in Names(ps) ensures n in Names([p] + ps) {
      var q :| q in ps && q.name == n;
      assert q in [p] + ps;
    }
  }

  lemma ConsKeepsNamesDistinct(p: Party, ps: seq<Party>)
    requires NamesDistinct(ps) && p.name !in Names(ps)
    ensures NamesDistinct([p] + ps) && Names([p] + ps) == {p.name} + Names(ps)
  {
    NamesCons(p, ps);
    var r := [p] + ps;
    forall i, j | 0 <= i < j < |r| ensures r[i].name != r[j].name {
      assert r[j] == ps[j - 1] && ps[j - 1] in ps;
      if i > 0 {
        assert r[i] == ps[i - 1];
      }
    }
  }

  lemma {:induction false} InsertKeepsNamesDistinct(sorted: seq<Party>, x: Party)
    requires NamesDistinct(sorted) && x.name !in Names(sorted)
    ensures NamesDistinct(InsertDesc(sorted, x)) && Names(InsertDesc(sorted, x)) == Names(sorted) + {x.name}
  {
    if sorted == [] {
      NamesCons(x, []);
    } else if sorted[0].amount >= x.amount {
      var s0, rest := sorted[0], sorted[1..];
      assert sorted == [s0] + rest;
      NamesCons(s0, rest);
      forall q | q in rest ensures q.name != s0.name {
        var i :| 0 <= i < |rest| && rest[i] == q;
        assert sorted[i + 1] == q;
      }
      assert NamesDistinct(rest);
      InsertKeepsNamesDistinct(rest, x);
      ConsKeepsNamesDistinct(s0, InsertDesc(rest, x));
    } else {
      ConsKeepsNamesDistinct(x, sorted);
    }
  }

  /** Sorting neither merges nor duplicates names. */
  lemma {:induction false} SortKeepsNamesDistinct(ps: seq<Party>)
    requires NamesDistinct(ps)
    ensures NamesDistinct(SortDesc(ps)) && Names(SortDesc(ps)) == Names(ps)
  {
    if ps != [] {
      var init, last := ps[..|ps| - 1], ps[|ps| - 1];
      assert ps == init + [last];
      SortKeepsNamesDistinct(init);
      assert Names(ps) == Names(init) + {last.name};
      InsertKeepsNamesDistinct(SortDesc(init), last);
    }
  }

  // ---------------------------------------------------------------------------
  // Greedy matching
  // ---------------------------------------------------------------------------

  /** After a step, the head keeps its remainder, or is passed when the
      remainder fell below the tolerance. */
  function Advance(ps: seq<Party>, rest: real): (r: seq<Party>)
    requires ps != []
    ensures |r| <= |ps| && (rest < Eps ==> |r| < |ps|)
  {
    if rest < Eps then ps[1..] else [ps[0].(amount := rest)] + ps[1..]
  }

  /** `Math.min(creditor.amount, debtor.amount)` for the two heads. */
  function Settle(cs: seq<Party>, ds: seq<Party>): real
    requires cs != [] && ds != []
  {
    Min(cs[0].amount, ds[0].amount)
  }

  /** The transfer a round emits: only when the settled amount exceeds the
      tolerance. */
  function Emit(cs: seq<Party>, ds: seq<Party>): seq<Transfer>
    requires cs != [] && ds != []
  {
    if Settle(cs, ds) > Eps then [Transfer(ds[0].name, cs[0].name, Settle(cs, ds))] else []
  }

  function NextCs(cs: seq<Party>, ds: seq<Party>): (r: seq<Party>)
    requires cs != [] && ds != []
    ensures |r| <= |cs|
  {
    Advance(cs, cs[0].amount - Settle(cs, ds))
  }

  function NextDs(cs: seq<Party>, ds: seq<Party>): (r: seq<Party>)
    requires cs != [] && ds != []
    ensures |r| <= |ds|
    ensures |NextCs(cs, ds)| + |r| < |cs| + |ds|
  {
    Advance(ds, ds[0].amount - Settle(cs, ds))
  }

  /**
   * The transfers the loop emits, before rounding: settle the head creditor
   * against the head debtor for the smaller of their remainders, emit it
   * when it exceeds the tolerance, subtract it from both, and pass every
   * head whose remainder fell below the tolerance.
   */
  function GreedyExact(cs: seq<Party>, ds: seq<Party>): (r: seq<Transfer>)
    ensures |r| <= |cs| + |ds|
    decreases |cs| + |ds|
  {
    if cs == [] || ds == [] then []
    else Emit(cs, ds) + GreedyExact(NextCs(cs, ds), NextDs(cs, ds))
  }

  /** `parseFloat(settleAmount.toFixed(2))` on every emitted amount. */
  function RoundAmounts(ts: seq<Transfer>): (r: seq<Transfer>)
    ensures |r| == |ts|
  {
    if ts == [] then [] else [ts[0].(amount := Round2(ts[0].amount))] + RoundAmounts(ts[1..])
  }

  lemma {:induction false} RoundAmountsAppend(a: seq<Transfer>, b: seq<Transfer>)
    ensures RoundAmounts(a + b) == RoundAmounts(a) + RoundAmounts(b)
  {
    if a == [] {
      assert a + b == b;
    } else {
      assert (a + b)[0] == a[0] && (a + b)[1..] == a[1..] + b;
      RoundAmountsAppend(a[1..], b);
    }
  }

  /** Rounding keeps every transfer's endpoints and moves its amount by at
      most half a cent. */
  lemma {:induction false} RoundAmountsAt(ts: seq<Transfer>)
    ensures |RoundAmounts(ts)| == |ts|
    ensures forall i :: 0 <= i < |ts| ==> RoundAmounts(ts)[i] == ts[i].(amount := Round2(ts[i].amount))
  {
    if ts != [] {
      RoundAmountsAt(ts[1..]);
      forall i | 1 <= i < |ts| ensures RoundAmounts(ts)[i] == ts[i].(amount := Round2(ts[i].amount)) {
        assert RoundAmounts(ts)[i] == RoundAmounts(ts[1..])[i - 1];
      }
    }
  }

  lemma ConcatAssoc(a: seq<Transfer>, b: seq<Transfer>, c: seq<Transfer>)
    ensures (a + b) + c == a + (b + c)
  {
  }

  /** Updating the head of the unfinished part of the array and moving the
      index past it when it is settled leaves Advance of that part. */
  lemma AdvanceSlice(ps: seq<Party>, i: nat, rest: real, ps': seq<Party>, j: nat)
    requires i < |ps| && ps' == ps[i := ps[i].(amount := rest)]
    requires j == if rest < Eps then i + 1 else i
    ensures j <= |ps'| && ps'[j..] == Advance(ps[i..], rest)
  {
    if rest < Eps {
      assert ps'[i + 1..] == ps[i..][1..];
    } else {
      assert ps'[i..] == [ps[i].(amount := rest)] + ps[i..][1..];
    }
  }

  /** One round of the matching, rounded: what was emitted before, then the
      rounded transfer of this round, then the rest. */
  lemma RoundedStep(cs: seq<Party>, ds: seq<Party>, before: seq<Transfer>, after: seq<Transfer>, target: seq<Transfer>)
    requires cs != [] && ds != []
    requires before + RoundAmounts(GreedyExact(cs, ds)) == target
    requires after == before + RoundAmounts(Emit(cs, ds))
    ensures after + RoundAmounts(GreedyExact(NextCs(cs, ds), NextDs(cs, ds))) == target
  {
    var rest := GreedyExact(NextCs(cs, ds), NextDs(cs, ds));
    RoundAmountsAppend(Emit(cs, ds), rest);
    ConcatAssoc(before, RoundAmounts(Emit(cs, ds)), RoundAmounts(rest));
  }

  /** One round of the loop keeps "emitted so far, then the matching of the
      unfinished parts" equal to the whole rounded matching. */
  lemma SettleStep(before: seq<Transfer>, cs: seq<Party>, ci: nat, ds: seq<Party>, di: nat, target: seq<Transfer>,
                   s: real, after: seq<Transfer>, cs': seq<Party>, ci': nat, ds': seq<Party>, di': nat)
    requires ci < |cs| && di < |ds|
    requires before + RoundAmounts(GreedyExact(cs[ci..], ds[di..])) == target
    requires s == Min(cs[ci].amount, ds[di].amount)
    requires after == (if s > Eps then before + [Transfer(ds[di].name, cs[ci].name, Round2(s))] else before)
      && cs' == cs[ci := cs[ci].(amount := cs[ci].amount - s)]
      && ds' == ds[di := ds[di].(amount := ds[di].amount - s)]
      && ci' == (if cs[ci].amount - s < Eps then ci + 1 else ci)
      && di' == (if ds[di].amount - s < Eps then di + 1 else di)
    ensures ci' <= |cs'| && di' <= |ds'| && after + RoundAmounts(GreedyExact(cs'[ci'..], ds'[di'..])) == target
  {
    var cNow, dNow := cs[ci..], ds[di..];
    assert cNow[0] == cs[ci] && dNow[0] == ds[di];
    EmitStep(cNow, dNow, before, s, after, target);
    CreditorStep(cs, ci, ds, di, s, cs', ci');
    DebtorStep(cs, ci, ds, di, s, ds', di');
    RestIs(after, NextCs(cNow, dNow), NextDs(cNow, dNow), cs'[ci'..], ds'[di'..], target);
  }

  /** The loop's update of the creditors and their index leaves, from the
      index on, the remainder `NextCs` of the round. */
  lemma CreditorStep(cs: seq<Party>, ci: nat, ds: seq<Party>, di: nat, s: real, cs': seq<Party>, ci': nat)
    requires ci < |cs| && di < |ds|
    requires s == Min(cs[ci].amount, ds[di].amount)
    requires cs' == cs[ci := cs[ci].(amount := cs[ci].amount - s)]
    requires ci' == if cs[ci].amount - s < Eps then ci + 1 else ci
    ensures ci' <= |cs'| && cs'[ci'..] == NextCs(cs[ci..], ds[di..])
  {
    var cNow, dNow := cs[ci..], ds[di..];
    assert NextCs(cNow, dNow) == Advance(cNow, cs[ci].amount - s) by {
      assert cNow[0] == cs[ci] && dNow[0] == ds[di];
    }
    AdvanceSlice(cs, ci, cs[ci].amount - s, cs', ci');
  }

  /** The same for the debtors and `NextDs`. */
  lemma DebtorStep(cs: seq<Party>, ci: nat, ds: seq<Party>, di: nat, s: real, ds': seq<Party>, di': nat)
    requires ci < |cs| && di < |ds|
    requires s == Min(cs[ci].amount, ds[di].amount)
    requires ds' == ds[di := ds[di].(amount := ds[di].amount - s)]
    requires di' == if ds[di].amount - s < Eps then di + 1 else di
    ensures di' <= |ds'| && ds'[di'..] == NextDs(cs[ci..], ds[di..])
  {
    var cNow, dNow := cs[ci..], ds[di..];
    assert NextDs(cNow, dNow) == Advance(dNow, ds[di].amount - s) by {
      assert cNow[0] == cs[ci] && dNow[0] == ds[di];
    }
    AdvanceSlice(ds, di, ds[di].amount - s, ds', di');
  }

  lemma RestIs(after: seq<Transfer>, nc: seq<Party>, nd: seq<Party>, cs: seq<Party>, ds: seq<Party>, target: seq<Transfer>)
    requires after + RoundAmounts(GreedyExact(nc, nd)) == target && cs == nc && ds == nd
    ensures after + RoundAmounts(GreedyExact(cs, ds)) == target
  {
  }

  /** The round's transfer, rounded, is what the loop appends. */
  lemma EmitStep(cs: seq<Party>, ds: seq<Party>, before: seq<Transfer>, s: real, after: seq<Transfer>, target: seq<Transfer>)
    requires cs != [] && ds != []
    requires before + RoundAmounts(GreedyExact(cs, ds)) == target
    requires s == Min(cs[0].amount, ds[0].amount)
    requires after == if s > Eps then before + [Transfer(ds[0].name, cs[0].name, Round2(s))] else before
    ensures after + RoundAmounts(GreedyExact(NextCs(cs, ds), NextDs(cs, ds))) == target
  {
    assert RoundAmounts(Emit(cs, ds)) == if s > Eps then [Transfer(ds[0].name, cs[0].name, Round2(s))] else [] by {
      assert Settle(cs, ds) == s;
    }
    RoundedStep(cs, ds, before, after, target);
  }

  /**
   * The `while` loop over `creditorIndex` and `debtorIndex`. Each round
   * drives one remainder to zero and so passes at least one head; the ghost
   * count of rounds is at most |creditors| + |debtors| - 1, and zero when
   * either list is empty.
   */
  method SimplifyDebts(creditors: seq<Party>, debtors: seq<Party>) returns (settlements: seq<Transfer>, ghost rounds: nat)
    ensures settlements == RoundAmounts(GreedyExact(creditors, debtors))
    ensures rounds <= if creditors == [] || debtors == [] then 0 else |creditors| + |debtors| - 1
  {
    var cs, ds := creditors, debtors;
    var ci, di := 0, 0;
    settlements, rounds := [], 0;
    while ci < |cs| && di < |ds|
      invariant |cs| == |creditors| && |ds| == |debtors|
      invariant ci <= |cs| && di <= |ds|
      invariant settlements + RoundAmounts(GreedyExact(cs[ci..], ds[di..])) == RoundAmounts(GreedyExact(creditors, debtors))
      invariant rounds <= ci + di
      invariant creditors == [] || debtors == [] ==> rounds == 0
      invariant ci == |cs| && di == |ds| && rounds > 0 ==> rounds < ci + di
      decreases |cs| - ci + |ds| - di
    {
      var creditor, debtor := cs[ci], ds[di];
      var settle := Min(creditor.amount, debtor.amount);
      ghost var before, cs0, ci0, ds0, di0 := settlements, cs, ci, ds, di;
      if settle > Eps {
        settlements := settlements + [Transfer(debtor.name, creditor.name, Round2(settle))];
      }
      cs := cs[ci := creditor.(amount := creditor.amount - settle)];
      ds := ds[di := debtor.(amount := debtor.amount - settle)];
      if cs[ci].amount < Eps {
        ci := ci + 1;
      }
      if ds[di].amount < Eps {
        di := di + 1;
      }
      SettleStep(before, cs0, ci0, ds0, di0, RoundAmounts(GreedyExact(creditors, debtors)), settle, settlements, cs, ci, ds, di);
      rounds := rounds + 1;
    }
    assert GreedyExact(cs[ci..], ds[di..]) == [];
    assert settlements + RoundAmounts([]) == settlements;
  }

  // ---------------------------------------------------------------------------
  // What the greedy matching guarantees
  // ---------------------------------------------------------------------------

  lemma AdvanceNames(ps: seq<Party>, rest: real)
    requires ps != []
    ensures Names(Advance(ps, rest)) <= Names(ps)
  {
    assert ps == [ps[0]] + ps[1..];
  }

  /** Every transfer goes from a debtor to a creditor and exceeds the tolerance. */
  lemma {:induction false} GreedyEndpoints(cs: seq<Party>, ds: seq<Party>)
    ensures forall t :: t in GreedyExact(cs, ds) ==> t.from in Names(ds) && t.to in Names(cs) && t.amount > Eps
    decreases |cs| + |ds|
  {
    if cs != [] && ds != [] {
      GreedyEndpoints(NextCs(cs, ds), NextDs(cs, ds));
      AdvanceNames(cs, cs[0].amount - Settle(cs, ds));
      AdvanceNames(ds, ds[0].amount - Settle(cs, ds));
    }
  }

  /** The number of transfers is at most |creditors| + |debtors| - 1, and an
      empty side yields none. */
  lemma {:induction false} GreedyCount(cs: seq<Party>, ds: seq<Party>)
    ensures |GreedyExact(cs, ds)| <= if cs == [] || ds == [] then 0 else |cs| + |ds| - 1
    decreases |cs| + |ds|
  {
    if cs != [] && ds != [] {
      GreedyCount(NextCs(cs, ds), NextDs(cs, ds));
    }
  }

  /** Total, before rounding, that `n` is told to pay. */
  function Outflow(ts: seq<Transfer>, n: string): real
  {
    if ts == [] then 0.0 else (if ts[0].from == n then ts[0].amount else 0.0) + Outflow(ts[1..], n)
  }

  /** Total, before rounding, that `n` is told to receive. */
  function Inflow(ts: seq<Transfer>, n: string): real
  {
    if ts == [] then 0.0 else (if ts[0].to == n then ts[0].amount else 0.0) + Inflow(ts[1..], n)
  }

  lemma {:induction false} FlowsOfOthers(ts: seq<Transfer>, n: string)
    ensures (forall t :: t in ts ==> t.from != n) ==> Outflow(ts, n) == 0.0
    ensures (forall t :: t in ts ==> t.to != n) ==> Inflow(ts, n) == 0.0
  {
    if ts != [] {
      assert forall t :: t in ts[1..] ==> t in ts;
      FlowsOfOthers(ts[1..], n);
    }
  }

  lemma {:induction false} FlowsAppend(a: seq<Transfer>, b: seq<Transfer>, n: string)
    ensures Outflow(a + b, n) == Outflow(a, n) + Outflow(b, n)
    ensures Inflow(a + b, n) == Inflow(a, n) + Inflow(b, n)
  {
    if a == [] {
      assert a + b == b;
    } else {
      assert (a + b)[0] == a[0] && (a + b)[1..] == a[1..] + b;
      FlowsAppend(a[1..], b, n);
    }
  }

  /** One round of the matching, seen from the flows of one name. */
  lemma FlowsStep(cs: seq<Party>, ds: seq<Party>, n: string)
    requires cs != [] && ds != []
    ensures Outflow(GreedyExact(cs, ds), n)
      == (if Settle(cs, ds) > Eps && ds[0].name == n then Settle(cs, ds) else 0.0)
       + Outflow(GreedyExact(NextCs(cs, ds), NextDs(cs, ds)), n)
    ensures Inflow(GreedyExact(cs, ds), n)
      == (if Settle(cs, ds) > Eps && cs[0].name == n then Settle(cs, ds) else 0.0)
       + Inflow(GreedyExact(NextCs(cs, ds), NextDs(cs, ds)), n)
  {
    FlowsAppend(Emit(cs, ds), GreedyExact(NextCs(cs, ds), NextDs(cs, ds)), n);
  }

  /** After a round the head's remainder stays (or its name is gone), the
      other entries stay, and names stay distinct and amounts non-negative. */
  lemma AdvanceKeeps(ps: seq<Party>, rest: real)
    requires ps != [] && NamesDistinct(ps) && NonNegative(ps) && rest >= 0.0
    ensures NamesDistinct(Advance(ps, rest)) && NonNegative(Advance(ps, rest))
    ensures forall p :: p in ps[1..] ==> p in Advance(ps, rest)
    ensures rest >= Eps ==> ps[0].(amount := rest) in Advance(ps, rest)
    ensures rest < Eps ==> ps[0].name !in Names(Advance(ps, rest))
  {
    if rest < Eps {
      forall p | p in ps[1..] ensures p.name != ps[0].name {
        var i :| 0 <= i < |ps[1..]| && ps[1..][i] == p;
        assert ps[i + 1] == p;
      }
    }
  }

  /** Advancing keeps amounts non-negative. */
  lemma AdvanceNonNegative(ps: seq<Party>, rest: real)
    requires ps != [] && NonNegative(ps) && rest >= 0.0
    ensures NonNegative(Advance(ps, rest))
  {
    if rest >= Eps {
      assert forall p :: p in Advance(ps, rest) ==> p == ps[0].(amount := rest) || p in ps[1..];
    }
  }

  lemma NamedEntryIsHead(ps: seq<Party>, p: Party)
    requires ps != [] && NamesDistinct(ps) && p in ps
    ensures p.name == ps[0].name ==> p == ps[0]
    ensures p != ps[0] ==> p in ps[1..]
  {
    var i :| 0 <= i < |ps| && ps[i] == p;
    if i > 0 {
      assert ps[1..][i - 1] == p;
    }
  }

  /** Before rounding, no debtor is told to pay more than it owes (debtor
      names distinct, amounts non-negative). */
  lemma {:induction false} GreedyNoOverpay(cs: seq<Party>, ds: seq<Party>, p: Party)
    requires NamesDistinct(ds) && NonNegative(cs) && NonNegative(ds)
    requires p in ds
    ensures Outflow(GreedyExact(cs, ds), p.name) <= p.amount
    decreases |cs| + |ds|
  {
    if cs != [] && ds != [] {
      var d, s := ds[0], Settle(cs, ds);
      var cs', ds' := NextCs(cs, ds), NextDs(cs, ds);
      FlowsStep(cs, ds, p.name);
      AdvanceNonNegative(cs, cs[0].amount - s);
      AdvanceKeeps(ds, d.amount - s);
      NamedEntryIsHead(ds, p);
      if p != d {
        GreedyNoOverpay(cs', ds', p);
      } else if d.amount - s < Eps {
        GreedyEndpoints(cs', ds');
        FlowsOfOthers(GreedyExact(cs', ds'), p.name);
      } else {
        GreedyNoOverpay(cs', ds', d.(amount := d.amount - s));
      }
    }
  }

  /** Before rounding, no creditor is told to receive more than it is owed
      (creditor names distinct, amounts non-negative). */
  lemma {:induction false} GreedyNoOverReceive(cs: seq<Party>, ds: seq<Party>, p: Party)
    requires NamesDistinct(cs) && NonNegative(cs) && NonNegative(ds)
    requires p in cs
    ensures Inflow(GreedyExact(cs, ds), p.name) <= p.amount
    decreases |cs| + |ds|
  {
    if cs != [] && ds != [] {
      var c, s := cs[0], Settle(cs, ds);
      var cs', ds' := NextCs(cs, ds), NextDs(cs, ds);
      FlowsStep(cs, ds, p.name);
      AdvanceNonNegative(ds, ds[0].amount - s);
      AdvanceKeeps(cs, c.amount - s);
      NamedEntryIsHead(cs, p);
      if p != c {
        GreedyNoOverReceive(cs', ds', p);
      } else if c.amount - s < Eps {
        GreedyEndpoints(cs', ds');
        FlowsOfOthers(GreedyExact(cs', ds'), p.name);
      } else {
        GreedyNoOverReceive(cs', ds', c.(amount := c.amount - s));
      }
    }
  }
}
