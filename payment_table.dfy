/**
 * The payments table of backend/src/controllers/paymentsController.js and the
 * handlers that change it: `syncPendingPaymentsForTrip`, `createPayment`,
 * `completePayment`, `listTripPayments` and `resetTripPayments`.
 *
 * The table is the class PaymentStore, holding the rows in insertion order
 * and the next id the database would hand out. The trip's expenses, its
 * member rows, the caller's name, the outcome of the access checks, the
 * clock and the storage failures are inputs of its methods in place of the
 * database queries.
 */
module PaymentTable {
  import opened Ledger
  import opened Payments

  datatype Status = Pending | Completed

  /** A row of the payments table. `completedAt` is the completion time, an
      opaque clock reading. */
  datatype Payment = Payment(
    id: nat, trip: string, from: string, to: string, amount: real,
    status: Status, createdBy: string, completedAt: Option<nat>)

  /** Where a sync can fail: reading the expenses or the member rows, reading
      the completed payments (which the source ignores), the delete, or the
      insert. */
  datatype SyncFault =
    NoFault | ExpensesReadFails | MembersReadFails | CompletedReadFails | DeleteFails | InsertFails

  /** The ids grow with insertion order and stay below the next id, and a row
      carries a completion time exactly when it is completed. */
  predicate WellFormed(rows: seq<Payment>, nextId: nat)
  {
    && IdsIncreasing(rows)
    && (forall x :: x in rows ==> x.id < nextId && (x.status == Completed <==> x.completedAt.Some?))
  }

  predicate IdsIncreasing(rows: seq<Payment>)
  {
    forall i, j :: 0 <= i < j < |rows| ==> rows[i].id < rows[j].id
  }

  predicate IdsDecreasing(rows: seq<Payment>)
  {
    forall i, j :: 0 <= i < j < |rows| ==> rows[i].id > rows[j].id
  }

  function AsTransfer(p: Payment): Transfer
  {
    Transfer(p.from, p.to, p.amount)
  }

  /** The `(from, to, amount)` of the trip's rows in the given status, in row
      order. */
  function RowsIn(rows: seq<Payment>, trip: string, status: Status): (r: seq<Transfer>)
    ensures |r| <= |rows|
  {
    if rows == [] then []
    else
      var last := rows[|rows| - 1];
      RowsIn(rows[..|rows| - 1], trip, status)
      + (if last.trip == trip && last.status == status then [AsTransfer(last)] else [])
  }

  /** What `calculateSettlements` reads back as the trip's completed payments. */
  function CompletedOf(rows: seq<Payment>, trip: string): seq<Transfer>
  {
    RowsIn(rows, trip, Completed)
  }

  /** The trip's outstanding instructions. */
  function PendingOf(rows: seq<Payment>, trip: string): seq<Transfer>
  {
    RowsIn(rows, trip, Pending)
  }

  lemma {:induction false} RowsInAppend(a: seq<Payment>, b: seq<Payment>, trip: string, status: Status)
    ensures RowsIn(a + b, trip, status) == RowsIn(a, trip, status) + RowsIn(b, trip, status)
    decreases |b|
  {
    if b == [] {
      assert a + b == a;
    } else {
      assert (a + b)[..|a + b| - 1] == a + b[..|b| - 1];
      RowsInAppend(a, b[..|b| - 1], trip, status);
    }
  }

  lemma {:induction false} RowsInMembers(rows: seq<Payment>, trip: string, status: Status, t: Transfer)
    requires t in RowsIn(rows, trip, status)
    ensures exists x :: x in rows && x.trip == trip && x.status == status && AsTransfer(x) == t
    decreases |rows|
  {
    var init := rows[..|rows| - 1];
    if t in RowsIn(init, trip, status) {
      RowsInMembers(init, trip, status, t);
      var x :| x in init && x.trip == trip && x.status == status && AsTransfer(x) == t;
      assert x in rows;
    } else {
      assert rows[|rows| - 1] in rows;
    }
  }

  // ---------------------------------------------------------------------------
  // The delete of a sync
  // ---------------------------------------------------------------------------

  /** The rows the delete of a sync removes: the trip's pending rows, or in
      hard mode all of the trip's rows. */
  predicate Deleted(x: Payment, trip: string, hard: bool)
  {
    x.trip == trip && (hard || x.status == Pending)
  }

  function Kept(rows: seq<Payment>, trip: string, hard: bool): (r: seq<Payment>)
    ensures |r| <= |rows|
  {
    if rows == [] then []
    else
      var last := rows[|rows| - 1];
      Kept(rows[..|rows| - 1], trip, hard) + (if Deleted(last, trip, hard) then [] else [last])
  }

  /** The delete removes exactly the matching rows. */
  lemma {:induction false} KeptMembers(rows: seq<Payment>, trip: string, hard: bool)
    ensures forall x :: x in Kept(rows, trip, hard) <==> x in rows && !Deleted(x, trip, hard)
    decreases |rows|
  {
    if rows != [] {
      var init := rows[..|rows| - 1];
      KeptMembers(init, trip, hard);
      assert rows == init + [rows[|rows| - 1]];
    }
  }

  /** The delete keeps the remaining rows in their order. */
  lemma {:induction false} KeptIncreasing(rows: seq<Payment>, trip: string, hard: bool)
    requires IdsIncreasing(rows)
    ensures IdsIncreasing(Kept(rows, trip, hard))
    decreases |rows|
  {
    if rows != [] {
      var init := rows[..|rows| - 1];
      var last := rows[|rows| - 1];
      KeptIncreasing(init, trip, hard);
      KeptMembers(init, trip, hard);
      var k := Kept(init, trip, hard);
      forall i | 0 <= i < |k|
        ensures k[i].id < last.id
      {
        assert k[i] in k;
        var j :| 0 <= j < |init| && init[j] == k[i];
      }
      var r := Kept(rows, trip, hard);
      if !Deleted(last, trip, hard) {
        assert r == k + [last];
        forall i, j | 0 <= i < j < |r|
          ensures r[i].id < r[j].id
        {
          assert r[i] == k[i];
          if j < |k| {
            assert r[j] == k[j];
          }
        }
      }
    }
  }

  /** After the delete the trip has no pending rows, and in hard mode no rows
      at all. */
  lemma {:induction false} KeptNoneOfTrip(rows: seq<Payment>, trip: string, hard: bool, status: Status)
    requires hard || status == Pending
    ensures RowsIn(Kept(rows, trip, hard), trip, status) == []
    decreases |rows|
  {
    if rows != [] {
      var init := rows[..|rows| - 1];
      var last := rows[|rows| - 1];
      KeptNoneOfTrip(init, trip, hard, status);
      var tail := if Deleted(last, trip, hard) then [] else [last];
      RowsInAppend(Kept(init, trip, hard), tail, trip, status);
    }
  }

  /** A soft delete leaves the trip's completed payments as they were. */
  lemma {:induction false} SoftKeptCompleted(rows: seq<Payment>, trip: string)
    ensures CompletedOf(Kept(rows, trip, false), trip) == CompletedOf(rows, trip)
    decreases |rows|
  {
    if rows != [] {
      var init := rows[..|rows| - 1];
      var last := rows[|rows| - 1];
      SoftKeptCompleted(init, trip);
      var tail := if Deleted(last, trip, false) then [] else [last];
      RowsInAppend(Kept(init, trip, false), tail, trip, Completed);
    }
  }

  // ---------------------------------------------------------------------------
  // The insert of a sync
  // ---------------------------------------------------------------------------

  /** The row inserted for one settlement: pending, created by the caller or,
      when there is no caller name, by the debtor. */
  function PendingRow(id: nat, trip: string, t: Transfer, actor: string): (r: Payment)
    ensures r.id == id && r.trip == trip && r.status == Pending && r.completedAt == None
    ensures r.from == t.from && r.to == t.to && r.amount == t.amount
    ensures actor != "" ==> r.createdBy == actor
    ensures actor == "" ==> r.createdBy == t.from
  {
    Payment(id, trip, t.from, t.to, t.amount, Pending, if actor == "" then t.from else actor, None)
  }

  /** One pending row per settlement, in order, with fresh ids from `firstId`. */
  function PendingRows(firstId: nat, trip: string, plan: seq<Transfer>, actor: string): (r: seq<Payment>)
    ensures |r| == |plan|
  {
    seq(|plan|, i requires 0 <= i < |plan| => PendingRow(firstId + i, trip, plan[i], actor))
  }

  /** The inserted rows are exactly the plan as pending rows of the trip. */
  lemma {:induction false} PendingRowsIn(firstId: nat, trip: string, plan: seq<Transfer>, actor: string)
    ensures PendingOf(PendingRows(firstId, trip, plan, actor), trip) == plan
    ensures CompletedOf(PendingRows(firstId, trip, plan, actor), trip) == []
    decreases |plan|
  {
    if plan != [] {
      var rows := PendingRows(firstId, trip, plan, actor);
      assert rows[..|rows| - 1] == PendingRows(firstId, trip, plan[..|plan| - 1], actor);
      PendingRowsIn(firstId, trip, plan[..|plan| - 1], actor);
      assert plan == plan[..|plan| - 1] + [plan[|plan| - 1]];
    }
  }

  // ---------------------------------------------------------------------------
  // syncPendingPaymentsForTrip
  // ---------------------------------------------------------------------------

  /** The table after a sync, and what the sync answered. */
  datatype Synced = Synced(rows: seq<Payment>, nextId: nat, outcome: Result<nat>)

  /** The failures that stop a sync before its delete. */
  predicate FailsBeforeDelete(fault: SyncFault)
  {
    fault == ExpensesReadFails || fault == MembersReadFails || fault == DeleteFails
  }

  /** The settlements a sync computes, from the table as it was before the
      sync; a failed read of the completed payments reads as none. */
  function SyncPlan(rows: seq<Payment>, trip: string, expenses: seq<Expense>, memberRows: seq<string>, fault: SyncFault): seq<Transfer>
  {
    Settlements(expenses, memberRows, if fault == CompletedReadFails then [] else CompletedOf(rows, trip))
  }

  /** The delete, then the insert of the given settlements, as far as the
      fault lets the sync get. */
  function Apply(
    rows: seq<Payment>, nextId: nat, trip: string, actor: string,
    plan: seq<Transfer>, hard: bool, fault: SyncFault): Synced
  {
    if FailsBeforeDelete(fault) then Synced(rows, nextId, Err(StorageError))
    else
      var kept := Kept(rows, trip, hard);
      if plan == [] then Synced(kept, nextId, Ok(0))
      else if fault == InsertFails then Synced(kept, nextId, Err(StorageError))
      else Synced(kept + PendingRows(nextId, trip, plan, actor), nextId + |plan|, Ok(|plan|))
  }

  /** The whole sync: settlements computed from the table before the delete. */
  function SyncEffect(
    rows: seq<Payment>, nextId: nat, trip: string, actor: string,
    expenses: seq<Expense>, memberRows: seq<string>, hard: bool, fault: SyncFault): (r: Synced)
    ensures r.outcome.Ok? ==> r.nextId == nextId + r.outcome.value
    ensures r.outcome.Err? ==> r.nextId == nextId
    ensures FailsBeforeDelete(fault) ==> r.outcome.Err? && r.rows == rows
  {
    Apply(rows, nextId, trip, actor, SyncPlan(rows, trip, expenses, memberRows, fault), hard, fault)
  }

  /** The delete keeps the table well formed. */
  lemma KeptWellFormed(rows: seq<Payment>, nextId: nat, trip: string, hard: bool)
    requires WellFormed(rows, nextId)
    ensures WellFormed(Kept(rows, trip, hard), nextId)
  {
    KeptMembers(rows, trip, hard);
    KeptIncreasing(rows, trip, hard);
  }

  /** The insert keeps the table well formed and moves the next id past the
      new rows. */
  lemma InsertWellFormed(rows: seq<Payment>, nextId: nat, trip: string, plan: seq<Transfer>, actor: string)
    requires WellFormed(rows, nextId)
    ensures WellFormed(rows + PendingRows(nextId, trip, plan, actor), nextId + |plan|)
  {
    var added := PendingRows(nextId, trip, plan, actor);
    var all := rows + added;
    forall i, j | 0 <= i < j < |all|
      ensures all[i].id < all[j].id
    {
      if i < |rows| {
        assert all[i] == rows[i] && rows[i] in rows;
        if j < |rows| {
          assert all[j] == rows[j];
        } else {
          assert all[j] == added[j - |rows|];
        }
      } else {
        assert all[i] == added[i - |rows|] && all[j] == added[j - |rows|];
      }
    }
    forall x | x in all
      ensures x.id < nextId + |plan| && (x.status == Completed <==> x.completedAt.Some?)
    {
      if x !in rows {
        var i :| 0 <= i < |added| && added[i] == x;
      }
    }
  }

  /** A sync keeps the table well formed, whatever settlements it inserts. */
  lemma SyncKeepsWellFormed(
    rows: seq<Payment>, nextId: nat, trip: string, actor: string,
    plan: seq<Transfer>, hard: bool, fault: SyncFault)
    requires WellFormed(rows, nextId)
    ensures var e := Apply(rows, nextId, trip, actor, plan, hard, fault);
      WellFormed(e.rows, e.nextId)
  {
    KeptWellFormed(rows, nextId, trip, hard);
    InsertWellFormed(Kept(rows, trip, hard), nextId, trip, plan, actor);
  }

  /**
   * A sync that gets past its delete leaves the trip with exactly the
   * computed settlements as pending rows and answers how many it inserted;
   * when the insert fails, the trip is left with no pending rows at all.
   */
  lemma SyncReplacesPending(
    rows: seq<Payment>, nextId: nat, trip: string, actor: string,
    plan: seq<Transfer>, hard: bool, fault: SyncFault)
    requires !FailsBeforeDelete(fault)
    ensures var e := Apply(rows, nextId, trip, actor, plan, hard, fault);
      && (fault != InsertFails ==> PendingOf(e.rows, trip) == plan && e.outcome == Ok(|plan|))
      && (fault == InsertFails ==> PendingOf(e.rows, trip) == [] && (e.outcome.Ok? <==> plan == []))
  {
    var kept := Kept(rows, trip, hard);
    KeptNoneOfTrip(rows, trip, hard, Pending);
    PendingRowsIn(nextId, trip, plan, actor);
    RowsInAppend(kept, PendingRows(nextId, trip, plan, actor), trip, Pending);
  }

  /** A sync changes no row of another trip. */
  lemma SyncTouchesOnlyTrip(
    rows: seq<Payment>, nextId: nat, trip: string, actor: string,
    plan: seq<Transfer>, hard: bool, fault: SyncFault, x: Payment)
    requires x.trip != trip
    ensures x in Apply(rows, nextId, trip, actor, plan, hard, fault).rows <==> x in rows
  {
    KeptMembers(rows, trip, hard);
  }

  /** A soft sync keeps every completed row, of this trip or another. */
  lemma SoftSyncKeepsCompleted(
    rows: seq<Payment>, nextId: nat, trip: string, actor: string,
    plan: seq<Transfer>, fault: SyncFault)
    ensures var e := Apply(rows, nextId, trip, actor, plan, false, fault);
      && CompletedOf(e.rows, trip) == CompletedOf(rows, trip)
      && (forall x :: x in rows && x.status == Completed ==> x in e.rows)
  {
    KeptMembers(rows, trip, false);
    SoftKeptCompleted(rows, trip);
    PendingRowsIn(nextId, trip, plan, actor);
    RowsInAppend(Kept(rows, trip, false), PendingRows(nextId, trip, plan, actor), trip, Completed);
  }

  /**
   * A hard sync that gets past its delete leaves the trip with no completed
   * row, while the pending rows it inserts were computed with the completed
   * payments it deleted.
   */
  lemma HardSyncClearsCompleted(
    rows: seq<Payment>, nextId: nat, trip: string, actor: string,
    expenses: seq<Expense>, memberRows: seq<string>, fault: SyncFault)
    requires !FailsBeforeDelete(fault) && fault != CompletedReadFails
    ensures var e := SyncEffect(rows, nextId, trip, actor, expenses, memberRows, true, fault);
      && CompletedOf(e.rows, trip) == []
      && (fault != InsertFails ==> PendingOf(e.rows, trip) == Settlements(expenses, memberRows, CompletedOf(rows, trip)))
  {
    var plan := SyncPlan(rows, trip, expenses, memberRows, fault);
    assert plan == Settlements(expenses, memberRows, CompletedOf(rows, trip));
    KeptNoneOfTrip(rows, trip, true, Completed);
    PendingRowsIn(nextId, trip, plan, actor);
    RowsInAppend(Kept(rows, trip, true), PendingRows(nextId, trip, plan, actor), trip, Completed);
    SyncReplacesPending(rows, nextId, trip, actor, plan, true, fault);
  }

  /**
   * A hard reset of the dinner trip after b's payment of 5 to a was
   * completed: the settlements it inserts are computed before its delete, so
   * it clears the completed row and inserts nothing; the next sync then
   * recomputes without the payment and asks b for the 5 again.
   */
  lemma HardResetLagsOneSync(trip: string, actor: string, now: nat)
    ensures var rows := [Payment(0, trip, "b", "a", 5.0, Completed, "a", Some(now))];
      var reset := SyncEffect(rows, 1, trip, actor, Dinner(), ["a", "b"], true, NoFault);
      var next := SyncEffect(reset.rows, reset.nextId, trip, actor, Dinner(), ["a", "b"], false, NoFault);
      && reset.outcome == Ok(0)
      && reset.rows == []
      && next.outcome == Ok(1)
      && PendingOf(next.rows, trip) == [Transfer("b", "a", 5.0)]
  {
    var rows := [Payment(0, trip, "b", "a", 5.0, Completed, "a", Some(now))];
    assert CompletedOf(rows, trip) == [Transfer("b", "a", 5.0)] by {
      assert rows[..0] == [];
    }
    DinnerSettled();
    assert Kept(rows, trip, true) == [] by {
      assert rows[..0] == [];
    }
    var reset := SyncEffect(rows, 1, trip, actor, Dinner(), ["a", "b"], true, NoFault);
    assert reset.rows == [];
    DinnerOwed();
    SyncReplacesPending([], 1, trip, actor, [Transfer("b", "a", 5.0)], false, NoFault);
  }

  /** With nothing changed in between, a second soft sync recreates the same
      pending instructions and answers the same count. */
  lemma SoftSyncIdempotent(
    rows: seq<Payment>, nextId: nat, trip: string, actor: string, actor2: string,
    expenses: seq<Expense>, memberRows: seq<string>)
    ensures var e1 := SyncEffect(rows, nextId, trip, actor, expenses, memberRows, false, NoFault);
      var e2 := SyncEffect(e1.rows, e1.nextId, trip, actor2, expenses, memberRows, false, NoFault);
      && PendingOf(e2.rows, trip) == PendingOf(e1.rows, trip)
      && CompletedOf(e2.rows, trip) == CompletedOf(e1.rows, trip)
      && e2.outcome == e1.outcome
  {
    var plan1 := SyncPlan(rows, trip, expenses, memberRows, NoFault);
    var e1 := Apply(rows, nextId, trip, actor, plan1, false, NoFault);
    SoftSyncKeepsCompleted(rows, nextId, trip, actor, plan1, NoFault);
    var plan2 := SyncPlan(e1.rows, trip, expenses, memberRows, NoFault);
    assert plan2 == plan1;
    SoftSyncKeepsCompleted(e1.rows, e1.nextId, trip, actor2, plan2, NoFault);
    SyncReplacesPending(rows, nextId, trip, actor, plan1, false, NoFault);
    SyncReplacesPending(e1.rows, e1.nextId, trip, actor2, plan2, false, NoFault);
  }

  /** A pending row already in the table, such as one `createPayment`
      inserted, does not survive a sync of its trip that reaches the delete. */
  lemma PendingRowDropped(
    rows: seq<Payment>, nextId: nat, trip: string, actor: string,
    plan: seq<Transfer>, hard: bool, fault: SyncFault, x: Payment)
    requires WellFormed(rows, nextId)
    requires x in rows && x.trip == trip && x.status == Pending
    requires !FailsBeforeDelete(fault)
    ensures x !in Apply(rows, nextId, trip, actor, plan, hard, fault).rows
  {
    KeptMembers(rows, trip, hard);
  }

  // ---------------------------------------------------------------------------
  // The receiver check of completePayment
  // ---------------------------------------------------------------------------

  /** The characters `String.prototype.trim` removes: the ECMAScript white
      space and line terminators. */
  predicate IsJsWhitespace(c: char) {
    || c == '\t' || c == '\n' || c == '\U{B}' || c == '\U{C}' || c == '\r' || c == ' '
    || c == '\U{A0}' || c == '\U{1680}' || ('\U{2000}' <= c <= '\U{200A}')
    || c == '\U{2028}' || c == '\U{2029}' || c == '\U{202F}' || c == '\U{205F}'
    || c == '\U{3000}' || c == '\U{FEFF}'
  }

  function TrimStart(s: string): (r: string)
    ensures |r| <= |s|
    ensures r == [] || !IsJsWhitespace(r[0])
    ensures r == s[|s| - |r|..]
  {
    if s != [] && IsJsWhitespace(s[0]) then TrimStart(s[1..]) else s
  }

  function TrimEnd(s: string): (r: string)
    ensures |r| <= |s|
    ensures r == [] || !IsJsWhitespace(r[|r| - 1])
    ensures r == s[..|r|]
  {
    if s != [] && IsJsWhitespace(s[|s| - 1]) then TrimEnd(s[..|s| - 1]) else s
  }

  /** `s.trim()`. */
  function Trim(s: string): string
  {
    TrimEnd(TrimStart(s))
  }

  function LowerChar(c: char): (r: char)
    ensures !('A' <= r <= 'Z')
  {
    if 'A' <= c <= 'Z' then (c as int + 32) as char else c
  }

  /** `s.toLowerCase()` on the ASCII letters. */
  function ToLower(s: string): (r: string)
    ensures |r| == |s|
    ensures forall i :: 0 <= i < |s| ==> r[i] == LowerChar(s[i])
  {
    seq(|s|, i requires 0 <= i < |s| => LowerChar(s[i]))
  }

  /** `(name || '').trim().toLowerCase()`: the form in which the receiver and
      the caller are compared. */
  function Normalize(name: string): (r: string)
    ensures |r| <= |name|
    ensures forall i :: 0 <= i < |r| ==> !('A' <= r[i] <= 'Z')
  {
    var t := Trim(name);
    assert |t| <= |name|;
    ToLower(t)
  }

  lemma {:induction false} TrimStartOfTrimmed(s: string)
    requires s == [] || !IsJsWhitespace(s[0])
    ensures TrimStart(s) == s
  {
  }

  lemma {:induction false} TrimEndOfTrimmed(s: string)
    requires s == [] || !IsJsWhitespace(s[|s| - 1])
    ensures TrimEnd(s) == s
  {
  }

  /** Trimming a trimmed string changes nothing. */
  lemma TrimIdempotent(s: string)
    ensures Trim(Trim(s)) == Trim(s)
  {
    var t := Trim(s);
    var u := TrimStart(s);
    if t != [] {
      assert t == u[..|t|];
      assert t[0] == u[0];
    }
    TrimStartOfTrimmed(t);
    TrimEndOfTrimmed(t);
  }

  /** Lower-casing maps white space to itself and nothing else to white space,
      so it commutes with trimming. */
  lemma LowerKeepsWhitespace(c: char)
    ensures IsJsWhitespace(LowerChar(c)) <==> IsJsWhitespace(c)
  {
  }

  lemma {:induction false} TrimStartLower(s: string)
    ensures TrimStart(ToLower(s)) == ToLower(TrimStart(s))
    decreases |s|
  {
    if s != [] {
      LowerKeepsWhitespace(s[0]);
      assert ToLower(s)[1..] == ToLower(s[1..]);
      if IsJsWhitespace(s[0]) {
        TrimStartLower(s[1..]);
      }
    }
  }

  lemma {:induction false} TrimEndLower(s: string)
    ensures TrimEnd(ToLower(s)) == ToLower(TrimEnd(s))
    decreases |s|
  {
    if s != [] {
      LowerKeepsWhitespace(s[|s| - 1]);
      assert ToLower(s)[..|s| - 1] == ToLower(s[..|s| - 1]);
      if IsJsWhitespace(s[|s| - 1]) {
        TrimEndLower(s[..|s| - 1]);
      }
    }
  }

  lemma LowerTwice(s: string)
    ensures ToLower(ToLower(s)) == ToLower(s)
  {
  }

  lemma TrimLower(s: string)
    ensures Trim(ToLower(s)) == ToLower(Trim(s))
  {
    TrimStartLower(s);
    TrimEndLower(TrimStart(s));
  }

  /** Normalising twice is normalising once: a normalised name compares
      equal to itself under the receiver check. */
  lemma NormalizeIdempotent(name: string)
    ensures Normalize(Normalize(name)) == Normalize(name)
  {
    var t := Trim(name);
    calc {
      Normalize(Normalize(name));
      ToLower(Trim(ToLower(t)));
      { TrimLower(t); }
      ToLower(ToLower(Trim(t)));
      { TrimIdempotent(name); }
      ToLower(ToLower(t));
      { LowerTwice(t); }
      ToLower(t);
    }
  }

  /** The case of ASCII letters does not matter to the receiver check. */
  lemma NormalizeIgnoresCase(name: string)
    ensures Normalize(ToLower(name)) == Normalize(name)
  {
    TrimLower(name);
    LowerTwice(Trim(name));
  }

  predicate AllWhitespace(pad: string) {
    forall i :: 0 <= i < |pad| ==> IsJsWhitespace(pad[i])
  }

  lemma {:induction false} TrimStartPadded(pad: string, s: string)
    requires AllWhitespace(pad)
    ensures TrimStart(pad + s) == TrimStart(s)
    decreases |pad|
  {
    if pad != [] {
      assert (pad + s)[0] == pad[0];
      assert (pad + s)[1..] == pad[1..] + s;
      TrimStartPadded(pad[1..], s);
    } else {
      assert pad + s == s;
    }
  }

  lemma {:induction false} TrimEndPadded(s: string, pad: string)
    requires AllWhitespace(pad)
    ensures TrimEnd(s + pad) == TrimEnd(s)
    decreases |pad|
  {
    if pad != [] {
      assert (s + pad)[|s + pad| - 1] == pad[|pad| - 1];
      assert (s + pad)[..|s + pad| - 1] == s + pad[..|pad| - 1];
      TrimEndPadded(s, pad[..|pad| - 1]);
    } else {
      assert s + pad == s;
    }
  }

  lemma {:induction false} TrimStartAppendPad(s: string, pad: string)
    requires AllWhitespace(pad)
    ensures TrimStart(s + pad) == if TrimStart(s) == [] then [] else TrimStart(s) + pad
    decreases |s|
  {
    if s == [] {
      assert s + pad == pad + [];
      TrimStartPadded(pad, []);
    } else if IsJsWhitespace(s[0]) {
      assert (s + pad)[1..] == s[1..] + pad;
      TrimStartAppendPad(s[1..], pad);
    }
  }

  /** White space around a name does not matter to the receiver check. */
  lemma NormalizeIgnoresPadding(pad: string, name: string)
    requires AllWhitespace(pad)
    ensures Normalize(pad + name) == Normalize(name)
    ensures Normalize(name + pad) == Normalize(name)
  {
    TrimStartPadded(pad, name);
    TrimStartAppendPad(name, pad);
    if TrimStart(name) != [] {
      TrimEndPadded(TrimStart(name), pad);
    }
  }

  /** A handle with no white space at either end and no upper-case ASCII
      letter is its own normal form. */
  predicate NormalHandle(s: string)
  {
    (s == [] || (!IsJsWhitespace(s[0]) && !IsJsWhitespace(s[|s| - 1])))
    && forall i :: 0 <= i < |s| ==> !('A' <= s[i] <= 'Z')
  }

  lemma NormalizeKeepsNormal(s: string)
    requires NormalHandle(s)
    ensures Normalize(s) == s
  {
    TrimStartOfTrimmed(s);
    TrimEndOfTrimmed(s);
    assert ToLower(s) == s;
  }

  /** So the receiver check tells two different handles of that form apart. */
  lemma NormalizeSeparates(a: string, b: string)
    requires NormalHandle(a) && NormalHandle(b) && a != b
    ensures Normalize(a) != Normalize(b)
  {
    NormalizeKeepsNormal(a);
    NormalizeKeepsNormal(b);
  }

  // ---------------------------------------------------------------------------
  // Looking rows up and listing them
  // ---------------------------------------------------------------------------

  /** The position of the row with the given id, if there is one. */
  function IndexOf(rows: seq<Payment>, id: nat): (r: Option<nat>)
    ensures r.Some? ==> r.value < |rows| && rows[r.value].id == id
    ensures r.None? ==> forall x :: x in rows ==> x.id != id
  {
    if rows == [] then None
    else if rows[|rows| - 1].id == id then Some(|rows| - 1)
    else IndexOf(rows[..|rows| - 1], id)
  }

  /** The trip's rows, most recent first (`order('created_at', { ascending:
      false })`, with insertion order standing for creation time). */
  function NewestFirst(rows: seq<Payment>, trip: string): (r: seq<Payment>)
    ensures |r| <= |rows|
  {
    if rows == [] then []
    else
      var last := rows[|rows| - 1];
      (if last.trip == trip then [last] else []) + NewestFirst(rows[..|rows| - 1], trip)
  }

  /** The listing holds exactly the trip's rows, with decreasing ids. */
  lemma {:induction false} NewestFirstLists(rows: seq<Payment>, trip: string)
    requires IdsIncreasing(rows)
    ensures forall x :: x in NewestFirst(rows, trip) <==> x in rows && x.trip == trip
    ensures IdsDecreasing(NewestFirst(rows, trip))
    decreases |rows|
  {
    NewestFirstMembers(rows, trip);
    if rows != [] {
      var init := rows[..|rows| - 1];
      var last := rows[|rows| - 1];
      NewestFirstLists(init, trip);
      var rest := NewestFirst(init, trip);
      var r := NewestFirst(rows, trip);
      if last.trip == trip {
        assert r == [last] + rest;
        EarlierIdsBelowLast(rows);
        ConsDecreasing(last, rest);
      }
    }
  }

  /** The listing holds exactly the trip's rows. */
  lemma {:induction false} NewestFirstMembers(rows: seq<Payment>, trip: string)
    ensures forall x :: x in NewestFirst(rows, trip) <==> x in rows && x.trip == trip
    decreases |rows|
  {
    if rows != [] {
      var init := rows[..|rows| - 1];
      NewestFirstMembers(init, trip);
      assert rows == init + [rows[|rows| - 1]];
    }
  }

  /** A row with a larger id than all of a decreasing list goes first. */
  lemma ConsDecreasing(x: Payment, rest: seq<Payment>)
    requires IdsDecreasing(rest) && forall y :: y in rest ==> y.id < x.id
    ensures IdsDecreasing([x] + rest)
  {
    var r := [x] + rest;
    forall i, j | 0 <= i < j < |r|
      ensures r[i].id > r[j].id
    {
      assert r[j] == rest[j - 1] && r[j] in rest;
      if i > 0 {
        assert r[i] == rest[i - 1];
      }
    }
  }

  /** With increasing ids, every row before the last has a smaller id. */
  lemma EarlierIdsBelowLast(rows: seq<Payment>)
    requires IdsIncreasing(rows) && rows != []
    ensures forall x :: x in rows[..|rows| - 1] ==> x.id < rows[|rows| - 1].id
  {
    forall x | x in rows[..|rows| - 1]
      ensures x.id < rows[|rows| - 1].id
    {
      var j :| 0 <= j < |rows| - 1 && rows[..|rows| - 1][j] == x;
      assert rows[j] == x;
    }
  }

  /** Marking a row completed keeps the table well formed. */
  lemma CompleteKeepsWellFormed(rows: seq<Payment>, nextId: nat, k: nat, now: nat)
    requires WellFormed(rows, nextId) && k < |rows|
    ensures WellFormed(rows[k := rows[k].(status := Completed, completedAt := Some(now))], nextId)
  {
    var r := rows[k := rows[k].(status := Completed, completedAt := Some(now))];
    forall x | x in r
      ensures x.id < nextId && (x.status == Completed <==> x.completedAt.Some?)
    {
      var i :| 0 <= i < |r| && r[i] == x;
      assert rows[i] in rows;
    }
  }

  // ---------------------------------------------------------------------------
  // resetTripPayments
  // ---------------------------------------------------------------------------

  /** `(req.body?.mode || 'soft').toLowerCase() === 'hard'`. */
  function HardMode(mode: Option<string>): (r: bool)
    ensures r ==> mode.Some? && |mode.value| == 4
  {
    var m := if mode.None? || mode.value == "" then "soft" else mode.value;
    assert m == "soft" ==> ToLower(m)[0] == 's';
    ToLower(m) == "hard"
  }

  /** Hard mode is asked for exactly by a mode that lower-cases to "hard";
      a missing or empty mode is soft. */
  lemma HardModeIff(mode: Option<string>)
    ensures HardMode(mode) <==> mode.Some? && ToLower(mode.value) == "hard"
  {
    if mode.None? || mode.value == "" {
      assert ToLower("soft")[0] == 's';
    }
  }

  /** What `resetTripPayments` answers: the mode it ran in and `created`. */
  datatype ResetReport = ResetReport(hard: bool, created: nat)

  // ---------------------------------------------------------------------------
  // The table
  // ---------------------------------------------------------------------------

  class PaymentStore {
    var rows: seq<Payment>
    var nextId: nat

    predicate Valid()
      reads this
    {
      WellFormed(rows, nextId)
    }

    constructor ()
      ensures Valid()
      ensures rows == [] && nextId == 0
    {
      rows := [];
      nextId := 0;
    }

    /** `syncPendingPaymentsForTrip(trip, actor, { resetCompleted: hard })`. */
    method Sync(
      trip: string, actor: string, expenses: seq<Expense>, memberRows: seq<string>,
      hard: bool, fault: SyncFault)
      returns (r: Result<nat>)
      requires Valid()
      modifies this
      ensures Valid()
      ensures Synced(rows, nextId, r) == SyncEffect(old(rows), old(nextId), trip, actor, expenses, memberRows, hard, fault)
    {
      ghost var planned := SyncPlan(rows, trip, expenses, memberRows, fault);
      assert SyncEffect(rows, nextId, trip, actor, expenses, memberRows, hard, fault)
        == Apply(rows, nextId, trip, actor, planned, hard, fault);
      SyncKeepsWellFormed(rows, nextId, trip, actor, planned, hard, fault);
      if fault == ExpensesReadFails || fault == MembersReadFails {
        return Err(StorageError);
      }
      var completed := if fault == CompletedReadFails then [] else CompletedOf(rows, trip);
      var plan := CalculateSettlements(expenses, memberRows, completed);
      assert plan == planned;
      if fault == DeleteFails {
        return Err(StorageError);
      }
      rows := Kept(rows, trip, hard);
      if plan == [] {
        return Ok(0);
      }
      if fault == InsertFails {
        return Err(StorageError);
      }
      rows := rows + PendingRows(nextId, trip, plan, actor);
      nextId := nextId + |plan|;
      return Ok(|plan|);
    }

    /** `createPayment`: a manual pending row, after the required-field,
        access and trip-membership checks. */
    method CreatePayment(
      trip: string, from: string, to: string, amount: real, requester: string,
      access: Access, memberRows: seq<string>, insertFails: bool)
      returns (r: Result<Payment>)
      requires Valid()
      modifies this
      ensures Valid()
      ensures trip == "" || from == "" || to == "" || amount == 0.0 ==> r == Err(BadRequest) && unchanged(this)
      ensures trip != "" && from != "" && to != "" && amount != 0.0 ==>
        if AccessError(access).Some? then r == Err(AccessError(access).value) && unchanged(this)
        else if from !in memberRows || to !in memberRows then r == Err(BadRequest) && unchanged(this)
        else if insertFails then r == Err(StorageError) && unchanged(this)
        else
          && r == Ok(Payment(old(nextId), trip, from, to, amount, Pending, requester, None))
          && rows == old(rows) + [r.value]
          && nextId == old(nextId) + 1
    {
      if trip == "" || from == "" || to == "" || amount == 0.0 {
        return Err(BadRequest);
      }
      var denied := AccessError(access);
      if denied.Some? {
        return Err(denied.value);
      }
      if from !in memberRows || to !in memberRows {
        return Err(BadRequest);
      }
      if insertFails {
        return Err(StorageError);
      }
      var row := Payment(nextId, trip, from, to, amount, Pending, requester, None);
      rows := rows + [row];
      nextId := nextId + 1;
      return Ok(row);
    }

    /**
     * `completePayment`: only the receiver, compared after trimming and
     * lower-casing, may mark a row completed, whatever its status was. The
     * trip is then synced in soft mode; a failure of that sync is ignored
     * and the answer is still the updated row.
     */
    method CompletePayment(
      id: nat, actor: string, expenses: seq<Expense>, memberRows: seq<string>, now: nat,
      lookupFails: bool, updateFails: bool, syncFault: SyncFault)
      returns (r: Result<Payment>)
      requires Valid()
      modifies this
      ensures Valid()
      ensures lookupFails ==> r == Err(StorageError) && unchanged(this)
      ensures !lookupFails && IndexOf(old(rows), id).None? ==> r == Err(NotFound) && unchanged(this)
      ensures !lookupFails && IndexOf(old(rows), id).Some? ==>
        var k := IndexOf(old(rows), id).value;
        var row := old(rows)[k];
        if Normalize(row.to) != Normalize(actor) then r == Err(Forbidden) && unchanged(this)
        else if updateFails then r == Err(StorageError) && unchanged(this)
        else
          var done := row.(status := Completed, completedAt := Some(now));
          var e := SyncEffect(old(rows)[k := done], old(nextId), row.trip, actor, expenses, memberRows, false, syncFault);
          r == Ok(done) && rows == e.rows && nextId == e.nextId
    {
      if lookupFails {
        return Err(StorageError);
      }
      var found := IndexOf(rows, id);
      if found.None? {
        return Err(NotFound);
      }
      var k := found.value;
      var row := rows[k];
      if Normalize(row.to) != Normalize(actor) {
        return Err(Forbidden);
      }
      if updateFails {
        return Err(StorageError);
      }
      var done := row.(status := Completed, completedAt := Some(now));
      CompleteKeepsWellFormed(rows, nextId, k, now);
      rows := rows[k := done];
      var ignored := Sync(row.trip, actor, expenses, memberRows, false, syncFault);
      return Ok(done);
    }

    /** `listTripPayments`: the access checks, a soft sync whose failure is
        passed on, then the trip's rows, most recent first. */
    method ListTripPayments(
      trip: string, actor: string, access: Access,
      expenses: seq<Expense>, memberRows: seq<string>, fault: SyncFault)
      returns (r: Result<seq<Payment>>)
      requires Valid()
      modifies this
      ensures Valid()
      ensures AccessError(access).Some? ==> r == Err(AccessError(access).value) && unchanged(this)
      ensures AccessError(access).None? ==>
        var e := SyncEffect(old(rows), old(nextId), trip, actor, expenses, memberRows, false, fault);
        && rows == e.rows && nextId == e.nextId
        && r == (if e.outcome.Err? then Err(StorageError) else Ok(NewestFirst(rows, trip)))
    {
      var denied := AccessError(access);
      if denied.Some? {
        return Err(denied.value);
      }
      var synced := Sync(trip, actor, expenses, memberRows, false, fault);
      if synced.Err? {
        return Err(StorageError);
      }
      return Ok(NewestFirst(rows, trip));
    }

    /** `resetTripPayments`: the mode is read first, then the access checks
        run, then a sync in that mode whose failure is passed on. */
    method ResetTripPayments(
      trip: string, actor: string, mode: Option<string>, access: Access,
      expenses: seq<Expense>, memberRows: seq<string>, fault: SyncFault)
      returns (r: Result<ResetReport>)
      requires Valid()
      modifies this
      ensures Valid()
      ensures AccessError(access).Some? ==> r == Err(AccessError(access).value) && unchanged(this)
      ensures AccessError(access).None? ==>
        var e := SyncEffect(old(rows), old(nextId), trip, actor, expenses, memberRows, HardMode(mode), fault);
        && rows == e.rows && nextId == e.nextId
        && r == (if e.outcome.Err? then Err(e.outcome.error) else Ok(ResetReport(HardMode(mode), e.outcome.value)))
    {
      var hard := HardMode(mode);
      var denied := AccessError(access);
      if denied.Some? {
        return Err(denied.value);
      }
      var synced := Sync(trip, actor, expenses, memberRows, hard, fault);
      if synced.Err? {
        return Err(synced.error);
      }
      return Ok(ResetReport(hard, synced.value));
    }
  }
}
