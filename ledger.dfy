/**
 * Shared vocabulary of the trip ledger: the records the settlement code reads
 * (expenses, transfers, per-member balances), the currency tolerance, the
 * two-decimal rounding applied when a transfer is emitted, the member set
 * built from the trip_members rows, and sums over a sequence of keys.
 *
 * Money is modelled with `real`, so `amount / k` is exact; the only rounding
 * in the model is Round2, applied where the source calls
 * `parseFloat(x.toFixed(2))`.
 */
module Ledger {

  /** Currency-rounding tolerance used by every comparison of the simplifier. */
  const Eps: real := 0.01

  /** An expense row: payer, amount, participant list (a missing list is
      the empty list) and category (a missing category is the empty string). */
  datatype Expense = Expense(payer: string, amount: real, participants: seq<string>, category: string)

  /** A transfer instruction or a completed payment: `from` pays `to`. */
  datatype Transfer = Transfer(from: string, to: string, amount: real)

  /** The per-member entry of the balance map. */
  datatype Balance = Balance(paid: real, owes: real, net: real)

  /** Sum of the amounts of a list of expenses, in order (`reduce` over
      `amount`). */
  function TotalAmount(es: seq<Expense>): real
  {
    if es == [] then 0.0 else TotalAmount(es[..|es| - 1]) + es[|es| - 1].amount
  }

  datatype Option<T> = None | Some(value: T)

  /** The HTTP outcomes the handlers distinguish: 404, 403, 400, and a thrown
      storage error passed on to the error handler. */
  datatype Error = NotFound | Forbidden | BadRequest | StorageError

  datatype Result<T> = Ok(value: T) | Err(error: Error)

  /**
   * The outcome of the access checks every handler runs first: the trip
   * lookup fails, the trip does not exist, the caller is not a member of the
   * trip's group, or access is granted.
   */
  datatype Access = TripLookupFails | TripMissing | NotGroupMember | Granted

  /** The error the access checks answer with, if any. */
  function AccessError(a: Access): Option<Error>
  {
    match a
    case TripLookupFails => Some(StorageError)
    case TripMissing => Some(NotFound)
    case NotGroupMember => Some(Forbidden)
    case Granted => None
  }

  predicate Distinct(s: seq<string>) {
    forall i, j :: 0 <= i < j < |s| ==> s[i] != s[j]
  }

  function Min(a: real, b: real): (m: real)
    ensures m <= a && m <= b && (m == a || m == b)
  {
    if a <= b then a else b
  }

  /**
   * Two-decimal rounding, half away from zero, on exact reals. It stands for
   * `parseFloat(x.toFixed(2))`; its error is at most half a cent, and a value
   * above the tolerance never rounds below it.
   */
  function Round2(x: real): (r: real)
    ensures -0.005 <= r - x <= 0.005
    ensures x > Eps ==> r >= Eps
    ensures x >= 0.0 ==> r >= 0.0
  {
    if x >= 0.0 then (x * 100.0 + 0.5).Floor as real / 100.0
    else -(((-x) * 100.0 + 0.5).Floor as real / 100.0)
  }

  /**
   * The member list built by `new Set(rows)`: each handle once, in the order
   * of its first occurrence.
   */
  function MemberSet(rows: seq<string>): (ms: seq<string>)
    ensures Distinct(ms)
    ensures forall x :: x in ms <==> x in rows
    ensures |ms| <= |rows|
  {
    if rows == [] then []
    else
      var prefix := MemberSet(rows[..|rows| - 1]);
      var last := rows[|rows| - 1];
      assert rows == rows[..|rows| - 1] + [last];
      if last in prefix then prefix else prefix + [last]
  }

  /** Adding a row extends the member set only when the handle is new. */
  lemma MemberSetSnoc(rows: seq<string>, x: string)
    ensures MemberSet(rows + [x]) == if x in rows then MemberSet(rows) else MemberSet(rows) + [x]
  {
    assert (rows + [x])[..|rows|] == rows;
  }

  /** Sum of `f` over a sequence of keys, in order. */
  function SumOver(ks: seq<string>, f: string -> real): real
  {
    if ks == [] then 0.0 else SumOver(ks[..|ks| - 1], f) + f(ks[|ks| - 1])
  }

  lemma {:induction false} SumOverAdd(ks: seq<string>, f: string -> real, g: string -> real, h: string -> real)
    requires forall k :: h(k) == f(k) + g(k)
    ensures SumOver(ks, h) == SumOver(ks, f) + SumOver(ks, g)
  {
    if ks != [] {
      SumOverAdd(ks[..|ks| - 1], f, g, h);
    }
  }

  lemma {:induction false} SumOverSub(ks: seq<string>, f: string -> real, g: string -> real, h: string -> real)
    requires forall k :: h(k) == f(k) - g(k)
    ensures SumOver(ks, h) == SumOver(ks, f) - SumOver(ks, g)
  {
    if ks != [] {
      SumOverSub(ks[..|ks| - 1], f, g, h);
    }
  }

  /** A function that is zero on every key sums to zero. */
  lemma {:induction false} SumOverZero(ks: seq<string>, f: string -> real)
    requires forall k :: k in ks ==> f(k) == 0.0
    ensures SumOver(ks, f) == 0.0
  {
    if ks != [] {
      SumOverZero(ks[..|ks| - 1], f);
    }
  }

  /** Two functions that agree on the keys have the same sum. */
  lemma {:induction false} SumOverCongruent(ks: seq<string>, f: string -> real, g: string -> real)
    requires forall k :: k in ks ==> f(k) == g(k)
    ensures SumOver(ks, f) == SumOver(ks, g)
  {
    if ks != [] {
      SumOverCongruent(ks[..|ks| - 1], f, g);
    }
  }

  /** Over distinct keys, a function that is `v` at `p` and zero elsewhere
      sums to `v` exactly when `p` is one of the keys. */
  lemma {:induction false} SumOverPoint(ks: seq<string>, p: string, v: real, f: string -> real)
    requires Distinct(ks)
    requires forall k :: f(k) == if k == p then v else 0.0
    ensures SumOver(ks, f) == if p in ks then v else 0.0
  {
    if ks != [] {
      var init := ks[..|ks| - 1];
      assert ks == init + [ks[|ks| - 1]];
      SumOverPoint(init, p, v, f);
    }
  }
}
