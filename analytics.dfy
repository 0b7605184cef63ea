/**
 * `getTripAnalytics` of backend/src/controllers/analyticsController.js:
 * spending per payer (seeded with every member of the trip's group),
 * spending per category, the chart arrays built from both, and the summary
 * of all of the trip's expenses. Unlike the settlement pipeline, nothing is
 * filtered by trip membership here.
 */
module Analytics {
  import opened Ledger

  /** The bucket of an expense without a category. */
  const Uncategorized: string := "Uncategorized"

  /** An entry of `chart_data.users` or `chart_data.categories`. */
  datatype ChartEntry = ChartEntry(name: string, value: real)

  /** `summary`: `total_expenses`, `total_expenses_count`, `average_expense`. */
  datatype Summary = Summary(total: real, count: nat, average: real)

  /** The response body. */
  datatype Report = Report(
    summary: Summary,
    perUser: map<string, real>, perCategory: map<string, real>,
    users: seq<ChartEntry>, categories: seq<ChartEntry>)

  function PayerOf(e: Expense): string
  {
    e.payer
  }

  /** `expense.category || 'Uncategorized'`. */
  function CategoryOf(e: Expense): (r: string)
    ensures r != ""
    ensures e.category != "" ==> r == e.category
  {
    if e.category == "" then Uncategorized else e.category
  }

  /** The key of each expense, in order. */
  function KeysUnder(key: Expense -> string, es: seq<Expense>): seq<string>
  {
    seq(|es|, i requires 0 <= i < |es| => key(es[i]))
  }

  /** What the expenses filed under `k` add up to. */
  function SpentUnder(key: Expense -> string, k: string, es: seq<Expense>): real
  {
    if es == [] then 0.0
    else SpentUnder(key, k, es[..|es| - 1]) + (if key(es[|es| - 1]) == k then es[|es| - 1].amount else 0.0)
  }

  /** The keys of `spending_per_user`, in `Object.keys` order: the group
      members, then each new payer in expense order. */
  function UserKeys(memberRows: seq<string>, es: seq<Expense>): seq<string>
  {
    MemberSet(memberRows + KeysUnder(PayerOf, es))
  }

  /** The keys of `spending_by_category`, in `Object.keys` order. */
  function CategoryKeys(es: seq<Expense>): seq<string>
  {
    MemberSet(KeysUnder(CategoryOf, es))
  }

  /**
   * The accumulation loop shared by both maps: for each expense,
   * `spent[key] = (spent[key] || 0) + amount`, creating the key on first
   * use.
   */
  method Tally(key: Expense -> string, seed: map<string, real>, es: seq<Expense>) returns (spent: map<string, real>)
    requires forall k :: k in seed ==> seed[k] == 0.0
    ensures forall k :: k in spent <==> k in seed || k in KeysUnder(key, es)
    ensures forall k :: k in spent ==> spent[k] == SpentUnder(key, k, es)
  {
    spent := seed;
    for i := 0 to |es|
      invariant forall k :: k in spent <==> k in seed || k in KeysUnder(key, es[..i])
      invariant forall k :: k in spent ==> spent[k] == SpentUnder(key, k, es[..i])
      invariant forall k :: k !in spent ==> SpentUnder(key, k, es[..i]) == 0.0
    {
      var e := es[i];
      var k := key(e);
      TallyStep(key, es, i);
      var before := if k in spent then spent[k] else 0.0;
      spent := spent[k := before + e.amount];
    }
    assert es[..|es|] == es;
  }

  /** One more expense: its key joins the keys, and its amount joins that
      key's tally. */
  lemma TallyStep(key: Expense -> string, es: seq<Expense>, i: nat)
    requires i < |es|
    ensures KeysUnder(key, es[..i + 1]) == KeysUnder(key, es[..i]) + [key(es[i])]
    ensures SpentUnder(key, key(es[i]), es[..i + 1]) == SpentUnder(key, key(es[i]), es[..i]) + es[i].amount
    ensures forall k :: k != key(es[i]) ==> SpentUnder(key, k, es[..i + 1]) == SpentUnder(key, k, es[..i])
  {
    assert es[..i + 1][..i] == es[..i];
  }

  /** The tallied map, keyed in `Object.keys` order. */
  lemma TallyMap(key: Expense -> string, es: seq<Expense>, spent: map<string, real>, keys: seq<string>)
    requires forall k :: k in spent <==> k in keys
    requires forall k :: k in spent ==> spent[k] == SpentUnder(key, k, es)
    ensures spent == map k | k in keys :: SpentUnder(key, k, es)
  {
    var expected := map k | k in keys :: SpentUnder(key, k, es);
    assert spent.Keys == expected.Keys;
  }

  /** `spendingPerUser`: zero for every group member, then the tally by
      payer. */
  method SpendingPerUser(memberRows: seq<string>, es: seq<Expense>) returns (spent: map<string, real>)
    ensures spent == map k | k in UserKeys(memberRows, es) :: SpentUnder(PayerOf, k, es)
  {
    var seed: map<string, real> := map[];
    for i := 0 to |memberRows|
      invariant forall k :: k in seed <==> k in memberRows[..i]
      invariant forall k :: k in seed ==> seed[k] == 0.0
    {
      assert memberRows[..i + 1] == memberRows[..i] + [memberRows[i]];
      seed := seed[memberRows[i] := 0.0];
    }
    assert memberRows[..|memberRows|] == memberRows;
    spent := Tally(PayerOf, seed, es);
    TallyMap(PayerOf, es, spent, UserKeys(memberRows, es));
  }

  /** `spendingByCategory`: the tally by category. */
  method SpendingByCategory(es: seq<Expense>) returns (spent: map<string, real>)
    ensures spent == map k | k in CategoryKeys(es) :: SpentUnder(CategoryOf, k, es)
  {
    spent := Tally(CategoryOf, map[], es);
    TallyMap(CategoryOf, es, spent, CategoryKeys(es));
  }

  /** One chart entry per key, in key order, with the rounded amount. */
  function Chart(keys: seq<string>, spent: map<string, real>): (r: seq<ChartEntry>)
    requires forall k :: k in keys ==> k in spent
    ensures |r| == |keys|
    ensures forall i :: 0 <= i < |r| ==> r[i].name == keys[i]
  {
    seq(|keys|, i requires 0 <= i < |keys| => ChartEntry(keys[i], Round2(spent[keys[i]])))
  }

  /** The summary over all of the trip's expenses, rounded to cents. */
  function SummaryOf(es: seq<Expense>): (s: Summary)
    ensures s.count == |es|
    ensures -0.005 <= s.total - TotalAmount(es) <= 0.005
    ensures |es| == 0 ==> s.average == 0.0
    ensures |es| > 0 ==> -0.005 <= s.average - TotalAmount(es) / |es| as real <= 0.005
  {
    var total := TotalAmount(es);
    Summary(Round2(total), |es|, if |es| > 0 then Round2(total / |es| as real) else 0.0)
  }

  /**
   * `getTripAnalytics`. The trip is looked up with `.single()`, which
   * reports a missing trip as an error, so a missing trip ends in the
   * error handler rather than in the 404 answer the handler spells out.
   */
  method TripAnalytics(access: Access, readFails: bool, memberRows: seq<string>, es: seq<Expense>)
    returns (r: Result<Report>)
    ensures access == TripLookupFails || access == TripMissing ==> r == Err(StorageError)
    ensures access == NotGroupMember ==> r == Err(Forbidden)
    ensures access == Granted && readFails ==> r == Err(StorageError)
    ensures access == Granted && !readFails ==>
      && r.Ok?
      && r.value.summary == SummaryOf(es)
      && r.value.perUser == (map k | k in UserKeys(memberRows, es) :: SpentUnder(PayerOf, k, es))
      && r.value.perCategory == (map k | k in CategoryKeys(es) :: SpentUnder(CategoryOf, k, es))
      && r.value.users == Chart(UserKeys(memberRows, es), r.value.perUser)
      && r.value.categories == Chart(CategoryKeys(es), r.value.perCategory)
  {
    if access == TripMissing {
      return Err(StorageError);
    }
    var denied := AccessError(access);
    if denied.Some? {
      return Err(denied.value);
    }
    if readFails {
      return Err(StorageError);
    }
    var perUser := SpendingPerUser(memberRows, es);
    var perCategory := SpendingByCategory(es);
    var users := Chart(UserKeys(memberRows, es), perUser);
    var categories := Chart(CategoryKeys(es), perCategory);
    return Ok(Report(SummaryOf(es), perUser, perCategory, users, categories));
  }

  // ---------------------------------------------------------------------------
  // What the report guarantees
  // ---------------------------------------------------------------------------

  /** Over distinct keys that include every expense's key, the tallies add up
      to the total of the expenses. */
  lemma {:induction false} TallySum(key: Expense -> string, ks: seq<string>, es: seq<Expense>, f: string -> real)
    requires Distinct(ks)
    requires forall i :: 0 <= i < |es| ==> key(es[i]) in ks
    requires forall k :: f(k) == SpentUnder(key, k, es)
    ensures SumOver(ks, f) == TotalAmount(es)
    decreases |es|
  {
    if es == [] {
      SumOverZero(ks, f);
    } else {
      var init := es[..|es| - 1];
      var last := es[|es| - 1];
      var g := k => SpentUnder(key, k, init);
      var h := k => if k == key(last) then last.amount else 0.0;
      SumOverAdd(ks, g, h, f);
      TallySum(key, ks, init, g);
      SumOverPoint(ks, key(last), last.amount, h);
    }
  }

  /** The per-user amounts add up to the unrounded total. */
  lemma PerUserSumsToTotal(memberRows: seq<string>, es: seq<Expense>, f: string -> real)
    requires forall k :: f(k) == SpentUnder(PayerOf, k, es)
    ensures SumOver(UserKeys(memberRows, es), f) == TotalAmount(es)
  {
    var ks := UserKeys(memberRows, es);
    forall i | 0 <= i < |es|
      ensures PayerOf(es[i]) in ks
    {
      assert KeysUnder(PayerOf, es)[i] == PayerOf(es[i]);
      assert (memberRows + KeysUnder(PayerOf, es))[|memberRows| + i] == PayerOf(es[i]);
    }
    TallySum(PayerOf, ks, es, f);
  }

  /** The per-category amounts add up to the unrounded total. */
  lemma PerCategorySumsToTotal(es: seq<Expense>, f: string -> real)
    requires forall k :: f(k) == SpentUnder(CategoryOf, k, es)
    ensures SumOver(CategoryKeys(es), f) == TotalAmount(es)
  {
    var ks := CategoryKeys(es);
    forall i | 0 <= i < |es|
      ensures CategoryOf(es[i]) in ks
    {
      assert KeysUnder(CategoryOf, es)[i] == CategoryOf(es[i]);
    }
    TallySum(CategoryOf, ks, es, f);
  }

  /**
   * Every group member has an entry, zero when they paid nothing; the other
   * entries are exactly the payers who are not group members.
   */
  lemma PerUserKeys(memberRows: seq<string>, es: seq<Expense>)
    ensures forall m :: m in UserKeys(memberRows, es) <==> m in memberRows || exists e :: e in es && e.payer == m
    ensures forall m :: (forall e :: e in es ==> e.payer != m) ==> SpentUnder(PayerOf, m, es) == 0.0
  {
    var payers := KeysUnder(PayerOf, es);
    forall m | m in payers
      ensures exists e :: e in es && e.payer == m
    {
      var i :| 0 <= i < |payers| && payers[i] == m;
      assert payers[i] == PayerOf(es[i]) == es[i].payer;
      assert es[i] in es;
    }
    forall e | e in es
      ensures e.payer in payers
    {
      var i :| 0 <= i < |es| && es[i] == e;
      assert payers[i] == PayerOf(es[i]) == e.payer;
    }
    forall m | forall e :: e in es ==> e.payer != m
      ensures SpentUnder(PayerOf, m, es) == 0.0
    {
      NothingPaid(m, es);
    }
  }

  lemma {:induction false} NothingPaid(m: string, es: seq<Expense>)
    requires forall e :: e in es ==> e.payer != m
    ensures SpentUnder(PayerOf, m, es) == 0.0
    decreases |es|
  {
    if es != [] {
      assert es[|es| - 1] in es;
      NothingPaid(m, es[..|es| - 1]);
    }
  }

  /** Expenses without a category are counted under "Uncategorized", and no
      category key is empty. */
  lemma CategoryBuckets(es: seq<Expense>, e: Expense)
    requires e.category == ""
    ensures SpentUnder(CategoryOf, Uncategorized, es + [e]) == SpentUnder(CategoryOf, Uncategorized, es) + e.amount
    ensures Uncategorized in CategoryKeys(es + [e])
    ensures "" !in CategoryKeys(es)
  {
    assert (es + [e])[..|es|] == es;
    assert KeysUnder(CategoryOf, es + [e])[|es|] == Uncategorized;
  }

  /** The chart has one entry per key of its map, named after the key, with
      the amount rounded to cents. */
  lemma ChartPerKey(keys: seq<string>, spent: map<string, real>)
    requires Distinct(keys) && spent.Keys == set k | k in keys
    ensures var c := Chart(keys, spent);
      && |c| == |spent.Keys|
      && (forall k :: k in spent <==> exists i :: 0 <= i < |c| && c[i].name == k)
      && (forall i :: 0 <= i < |c| ==> -0.005 <= c[i].value - spent[c[i].name] <= 0.005)
  {
    var c := Chart(keys, spent);
    DistinctCard(keys);
    forall k | k in spent
      ensures exists i :: 0 <= i < |c| && c[i].name == k
    {
      var i :| 0 <= i < |keys| && keys[i] == k;
      assert c[i].name == k;
    }
  }

  lemma {:induction false} DistinctCard(keys: seq<string>)
    requires Distinct(keys)
    ensures |set k | k in keys| == |keys|
    decreases |keys|
  {
    if keys != [] {
      var init := keys[..|keys| - 1];
      var last := keys[|keys| - 1];
      DistinctCard(init);
      assert keys == init + [last];
      assert (set k | k in keys) == (set k | k in init) + {last};
    }
  }

  // ---------------------------------------------------------------------------
  // The tallies as written: buckets of a plain object
  // ---------------------------------------------------------------------------

  /** The methods every plain object inherits from `Object.prototype`. */
  const InheritedMethods: set<string> := {
    "constructor", "hasOwnProperty", "isPrototypeOf", "propertyIsEnumerable",
    "toLocaleString", "toString", "valueOf",
    "__defineGetter__", "__defineSetter__", "__lookupGetter__", "__lookupSetter__"}

  /** The accessor whose assignment sets the prototype instead of adding a key. */
  const ProtoAccessor: string := "__proto__"

  /** An own property of `spendingPerUser` or `spendingByCategory`: a number,
      or the string that `+` makes of an inherited function and an amount. */
  datatype Bucket = Number(value: real) | Text

  /** `obj[k] = (obj[k] || 0) + amount` on a plain object whose own properties
      are `obj`. For `__proto__` the getter gives `Object.prototype`, the sum
      is a string, and the setter ignores it. For an inherited method name
      without an own property the function is truthy and the sum a string. */
  function AddToObject(obj: map<string, Bucket>, k: string, amount: real): (r: map<string, Bucket>)
    ensures r.Keys == if k == ProtoAccessor then obj.Keys else obj.Keys + {k}
    ensures forall j :: j in obj && j != k ==> r[j] == obj[j]
  {
    if k == ProtoAccessor then obj
    else if k in obj then obj[k := if obj[k].Number? then Number(obj[k].value + amount) else Text]
    else if k in InheritedMethods then obj[k := Text]
    else obj[k := Number(amount)]
  }

  /** The `expenses.forEach` of either tally, as written, on a plain object. */
  function TallyAsWritten(key: Expense -> string, seed: map<string, Bucket>, es: seq<Expense>): (r: map<string, Bucket>)
    ensures forall k :: k in r <==> k in seed || (k in KeysUnder(key, es) && k != ProtoAccessor)
  {
    if es == [] then seed
    else
      TallyStep(key, es, |es| - 1);
      assert es[..|es|] == es;
      AddToObject(TallyAsWritten(key, seed, es[..|es| - 1]), key(es[|es| - 1]), es[|es| - 1].amount)
  }

  /** `.toFixed(2)` at lines 72 and 77 throws on a bucket that is a string, and
      the handler answers 500. */
  predicate ChartThrows(obj: map<string, Bucket>)
  {
    exists k :: k in obj && obj[k].Text?
  }

  /** A key named after an inherited method that no seed gives an own number
      ends up a string, whatever else is filed. */
  lemma {:induction false} InheritedKeyIsText(key: Expense -> string, seed: map<string, Bucket>, es: seq<Expense>, k: string)
    requires k in InheritedMethods && k !in seed && k in KeysUnder(key, es)
    ensures k in TallyAsWritten(key, seed, es) && TallyAsWritten(key, seed, es)[k].Text?
    decreases |es|
  {
    var init := es[..|es| - 1];
    TallyStep(key, es, |es| - 1);
    assert es[..|es|] == es;
    if k in KeysUnder(key, init) {
      InheritedKeyIsText(key, seed, init, k);
    }
  }

  /** Any expense filed under an inherited method name makes the analytics of
      its trip answer 500: for a category, and for a payer who is not a group
      member. */
  lemma InheritedCategoryThrows(es: seq<Expense>, i: nat)
    requires i < |es| && CategoryOf(es[i]) in InheritedMethods
    ensures ChartThrows(TallyAsWritten(CategoryOf, map[], es))
  {
    assert KeysUnder(CategoryOf, es)[i] == CategoryOf(es[i]);
    InheritedKeyIsText(CategoryOf, map[], es, CategoryOf(es[i]));
  }

  /** A trip with one expense of 10 under "constructor": as written the chart
      throws, while the tally of the model files 10 under "constructor". */
  lemma ConstructorCategoryThrows()
    ensures var es := [Expense("a", 10.0, ["a"], "constructor")];
      ChartThrows(TallyAsWritten(CategoryOf, map[], es))
      && "constructor" in CategoryKeys(es) && SpentUnder(CategoryOf, "constructor", es) == 10.0
  {
    var es := [Expense("a", 10.0, ["a"], "constructor")];
    InheritedCategoryThrows(es, 0);
    assert KeysUnder(CategoryOf, es) == ["constructor"];
    assert es[..0] == [];
  }

  /** A category named `__proto__` has no key as written, so its amount is
      missing from the map and the chart; the model keeps it. */
  lemma ProtoCategoryDropped()
    ensures var es := [Expense("a", 10.0, ["a"], ProtoAccessor)];
      ProtoAccessor !in TallyAsWritten(CategoryOf, map[], es)
      && ProtoAccessor in CategoryKeys(es) && SpentUnder(CategoryOf, ProtoAccessor, es) == 10.0
  {
    var es := [Expense("a", 10.0, ["a"], ProtoAccessor)];
    assert KeysUnder(CategoryOf, es) == [ProtoAccessor];
    assert es[..0] == [];
  }

  /** Where no seed key and no filed key collides with `Object.prototype`,
      the tally as written is the model's tally. */
  lemma {:induction false} AsWrittenAgrees(key: Expense -> string, seed: map<string, Bucket>, es: seq<Expense>)
    requires forall k :: k in seed ==> seed[k] == Number(0.0) && k != ProtoAccessor
    requires forall k :: k in KeysUnder(key, es) ==> k !in InheritedMethods && k != ProtoAccessor
    ensures forall k :: k in TallyAsWritten(key, seed, es) ==>
      TallyAsWritten(key, seed, es)[k] == Number(SpentUnder(key, k, es))
    decreases |es|
  {
    if es != [] {
      var init, last := es[..|es| - 1], es[|es| - 1];
      TallySnoc(key, seed, es);
      AsWrittenAgrees(key, seed, init);
      NothingFiledIsZero(key, seed, init);
      AddAgrees(TallyAsWritten(key, seed, init), key(last), last.amount,
        k => SpentUnder(key, k, init), k => SpentUnder(key, k, es));
    }
  }

  /** The last expense, as the recursions of `KeysUnder`, `SpentUnder` and
      `TallyAsWritten` see it. */
  lemma TallySnoc(key: Expense -> string, seed: map<string, Bucket>, es: seq<Expense>)
    requires es != []
    ensures KeysUnder(key, es) == KeysUnder(key, es[..|es| - 1]) + [key(es[|es| - 1])]
    ensures SpentUnder(key, key(es[|es| - 1]), es) == SpentUnder(key, key(es[|es| - 1]), es[..|es| - 1]) + es[|es| - 1].amount
    ensures forall k :: k != key(es[|es| - 1]) ==> SpentUnder(key, k, es) == SpentUnder(key, k, es[..|es| - 1])
    ensures TallyAsWritten(key, seed, es)
      == AddToObject(TallyAsWritten(key, seed, es[..|es| - 1]), key(es[|es| - 1]), es[|es| - 1].amount)
  {
    TallyStep(key, es, |es| - 1);
    assert es[..|es|] == es;
  }

  /** Adding to a bucket that is not inherited keeps every bucket equal to
      its running sum. */
  lemma AddAgrees(prev: map<string, Bucket>, k0: string, amount: real, before: string -> real, after: string -> real)
    requires k0 !in InheritedMethods && k0 != ProtoAccessor
    requires forall k :: k in prev ==> prev[k] == Number(before(k))
    requires k0 !in prev ==> before(k0) == 0.0
    requires after(k0) == before(k0) + amount
    requires forall k :: k != k0 ==> after(k) == before(k)
    ensures forall k :: k in AddToObject(prev, k0, amount) ==> AddToObject(prev, k0, amount)[k] == Number(after(k))
  {
  }

  /** A key without an own property has nothing filed under it. */
  lemma NothingFiledIsZero(key: Expense -> string, seed: map<string, Bucket>, es: seq<Expense>)
    requires forall k :: k in KeysUnder(key, es) ==> k != ProtoAccessor
    ensures forall k :: k !in TallyAsWritten(key, seed, es) ==> SpentUnder(key, k, es) == 0.0
  {
    forall k | k !in TallyAsWritten(key, seed, es)
      ensures SpentUnder(key, k, es) == 0.0
    {
      SpentUnderUnfiled(key, k, es);
    }
  }

  /** Nothing is filed under a key no expense has. */
  lemma {:induction false} SpentUnderUnfiled(key: Expense -> string, k: string, es: seq<Expense>)
    requires k !in KeysUnder(key, es)
    ensures SpentUnder(key, k, es) == 0.0
    decreases |es|
  {
    if es != [] {
      TallyStep(key, es, |es| - 1);
      assert es[..|es|] == es;
      SpentUnderUnfiled(key, k, es[..|es| - 1]);
    }
  }
}
