/** The SQL helpers: the WHERE-clause builder, the pagination arithmetic and the
    BEGIN/COMMIT/ROLLBACK protocol of a transaction on one pooled client. */
module Db {
  import opened Wrappers
  import opened Seqs
  import opened Text
  import opened Js

  // ---------------------------------------------------------------- WHERE clauses

  /** `$n`, the n-th positional parameter. */
  function Placeholder(n: nat): (r: string)
    ensures |r| >= 2 && r[0] == '$' && IsDigits(r[1..]) && ParseDigits(r[1..]) == n
  {
    var r := "$" + NatToString(n);
    assert r[1..] == NatToString(n);
    ParseNatToString(n);
    r
  }

  /** Different parameter numbers never share a placeholder. */
  lemma PlaceholderInjective(m: nat, n: nat)
    requires Placeholder(m) == Placeholder(n)
    ensures m == n
  {
    assert Placeholder(m)[1..] == Placeholder(n)[1..];
  }

  /** A filter value is used unless it is undefined or null. */
  predicate Present(entry: (string, Value)) {
    !entry.1.Undefined? && !entry.1.Null?
  }

  function IsPresent(): ((string, Value)) -> bool {
    entry => Present(entry)
  }

  /** The filters that take part, in `Object.entries` order. */
  function Kept(filters: seq<(string, Value)>): seq<(string, Value)> {
    Filter(filters, IsPresent())
  }

  /** `key = $n`. */
  function Condition(key: string, n: nat): (r: string)
    ensures |r| == |key| + 3 + |Placeholder(n)| && r[..|key|] == key && r[|key|..|key| + 3] == " = "
    ensures r[|key| + 3..] == Placeholder(n)
  {
    key + " = " + Placeholder(n)
  }

  /** The conditions for the kept filters, numbered from 1. */
  function Conditions(kept: seq<(string, Value)>): (r: seq<string>)
    ensures |r| == |kept| && forall i | 0 <= i < |kept| :: r[i] == Condition(kept[i].0, i + 1)
  {
    seq(|kept|, i requires 0 <= i < |kept| => Condition(kept[i].0, i + 1))
  }

  function Values(kept: seq<(string, Value)>): (r: seq<Value>)
    ensures |r| == |kept| && forall i | 0 <= i < |kept| :: r[i] == kept[i].1
  {
    seq(|kept|, i requires 0 <= i < |kept| => kept[i].1)
  }

  function WhereOf(conditions: seq<string>): (r: string)
    ensures conditions == [] <==> r == ""
  {
    if |conditions| == 0 then "" else "WHERE " + Join(conditions, " AND ")
  }

  /** `buildWhereClause`: one `key = $n` per usable filter, numbered consecutively, and the
      values in the same order. */
  method BuildWhereClause(filters: seq<(string, Value)>) returns (whereClause: string, values: seq<Value>)
    ensures values == Values(Kept(filters))
    ensures whereClause == WhereOf(Conditions(Kept(filters)))
  {
    var conditions: seq<string> := [];
    values := [];
    var paramCount := 1;
    var i := 0;
    while i < |filters|
      invariant 0 <= i <= |filters|
      invariant paramCount == |conditions| + 1
      invariant conditions == Conditions(Kept(filters[..i]))
      invariant values == Values(Kept(filters[..i]))
    {
      KeptStep(filters, i);
      var (key, value) := filters[i];
      if !value.Undefined? && !value.Null? {
        conditions := conditions + [Condition(key, paramCount)];
        values := values + [value];
        paramCount := paramCount + 1;
      }
      i := i + 1;
    }
    assert filters[..i] == filters;
    whereClause := if |conditions| > 0 then "WHERE " + Join(conditions, " AND ") else "";
  }

  /** One more filter adds its condition, numbered after the previous ones, and its value
      when it is usable, and nothing otherwise. */
  lemma KeptStep(filters: seq<(string, Value)>, i: nat)
    requires i < |filters|
    ensures var before := Kept(filters[..i]);
      Conditions(Kept(filters[..i + 1])) ==
        Conditions(before) + (if Present(filters[i]) then [Condition(filters[i].0, |before| + 1)] else []) &&
      Values(Kept(filters[..i + 1])) == Values(before) + (if Present(filters[i]) then [filters[i].1] else [])
  {
    FilterAppend(filters[..i], filters[i], IsPresent());
    assert filters[..i + 1] == filters[..i] + [filters[i]];
    if Present(filters[i]) {
      ConditionsAppend(Kept(filters[..i]), filters[i]);
    }
  }

  lemma ConditionsAppend(kept: seq<(string, Value)>, e: (string, Value))
    ensures Conditions(kept + [e]) == Conditions(kept) + [Condition(e.0, |kept| + 1)]
    ensures Values(kept + [e]) == Values(kept) + [e.1]
  {
  }

  /** The usable filter at index j is bound to placeholder $(r+1), where r counts the usable
      filters before it, and its value is the r-th of the values. */
  lemma {:induction false} FilterBinding(filters: seq<(string, Value)>, j: nat)
    requires j < |filters| && Present(filters[j])
    ensures var r := |Kept(filters[..j])|;
      r < |Kept(filters)| &&
      Conditions(Kept(filters))[r] == Condition(filters[j].0, r + 1) &&
      Values(Kept(filters))[r] == filters[j].1
  {
    var r := |Kept(filters[..j])|;
    FilterAppend(filters[..j], filters[j], IsPresent());
    assert filters == filters[..j + 1] + filters[j + 1..];
    assert filters[..j + 1] == filters[..j] + [filters[j]];
    FilterConcat(filters[..j + 1], filters[j + 1..], IsPresent());
    assert Kept(filters)[r] == Kept(filters[..j + 1])[r] == filters[j];
  }

  /** A filter whose value is null or undefined adds no condition and no value. */
  lemma AbsentFilterSkipped(filters: seq<(string, Value)>, entry: (string, Value))
    requires !Present(entry)
    ensures Kept(filters + [entry]) == Kept(filters)
  {
    FilterAppend(filters, entry, IsPresent());
  }

  /** The clause is empty exactly when every filter value is null or undefined. */
  lemma EmptyClauseIff(filters: seq<(string, Value)>)
    ensures WhereOf(Conditions(Kept(filters))) == "" <==> forall i | 0 <= i < |filters| :: !Present(filters[i])
  {
    if forall i | 0 <= i < |filters| :: !Present(filters[i]) {
      FilterDropsAll(filters, IsPresent());
    } else {
      var i :| 0 <= i < |filters| && Present(filters[i]);
      FilterMembership(filters, IsPresent(), filters[i]);
    }
  }

  // ---------------------------------------------------------------- pagination

  datatype Query = Query(text: string, params: seq<Value>)

  /** The two statements `paginate` issues. */
  datatype PagePlan = PagePlan(count: Query, data: Query, offset: int)

  /** Rows skipped before a page; never negative from the first page on. */
  function Offset(page: int, limit: int): (r: int)
    ensures page >= 1 && limit >= 0 ==> r >= 0
    ensures page >= 1 && limit > 0 ==> (r == 0 <==> page == 1)
  {
    (page - 1) * limit
  }

  /** `paginate` before its queries run; `page` and `limit` default to 1 and 10 when undefined. */
  function PlanPage(text: string, params: seq<Value>, page: Option<int>, limit: Option<int>): (r: PagePlan)
    ensures var p := if page.Some? then page.value else 1;
      var l := if limit.Some? then limit.value else 10;
      r.offset == Offset(p, l) &&
      r.count == Query("SELECT COUNT(*) FROM (" + text + ") AS count", params) &&
      r.data.params == params + [Num(l as real), Num(r.offset as real)]
  {
    var p := if page.Some? then page.value else 1;
    var l := if limit.Some? then limit.value else 10;
    var offset := Offset(p, l);
    PagePlan(
      Query("SELECT COUNT(*) FROM (" + text + ") AS count", params),
      Query(text + " LIMIT " + Placeholder(|params| + 1) + " OFFSET " + Placeholder(|params| + 2),
            params + [Num(l as real), Num(offset as real)]),
      offset)
  }

  /** The data statement appends two placeholders numbered after the caller's parameters,
      and they bind to the limit and the offset: the caller's placeholders keep their values. */
  lemma PagePlaceholders(text: string, params: seq<Value>, page: Option<int>, limit: Option<int>)
    ensures var r := PlanPage(text, params, page, limit);
      var lp := Placeholder(|params| + 1);
      var op := Placeholder(|params| + 2);
      r.data.text == text + " LIMIT " + lp + " OFFSET " + op &&
      ParseDigits(lp[1..]) - 1 == |params| && ParseDigits(op[1..]) - 1 == |params| + 1 &&
      r.data.params[..|params|] == params &&
      r.data.params[|params|] == Num((if limit.Some? then limit.value else 10) as real) &&
      r.data.params[|params| + 1] == Num(r.offset as real)
  {
  }

  /** Consecutive pages follow each other without gap or overlap, from row 0. */
  lemma PagesTile(page: int, limit: int)
    ensures Offset(1, limit) == 0
    ensures Offset(page + 1, limit) == Offset(page, limit) + limit
  {
  }

  /** `Math.ceil(total / limit)` for an integral total: a dividing limit of 0 gives Infinity
      (or NaN when the total is 0 as well). */
  datatype PageCount = Pages(n: int) | Infinite | NotANumber

  function TotalPages(total: nat, limit: int): (r: PageCount)
    ensures limit == 0 <==> !r.Pages?
    ensures limit == 0 ==> (r == NotANumber <==> total == 0)
    ensures limit > 0 ==> r.Pages? && (r.n - 1) * limit < total <= r.n * limit
    ensures limit < 0 ==> r.Pages? && r.n * limit <= total < (r.n - 1) * limit
  {
    if limit > 0 then CeilDiv(total, limit)
    else if limit < 0 then NegCeil(total, -limit)
    else if total == 0 then NotANumber
    else Infinite
  }

  function CeilDiv(total: nat, limit: int): (r: PageCount)
    requires limit > 0
    ensures r.Pages? && (r.n - 1) * limit < total <= r.n * limit
  {
    var q := total / limit;
    var rem := total % limit;
    assert total == q * limit + rem;
    if rem == 0 then Pages(q) else Pages(q + 1)
  }

  /** The ceiling of a negative quotient `total / -d` is minus the floor of `total / d`. */
  function NegCeil(total: nat, d: int): (r: PageCount)
    requires d > 0
    ensures r.Pages? && r.n * -d <= total < (r.n - 1) * -d
  {
    var q := total / d;
    assert total == q * d + total % d;
    assert (-q) * -d == q * d;
    assert (-q - 1) * -d == q * d + d;
    Pages(-q)
  }

  /** With a positive limit and at least one row, the last page exists and holds the last row. */
  lemma LastPageHoldsLastRow(total: nat, limit: int)
    requires limit > 0 && total > 0
    ensures var n := TotalPages(total, limit).n;
      n >= 1 && Offset(n, limit) < total <= Offset(n, limit) + limit
  {
    var n := TotalPages(total, limit).n;
    assert n * limit >= total > 0;
  }

  // ---------------------------------------------------------------- transactions

  /** What the client is asked to do, in order. */
  datatype Step = Sent(text: string) | Released

  /** A client taken from the pool. A released client accepts no further calls. */
  class PoolClient {
    var log: seq<Step>
    var released: bool

    constructor ()
      ensures log == [] && !released
    {
      log := [];
      released := false;
    }

    /** `client.query(text)`; whether it rejects, and with what message, is decided by the
        database and given as `outcome`. */
    method Query(text: string, outcome: Option<string>) returns (error: Option<string>)
      requires !released
      modifies this
      ensures log == old(log) + [Sent(text)] && !released && error == outcome
    {
      log := log + [Sent(text)];
      error := outcome;
    }

    method Release()
      requires !released
      modifies this
      ensures log == old(log) + [Released] && released
    {
      log := log + [Released];
      released := true;
    }
  }

  /** What the callback does on the client: the statements it sends, and how it settles. */
  datatype CallbackRun = CallbackRun(statements: seq<string>, result: Result<Value, string>)

  /** Whether BEGIN, COMMIT and ROLLBACK are rejected (Some(message)) or not. */
  datatype Outcomes = Outcomes(begin: Option<string>, commit: Option<string>, rollback: Option<string>)

  /** The protocol as a value: the steps sent to the client and how `transaction` settles. */
  function TxSteps(o: Outcomes, cb: CallbackRun): (r: seq<Step>)
    ensures |r| >= 2 && r[0] == Sent("BEGIN") && r[|r| - 1] == Released
  {
    var sent :=
      if o.begin.Some? then [Sent("BEGIN")]
      else [Sent("BEGIN")] + SentAll(cb.statements) + (if cb.result.Success? then [Sent("COMMIT")] else []);
    var failed := o.begin.Some? || cb.result.Failure? || o.commit.Some?;
    sent + (if failed then [Sent("ROLLBACK")] else []) + [Released]
  }

  function SentAll(statements: seq<string>): (r: seq<Step>)
    ensures |r| == |statements| && forall i | 0 <= i < |r| :: r[i] == Sent(statements[i])
  {
    seq(|statements|, i requires 0 <= i < |statements| => Sent(statements[i]))
  }

  /** The error thrown, or the callback's value: a failing ROLLBACK replaces the original error. */
  function TxResult(o: Outcomes, cb: CallbackRun): (r: Result<Value, string>)
    ensures r.Success? <==> o.begin.None? && cb.result.Success? && o.commit.None?
    ensures r.Success? ==> r.value == cb.result.value
  {
    var firstError :=
      if o.begin.Some? then Some(o.begin.value)
      else if cb.result.Failure? then Some(cb.result.error)
      else o.commit;
    if firstError.None? then Success(cb.result.value)
    else if o.rollback.Some? then Failure(o.rollback.value)
    else Failure(firstError.value)
  }

  /** `transaction(callback)` on a client fresh from the pool. */
  method Transaction(client: PoolClient, o: Outcomes, cb: CallbackRun) returns (r: Result<Value, string>)
    requires client.log == [] && !client.released
    modifies client
    ensures client.log == TxSteps(o, cb) && client.released
    ensures r == TxResult(o, cb)
  {
    var error := client.Query("BEGIN", o.begin);
    if error.None? {
      var i := 0;
      while i < |cb.statements|
        invariant 0 <= i <= |cb.statements|
        invariant client.log == [Sent("BEGIN")] + SentAll(cb.statements[..i]) && !client.released
      {
        var _ := client.Query(cb.statements[i], None);
        assert SentAll(cb.statements[..i + 1]) == SentAll(cb.statements[..i]) + [Sent(cb.statements[i])];
        i := i + 1;
      }
      assert cb.statements[..i] == cb.statements;
      if cb.result.Failure? {
        error := Some(cb.result.error);
      } else {
        error := client.Query("COMMIT", o.commit);
      }
    }
    if error.None? {
      r := Success(cb.result.value);
    } else {
      var rollbackError := client.Query("ROLLBACK", o.rollback);
      r := if rollbackError.Some? then Failure(rollbackError.value) else Failure(error.value);
    }
    client.Release();
  }

  /** BEGIN comes first and the release comes last, exactly once, whatever happens. */
  lemma {:induction false} TxFramed(o: Outcomes, cb: CallbackRun)
    ensures var t := TxSteps(o, cb);
      |t| >= 2 && t[0] == Sent("BEGIN") && t[|t| - 1] == Released &&
      forall i | 0 <= i < |t| - 1 :: t[i] != Released
  {
    var t := TxSteps(o, cb);
    forall i | 0 <= i < |t| - 1 ensures t[i] != Released {
      var statements := SentAll(cb.statements);
      assert forall k | 0 <= k < |statements| :: statements[k].Sent?;
    }
  }

  /** COMMIT is sent exactly when BEGIN and the callback succeed; ROLLBACK exactly when
      something failed; and the result is a success exactly when nothing failed. */
  lemma TxCommitOrRollback(o: Outcomes, cb: CallbackRun)
    requires Sent("COMMIT") !in SentAll(cb.statements) && Sent("ROLLBACK") !in SentAll(cb.statements)
    ensures Sent("COMMIT") in TxSteps(o, cb) <==> o.begin.None? && cb.result.Success?
    ensures Sent("ROLLBACK") in TxSteps(o, cb) <==> o.begin.Some? || cb.result.Failure? || o.commit.Some?
    ensures TxResult(o, cb).Success? <==> o.begin.None? && cb.result.Success? && o.commit.None?
    ensures TxResult(o, cb).Success? ==> TxResult(o, cb).value == cb.result.value
  {
  }

  /** A failure is rethrown unless the ROLLBACK itself fails, whose error then replaces it. */
  lemma TxRethrows(o: Outcomes, cb: CallbackRun)
    requires o.rollback.None?
    ensures o.begin.Some? ==> TxResult(o, cb) == Failure(o.begin.value)
    ensures o.begin.None? && cb.result.Failure? ==> TxResult(o, cb) == Failure(cb.result.error)
    ensures o.begin.None? && cb.result.Success? && o.commit.Some? ==> TxResult(o, cb) == Failure(o.commit.value)
  {
  }

  /** A failed BEGIN runs nothing of the callback. */
  lemma TxBeginFailure(o: Outcomes, cb: CallbackRun)
    requires o.begin.Some?
    ensures TxSteps(o, cb) == [Sent("BEGIN"), Sent("ROLLBACK"), Released]
  {
  }
}
