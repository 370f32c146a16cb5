/** `get_requisitions`: the WHERE clause built from the non-empty query
    parameters, and the rows it selects ordered by `created_at DESC`. */
module Query {
  import opened Common
  import opened Text
  import opened Requisitions

  /** The query parameters; `None` is a parameter that was not sent. */
  datatype Filter = Filter(
    status: Option<string>,
    userId: Option<string>,
    basin: Option<string>,
    userGroup: Option<string>)

  /** One `AND` term of the WHERE clause, with its bound parameter. */
  datatype Condition =
    | StatusIs(status: string)          // status = ?
    | RequestedBy(userId: string)       // requested_by_user_id = ?
    | BasinLike(pattern: string)        // basin LIKE '%' || ? || '%'
    | GroupLike(pattern: string)        // user_group LIKE '%' || ? || '%'

  /** A term holds of a row; a NULL column satisfies no term. */
  predicate Holds(c: Condition, r: Requisition) {
    match c
    case StatusIs(s) => r.status == s
    case RequestedBy(u) => r.fields.requestedByUserId == Some(u)
    case BasinLike(p) => r.fields.basin.Some? && ContainsIgnoringCase(r.fields.basin.value, p)
    case GroupLike(p) => r.fields.userGroup.Some? && ContainsIgnoringCase(r.fields.userGroup.value, p)
  }

  /** `WHERE 1=1 AND ...`: every term holds. */
  predicate AllHold(cs: seq<Condition>, r: Requisition) {
    forall i :: 0 <= i < |cs| ==> Holds(cs[i], r)
  }

  /** What the listing promises, stated on its own: every parameter that is
      given and non-empty restricts the rows, status and requester exactly,
      basin and group by case-insensitive substring; the others are ignored. */
  predicate Admits(f: Filter, r: Requisition) {
    && (Present(f.status) ==> r.status == f.status.value)
    && (Present(f.userId) ==> r.fields.requestedByUserId == f.userId)
    && (Present(f.basin) ==>
          r.fields.basin.Some? && ContainsIgnoringCase(r.fields.basin.value, f.basin.value))
    && (Present(f.userGroup) ==>
          r.fields.userGroup.Some? && ContainsIgnoringCase(r.fields.userGroup.value, f.userGroup.value))
  }

  /** Building `query_str` and `params` one parameter at a time. The terms
      select exactly the rows the filter admits, one term per non-empty
      parameter, in the order status, user id, basin, group. */
  method BuildConditions(f: Filter) returns (cs: seq<Condition>)
    ensures cs == TermsOf(f)
    ensures forall r :: AllHold(cs, r) <==> Admits(f, r)
    ensures |cs| == (if Present(f.status) then 1 else 0) + (if Present(f.userId) then 1 else 0)
                  + (if Present(f.basin) then 1 else 0) + (if Present(f.userGroup) then 1 else 0)
  {
    cs := [];
    if Present(f.status) {
      cs := cs + [StatusIs(f.status.value)];
    }
    if Present(f.userId) {
      cs := cs + [RequestedBy(f.userId.value)];
    }
    if Present(f.basin) {
      cs := cs + [BasinLike(f.basin.value)];
    }
    if Present(f.userGroup) {
      cs := cs + [GroupLike(f.userGroup.value)];
    }
    forall r ensures AllHold(cs, r) <==> Admits(f, r) {
      ConditionsMeaning(f, cs, r);
    }
  }

  /** The four optional terms, in order. */
  function TermsOf(f: Filter): seq<Condition> {
    (if Present(f.status) then [StatusIs(f.status.value)] else [])
    + (if Present(f.userId) then [RequestedBy(f.userId.value)] else [])
    + (if Present(f.basin) then [BasinLike(f.basin.value)] else [])
    + (if Present(f.userGroup) then [GroupLike(f.userGroup.value)] else [])
  }

  lemma AllHoldConcat(a: seq<Condition>, b: seq<Condition>, r: Requisition)
    ensures AllHold(a + b, r) <==> AllHold(a, r) && AllHold(b, r)
  {
    if AllHold(a, r) && AllHold(b, r) {
      forall i | 0 <= i < |a + b| ensures Holds((a + b)[i], r) {
        if i >= |a| { assert (a + b)[i] == b[i - |a|]; }
      }
    }
    if AllHold(a + b, r) {
      forall i | 0 <= i < |a| ensures Holds(a[i], r) {
        assert (a + b)[i] == a[i];
      }
      forall i | 0 <= i < |b| ensures Holds(b[i], r) {
        assert (a + b)[|a| + i] == b[i];
      }
    }
  }

  lemma SingleTerm(cs: seq<Condition>, r: Requisition)
    requires |cs| <= 1
    ensures AllHold(cs, r) <==> (cs == [] || Holds(cs[0], r))
  {
  }

  lemma ConditionsMeaning(f: Filter, cs: seq<Condition>, r: Requisition)
    requires cs == TermsOf(f)
    ensures AllHold(cs, r) <==> Admits(f, r)
  {
    var s := if Present(f.status) then [StatusIs(f.status.value)] else [];
    var u := if Present(f.userId) then [RequestedBy(f.userId.value)] else [];
    var b := if Present(f.basin) then [BasinLike(f.basin.value)] else [];
    var g := if Present(f.userGroup) then [GroupLike(f.userGroup.value)] else [];
    AllHoldConcat(s + u + b, g, r);
    AllHoldConcat(s + u, b, r);
    AllHoldConcat(s, u, r);
    SingleTerm(s, r);
    SingleTerm(u, r);
    SingleTerm(b, r);
    SingleTerm(g, r);
    if Present(f.userId) { assert f.userId == Some(f.userId.value); }
  }

  /** Ordered by `created_at` from newest to oldest (text order). */
  predicate NewestFirst(rows: seq<Requisition>) {
    forall i, j :: 0 <= i < j < |rows| ==> LexLe(rows[j].createdAt, rows[i].createdAt)
  }

  /** Insert a row into a newest-first sequence, before the first row that
      is not newer than it. */
  function InsertNewestFirst(rows: seq<Requisition>, x: Requisition): (r: seq<Requisition>)
    ensures multiset(r) == multiset(rows) + multiset{x}
  {
    if rows == [] then [x]
    else if LexLe(rows[0].createdAt, x.createdAt) then [x] + rows
    else
      assert rows == [rows[0]] + rows[1..];
      [rows[0]] + InsertNewestFirst(rows[1..], x)
  }

  /** Every row of a newest-first sequence is no newer than `bound`. */
  predicate NoNewerThan(rows: seq<Requisition>, bound: string) {
    forall i :: 0 <= i < |rows| ==> LexLe(rows[i].createdAt, bound)
  }

  /** A row no older than every row of a newest-first sequence can go in front. */
  lemma PrependKeepsOrder(x: Requisition, rows: seq<Requisition>)
    requires NewestFirst(rows) && NoNewerThan(rows, x.createdAt)
    ensures NewestFirst([x] + rows)
  {
    var r := [x] + rows;
    forall i, j | 0 <= i < j < |r| ensures LexLe(r[j].createdAt, r[i].createdAt) {
      assert r[j] == rows[j - 1];
      if i > 0 { assert r[i] == rows[i - 1]; }
    }
  }

  /** Inserting a row no newer than `bound` keeps every row no newer than it. */
  lemma {:induction false} InsertBounded(rows: seq<Requisition>, x: Requisition, bound: string)
    requires NoNewerThan(rows, bound) && LexLe(x.createdAt, bound)
    ensures NoNewerThan(InsertNewestFirst(rows, x), bound)
    decreases |rows|
  {
    if rows != [] && !LexLe(rows[0].createdAt, x.createdAt) {
      InsertBounded(rows[1..], x, bound);
      var rest := InsertNewestFirst(rows[1..], x);
      assert forall i :: 0 < i < |[rows[0]] + rest| ==> ([rows[0]] + rest)[i] == rest[i - 1];
    }
  }

  lemma {:induction false} InsertKeepsOrder(rows: seq<Requisition>, x: Requisition)
    requires NewestFirst(rows)
    ensures NewestFirst(InsertNewestFirst(rows, x))
    decreases |rows|
  {
    if rows == [] {
    } else if LexLe(rows[0].createdAt, x.createdAt) {
      forall j | 0 <= j < |rows| ensures LexLe(rows[j].createdAt, x.createdAt) {
        if j > 0 { LexLeTransitive(rows[j].createdAt, rows[0].createdAt, x.createdAt); }
      }
      PrependKeepsOrder(x, rows);
    } else {
      LexLeTotal(rows[0].createdAt, x.createdAt);
      InsertKeepsOrder(rows[1..], x);
      InsertBounded(rows[1..], x, rows[0].createdAt);
      PrependKeepsOrder(rows[0], InsertNewestFirst(rows[1..], x));
    }
  }

  /** The rows of a table that satisfy every term. */
  ghost function Matching(table: map<string, Requisition>, cs: seq<Condition>): set<Requisition> {
    set k | k in table && AllHold(cs, table[k]) :: table[k]
  }

  /** The matching rows whose keys are no longer pending. */
  ghost function Chosen(table: map<string, Requisition>, cs: seq<Condition>, pending: set<string>): set<Requisition> {
    set k | k in table && k !in pending && AllHold(cs, table[k]) :: table[k]
  }

  /** Visiting key `k` adds its row to the chosen ones exactly when it
      matches, and a row with a pending key was not chosen before. */
  lemma ChosenStep(table: map<string, Requisition>, cs: seq<Condition>, pending: set<string>, k: string)
    requires KeyedById(table) && k in pending && pending <= table.Keys
    ensures multiset(Chosen(table, cs, pending - {k})) ==
      multiset(Chosen(table, cs, pending)) + (if AllHold(cs, table[k]) then multiset{table[k]} else multiset{})
  {
    var before := Chosen(table, cs, pending);
    var after := Chosen(table, cs, pending - {k});
    if AllHold(cs, table[k]) {
      assert table[k] !in before;
      assert after == before + {table[k]};
    } else {
      assert after == before;
    }
  }

  /** Once no key is pending, every matching row has been chosen. */
  lemma ChosenAll(table: map<string, Requisition>, cs: seq<Condition>)
    ensures Chosen(table, cs, {}) == Matching(table, cs)
  {
  }

  /** `SELECT * FROM requisitions WHERE ... ORDER BY created_at DESC`: every
      matching row exactly once, newest first, and nothing else. */
  method SelectNewestFirst(table: map<string, Requisition>, cs: seq<Condition>) returns (rows: seq<Requisition>)
    requires KeyedById(table)
    ensures multiset(rows) == multiset(Matching(table, cs))
    ensures forall r :: r in rows <==> r in table.Values && AllHold(cs, r)
    ensures NewestFirst(rows)
  {
    var pending := table.Keys;
    rows := [];
    while pending != {}
      invariant pending <= table.Keys
      invariant multiset(rows) == multiset(Chosen(table, cs, pending))
      invariant NewestFirst(rows)
      decreases |pending|
    {
      var k :| k in pending;
      var r := table[k];
      ChosenStep(table, cs, pending, k);
      if AllHold(cs, r) {
        InsertKeepsOrder(rows, r);
        rows := InsertNewestFirst(rows, r);
      }
      pending := pending - {k};
    }
    ChosenAll(table, cs);
    forall r ensures r in rows <==> r in table.Values && AllHold(cs, r) {
      assert r in rows <==> r in multiset(rows);
    }
  }
}
