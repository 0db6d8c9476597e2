/**
 * The static query builder shared by `Brand` (includes/Brand.php) and
 * `Toplist` (includes/Toplist.php): `where`, `orderBy` and `limit` record
 * state, `getResults` turns it into SQL text plus prepared-statement
 * arguments and then clears it. Running the SQL is a parameter.
 */
module QueryBuilder {
  import opened Common
  import opened PhpStrings

  datatype Where = Where(column: string, value: string, operator: string)
  datatype Order = Order(column: string, direction: string)

  /** The builder's static state: `$query_where`, `$query_order`, `$query_limit`. */
  datatype Builder = Builder(wheres: seq<Where>, order: Option<Order>, limit: Option<int>)

  /** The state `resetQuery()` leaves behind. */
  const Reset: Builder := Builder([], None, None)

  /** The SQL text and the values `$wpdb->prepare` substitutes for its `%s` markers. */
  datatype Query = Query(sql: string, args: seq<string>)

  /** `where($column, $value, $operator = '=')`. */
  function AddWhere(q: Builder, column: string, value: string, operator: string := "="): (r: Builder)
    ensures |r.wheres| == |q.wheres| + 1 && r.wheres[..|q.wheres|] == q.wheres
    ensures r.wheres[|q.wheres|] == Where(column, value, operator)
    ensures r.order == q.order && r.limit == q.limit
  {
    q.(wheres := q.wheres + [Where(column, value, operator)])
  }

  /** `orderBy($column, $direction = 'ASC')`: the direction is stored upper-cased. */
  function OrderBy(q: Builder, column: string, direction: string := "ASC"): (r: Builder)
    ensures r.order.Some? && r.order.value.column == column
    ensures |r.order.value.direction| == |direction|
    ensures forall i :: 0 <= i < |direction| ==> !('a' <= r.order.value.direction[i] <= 'z')
    ensures forall i :: 0 <= i < |direction| ==> LowerChar(r.order.value.direction[i]) == LowerChar(direction[i])
    ensures r.wheres == q.wheres && r.limit == q.limit
  {
    q.(order := Some(Order(column, ToUpper(direction))))
  }

  /** `limit($limit)`. */
  function SetLimit(q: Builder, n: int): (r: Builder)
    ensures r.limit == Some(n) && r.wheres == q.wheres && r.order == q.order
  {
    q.(limit := Some(n))
  }

  function WhereClause(w: Where): string {
    w.column + " " + w.operator + " %s"
  }

  function WhereClauses(ws: seq<Where>): (r: seq<string>)
    ensures |r| == |ws|
    ensures forall i :: 0 <= i < |ws| ==> r[i] == WhereClause(ws[i])
  {
    seq(|ws|, i requires 0 <= i < |ws| => WhereClause(ws[i]))
  }

  function WhereValues(ws: seq<Where>): (r: seq<string>)
    ensures |r| == |ws|
    ensures forall i :: 0 <= i < |ws| ==> r[i] == ws[i].value
  {
    seq(|ws|, i requires 0 <= i < |ws| => ws[i].value)
  }

  function WherePart(q: Builder): string {
    if |q.wheres| == 0 then "" else " WHERE " + Implode(WhereClauses(q.wheres), " AND ")
  }

  function OrderPart(q: Builder): string {
    match q.order
    case None => ""
    case Some(o) => " ORDER BY " + o.column + " " + o.direction
  }

  /** PHP truthiness of the stored limit: unset and 0 emit no LIMIT. */
  predicate LimitIsSet(q: Builder) {
    q.limit.Some? && q.limit.value != 0
  }

  function LimitPart(q: Builder): (r: string)
    ensures r == "" <==> !LimitIsSet(q)
  {
    if LimitIsSet(q) then " LIMIT " + IntToString(q.limit.value) else ""
  }

  /** The query `getResults` prepares for table `table`. */
  function BuildQuery(table: string, q: Builder): (r: Query)
    ensures StartsWith(r.sql, "SELECT * FROM " + table)
    ensures r.sql == "SELECT * FROM " + table + WherePart(q) + OrderPart(q) + LimitPart(q)
    ensures r.args == WhereValues(q.wheres)
  {
    var sql := "SELECT * FROM " + table + WherePart(q) + OrderPart(q) + LimitPart(q);
    assert sql[..|"SELECT * FROM " + table|] == "SELECT * FROM " + table;
    Query(sql, WhereValues(q.wheres))
  }

  /** Joining one more item appends the separator and the item. */
  lemma {:induction false} ImplodeAppend(xs: seq<string>, x: string, sep: string)
    requires |xs| >= 1
    ensures Implode(xs + [x], sep) == Implode(xs, sep) + sep + x
  {
    if |xs| == 1 {
      assert xs + [x] == [xs[0], x];
      assert [xs[0], x][1..] == [x];
    } else {
      assert (xs + [x])[1..] == xs[1..] + [x];
      ImplodeAppend(xs[1..], x, sep);
    }
  }

  /** Each `where` call appends its clause, joined to the earlier ones with AND, in call order. */
  lemma WhereExtendsClause(q: Builder, column: string, value: string, operator: string)
    ensures var clause := column + " " + operator + " %s";
            WherePart(AddWhere(q, column, value, operator))
            == (if |q.wheres| == 0 then " WHERE " + clause else WherePart(q) + " AND " + clause)
  {
    var r := AddWhere(q, column, value, operator);
    assert WhereClauses(r.wheres) == WhereClauses(q.wheres) + [WhereClause(Where(column, value, operator))];
    if |q.wheres| == 0 {
      assert WhereClauses(r.wheres) == [WhereClause(Where(column, value, operator))];
    } else {
      ImplodeAppend(WhereClauses(q.wheres), WhereClause(Where(column, value, operator)), " AND ");
    }
  }

  /**
   * `getResults()`: build the query, reset the builder, run the query.
   * `run` stands for `$wpdb->get_results` followed by `make` on every row.
   */
  function GetResults<R>(q: Builder, table: string, run: Query -> seq<R>): (r: (seq<R>, Builder))
    ensures r.1 == Reset
    ensures r.0 == run(BuildQuery(table, q))
  {
    (run(BuildQuery(table, q)), Reset)
  }

  /** Whatever was pending before a `getResults`, the next query sees only the calls made after it. */
  lemma NoLeakBetweenQueries<R>(q: Builder, table: string, run: Query -> seq<R>, column: string, value: string)
    ensures var after := GetResults(q, table, run).1;
            BuildQuery(table, AddWhere(after, column, value)).sql
            == "SELECT * FROM " + table + " WHERE " + column + " = %s"
  {
    var w := AddWhere(Reset, column, value);
    WhereExtendsClause(Reset, column, value, "=");
    assert WherePart(w) == " WHERE " + column + " = %s";
    assert OrderPart(w) == "" && LimitPart(w) == "";
    assert BuildQuery(table, w).sql == "SELECT * FROM " + table + WherePart(w) + "" + "";
  }

  /** `all()`: reset first, so pending where/order/limit calls are ignored. */
  function All<R>(q: Builder, table: string, run: Query -> seq<R>): (r: (seq<R>, Builder))
    ensures r.0 == run(Query("SELECT * FROM " + table, []))
    ensures r.1 == Reset
  {
    var base := "SELECT * FROM " + table;
    assert WherePart(Reset) == "" && OrderPart(Reset) == "" && LimitPart(Reset) == "";
    assert base + "" + "" + "" == base;
    GetResults(Reset, table, run)
  }

  /** `first()`: limit 1, run, and return the first row or null. */
  function First<R>(q: Builder, table: string, run: Query -> seq<R>): (r: (Option<R>, Builder))
    ensures var query := BuildQuery(table, SetLimit(q, 1));
            (r.0.None? <==> |run(query)| == 0) && (r.0.Some? ==> r.0.value == run(query)[0])
    ensures LimitPart(SetLimit(q, 1)) == " LIMIT 1"
    ensures r.1 == Reset
  {
    var (rows, state) := GetResults(SetLimit(q, 1), table, run);
    (if |rows| > 0 then Some(rows[0]) else None, state)
  }
}
