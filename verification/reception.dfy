/**
 The reception staff's views: today's orders with their totals on the
 dashboard, and the daily sales report. The current date is a parameter.
 */
module Reception {
  import opened Wrappers
  import opened Text
  import opened Models
  import opened Http

  /** The ids of the orders created on a day, in id order. */
  function OrdersOn(orders: seq<Order>, day: int): (ids: seq<Id>)
    ensures forall k :: 0 <= k < |ids| ==> 1 <= ids[k] <= |orders| && DateOf(orders[ids[k] - 1].createdAt) == day
    ensures forall id: Id :: 1 <= id <= |orders| && DateOf(orders[id - 1].createdAt) == day ==> id in ids
    ensures forall j, k :: 0 <= j < k < |ids| ==> ids[j] < ids[k]
  {
    if orders == [] then []
    else
      var rest := OrdersOn(orders[..|orders| - 1], day);
      if DateOf(orders[|orders| - 1].createdAt) == day then rest + [|orders|] else rest
  }

  function OrZero(total: Option<int>): int {
    if total.Some? then total.value else 0
  }

  /**
   The dashboard's per-order total as the database computes it: the SQL sum
   of quantity times price over the order's joined line items, which is
   NULL when the order has no line items.
   */
  function AnnotatedTotal(menu: seq<MenuItem>, items: seq<OrderItem>, order: Id): Option<int>
    requires ItemRefsOk(menu, items)
  {
    if items == [] then None
    else
      var rest := AnnotatedTotal(menu, items[..|items| - 1], order);
      var last := items[|items| - 1];
      if last.order != order then rest else Some(OrZero(rest) + Subtotal(menu, last))
  }


  /** The SQL sum is NULL exactly for an order without line items. */
  lemma {:induction false} AnnotatedTotalNull(menu: seq<MenuItem>, items: seq<OrderItem>, order: Id)
    requires ItemRefsOk(menu, items)
    ensures AnnotatedTotal(menu, items, order).None? <==> ItemsOf(items, order) == []
    decreases |items|
  {
    if items != [] {
      var p := items[..|items| - 1];
      var last := items[|items| - 1];
      assert ItemRefsOk(menu, p);
      AnnotatedTotalNull(menu, p, order);
      assert p + [last] == items;
      ItemsOfAppend(p, last, order);
    }
  }

  /** Counting NULL as 0, the SQL sum is the sum of the order's subtotals. */
  lemma {:induction false} AnnotatedTotalValue(menu: seq<MenuItem>, items: seq<OrderItem>, order: Id)
    requires ItemRefsOk(menu, items)
    ensures ItemRefsOk(menu, ItemsOf(items, order))
    ensures OrZero(AnnotatedTotal(menu, items, order)) == ItemsTotal(menu, ItemsOf(items, order))
    decreases |items|
  {
    ItemsOfKeepsRefs(menu, items, order);
    if items != [] {
      var p := items[..|items| - 1];
      var last := items[|items| - 1];
      assert ItemRefsOk(menu, p);
      AnnotatedTotalValue(menu, p, order);
      assert p + [last] == items;
      ItemsOfAppend(p, last, order);
      if last.order == order {
        ItemsOfKeepsRefs(menu, p, order);
        AppendOneTotal(menu, ItemsOf(p, order), last);
      }
    }
  }

  /** The day's sales: the totals of some orders, an order without items counting 0. */
  function Sales(st: Store, ids: seq<Id>): int
    requires Valid(st)
  {
    if ids == [] then 0 else Sales(st, ids[..|ids| - 1]) + CalculateTotal(st, ids[|ids| - 1])
  }

  lemma SalesStep(st: Store, ids: seq<Id>, k: nat)
    requires Valid(st) && k < |ids|
    ensures Sales(st, ids[..k + 1]) == Sales(st, ids[..k]) + CalculateTotal(st, ids[k])
  {
    assert ids[..k + 1][..k] == ids[..k];
  }

  datatype DashboardRow = DashboardRow(order: Id, total: Option<int>)
  datatype Dashboard = Dashboard(rows: seq<DashboardRow>, total: int)

  /** The dashboard line of an order: its id and its SQL total. */
  function DashboardRowOf(st: Store, id: Id): (row: DashboardRow)
    requires Valid(st)
    ensures row.order == id
    ensures row.total.None? <==> ItemsOf(st.items, id) == []
    ensures OrZero(row.total) == CalculateTotal(st, id)
  {
    assert ItemRefsOk(st.menu, st.items) by {
      forall i | 0 <= i < |st.items|
        ensures 1 <= st.items[i].menuItem <= |st.menu|
      {
        assert ItemOk(st, st.items[i]);
      }
    }
    AnnotatedTotalNull(st.menu, st.items, id);
    AnnotatedTotalValue(st.menu, st.items, id);
    DashboardRow(id, AnnotatedTotal(st.menu, st.items, id))
  }

  function DashboardRows(st: Store, ids: seq<Id>): (rows: seq<DashboardRow>)
    requires Valid(st)
    ensures |rows| == |ids|
    ensures forall k :: 0 <= k < |ids| ==> rows[k] == DashboardRowOf(st, ids[k])
  {
    seq(|ids|, k requires 0 <= k < |ids| => DashboardRowOf(st, ids[k]))
  }

  /** `sum(order.total or 0 ...)` over some rows. */
  function RowsTotal(rows: seq<DashboardRow>): int {
    if rows == [] then 0 else RowsTotal(rows[..|rows| - 1]) + OrZero(rows[|rows| - 1].total)
  }

  lemma {:induction false} RowsTotalIsSales(st: Store, ids: seq<Id>)
    requires Valid(st)
    ensures RowsTotal(DashboardRows(st, ids)) == Sales(st, ids)
    decreases |ids|
  {
    if ids != [] {
      var p := ids[..|ids| - 1];
      var rows := DashboardRows(st, ids);
      assert rows[..|rows| - 1] == DashboardRows(st, p);
      RowsTotalIsSales(st, p);
    }
  }

  /**
   The reception dashboard, for reception staff only (anyone else is sent
   home): today's orders with their SQL totals (NULL for an order without
   items, otherwise the order's total), and the grand total in
   which an order without items counts 0, which is the day's sales.
   */
  function ReceptionDashboard(st: Store, caller: Id, today: int): (out: Reply<Dashboard>)
    requires Valid(st) && IsUser(st, caller)
    ensures out.Ok? <==> RoleOf(st, caller) == "recepcion"
    ensures out.Fail? ==> out.failure == RedirectHome
    ensures out.Ok? ==> var ids := OrdersOn(st.orders, today);
      && |out.value.rows| == |ids|
      && (forall k :: 0 <= k < |ids| ==> out.value.rows[k].order == ids[k])
      && (forall k :: 0 <= k < |ids| ==> (out.value.rows[k].total.None? <==> ItemsOf(st.items, ids[k]) == []))
      && (forall k :: 0 <= k < |ids| ==> OrZero(out.value.rows[k].total) == CalculateTotal(st, ids[k]))
      && out.value.total == Sales(st, ids)
  {
    if RoleOf(st, caller) != "recepcion" then Fail(RedirectHome)
    else
      var rows := DashboardRows(st, OrdersOn(st.orders, today));
      RowsTotalIsSales(st, OrdersOn(st.orders, today));
      Ok(Dashboard(rows, RowsTotal(rows)))
  }

  const MicrosPerMinute: nat := 60_000_000
  const MicrosPerHour: nat := 3_600_000_000

  function Pad2(n: nat): string
    requires n < 100
  {
    [DigitChar(n / 10), DigitChar(n % 10)]
  }

  /** Reads back an `HH:MM` text as minutes after midnight. */
  function ClockMinutes(s: string): int
    requires |s| == 5 && IsDigit(s[0]) && IsDigit(s[1]) && IsDigit(s[3]) && IsDigit(s[4])
  {
    (DigitValue(s[0]) * 10 + DigitValue(s[1])) * 60 + DigitValue(s[3]) * 10 + DigitValue(s[4])
  }

  lemma DivUnique(x: int, q: int, r: int)
    requires x == q * MicrosPerMinute + r && 0 <= r < MicrosPerMinute
    ensures x / MicrosPerMinute == q
  {
  }

  /** A wall-clock time of day. */
  datatype Clock = Clock(hour: nat, minute: nat)

  /** The wall-clock time of a timestamp: the hour of its day and the minute of its hour. */
  function ClockOf(t: int): (c: Clock)
    ensures c.hour < 24 && c.minute < 60
  {
    var x := t % MicrosPerDay;
    Clock(x / MicrosPerHour, (x % MicrosPerHour) / MicrosPerMinute)
  }

  /** The `%H:%M` text of a clock time: two-digit hour, a colon, two-digit minute. */
  function ClockText(c: Clock): (r: string)
    requires c.hour < 100 && c.minute < 100
    ensures |r| == 5 && r[2] == ':'
    ensures IsDigit(r[0]) && IsDigit(r[1]) && IsDigit(r[3]) && IsDigit(r[4])
  {
    Pad2(c.hour) + ":" + Pad2(c.minute)
  }

  /** Read back, the `%H:%M` text of a timestamp is its minute of the day. */
  lemma ClockTextReadsBack(t: int)
    ensures ClockMinutes(ClockText(ClockOf(t))) == (t % MicrosPerDay) / MicrosPerMinute
  {
    var x := t % MicrosPerDay;
    var h := x / MicrosPerHour;
    var y := x % MicrosPerHour;
    var m := y / MicrosPerMinute;
    var rest := y % MicrosPerMinute;
    assert x == h * 3_600_000_000 + y;
    assert y == m * 60_000_000 + rest;
    assert x == (h * 60 + m) * 60_000_000 + rest;
    DivUnique(x, h * 60 + m, rest);
  }

  const ReportTitle: string := "Reporte Diario"
  const ReportHeaders: seq<string> := ["ID Pedido", "Mesa", "Garz\U{F3}n", "Hora", "Estado", "Total"]

  datatype ReportRow = ReportRow(order: Id, table: int, waiter: string, time: Clock, status: string, total: int)
  datatype Report = Report(title: string, headers: seq<string>, rows: seq<ReportRow>, grandTotal: int)

  /** The report line of an order: id, table number, waiter, time, status label and total. */
  function RowOf(st: Store, id: Id): (row: ReportRow)
    requires Valid(st) && IsOrder(st, id)
    ensures row.order == id && row.total == CalculateTotal(st, id)
    ensures row.status == StatusDisplay(st.orders[id - 1].status)
    ensures row.table == st.tables[st.orders[id - 1].table - 1].number
    ensures row.waiter == st.users[st.orders[id - 1].waiter - 1].username
  {
    var o := st.orders[id - 1];
    assert OrderOk(st, o);
    ReportRow(id, st.tables[o.table - 1].number, st.users[o.waiter - 1].username,
              ClockOf(o.createdAt), StatusDisplay(o.status), CalculateTotal(st, id))
  }

  /** A function applied to each of some ids, in order. */
  function MapIds<T>(ids: seq<Id>, f: Id --> T): seq<T>
    requires forall k :: 0 <= k < |ids| ==> f.requires(ids[k])
  {
    if ids == [] then [] else MapIds(ids[..|ids| - 1], f) + [f(ids[|ids| - 1])]
  }

  lemma {:induction false} MapIdsIndex<T>(ids: seq<Id>, f: Id --> T)
    requires forall k :: 0 <= k < |ids| ==> f.requires(ids[k])
    ensures |MapIds(ids, f)| == |ids|
    ensures forall k :: 0 <= k < |ids| ==> MapIds(ids, f)[k] == f(ids[k])
  {
    if ids != [] {
      MapIdsIndex(ids[..|ids| - 1], f);
    }
  }

  /** The report rows of some orders and the sum of their totals, one order at a time. */
  method ReportRows(st: Store, ids: seq<Id>) returns (rows: seq<ReportRow>, total: int)
    requires Valid(st)
    requires forall k :: 0 <= k < |ids| ==> IsOrder(st, ids[k])
    ensures |rows| == |ids|
    ensures forall k :: 0 <= k < |ids| ==> rows[k] == RowOf(st, ids[k])
    ensures total == Sales(st, ids)
  {
    rows := [];
    total := 0;
    var rowOf := (id: Id) requires Valid(st) && IsOrder(st, id) => RowOf(st, id);
    var k := 0;
    while k < |ids|
      invariant 0 <= k <= |ids|
      invariant rows == MapIds(ids[..k], rowOf)
      invariant total == Sales(st, ids[..k])
    {
      var row := RowOf(st, ids[k]);
      SalesStep(st, ids, k);
      assert ids[..k + 1][..k] == ids[..k];
      rows := rows + [row];
      total := total + row.total;
      k := k + 1;
    }
    assert ids[..k] == ids;
    MapIdsIndex(ids, rowOf);
  }

  /**
   The daily report, for reception staff only: one row per order of the day
   with its total summed over its line items, and the grand total, which is
   the day's sales and so the dashboard's grand total.
   */
  method DailyReport(st: Store, caller: Id, today: int) returns (out: Reply<Report>)
    requires Valid(st) && IsUser(st, caller)
    ensures out.Ok? <==> RoleOf(st, caller) == "recepcion"
    ensures out.Fail? ==> out.failure == RedirectHome
    ensures out.Ok? ==> var ids := OrdersOn(st.orders, today);
      && out.value.title == ReportTitle && out.value.headers == ReportHeaders
      && |out.value.rows| == |ids|
      && (forall k :: 0 <= k < |ids| ==> IsOrder(st, ids[k]) && out.value.rows[k] == RowOf(st, ids[k]))
      && out.value.grandTotal == Sales(st, ids)
  {
    if RoleOf(st, caller) != "recepcion" {
      return Fail(RedirectHome);
    }
    var ids := OrdersOn(st.orders, today);
    var rows, total := ReportRows(st, ids);
    return Ok(Report(ReportTitle, ReportHeaders, rows, total));
  }
}
