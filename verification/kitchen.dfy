/**
 The kitchen's views: the queue of orders still to be cooked, in the page and
 the JSON variants, and the status update cooks apply to an order.
 */
module Kitchen {
  import opened Wrappers
  import opened Text
  import opened Models
  import opened Http
  import opened Grouping

  /** The statuses the kitchen queue shows. */
  predicate Pending(s: Status) {
    s == NotTaken || s == Preparing
  }

  predicate ValidIds(orders: seq<Order>, ids: seq<Id>) {
    forall i :: 0 <= i < |ids| ==> 1 <= ids[i] <= |orders|
  }

  predicate Distinct(ids: seq<Id>) {
    forall i, j :: 0 <= i < j < |ids| ==> ids[i] != ids[j]
  }

  /** Oldest first: creation times never decrease along `ids`. */
  predicate SortedByCreation(orders: seq<Order>, ids: seq<Id>)
    requires ValidIds(orders, ids)
  {
    forall i, j :: 0 <= i < j < |ids| ==> orders[ids[i] - 1].createdAt <= orders[ids[j] - 1].createdAt
  }

  /** The ids of the pending orders, in id order (the status filter of the queue). */
  function PendingIds(orders: seq<Order>): (r: seq<Id>)
    ensures ValidIds(orders, r)
    ensures forall id :: id in r <==> 1 <= id <= |orders| && Pending(orders[id - 1].status)
    ensures forall i, j :: 0 <= i < j < |r| ==> r[i] < r[j]
  {
    if orders == [] then []
    else
      var p := orders[..|orders| - 1];
      var r := PendingIds(p);
      if Pending(orders[|orders| - 1].status) then r + [|orders|] else r
  }

  /** Inserts `id` into `s` after every order created no later than it. */
  function InsertByCreation(orders: seq<Order>, id: Id, s: seq<Id>): (r: seq<Id>)
    requires 1 <= id <= |orders| && ValidIds(orders, s)
    ensures ValidIds(orders, r)
    ensures multiset(r) == multiset(s) + multiset{id}
  {
    if s == [] then [id]
    else if orders[id - 1].createdAt < orders[s[0] - 1].createdAt then
      [id] + s
    else
      assert s == [s[0]] + s[1..];
      [s[0]] + InsertByCreation(orders, id, s[1..])
  }

  /** Putting an order created strictly before the head of a sorted sequence in front keeps it sorted. */
  lemma PrependKeepsOrder(orders: seq<Order>, id: Id, s: seq<Id>)
    requires 1 <= id <= |orders| && ValidIds(orders, s) && SortedByCreation(orders, s)
    requires forall x :: x in s ==> orders[id - 1].createdAt <= orders[x - 1].createdAt
    ensures ValidIds(orders, [id] + s) && SortedByCreation(orders, [id] + s)
  {
    var r := [id] + s;
    forall i, j | 0 <= i < j < |r|
      ensures orders[r[i] - 1].createdAt <= orders[r[j] - 1].createdAt
    {
      assert r[j] == s[j - 1] && s[j - 1] in s;
      if i > 0 {
        assert r[i] == s[i - 1];
      }
    }
  }

  lemma InsertMembers(orders: seq<Order>, id: Id, s: seq<Id>)
    requires 1 <= id <= |orders| && ValidIds(orders, s)
    ensures forall x :: x in InsertByCreation(orders, id, s) ==> x == id || x in s
  {
    var r := InsertByCreation(orders, id, s);
    forall x | x in r
      ensures x == id || x in s
    {
      assert x in multiset(r);
    }
  }

  /** In a sorted sequence the head was created no later than anything after it. */
  lemma HeadFirst(orders: seq<Order>, s: seq<Id>, x: Id)
    requires ValidIds(orders, s) && SortedByCreation(orders, s) && s != [] && x in s[1..]
    ensures 1 <= x <= |orders| && orders[s[0] - 1].createdAt <= orders[x - 1].createdAt
  {
    var k :| 0 <= k < |s[1..]| && s[1..][k] == x;
    assert s[k + 1] == x;
  }

  lemma {:induction false} InsertKeepsOrder(orders: seq<Order>, id: Id, s: seq<Id>)
    requires 1 <= id <= |orders| && ValidIds(orders, s) && SortedByCreation(orders, s)
    ensures SortedByCreation(orders, InsertByCreation(orders, id, s))
  {
    if s == [] {
    } else if orders[id - 1].createdAt < orders[s[0] - 1].createdAt {
      forall x | x in s
        ensures orders[id - 1].createdAt <= orders[x - 1].createdAt
      {
        var k :| 0 <= k < |s| && s[k] == x;
      }
      PrependKeepsOrder(orders, id, s);
      assert InsertByCreation(orders, id, s) == [id] + s;
    } else {
      var tail := s[1..];
      assert ValidIds(orders, tail) && SortedByCreation(orders, tail);
      var rest := InsertByCreation(orders, id, tail);
      assert InsertByCreation(orders, id, s) == [s[0]] + rest;
      InsertKeepsOrder(orders, id, tail);
      InsertMembers(orders, id, tail);
      forall x | x in rest
        ensures orders[s[0] - 1].createdAt <= orders[x - 1].createdAt
      {
        if x != id {
          HeadFirst(orders, s, x);
        }
      }
      PrependKeepsOrder(orders, s[0], rest);
    }
  }


  lemma {:induction false} InsertKeepsDistinct(orders: seq<Order>, id: Id, s: seq<Id>)
    requires 1 <= id <= |orders| && ValidIds(orders, s) && Distinct(s) && id !in s
    ensures Distinct(InsertByCreation(orders, id, s))
  {
    if s != [] && orders[s[0] - 1].createdAt <= orders[id - 1].createdAt {
      var rest := InsertByCreation(orders, id, s[1..]);
      InsertKeepsDistinct(orders, id, s[1..]);
      assert s[0] !in multiset(rest) by {
        assert forall k :: 1 <= k < |s| ==> s[k] != s[0];
        assert s[0] !in s[1..];
      }
    }
  }

  /** A stable insertion sort of `ids` by creation time (`order_by('created_at')`). */
  function SortByCreation(orders: seq<Order>, ids: seq<Id>): (r: seq<Id>)
    requires ValidIds(orders, ids)
    ensures ValidIds(orders, r)
    ensures multiset(r) == multiset(ids)
    ensures SortedByCreation(orders, r)
    ensures Distinct(ids) ==> Distinct(r)
  {
    if ids == [] then []
    else
      var p := ids[..|ids| - 1];
      var last := ids[|ids| - 1];
      assert ids == p + [last];
      var sorted := SortByCreation(orders, p);
      InsertKeepsOrder(orders, last, sorted);
      assert Distinct(ids) ==> Distinct(InsertByCreation(orders, last, sorted)) by {
        if Distinct(ids) {
          assert forall k :: 0 <= k < |p| ==> p[k] != last;
          assert last !in multiset(sorted);
          InsertKeepsDistinct(orders, last, sorted);
        }
      }
      InsertByCreation(orders, last, sorted)
  }

  /**
   The orders the kitchen queue lists: each pending order exactly once, and
   no other, oldest first.
   */
  function QueueIds(orders: seq<Order>): (r: seq<Id>)
    ensures ValidIds(orders, r)
    ensures forall id :: id in r <==> 1 <= id <= |orders| && Pending(orders[id - 1].status)
    ensures Distinct(r)
    ensures SortedByCreation(orders, r)
  {
    var pending := PendingIds(orders);
    var r := SortByCreation(orders, pending);
    assert forall id :: id in r <==> id in multiset(r);
    assert forall id :: id in pending <==> id in multiset(pending);
    r
  }

  /** The lines of an order as the kitchen reads them: each with its menu item's id and name. */
  function LinesOf(st: Store, order: Id): (r: seq<Line>)
    requires Valid(st)
    ensures |r| == |ItemsOf(st.items, order)|
    ensures ConsistentNames(r)
  {
    var items := ItemsOf(st.items, order);
    ItemsOfRefsOk(st, order);
    seq(|items|, i requires 0 <= i < |items| =>
      Line(ItemRef(items[i].menuItem, st.menu[items[i].menuItem - 1].name), items[i].quantity, items[i].notes))
  }

  /** One order of the page view, with its grouped items. */
  datatype QueueEntry = QueueEntry(id: Id, order: Order, tableNumber: int, groups: seq<HtmlGroup>)

  /** One order of the JSON view (the date and time strings are not modelled). */
  datatype QueueJsonEntry = QueueJsonEntry(
    id: Id, tableNumber: int, status: string, statusDisplay: string, notes: string, items: seq<JsonGroup>)

  /** The number of the table an order was placed at. */
  function TableNumberOf(st: Store, id: Id): int
    requires Valid(st) && IsOrder(st, id)
  {
    var o := st.orders[id - 1];
    assert OrderOk(st, o);
    st.tables[o.table - 1].number
  }

  function EntryOf(st: Store, id: Id): QueueEntry
    requires Valid(st) && IsOrder(st, id)
  {
    QueueEntry(id, st.orders[id - 1], TableNumberOf(st, id), GroupHtml(LinesOf(st, id)))
  }

  function JsonEntryOf(st: Store, id: Id): QueueJsonEntry
    requires Valid(st) && IsOrder(st, id)
  {
    var o := st.orders[id - 1];
    QueueJsonEntry(id, TableNumberOf(st, id), StatusText(o.status), StatusDisplay(o.status),
                   o.notes, GroupJson(LinesOf(st, id)))
  }

  /**
   A JSON entry describes order `id`: its id, its table's number, its status
   as stored and as labelled, its notes and its groups.
   */
  predicate DescribesOrder(st: Store, id: Id, e: QueueJsonEntry)
    requires Valid(st) && IsOrder(st, id)
  {
    var o := st.orders[id - 1];
    && e.id == id && e.tableNumber == TableNumberOf(st, id)
    && e.status == StatusText(o.status) && e.statusDisplay == StatusDisplay(o.status)
    && e.notes == o.notes && e.items == GroupJson(LinesOf(st, id))
  }

  /** The kitchen queue page: cooks and admins see the pending orders; anyone else is sent home. */
  function KitchenQueue(st: Store, caller: Id): (r: Reply<seq<QueueEntry>>)
    requires Valid(st) && IsUser(st, caller)
    ensures r.Ok? <==> WorksKitchen(RoleOf(st, caller))
    ensures r.Fail? ==> r.failure == RedirectHome
    ensures r.Ok? ==> |r.value| == |QueueIds(st.orders)|
    ensures r.Ok? ==> forall i :: 0 <= i < |r.value| ==> r.value[i] == EntryOf(st, QueueIds(st.orders)[i])
  {
    if !WorksKitchen(RoleOf(st, caller)) then Fail(RedirectHome)
    else
      var ids := QueueIds(st.orders);
      Ok(seq(|ids|, i requires 0 <= i < |ids| => EntryOf(st, ids[i])))
  }

  /**
   The kitchen queue's JSON endpoint: only GET is served (checked before the
   role), then cooks and admins get the pending orders and anyone else a 403.
   */
  function KitchenQueueData(st: Store, caller: Id, verb: Method): (r: Reply<seq<QueueJsonEntry>>)
    requires Valid(st) && IsUser(st, caller)
    ensures verb != Get ==> r == Fail(MethodNotAllowed)
    ensures verb == Get ==> (r.Ok? <==> WorksKitchen(RoleOf(st, caller)))
    ensures verb == Get && r.Fail? ==> r.failure == Forbidden
    ensures r.Ok? ==> |r.value| == |QueueIds(st.orders)|
    ensures r.Ok? ==> forall i :: 0 <= i < |r.value| ==> r.value[i] == JsonEntryOf(st, QueueIds(st.orders)[i])
  {
    if verb != Get then Fail(MethodNotAllowed)
    else if !WorksKitchen(RoleOf(st, caller)) then Fail(Forbidden)
    else
      var ids := QueueIds(st.orders);
      Ok(seq(|ids|, i requires 0 <= i < |ids| => JsonEntryOf(st, ids[i])))
  }

  /** A page entry shows order `id`: its id, the order, its table's number and its groups. */
  predicate ShowsOrder(st: Store, id: Id, e: QueueEntry)
    requires Valid(st) && IsOrder(st, id)
  {
    && e.id == id && e.order == st.orders[id - 1]
    && e.tableNumber == TableNumberOf(st, id) && e.groups == GroupHtml(LinesOf(st, id))
  }

  /** The `i`-th entry of the queue page shows the `i`-th queued order. */
  lemma KitchenQueueShows(st: Store, caller: Id, i: nat)
    requires Valid(st) && IsUser(st, caller) && KitchenQueue(st, caller).Ok?
    requires i < |KitchenQueue(st, caller).value|
    ensures ShowsOrder(st, QueueIds(st.orders)[i], KitchenQueue(st, caller).value[i])
  {
  }

  /** The `i`-th entry of the JSON queue describes the `i`-th queued order. */
  lemma KitchenQueueDataDescribes(st: Store, caller: Id, i: nat)
    requires Valid(st) && IsUser(st, caller) && KitchenQueueData(st, caller, Get).Ok?
    requires i < |KitchenQueueData(st, caller, Get).value|
    ensures DescribesOrder(st, QueueIds(st.orders)[i], KitchenQueueData(st, caller, Get).value[i])
  {
  }

  /**
   The page and the JSON views of the same store list the same orders in the
   same order, with the same groups.
   */
  lemma QueueViewsAgree(st: Store, caller: Id)
    requires Valid(st) && IsUser(st, caller)
    requires KitchenQueue(st, caller).Ok?
    ensures KitchenQueueData(st, caller, Get).Ok?
    ensures var q := KitchenQueue(st, caller).value;
      var js := KitchenQueueData(st, caller, Get).value;
      && |js| == |q|
      && forall i :: 0 <= i < |q| ==>
        && js[i].id == q[i].id
        && js[i].tableNumber == q[i].tableNumber
        && js[i].status == StatusText(q[i].order.status)
        && |js[i].items| == |q[i].groups|
        && forall j :: 0 <= j < |js[i].items| ==> js[i].items[j] == HtmlToJson(q[i].groups[j])
  {
    var q := KitchenQueue(st, caller).value;
    var js := KitchenQueueData(st, caller, Get).value;
    forall i | 0 <= i < |q|
      ensures |js[i].items| == |q[i].groups|
      ensures forall j :: 0 <= j < |js[i].items| ==> js[i].items[j] == HtmlToJson(q[i].groups[j])
    {
      JsonAgreesWithHtml(LinesOf(st, q[i].id));
    }
  }

  /* ---------- Status update ---------- */

  /** The only targets the status update accepts. */
  function TargetStatus(target: Option<string>): (r: Option<Status>)
    ensures r.Some? <==> target == Some("preparing") || target == Some("ready")
    ensures r.Some? ==> target == Some(StatusText(r.value))
  {
    if target == Some("preparing") then Some(Preparing)
    else if target == Some("ready") then Some(Ready)
    else None
  }

  /**
   `update_order_status`: cooks and admins may POST a target status of
   `preparing` or `ready`; the order's status becomes the target whatever it
   was before, and one audit entry is written. Anyone else gets a 403, any
   other method a 405 and any other target a 400. A missing order surfaces
   as a 500, because the not-found error is raised inside the view's
   catch-all handler.
   */
  function UpdateOrderStatus(st: Store, caller: Id, verb: Method, target: Option<string>, order: Id, now: int): (out: Step<()>)
    requires Valid(st) && IsUser(st, caller)
    ensures Valid(out.store)
    ensures out.reply.Fail? ==> out.store == st
    ensures !WorksKitchen(RoleOf(st, caller)) ==> out.reply == Fail(Forbidden)
    ensures WorksKitchen(RoleOf(st, caller)) && verb != Post ==> out.reply == Fail(MethodNotAllowed)
    ensures WorksKitchen(RoleOf(st, caller)) && verb == Post && TargetStatus(target).None?
            ==> out.reply == Fail(BadRequest("Estado inv\U{E1}lido"))
    ensures WorksKitchen(RoleOf(st, caller)) && verb == Post && TargetStatus(target).Some? && !IsOrder(st, order)
            ==> out.reply == Fail(ServerError)
    ensures out.reply.Ok? <==> WorksKitchen(RoleOf(st, caller)) && verb == Post && TargetStatus(target).Some? && IsOrder(st, order)
  {
    if !WorksKitchen(RoleOf(st, caller)) then Step(st, Fail(Forbidden))
    else if verb != Post then Step(st, Fail(MethodNotAllowed))
    else match TargetStatus(target)
      case None => Step(st, Fail(BadRequest("Estado inv\U{E1}lido")))
      case Some(s) =>
        if !IsOrder(st, order) then Step(st, Fail(ServerError))
        else
          var st1 := st.(orders := st.orders[order - 1 := st.orders[order - 1].(status := s)]);
          assert forall i :: 0 <= i < |st1.orders| ==> OrderOk(st, st.orders[i]);
          Step(Log(st1, caller, "Cambiar estado pedido a " + StatusText(s), "Pedido " + IntText(order), now), Ok(()))
  }

  /**
   A successful status update sets exactly that order's status to the target,
   whatever the prior status (there is no forward-only check), appends
   exactly one audit entry, and changes nothing else.
   */
  lemma UpdateOrderStatusEffect(st: Store, caller: Id, verb: Method, target: Option<string>, order: Id, now: int)
    requires Valid(st) && IsUser(st, caller)
    requires UpdateOrderStatus(st, caller, verb, target, order, now).reply.Ok?
    ensures var st' := UpdateOrderStatus(st, caller, verb, target, order, now).store;
      && |st'.orders| == |st.orders|
      && Some(StatusText(st'.orders[order - 1].status)) == target
      && st'.orders[order - 1] == st.orders[order - 1].(status := st'.orders[order - 1].status)
      && (forall i :: 0 <= i < |st.orders| && i != order - 1 ==> st'.orders[i] == st.orders[i])
      && |st'.audit| == |st.audit| + 1 && st'.audit[..|st.audit|] == st.audit
      && st'.audit[|st.audit|].user == caller
      && st' == st.(orders := st'.orders, audit := st'.audit)
  {
  }

  /** Only `preparing` and `ready` pass: `delivered`, `not_taken`, anything else and no value are rejected. */
  lemma UpdateRejectsOtherTargets(st: Store, caller: Id, target: Option<string>, order: Id, now: int)
    requires Valid(st) && IsUser(st, caller) && WorksKitchen(RoleOf(st, caller))
    requires target != Some("preparing") && target != Some("ready")
    ensures UpdateOrderStatus(st, caller, Post, target, order, now) == Step(st, Fail(BadRequest("Estado inv\U{E1}lido")))
  {
  }

  /**
   Repeating a status update is idempotent on the orders: the second call
   succeeds too and leaves the orders as the first left them, but it writes
   its own audit entry.
   */
  lemma UpdateOrderStatusIdempotent(st: Store, caller: Id, target: Option<string>, order: Id, now: int, later: int)
    requires Valid(st) && IsUser(st, caller)
    requires UpdateOrderStatus(st, caller, Post, target, order, now).reply.Ok?
    ensures var once := UpdateOrderStatus(st, caller, Post, target, order, now).store;
      var twice := UpdateOrderStatus(once, caller, Post, target, order, later);
      && twice.reply.Ok?
      && twice.store.orders == once.orders
      && |twice.store.audit| == |st.audit| + 2
  {
    var once := UpdateOrderStatus(st, caller, Post, target, order, now).store;
    UpdateOrderStatusEffect(st, caller, Post, target, order, now);
    assert RoleOf(once, caller) == RoleOf(st, caller);
  }
}
