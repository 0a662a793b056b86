/**
 The record shapes of the restaurant's relational schema and the store that
 holds them. Every table of the schema is an immutable sequence whose element
 `id - 1` is the row with auto-increment primary key `id` (the application
 never deletes a row, so ids are dense); user profiles are a map keyed by the
 owning user's id, which makes the one-to-one user/profile relation structural.
 Prices are integer cents (a two-decimal-place column), timestamps integer
 microseconds.
 */
module Models {
  import opened Wrappers
  import opened Text

  type Id = nat

  /** The four roles a profile or a registration PIN can name. */
  datatype Role = Garzon | Cocinero | Admin | Recepcion

  /** The text stored in the role column for each role. */
  function RoleText(r: Role): string {
    match r
    case Garzon => "garzon"
    case Cocinero => "cocinero"
    case Admin => "admin"
    case Recepcion => "recepcion"
  }

  /** Reads a role column back; text outside the four choices has no role. */
  function ParseRole(s: string): (r: Option<Role>)
    ensures r.Some? ==> RoleText(r.value) == s
    ensures r.None? ==> forall x: Role :: RoleText(x) != s
  {
    if s == "garzon" then Some(Garzon)
    else if s == "cocinero" then Some(Cocinero)
    else if s == "admin" then Some(Admin)
    else if s == "recepcion" then Some(Recepcion)
    else None
  }

  predicate IsRoleText(s: string) {
    ParseRole(s).Some?
  }

  /** Role column default for a profile. */
  const DefaultRole: string := "garzon"

  /** The four stages of an order. */
  datatype Status = NotTaken | Preparing | Ready | Delivered

  function StatusText(s: Status): string {
    match s
    case NotTaken => "not_taken"
    case Preparing => "preparing"
    case Ready => "ready"
    case Delivered => "delivered"
  }

  /** The human-readable label of each status, as shown to staff. */
  function StatusDisplay(s: Status): string {
    match s
    case NotTaken => "Pedido sin tomar"
    case Preparing => "En preparaci\U{F3}n"
    case Ready => "Listo"
    case Delivered => "Entregado"
  }

  const MicrosPerDay: nat := 86_400_000_000

  /** The calendar day (days since the epoch) a timestamp falls on. */
  function DateOf(t: int): int {
    t / MicrosPerDay
  }

  datatype User = User(username: string, isSuperuser: bool)
  datatype UserProfile = UserProfile(role: string, pin: string)
  datatype Table = Table(number: int, capacity: int, isAvailable: bool)
  datatype MenuItem = MenuItem(name: string, description: string, price: int, available: bool)
  datatype Order = Order(table: Id, waiter: Id, createdAt: int, status: Status, notes: string)
  datatype OrderItem = OrderItem(order: Id, menuItem: Id, quantity: int, notes: string)
  datatype RegistrationPin = RegistrationPin(code: string, role: string, createdBy: Id, createdAt: int, uses: int)
  datatype AuditEntry = AuditEntry(user: Id, action: string, timestamp: int, details: string)

  datatype Store = Store(
    users: seq<User>,
    profiles: map<Id, UserProfile>,
    tables: seq<Table>,
    menu: seq<MenuItem>,
    orders: seq<Order>,
    items: seq<OrderItem>,
    pins: seq<RegistrationPin>,
    audit: seq<AuditEntry>)

  /** A registration PIN stops admitting registrations once used this many times. */
  const MaxPinUses: int := 2

  /** Defaults of a freshly created row. */
  function NewProfile(): UserProfile {
    UserProfile(DefaultRole, "")
  }

  function NewTable(number: int): Table {
    Table(number, 4, true)
  }

  function NewOrder(table: Id, waiter: Id, notes: string, now: int): Order {
    Order(table, waiter, now, NotTaken, notes)
  }

  function NewPin(code: string, role: string, creator: Id, now: int): RegistrationPin {
    RegistrationPin(code, role, creator, now, 0)
  }

  predicate IsUser(st: Store, id: Id) {
    1 <= id <= |st.users|
  }

  predicate IsTable(st: Store, id: Id) {
    1 <= id <= |st.tables|
  }

  predicate IsMenuItem(st: Store, id: Id) {
    1 <= id <= |st.menu|
  }

  predicate IsOrder(st: Store, id: Id) {
    1 <= id <= |st.orders|
  }

  predicate UsernameTaken(st: Store, username: string) {
    exists i :: 0 <= i < |st.users| && st.users[i].username == username
  }

  predicate TableNumberTaken(st: Store, number: int) {
    exists i :: 0 <= i < |st.tables| && st.tables[i].number == number
  }

  predicate PinCodeTaken(st: Store, code: string) {
    exists i :: 0 <= i < |st.pins| && st.pins[i].code == code
  }

  predicate UniqueUsernames(users: seq<User>) {
    forall i, j :: 0 <= i < j < |users| ==> users[i].username != users[j].username
  }

  predicate UniqueTableNumbers(tables: seq<Table>) {
    forall i, j :: 0 <= i < j < |tables| ==> tables[i].number != tables[j].number
  }

  predicate UniquePinCodes(pins: seq<RegistrationPin>) {
    forall i, j :: 0 <= i < j < |pins| ==> pins[i].code != pins[j].code
  }

  predicate PinOk(st: Store, p: RegistrationPin) {
    IsRoleText(p.role) && IsUser(st, p.createdBy) && 0 <= p.uses <= MaxPinUses
  }

  predicate OrderOk(st: Store, o: Order) {
    IsTable(st, o.table) && IsUser(st, o.waiter)
  }

  predicate ItemOk(st: Store, it: OrderItem) {
    IsOrder(st, it.order) && IsMenuItem(st, it.menuItem)
  }

  /**
   What the schema and the application keep true of every reachable store:
   each user has exactly one profile and every profile names a known role;
   usernames, table numbers and PIN codes are unique; every PIN names a known
   role and has been used between 0 and 2 times; every foreign key points at
   an existing row.
   */
  ghost predicate Valid(st: Store) {
    && (forall u: Id :: IsUser(st, u) <==> u in st.profiles)
    && (forall u :: u in st.profiles ==> IsRoleText(st.profiles[u].role))
    && UniqueUsernames(st.users)
    && UniqueTableNumbers(st.tables)
    && UniquePinCodes(st.pins)
    && (forall i :: 0 <= i < |st.pins| ==> PinOk(st, st.pins[i]))
    && (forall i :: 0 <= i < |st.orders| ==> OrderOk(st, st.orders[i]))
    && (forall i :: 0 <= i < |st.items| ==> ItemOk(st, st.items[i]))
    && (forall i :: 0 <= i < |st.audit| ==> IsUser(st, st.audit[i].user))
  }

  /** The role text of a user's profile (`request.user.userprofile.role`). */
  function RoleOf(st: Store, user: Id): string
    requires Valid(st) && IsUser(st, user)
  {
    st.profiles[user].role
  }

  /**
   Creating a user under the username as stored (callers pass the name the
   way the auth layer stores it): the unique column rejects a taken name;
   otherwise the user is appended and the post-save signal gives the new
   user exactly one profile, with the default role.
   */
  function CreateUser(st: Store, username: string): (r: Option<Store>)
    ensures r.None? <==> UsernameTaken(st, username)
    ensures r.Some? ==> r.value.users == st.users + [User(username, false)]
    ensures r.Some? ==> r.value.profiles == st.profiles[|st.users| + 1 := NewProfile()]
    ensures r.Some? ==> r.value == st.(users := r.value.users, profiles := r.value.profiles)
  {
    if UsernameTaken(st, username) then None
    else Some(st.(users := st.users + [User(username, false)],
                  profiles := st.profiles[|st.users| + 1 := NewProfile()]))
  }

  /**
   Creating a user keeps the store valid: the new user is the only one with
   that name and gets the one profile it lacked, with role `garzon` and no
   quick PIN, while every existing user keeps its role.
   */
  lemma CreateUserValid(st: Store, username: string)
    requires Valid(st)
    requires !UsernameTaken(st, username)
    ensures Valid(CreateUser(st, username).value)
    ensures |CreateUser(st, username).value.profiles| == |st.profiles| + 1
    ensures var st' := CreateUser(st, username).value; var u := |st.users| + 1;
      && IsUser(st', u) && st'.users[u - 1].username == username
      && (forall i :: 0 <= i < |st'.users| && st'.users[i].username == username ==> i == u - 1)
      && u in st'.profiles && st'.profiles[u].role == "garzon" && st'.profiles[u].pin == ""
      && (forall v :: IsUser(st, v) ==> v in st.profiles && v in st'.profiles && st'.profiles[v] == st.profiles[v])
  {
    var st' := CreateUser(st, username).value;
    forall i, j | 0 <= i < j < |st'.users|
      ensures st'.users[i].username != st'.users[j].username
    {
      if j == |st.users| {
        assert st.users[i].username == st'.users[i].username;
      }
    }
  }

  /** Creating a table: the number column is unique; a new table seats 4 and is available. */
  function CreateTable(st: Store, number: int): (r: Option<Store>)
    ensures r.None? <==> TableNumberTaken(st, number)
    ensures r.Some? ==> r.value == st.(tables := st.tables + [Table(number, 4, true)])
  {
    if TableNumberTaken(st, number) then None
    else Some(st.(tables := st.tables + [NewTable(number)]))
  }

  /**
   Creating a table keeps the store valid: the new table is the only one
   with its number, seats 4 and is available, and the existing tables are
   untouched.
   */
  lemma CreateTableValid(st: Store, number: int)
    requires Valid(st)
    requires !TableNumberTaken(st, number)
    ensures Valid(CreateTable(st, number).value)
    ensures var st' := CreateTable(st, number).value; var t := |st.tables| + 1;
      && IsTable(st', t) && TableNumberTaken(st', number)
      && st'.tables[t - 1].number == number && st'.tables[t - 1].capacity == 4 && st'.tables[t - 1].isAvailable
      && (forall i :: 0 <= i < |st'.tables| && st'.tables[i].number == number ==> i == t - 1)
      && st'.tables[..|st.tables|] == st.tables
  {
    var st' := CreateTable(st, number).value;
    forall i, j | 0 <= i < j < |st'.tables|
      ensures st'.tables[i].number != st'.tables[j].number
    {
      if j == |st.tables| {
        assert st.tables[i].number == st'.tables[i].number;
      }
    }
    assert st'.tables[|st.tables|].number == number;
  }

  /** Creating a registration PIN: the code column is unique; a new PIN has not been used. */
  function CreatePin(st: Store, code: string, role: string, creator: Id, now: int): (r: Option<Store>)
    ensures r.None? <==> PinCodeTaken(st, code)
    ensures r.Some? ==> r.value == st.(pins := st.pins + [RegistrationPin(code, role, creator, now, 0)])
  {
    if PinCodeTaken(st, code) then None
    else Some(st.(pins := st.pins + [NewPin(code, role, creator, now)]))
  }

  /**
   Creating a PIN keeps the store valid: the new PIN is the only one with
   its code, names the role asked for and has not been used, and the
   existing PINs are untouched.
   */
  lemma CreatePinValid(st: Store, code: string, role: string, creator: Id, now: int)
    requires Valid(st)
    requires !PinCodeTaken(st, code) && IsRoleText(role) && IsUser(st, creator)
    ensures Valid(CreatePin(st, code, role, creator, now).value)
    ensures var st' := CreatePin(st, code, role, creator, now).value; var n := |st.pins|;
      && |st'.pins| == n + 1 && PinCodeTaken(st', code)
      && st'.pins[n].code == code && st'.pins[n].role == role && st'.pins[n].uses == 0
      && (forall i :: 0 <= i < |st'.pins| && st'.pins[i].code == code ==> i == n)
      && st'.pins[..n] == st.pins
  {
    var st' := CreatePin(st, code, role, creator, now).value;
    forall i, j | 0 <= i < j < |st'.pins|
      ensures st'.pins[i].code != st'.pins[j].code
    {
      if j == |st.pins| {
        assert st.pins[i].code == st'.pins[i].code;
      }
    }
    assert st'.pins[|st.pins|].code == code;
  }

  /** Appends one audit-log entry. */
  function Log(st: Store, user: Id, action: string, details: string, now: int): (st': Store)
    ensures st'.audit == st.audit + [AuditEntry(user, action, now, details)]
    ensures st' == st.(audit := st'.audit)
  {
    st.(audit := st.audit + [AuditEntry(user, action, now, details)])
  }

  /**
   Logging keeps the store valid and never rewrites history: the earlier
   entries stay a prefix of the log and the new entry, by `user`, is last.
   */
  lemma LogValid(st: Store, user: Id, action: string, details: string, now: int)
    requires Valid(st) && IsUser(st, user)
    ensures Valid(Log(st, user, action, details, now))
    ensures var st' := Log(st, user, action, details, now);
      && |st'.audit| == |st.audit| + 1 && st'.audit[..|st.audit|] == st.audit
      && st'.audit[|st.audit|].user == user && st'.audit[|st.audit|].timestamp == now
  {
  }

  /** The line items of one order (`order.items.all()`), in id order. */
  function ItemsOf(items: seq<OrderItem>, order: Id): seq<OrderItem> {
    if items == [] then []
    else
      var rest := ItemsOf(items[..|items| - 1], order);
      var last := items[|items| - 1];
      if last.order == order then rest + [last] else rest
  }

  /** Every line item of an order is one of the stored items and belongs to the order. */
  lemma {:induction false} ItemsOfMembers(items: seq<OrderItem>, order: Id)
    ensures forall k :: 0 <= k < |ItemsOf(items, order)| ==> ItemsOf(items, order)[k] in items && ItemsOf(items, order)[k].order == order
    decreases |items|
  {
    if items != [] {
      var p := items[..|items| - 1];
      ItemsOfMembers(p, order);
      assert forall it :: it in p ==> it in items;
    }
  }

  /** An order no stored item points at has no line items. */
  lemma {:induction false} ItemsOfNone(items: seq<OrderItem>, order: Id)
    requires forall i :: 0 <= i < |items| ==> items[i].order != order
    ensures ItemsOf(items, order) == []
    decreases |items|
  {
    if items != [] {
      ItemsOfNone(items[..|items| - 1], order);
    }
  }

  lemma ItemsOfAppend(items: seq<OrderItem>, it: OrderItem, order: Id)
    ensures ItemsOf(items + [it], order) == if it.order == order then ItemsOf(items, order) + [it] else ItemsOf(items, order)
  {
    assert (items + [it])[..|items|] == items;
  }

  predicate ItemRefsOk(menu: seq<MenuItem>, items: seq<OrderItem>) {
    forall i :: 0 <= i < |items| ==> 1 <= items[i].menuItem <= |menu|
  }

  /** `quantity * menu_item.price`, in cents. */
  function Subtotal(menu: seq<MenuItem>, it: OrderItem): int
    requires 1 <= it.menuItem <= |menu|
  {
    it.quantity * menu[it.menuItem - 1].price
  }

  /** The sum of the subtotals of some line items. */
  function ItemsTotal(menu: seq<MenuItem>, items: seq<OrderItem>): int
    requires ItemRefsOk(menu, items)
  {
    if items == [] then 0
    else ItemsTotal(menu, items[..|items| - 1]) + Subtotal(menu, items[|items| - 1])
  }

  lemma {:induction false} ItemsTotalAppend(menu: seq<MenuItem>, a: seq<OrderItem>, b: seq<OrderItem>)
    requires ItemRefsOk(menu, a) && ItemRefsOk(menu, b)
    ensures ItemRefsOk(menu, a + b)
    ensures ItemsTotal(menu, a + b) == ItemsTotal(menu, a) + ItemsTotal(menu, b)
    decreases |b|
  {
    if b != [] {
      var b' := b[..|b| - 1];
      assert (a + b)[..|a + b| - 1] == a + b';
      ItemsTotalAppend(menu, a, b');
    } else {
      assert a + b == a;
    }
  }

  lemma ItemsOfKeepsRefs(menu: seq<MenuItem>, items: seq<OrderItem>, order: Id)
    requires ItemRefsOk(menu, items)
    ensures ItemRefsOk(menu, ItemsOf(items, order))
  {
    var r := ItemsOf(items, order);
    ItemsOfMembers(items, order);
    forall k | 0 <= k < |r|
      ensures 1 <= r[k].menuItem <= |menu|
    {
      assert r[k] in items;
    }
  }

  lemma StoreRefsOk(st: Store)
    requires Valid(st)
    ensures ItemRefsOk(st.menu, st.items)
  {
    forall i | 0 <= i < |st.items|
      ensures 1 <= st.items[i].menuItem <= |st.menu|
    {
      assert ItemOk(st, st.items[i]);
    }
  }

  lemma ItemsOfRefsOk(st: Store, order: Id)
    requires Valid(st)
    ensures ItemRefsOk(st.menu, ItemsOf(st.items, order))
  {
    StoreRefsOk(st);
    ItemsOfKeepsRefs(st.menu, st.items, order);
  }

  /** `Order.calculate_total`: the sum over the order's line items of quantity times unit price. */
  function CalculateTotal(st: Store, order: Id): int
    requires Valid(st)
  {
    ItemsOfRefsOk(st, order);
    ItemsTotal(st.menu, ItemsOf(st.items, order))
  }

  lemma AddItemValid(st: Store, it: OrderItem)
    requires Valid(st) && ItemOk(st, it)
    ensures Valid(st.(items := st.items + [it]))
  {
    var st' := st.(items := st.items + [it]);
    assert forall i :: 0 <= i < |st'.items| ==> ItemOk(st', st'.items[i]) by {
      forall i | 0 <= i < |st'.items|
        ensures ItemOk(st', st'.items[i])
      {
        if i < |st.items| {
          assert ItemOk(st, st.items[i]);
        }
      }
    }
  }

  /**
   How `calculate_total` moves as line items are written: an order without
   items totals 0, and appending a line item raises its own order's total by
   exactly quantity times price while every other order's total stays put.
   */
  lemma AppendOneTotal(menu: seq<MenuItem>, q: seq<OrderItem>, last: OrderItem)
    requires ItemRefsOk(menu, q) && 1 <= last.menuItem <= |menu|
    ensures ItemRefsOk(menu, q + [last])
    ensures ItemsTotal(menu, q + [last]) == ItemsTotal(menu, q) + Subtotal(menu, last)
  {
    assert (q + [last])[..|q|] == q;
  }

  lemma ItemsTotalOfAppend(menu: seq<MenuItem>, items: seq<OrderItem>, it: OrderItem, order: Id)
    requires ItemRefsOk(menu, items) && 1 <= it.menuItem <= |menu|
    ensures ItemRefsOk(menu, ItemsOf(items, order)) && ItemRefsOk(menu, ItemsOf(items + [it], order))
    ensures ItemsTotal(menu, ItemsOf(items + [it], order))
         == ItemsTotal(menu, ItemsOf(items, order)) + (if it.order == order then Subtotal(menu, it) else 0)
  {
    ItemsOfKeepsRefs(menu, items, order);
    ItemsOfAppend(items, it, order);
    if it.order == order {
      AppendOneTotal(menu, ItemsOf(items, order), it);
    }
  }

  lemma TotalOfAddedItem(st: Store, it: OrderItem, order: Id)
    requires Valid(st) && ItemOk(st, it)
    ensures Valid(st.(items := st.items + [it]))
    ensures (forall i :: 0 <= i < |st.items| ==> st.items[i].order != order) ==> CalculateTotal(st, order) == 0
    ensures CalculateTotal(st.(items := st.items + [it]), order)
         == CalculateTotal(st, order) + (if it.order == order then Subtotal(st.menu, it) else 0)
  {
    var st' := st.(items := st.items + [it]);
    AddItemValid(st, it);
    StoreRefsOk(st);
    ItemsTotalOfAppend(st.menu, st.items, it, order);
    if forall i :: 0 <= i < |st.items| ==> st.items[i].order != order {
      ItemsOfNone(st.items, order);
    }
    assert CalculateTotal(st, order) == ItemsTotal(st.menu, ItemsOf(st.items, order));
    assert CalculateTotal(st', order) == ItemsTotal(st.menu, ItemsOf(st.items + [it], order));
  }


}
