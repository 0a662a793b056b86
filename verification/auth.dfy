/**
 Self-registration with a role-granting PIN, and the landing-page dispatch
 after login.
 */
module Auth {
  import opened Wrappers
  import opened Text
  import opened Models
  import opened Http

  /** A form field counts as given when it is posted and not empty (Python truthiness of `POST.get`). */
  predicate Given(field: Option<string>) {
    field.Some? && field.value != ""
  }

  /** The first PIN with this code that has been used fewer than two times. */
  function FindUsablePin(pins: seq<RegistrationPin>, code: string): (r: Option<nat>)
    ensures r.Some? ==> r.value < |pins| && pins[r.value].code == code && pins[r.value].uses < MaxPinUses
    ensures r.Some? ==> forall i :: 0 <= i < r.value ==> !(pins[i].code == code && pins[i].uses < MaxPinUses)
    ensures r.None? <==> forall i :: 0 <= i < |pins| ==> !(pins[i].code == code && pins[i].uses < MaxPinUses)
  {
    if pins == [] then None
    else if pins[0].code == code && pins[0].uses < MaxPinUses then Some(0)
    else match FindUsablePin(pins[1..], code)
      case None => None
      case Some(i) => Some(i + 1)
  }

  /** The role a PIN grants: its own role text when that is one of the four roles, else the default role. */
  function GrantedRole(pinRole: string): (r: string)
    ensures IsRoleText(r)
    ensures IsRoleText(pinRole) ==> r == pinRole
    ensures !IsRoleText(pinRole) ==> r == DefaultRole
  {
    match ParseRole(pinRole)
    case Some(role) => RoleText(role)
    case None => DefaultRole
  }

  datatype RegisterOutcome = ShowForm | Registered(user: Id)

  const MissingFields: string := "Todos los campos son requeridos"
  const BadPin: string := "PIN inv\U{E1}lido o agotado"
  const UserExists: string := "Usuario ya existe"

  function RegisterDetails(username: string, role: string): string {
    "Usuario " + username + " registrado con rol " + role
  }

  /**
   The writes of a successful registration: the user is created under
   `stored`, the username as the auth layer stores it (the post-save hook
   gives it a default profile), the profile takes the role the PIN grants,
   the PIN's use count goes up by one and the registration is logged under
   the new user, with the username as it was posted in the details.
   */
  function Enrol(st: Store, username: string, stored: string, i: nat, now: int): (st': Store)
    requires i < |st.pins| && !UsernameTaken(st, stored)
    ensures var p := st.pins[i]; var u := |st.users| + 1;
      && st'.users == st.users + [User(stored, false)]
      && st'.profiles == st.profiles[u := UserProfile(GrantedRole(p.role), "")]
      && st'.pins == st.pins[i := p.(uses := p.uses + 1)]
      && st'.audit == st.audit + [AuditEntry(u, "Registro de usuario", now, RegisterDetails(username, GrantedRole(p.role)))]
      && st' == st.(users := st'.users, profiles := st'.profiles, pins := st'.pins, audit := st'.audit)
  {
    var st1 := CreateUser(st, stored).value;
    var u := |st.users| + 1;
    var p := st.pins[i];
    var role := GrantedRole(p.role);
    var st2 := st1.(profiles := st1.profiles[u := st1.profiles[u].(role := role)],
                    pins := st1.pins[i := p.(uses := p.uses + 1)]);
    Log(st2, u, "Registro de usuario", RegisterDetails(username, role), now)
  }

  lemma EnrolValid(st: Store, username: string, stored: string, i: nat, now: int)
    requires Valid(st) && i < |st.pins| && !UsernameTaken(st, stored)
    requires st.pins[i].uses < MaxPinUses
    ensures Valid(Enrol(st, username, stored, i, now))
  {
    CreateUserValid(st, stored);
    var st1 := CreateUser(st, stored).value;
    var st' := Enrol(st, username, stored, i, now);
    var p := st.pins[i];
    assert PinOk(st, p);
    forall j, k | 0 <= j < k < |st'.pins|
      ensures st'.pins[j].code != st'.pins[k].code
    {
      assert st'.pins[j].code == st1.pins[j].code && st'.pins[k].code == st1.pins[k].code;
    }
    forall j | 0 <= j < |st'.pins|
      ensures PinOk(st', st'.pins[j])
    {
      assert PinOk(st1, st1.pins[j]);
    }
    forall j | 0 <= j < |st'.orders|
      ensures OrderOk(st', st'.orders[j])
    {
      assert OrderOk(st1, st1.orders[j]);
    }
    forall j | 0 <= j < |st'.items|
      ensures ItemOk(st', st'.items[j])
    {
      assert ItemOk(st1, st1.items[j]);
    }
    forall j | 0 <= j < |st'.audit|
      ensures IsUser(st', st'.audit[j].user)
    {
      if j < |st.audit| {
        assert IsUser(st1, st1.audit[j].user);
      }
    }
  }

  /**
   Registration. Anything but POST shows the form. A POST needs a username,
   a password and a PIN; the PIN must exist with fewer than two uses; the
   username must be free. Each failure shows the form again with its
   message and writes nothing; success makes the writes of `Enrol`.

   The free-name check compares the posted text, but the user is stored
   under `norm(username)`, the auth layer's NFKC normalisation, which is a
   parameter here. When only the normalised name is taken, the insert
   violates the unique column, the error is not caught and the request
   ends in a server error before anything is written.
   */
  function Register(st: Store, norm: string -> string, verb: Method, username: Option<string>,
                    password: Option<string>, pin: Option<string>, now: int): (out: Step<RegisterOutcome>)
    requires Valid(st)
    ensures Valid(out.store)
    ensures verb != Post ==> out == Step(st, Ok(ShowForm))
    ensures !(out.reply.Ok? && out.reply.value.Registered?) ==> out.store == st
    ensures verb == Post && !(Given(username) && Given(password) && Given(pin))
            ==> out.reply == Fail(FormError(MissingFields))
    ensures (verb == Post && Given(username) && Given(password) && Given(pin)
             && FindUsablePin(st.pins, pin.value).None?) ==> out.reply == Fail(FormError(BadPin))
    ensures (verb == Post && Given(username) && Given(password) && Given(pin)
             && FindUsablePin(st.pins, pin.value).Some? && UsernameTaken(st, username.value))
            ==> out.reply == Fail(FormError(UserExists))
    ensures (verb == Post && Given(username) && Given(password) && Given(pin)
             && FindUsablePin(st.pins, pin.value).Some? && !UsernameTaken(st, username.value)
             && UsernameTaken(st, norm(username.value)))
            ==> out.reply == Fail(ServerError)
    ensures (out.reply.Ok? && out.reply.value.Registered?) <==>
            (verb == Post && Given(username) && Given(password) && Given(pin)
             && FindUsablePin(st.pins, pin.value).Some? && !UsernameTaken(st, username.value)
             && !UsernameTaken(st, norm(username.value)))
    ensures out.reply.Ok? && out.reply.value.Registered? ==>
      && out.reply.value.user == |st.users| + 1
      && out.store == Enrol(st, username.value, norm(username.value), FindUsablePin(st.pins, pin.value).value, now)
  {
    if verb != Post then Step(st, Ok(ShowForm))
    else if !(Given(username) && Given(password) && Given(pin)) then Step(st, Fail(FormError(MissingFields)))
    else match FindUsablePin(st.pins, pin.value)
      case None => Step(st, Fail(FormError(BadPin)))
      case Some(i) =>
        if UsernameTaken(st, username.value) then Step(st, Fail(FormError(UserExists)))
        else if UsernameTaken(st, norm(username.value)) then Step(st, Fail(ServerError))
        else
          EnrolValid(st, username.value, norm(username.value), i, now);
          Step(Enrol(st, username.value, norm(username.value), i, now), Ok(Registered(|st.users| + 1)))
  }

  /** A registered user can act at once under the role its PIN named. */
  lemma RegisteredRole(st: Store, norm: string -> string, username: string, password: string, pin: string, now: int)
    requires Valid(st)
    requires Register(st, norm, Post, Some(username), Some(password), Some(pin), now).reply.Ok?
    requires Register(st, norm, Post, Some(username), Some(password), Some(pin), now).reply.value.Registered?
    ensures var out := Register(st, norm, Post, Some(username), Some(password), Some(pin), now);
      var p := st.pins[FindUsablePin(st.pins, pin).value];
      && IsUser(out.store, out.reply.value.user)
      && RoleOf(out.store, out.reply.value.user) == p.role
      && p.code == pin && p.uses < MaxPinUses
  {
    var p := st.pins[FindUsablePin(st.pins, pin).value];
    assert PinOk(st, p);
  }

  /** The total number of times PINs with this code have been used. */
  function CodeUses(pins: seq<RegistrationPin>, code: string): int {
    if pins == [] then 0
    else
      var last := pins[|pins| - 1];
      CodeUses(pins[..|pins| - 1], code) + (if last.code == code then last.uses else 0)
  }

  lemma {:induction false} CodeUsesBump(pins: seq<RegistrationPin>, i: nat, code: string)
    requires i < |pins|
    ensures CodeUses(pins[i := pins[i].(uses := pins[i].uses + 1)], code)
         == CodeUses(pins, code) + (if pins[i].code == code then 1 else 0)
    decreases |pins|
  {
    var pins' := pins[i := pins[i].(uses := pins[i].uses + 1)];
    var n := |pins|;
    if i < n - 1 {
      assert pins'[..n - 1] == pins[..n - 1][i := pins[i].(uses := pins[i].uses + 1)];
      CodeUsesBump(pins[..n - 1], i, code);
    } else {
      assert pins'[..n - 1] == pins[..n - 1];
    }
  }

  lemma {:induction false} CodeUsesAbsent(pins: seq<RegistrationPin>, code: string)
    requires forall i :: 0 <= i < |pins| ==> pins[i].code != code
    ensures CodeUses(pins, code) == 0
    decreases |pins|
  {
    if pins != [] {
      CodeUsesAbsent(pins[..|pins| - 1], code);
    }
  }

  /** With unique codes and at most two uses per PIN, a code has been used at most twice. */
  lemma {:induction false} CodeUsesBound(pins: seq<RegistrationPin>, code: string)
    requires UniquePinCodes(pins)
    requires forall i :: 0 <= i < |pins| ==> 0 <= pins[i].uses <= MaxPinUses
    ensures 0 <= CodeUses(pins, code) <= MaxPinUses
    decreases |pins|
  {
    if pins != [] {
      var p := pins[..|pins| - 1];
      var last := pins[|pins| - 1];
      if last.code == code {
        CodeUsesAbsent(p, code);
      } else {
        CodeUsesBound(p, code);
      }
    }
  }

  datatype Request = Request(verb: Method, username: Option<string>, password: Option<string>, pin: Option<string>, now: int)

  function Apply(st: Store, norm: string -> string, r: Request): (out: Step<RegisterOutcome>)
    requires Valid(st)
    ensures Valid(out.store)
  {
    Register(st, norm, r.verb, r.username, r.password, r.pin, r.now)
  }

  predicate RegisteredWith(st: Store, norm: string -> string, r: Request, code: string)
    requires Valid(st)
  {
    var out := Apply(st, norm, r);
    out.reply.Ok? && out.reply.value.Registered? && r.pin == Some(code)
  }

  /** The store after a run of registration requests, one after the other. */
  function RunAll(st: Store, norm: string -> string, rs: seq<Request>): (st': Store)
    requires Valid(st)
    ensures Valid(st')
    decreases |rs|
  {
    if rs == [] then st else RunAll(Apply(st, norm, rs[0]).store, norm, rs[1..])
  }

  /** How many requests of a run register a user with this PIN code. */
  function CountWith(st: Store, norm: string -> string, rs: seq<Request>, code: string): nat
    requires Valid(st)
    decreases |rs|
  {
    if rs == [] then 0
    else (if RegisteredWith(st, norm, rs[0], code) then 1 else 0) + CountWith(Apply(st, norm, rs[0]).store, norm, rs[1..], code)
  }

  lemma EnrolBumpsCode(st: Store, username: string, stored: string, i: nat, now: int, code: string)
    requires i < |st.pins| && !UsernameTaken(st, stored)
    ensures CodeUses(Enrol(st, username, stored, i, now).pins, code) == CodeUses(st.pins, code) + (if st.pins[i].code == code then 1 else 0)
  {
    CodeUsesBump(st.pins, i, code);
  }

  /** One registration raises the uses of exactly the code it used, by one. */
  lemma RegisterBumpsCode(st: Store, norm: string -> string, r: Request, code: string)
    requires Valid(st)
    ensures CodeUses(Apply(st, norm, r).store.pins, code) == CodeUses(st.pins, code) + (if RegisteredWith(st, norm, r, code) then 1 else 0)
  {
    var out := Apply(st, norm, r);
    if out.reply.Ok? && out.reply.value.Registered? {
      var i := FindUsablePin(st.pins, r.pin.value).value;
      EnrolBumpsCode(st, r.username.value, norm(r.username.value), i, r.now, code);
    } else {
      assert out.store == st;
    }
  }


  /**
   A PIN admits at most two registrations: over any run of requests, the
   registrations made with a code plus the uses it had before never exceed
   two.
   */
  lemma {:induction false} PinAdmitsAtMostTwo(st: Store, norm: string -> string, rs: seq<Request>, code: string)
    requires Valid(st)
    ensures CountWith(st, norm, rs, code) + CodeUses(st.pins, code) == CodeUses(RunAll(st, norm, rs).pins, code)
    ensures CountWith(st, norm, rs, code) + CodeUses(st.pins, code) <= MaxPinUses
    decreases |rs|
  {
    if rs != [] {
      RegisterBumpsCode(st, norm, rs[0], code);
      PinAdmitsAtMostTwo(Apply(st, norm, rs[0]).store, norm, rs[1..], code);
    }
    var fin := RunAll(st, norm, rs);
    assert forall i :: 0 <= i < |fin.pins| ==> 0 <= fin.pins[i].uses <= MaxPinUses by {
      forall i | 0 <= i < |fin.pins|
        ensures 0 <= fin.pins[i].uses <= MaxPinUses
      {
        assert PinOk(fin, fin.pins[i]);
      }
    }
    CodeUsesBound(fin.pins, code);
  }

  /** Where the landing page sends a user. */
  datatype Landing = AdminSite | SelectTable | KitchenQueuePage | AdminUsers | ReceptionPage | UnknownRole

  function LandingFor(r: Role): (l: Landing)
    ensures l != AdminSite && l != UnknownRole
  {
    match r
    case Garzon => SelectTable
    case Cocinero => KitchenQueuePage
    case Admin => AdminUsers
    case Recepcion => ReceptionPage
  }

  /** The role a role page belongs to. */
  function LandingRole(l: Landing): (r: Option<Role>)
    ensures r.Some? <==> l != AdminSite && l != UnknownRole
  {
    match l
    case SelectTable => Some(Garzon)
    case KitchenQueuePage => Some(Cocinero)
    case AdminUsers => Some(Admin)
    case ReceptionPage => Some(Recepcion)
    case _ => None
  }

  /** Every role has its own page, and the page names the role back. */
  lemma LandingRoundTrip(r: Role, l: Landing)
    ensures LandingRole(LandingFor(r)) == Some(r)
    ensures LandingRole(l).Some? ==> LandingFor(LandingRole(l).value) == l
  {
  }

  /**
   The landing page: it first gives a user without a profile a default one,
   then sends superusers to the admin site and everyone else to their
   role's page, or to a notice when the role text is not a known role.
   */
  function Home(st: Store, caller: Id): (out: Step<Landing>)
    requires IsUser(st, caller)
    ensures caller in out.store.profiles
    ensures caller in st.profiles ==> out.store == st
    ensures caller !in st.profiles ==> out.store == st.(profiles := st.profiles[caller := NewProfile()])
    ensures out.reply.Ok?
    ensures st.users[caller - 1].isSuperuser ==> out.reply.value == AdminSite
    ensures !st.users[caller - 1].isSuperuser ==>
      match ParseRole(out.store.profiles[caller].role)
      case Some(r) => out.reply.value == LandingFor(r)
      case None => out.reply.value == UnknownRole
  {
    var st1 := if caller in st.profiles then st else st.(profiles := st.profiles[caller := NewProfile()]);
    if st.users[caller - 1].isSuperuser then Step(st1, Ok(AdminSite))
    else match ParseRole(st1.profiles[caller].role)
      case Some(r) => Step(st1, Ok(LandingFor(r)))
      case None => Step(st1, Ok(UnknownRole))
  }

  /**
   In a valid store the landing page changes nothing and never shows the
   unknown-role notice: a staff member lands exactly on the page of the role
   in their profile.
   */
  lemma HomeLandsOnOwnRole(st: Store, caller: Id)
    requires Valid(st) && IsUser(st, caller)
    ensures Home(st, caller).store == st
    ensures !st.users[caller - 1].isSuperuser ==>
      && Home(st, caller).reply.value != UnknownRole
      && LandingRole(Home(st, caller).reply.value) == ParseRole(RoleOf(st, caller))
  {
    assert caller in st.profiles;
    assert IsRoleText(st.profiles[caller].role);
  }
}
