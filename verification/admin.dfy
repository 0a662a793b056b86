/** The administrators' user page: issuing registration PINs. */
module Admin {
  import opened Wrappers
  import opened Text
  import opened Models
  import opened Http
  import opened Auth

  /** A generated PIN: eight characters drawn from upper-case ASCII letters and digits. */
  predicate IsPinCode(code: string) {
    |code| == 8 && forall i :: 0 <= i < |code| ==> 'A' <= code[i] <= 'Z' || '0' <= code[i] <= '9'
  }

  datatype AdminOutcome = ShowPage | PinIssued(code: string)

  const BadRole: string := "Rol inv\U{E1}lido"

  function PinDetails(code: string, role: string): string {
    "PIN " + code + " para rol " + role
  }

  /**
   The user page. Only admins get it; anyone else is sent home. Any request
   but a POST shows the page. A POST issues a PIN for the posted role when it
   is one of the four roles, with `code` as the random code; a code already
   in use is rejected by the unique column and the request fails with a
   server error. A role outside the four is refused with a message.
   */
  function IssuePin(st: Store, caller: Id, verb: Method, role: Option<string>, code: string, now: int): (out: Step<AdminOutcome>)
    requires Valid(st) && IsUser(st, caller) && IsPinCode(code)
    ensures Valid(out.store)
    ensures out.reply.Fail? || out.reply == Ok(ShowPage) ==> out.store == st
    ensures RoleOf(st, caller) != "admin" ==> out.reply == Fail(RedirectHome)
    ensures RoleOf(st, caller) == "admin" && verb != Post ==> out.reply == Ok(ShowPage)
    ensures (RoleOf(st, caller) == "admin" && verb == Post && !(role.Some? && IsRoleText(role.value)))
            ==> out.reply == Fail(FormError(BadRole))
    ensures (RoleOf(st, caller) == "admin" && verb == Post && role.Some? && IsRoleText(role.value) && PinCodeTaken(st, code))
            ==> out.reply == Fail(ServerError)
    ensures out.reply.Ok? && out.reply.value.PinIssued? <==>
            RoleOf(st, caller) == "admin" && verb == Post && role.Some? && IsRoleText(role.value) && !PinCodeTaken(st, code)
    ensures out.reply.Ok? && out.reply.value.PinIssued? ==>
      && out.reply.value.code == code
      && out.store.pins == st.pins + [RegistrationPin(code, role.value, caller, now, 0)]
      && out.store.audit == st.audit + [AuditEntry(caller, "Generar PIN de registro", now, PinDetails(code, role.value))]
      && out.store == st.(pins := out.store.pins, audit := out.store.audit)
  {
    if RoleOf(st, caller) != "admin" then Step(st, Fail(RedirectHome))
    else if verb != Post then Step(st, Ok(ShowPage))
    else if !(role.Some? && IsRoleText(role.value)) then Step(st, Fail(FormError(BadRole)))
    else match CreatePin(st, code, role.value, caller, now)
      case None => Step(st, Fail(ServerError))
      case Some(st1) =>
        CreatePinValid(st, code, role.value, caller, now);
        LogValid(st1, caller, "Generar PIN de registro", PinDetails(code, role.value), now);
        Step(Log(st1, caller, "Generar PIN de registro", PinDetails(code, role.value), now), Ok(PinIssued(code)))
  }

  /** A PIN appended under a code no earlier PIN has is the first usable one with that code. */
  lemma AppendedPinFound(pins: seq<RegistrationPin>, p: RegistrationPin)
    requires forall j :: 0 <= j < |pins| ==> pins[j].code != p.code
    requires p.uses < MaxPinUses
    ensures FindUsablePin(pins + [p], p.code) == Some(|pins|)
  {
    var r := FindUsablePin(pins + [p], p.code);
    assert (pins + [p])[|pins|] == p;
    assert r.Some?;
  }

  /** An issued PIN is the last one in the store, unused, and the first usable PIN with its code. */
  lemma IssuedPinUsable(st: Store, caller: Id, role: string, code: string, now: int)
    requires Valid(st) && IsUser(st, caller) && IsPinCode(code)
    requires IssuePin(st, caller, Post, Some(role), code, now).reply == Ok(PinIssued(code))
    ensures var st1 := IssuePin(st, caller, Post, Some(role), code, now).store;
      && Valid(st1) && |st1.pins| == |st.pins| + 1
      && st1.pins[|st.pins|] == RegistrationPin(code, role, caller, now, 0)
      && FindUsablePin(st1.pins, code) == Some(|st.pins|)
  {
    var p := RegistrationPin(code, role, caller, now, 0);
    assert !PinCodeTaken(st, code);
    assert forall j :: 0 <= j < |st.pins| ==> st.pins[j].code != p.code;
    AppendedPinFound(st.pins, p);
  }

  /**
   A freshly issued PIN works: registering a free username (free both as
   posted and as the auth layer stores it, `norm(username)`) with it
   succeeds and the new user gets the role the PIN was issued for.
   */
  lemma IssuedPinRegisters(st: Store, caller: Id, role: string, code: string, now: int,
                           norm: string -> string, username: string, password: string, later: int)
    requires Valid(st) && IsUser(st, caller) && IsPinCode(code)
    requires IssuePin(st, caller, Post, Some(role), code, now).reply == Ok(PinIssued(code))
    requires username != "" && password != ""
    requires !UsernameTaken(IssuePin(st, caller, Post, Some(role), code, now).store, username)
    requires !UsernameTaken(IssuePin(st, caller, Post, Some(role), code, now).store, norm(username))
    ensures var st1 := IssuePin(st, caller, Post, Some(role), code, now).store;
      var out := Register(st1, norm, Post, Some(username), Some(password), Some(code), later);
      && out.reply == Ok(Registered(|st1.users| + 1))
      && RoleOf(out.store, |st1.users| + 1) == role
      && out.store.pins[|st.pins|].uses == 1
  {
    IssuedPinUsable(st, caller, role, code, now);
    var st1 := IssuePin(st, caller, Post, Some(role), code, now).store;
    assert IsRoleText(role);
    var out := Register(st1, norm, Post, Some(username), Some(password), Some(code), later);
    assert out.store == Enrol(st1, username, norm(username), |st.pins|, later);
    assert out.store.profiles[|st1.users| + 1].role == GrantedRole(role) == role;
  }
}
