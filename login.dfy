/**
 * The login / sign-up form: which endpoint and body a submission sends,
 * how the returned tokens enter the browser's storage, and the role-based
 * redirect after `/api/auth/me/`.
 */
module Login {
  import opened Wrappers
  import Session

  const LoginUrl: string := Session.ApiBase + "/api/auth/login/"
  const RegisterUrl: string := Session.ApiBase + "/api/auth/register/"
  const NetworkError: string := "Network error"
  const GenericError: string := "Something went wrong!"

  /** A JSON object body, as its fields in order. */
  type Body = seq<(string, string)>

  datatype Request = Request(url: string, body: Body)

  function Keys(b: Body): seq<string> {
    seq(|b|, i requires 0 <= i < |b| => b[i].0)
  }

  function Field(b: Body, key: string): Option<string> {
    if |b| == 0 then None else if b[0].0 == key then Some(b[0].1) else Field(b[1..], key)
  }

  /** The request a submission sends: log in with `{email, password}`, sign up with the role as well. */
  function SubmitRequest(isLogin: bool, email: string, password: string, fullName: string, role: string): (r: Request)
    ensures r.url == (if isLogin then LoginUrl else RegisterUrl)
    ensures Field(r.body, "email") == Some(email) && Field(r.body, "password") == Some(password)
    ensures isLogin ==> Keys(r.body) == ["email", "password"]
    ensures !isLogin ==>
      && Keys(r.body) == ["username", "email", "password", "role"]
      && Field(r.body, "username") == Some(fullName) && Field(r.body, "role") == Some(role)
  {
    if isLogin then Request(LoginUrl, [("email", email), ("password", password)])
    else
      var b := [("username", fullName), ("email", email), ("password", password), ("role", role)];
      assert b[1..][1..][1..] == [("role", role)];
      assert Field(b[1..][1..], "role") == Some(role);
      assert Field(b[1..], "password") == Some(password);
      Request(RegisterUrl, b)
  }

  /** `me?.role || role || "patient"`. */
  function RedirectRole(meRole: string, selected: string): (r: string)
    ensures r != ""
    ensures meRole != "" ==> r == meRole
    ensures meRole == "" && selected != "" ==> r == selected
  {
    if meRole != "" then meRole else if selected != "" then selected else "patient"
  }

  /** Where each role lands. */
  function RoleRoute(role: string): (route: string)
    ensures route in {"/family-dashboard", "/doctor-dashboard", "/memories"}
    ensures route == "/family-dashboard" <==> role == "family"
    ensures route == "/doctor-dashboard" <==> role == "doctor"
  {
    if role == "family" then "/family-dashboard"
    else if role == "doctor" then "/doctor-dashboard"
    else "/memories"
  }

  /** The answer of `GET /api/auth/me/`; `MeThrew` is a rejected fetch or an unparsable body. */
  datatype MeReply = MeAnswered(status: int, role: string) | MeThrew

  /** `fetchMeAndRedirect()`: the route it navigates to. */
  function MeRedirect(access: Option<string>, reply: MeReply, selected: string): (route: string)
    ensures !Session.Truthy(access) ==> route == "/login"
    ensures Session.Truthy(access) && reply.MeThrew? ==> route == "/memories"
    ensures Session.Truthy(access) && reply.MeAnswered? && !Session.IsOk(reply.status) ==> route == "/login"
    ensures Session.Truthy(access) && reply.MeAnswered? && Session.IsOk(reply.status) ==>
      route == RoleRoute(RedirectRole(reply.role, selected))
  {
    if !Session.Truthy(access) then "/login"
    else match reply
      case MeThrew => "/memories"
      case MeAnswered(status, role) =>
        if !Session.IsOk(status) then "/login" else RoleRoute(RedirectRole(role, selected))
  }

  /** The doctor dashboard is reached only through an explicit "doctor" role. */
  lemma DoctorNeedsRole(access: Option<string>, reply: MeReply, selected: string)
    requires MeRedirect(access, reply, selected) == "/doctor-dashboard"
    ensures reply.MeAnswered? && (reply.role == "doctor" || (reply.role == "" && selected == "doctor"))
  {
  }

  /** An unselected role with no role from the server lands on the patient's memories. */
  lemma DefaultRoleIsPatient(access: Option<string>, status: int)
    requires Session.Truthy(access) && Session.IsOk(status)
    ensures MeRedirect(access, MeAnswered(status, ""), "") == "/memories"
  {
  }

  /** The fields of the login response the page looks at ("" when absent or unparsable). */
  datatype AuthData = AuthData(access: string, refresh: string, error: string, message: string)

  datatype AuthReply = AuthAnswered(status: int, data: AuthData) | AuthThrew

  /** The alert for a rejected login: `data.error || data.message || "Something went wrong!"`. */
  function FailureText(d: AuthData): (t: string)
    ensures t != ""
    ensures d.error != "" ==> t == d.error
    ensures d.error == "" && d.message != "" ==> t == d.message
    ensures d.error == "" && d.message == "" ==> t == GenericError
  {
    if d.error != "" then d.error else if d.message != "" then d.message else GenericError
  }

  /** The storage after a successful login: each token written only when present. */
  function StoreTokens(items: map<string, string>, d: AuthData): (r: map<string, string>)
    ensures r.Keys == items.Keys + (if d.access != "" then {Session.AccessKey} else {})
                                 + (if d.refresh != "" then {Session.RefreshKey} else {})
    ensures forall k :: k in items && k != Session.AccessKey && k != Session.RefreshKey ==> r[k] == items[k]
    ensures d.access != "" ==> r[Session.AccessKey] == d.access
    ensures d.refresh != "" ==> r[Session.RefreshKey] == d.refresh
    ensures d.access == "" && Session.AccessKey in items ==> r[Session.AccessKey] == items[Session.AccessKey]
    ensures d.refresh == "" && Session.RefreshKey in items ==> r[Session.RefreshKey] == items[Session.RefreshKey]
  {
    var a := if d.access != "" then items[Session.AccessKey := d.access] else items;
    if d.refresh != "" then a[Session.RefreshKey := d.refresh] else a
  }

  /** The sign-in form's state. */
  class AuthForm {
    var isLogin: bool
    var role: string
    var email: string
    var password: string
    var fullName: string
    var loading: bool

    constructor ()
      ensures isLogin && role == "patient" && email == "" && password == "" && fullName == "" && !loading
    {
      isLogin, role, email, password, fullName, loading := true, "patient", "", "", "", false;
    }

    /**
     * `handleSubmit`: ignored while a submission is in flight; otherwise it
     * sends the request, alerts on failure, stores the returned tokens on
     * success and follows `fetchMeAndRedirect`, and ends not loading.
     */
    method Submit(store: Session.TokenStore, reply: AuthReply, me: MeReply)
      returns (sent: Option<Request>, alertText: Option<string>, route: Option<string>)
      modifies this, store
      ensures old(loading) ==>
        sent == None && alertText == None && route == None && loading && store.items == old(store.items)
      ensures !old(loading) ==>
        !loading && sent == Some(SubmitRequest(isLogin, email, password, fullName, role))
      ensures !old(loading) && reply.AuthThrew? ==>
        && alertText == Some(NetworkError) && route == None && store.items == old(store.items)
      ensures !old(loading) && reply.AuthAnswered? && !Session.IsOk(reply.status) ==>
        && alertText == Some(FailureText(reply.data)) && route == None && store.items == old(store.items)
      ensures !old(loading) && reply.AuthAnswered? && Session.IsOk(reply.status) ==>
        && alertText == None
        && store.items == StoreTokens(old(store.items), reply.data)
        && route == Some(MeRedirect(Session.Lookup(store.items, Session.AccessKey), me, role))
      ensures isLogin == old(isLogin) && role == old(role) && email == old(email)
        && password == old(password) && fullName == old(fullName)
    {
      if loading {
        return None, None, None;
      }
      var request := SubmitRequest(isLogin, email, password, fullName, role);
      loading := true;
      sent := Some(request);
      alertText, route := None, None;
      match reply {
        case AuthThrew =>
          alertText := Some(NetworkError);
        case AuthAnswered(status, data) =>
          if !Session.IsOk(status) {
            alertText := Some(FailureText(data));
          } else {
            if data.access != "" {
              store.SetItem(Session.AccessKey, data.access);
            }
            if data.refresh != "" {
              store.SetItem(Session.RefreshKey, data.refresh);
            }
            route := Some(MeRedirect(store.GetItem(Session.AccessKey), me, role));
          }
      }
      loading := false;
    }
  }
}
