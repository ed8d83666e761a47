/**
 * The family member's dashboard: the avatar initials of a patient, the
 * `/api/auth/me/` check that sends other roles away, the list of linked
 * patients, and connecting to a patient with a share code.
 */
module FamilyDashboard {
  import opened Wrappers
  import opened Text
  import Session
  import Login
  import FamilyPage
  import Views

  const MyPatientsUrl: string := Session.ApiBase + "/api/family-links/my-patients/"
  const ConnectUrl: string := Session.ApiBase + "/api/family-links/connect/"
  const NotFoundError: string := "API endpoint not found. Check backend URL configuration."
  const EnterCode: string := "Enter a share code"
  const Connected: string := "Connected to patient successfully."
  const InvalidCode: string := "Invalid or expired code"
  const ConnectNetworkError: string := "Network error"

  // ---------------------------------------------------------------------
  // Avatar initials

  /**
   * `avatarInitials(name)`: the first characters of the first two parts of
   * `trim().split(/\s+/)`, upper-cased, or "??" when there are none.
   */
  function AvatarInitials(name: string): (r: string)
    ensures |r| <= 2 && IsUpperCase(r)
  {
    PartLetters(SplitWhitespace(name))
  }

  function PartLetters(parts: seq<string>): (r: string)
    ensures |r| <= 2 && IsUpperCase(r)
  {
    var first := if |parts| > 0 && parts[0] != "" then FamilyPage.CharAt0(parts[0]) else "";
    var second := if |parts| > 1 && parts[1] != "" then FamilyPage.CharAt0(parts[1]) else "";
    var picked := if first + second != "" then first + second else if first != "" then first else "??";
    Upper(picked)
  }

  /** The dashboard and the Family page compute the same initials for every name. */
  lemma AvatarInitialsLikeFamilyPage(name: string)
    ensures AvatarInitials(name) == FamilyPage.Initials(name)
  {
    var words := Words(name);
    if words == [] {
      assert SplitWhitespace(name) == [""];
      assert PartLetters([""]) == Upper("??");
    } else {
      PartLettersOfWords(words);
    }
  }

  lemma PartLettersOfWords(words: seq<string>)
    requires words != [] && forall i :: 0 <= i < |words| ==> IsWord(words[i])
    ensures PartLetters(words) == FamilyPage.Letters(words)
  {
    assert IsWord(words[0]);
    if |words| > 1 {
      assert IsWord(words[1]);
    }
    var first := FamilyPage.CharAt0(words[0]);
    assert first != "";
  }

  // ---------------------------------------------------------------------
  // Who may stay

  /** `me?.role || "family"`. */
  function Role(me: Option<string>): (r: string)
    ensures r != ""
    ensures me.None? || me.value == "" ==> r == "family"
  {
    if me.Some? && me.value != "" then me.value else "family"
  }

  /** Where `fetchMe` sends the viewer, if anywhere. */
  function MeRoute(access: Option<string>, reply: Login.MeReply): (r: Option<string>)
    ensures !Session.Truthy(access) ==> r == Some("/login")
    ensures Session.Truthy(access) && (reply.MeThrew? || !Session.IsOk(reply.status)) ==> r == Some("/login")
  {
    if !Session.Truthy(access) then Some("/login")
    else match reply
      case MeThrew => Some("/login")
      case MeAnswered(status, role) =>
        if !Session.IsOk(status) then Some("/login")
        else if role != "" && role != "family" then Some(if role == "doctor" then "/doctor-dashboard" else "/memories")
        else None
  }

  /**
   * A family member (or a user with no role) stays; any other role goes
   * where the login page would send it.
   */
  lemma MeRouteLikeLogin(access: Option<string>, status: int, role: string)
    requires Session.Truthy(access) && Session.IsOk(status)
    ensures var r := MeRoute(access, Login.MeAnswered(status, role));
      && (r.None? <==> role == "" || role == "family")
      && (r.Some? ==> r.value == Login.MeRedirect(access, Login.MeAnswered(status, role), ""))
  {
  }

  // ---------------------------------------------------------------------
  // Share codes

  /** `connectCode.trim().toUpperCase()`. */
  function CodeToSend(input: string): (r: string)
    ensures r == "" <==> IsBlank(input)
    ensures IsUpperCase(r)
  {
    TrimBlank(input);
    Upper(Trim(input))
  }

  /** The server's normalisation leaves the code the dashboard sends as it is. */
  lemma CodeIsNormal(input: string)
    ensures Views.NormalizeCode(CodeToSend(input)) == CodeToSend(input)
  {
    var t := Trim(input);
    UpperTrimmed(t);
    UpperIdempotent(t);
  }

  /** Upper-casing a trimmed text leaves it trimmed. */
  lemma UpperTrimmed(t: string)
    requires t == [] || (!IsSpace(t[0]) && !IsSpace(t[|t| - 1]))
    ensures Trim(Upper(t)) == Upper(t)
  {
    var u := Upper(t);
    if |u| > 0 {
      var a, z := u[0], u[|u| - 1];
      assert a == UpperChar(t[0]) && z == UpperChar(t[|t| - 1]);
      UpperCharSpace(t[0]);
      UpperCharSpace(t[|t| - 1]);
      assert TrimStart(u) == u;
      assert TrimEnd(u) == u;
    }
  }

  lemma UpperCharSpace(c: char)
    ensures IsSpace(UpperChar(c)) <==> IsSpace(c)
  {
  }

  // ---------------------------------------------------------------------
  // The page

  /** A linked patient, as the list shows it. */
  datatype PatientRow = PatientRow(id: int, name: string, username: string)

  /** The body of `my-patients/`: an array of patients, or anything else. */
  datatype PatientsBody = PatientArray(rows: seq<PatientRow>) | NotArray

  /** The answer to `my-patients/`; `text` is what `res.text()` gives ("" on failure). */
  datatype PatientsReply = PatientsAnswered(status: int, body: PatientsBody, text: string) | PatientsThrew(message: string)

  /** The answer to `connect/`: the `detail` and `message` fields of its body, "" where absent. */
  datatype ConnectReply = ConnectAnswered(status: int, detail: string, message: string) | ConnectThrew

  datatype ConnectRequest = ConnectRequest(url: string, authorization: string, code: string)

  /** The error `fetchPatients` shows for an answer other than ok, 401 and 404. */
  function HttpError(status: int, text: string): (r: string)
    ensures r != ""
    ensures text != "" ==> r == text
  {
    if text != "" then text else "HTTP " + IntText(status) + ": Failed to load patients."
  }

  /** The alert for a refused code: `data?.detail || data?.message || "Invalid or expired code"`. */
  function RefusalText(detail: string, message: string): (r: string)
    ensures r != ""
    ensures detail != "" ==> r == detail
    ensures detail == "" && message != "" ==> r == message
    ensures detail == "" && message == "" ==> r == InvalidCode
  {
    if detail != "" then detail else if message != "" then message else InvalidCode
  }

  /** The patient list after `fetchPatients` answered with `reply`. */
  function ListAfter(before: seq<PatientRow>, reply: PatientsReply): (r: seq<PatientRow>)
    ensures reply.PatientsAnswered? && reply.status == 401 ==> r == before
    ensures reply.PatientsAnswered? && reply.body.PatientArray? && Session.IsOk(reply.status) ==> r == reply.body.rows
  {
    match reply
      case PatientsThrew(_) => []
      case PatientsAnswered(status, body, _) =>
        if Session.IsOk(status) then (if body.PatientArray? then body.rows else [])
        else if status == 401 then before
        else []
  }

  /** The error the page shows after a list fetch: none for an ok answer or a 401. */
  function ErrorAfter(reply: PatientsReply): (r: Option<string>)
    ensures r == None <==> reply.PatientsAnswered? && (Session.IsOk(reply.status) || reply.status == 401)
    ensures reply.PatientsThrew? ==> r == Some("Network error: " + reply.message)
  {
    match reply
      case PatientsThrew(message) => Some("Network error: " + message)
      case PatientsAnswered(status, _, text) =>
        if Session.IsOk(status) || status == 401 then None
        else if status == 404 then Some(NotFoundError)
        else Some(HttpError(status, text))
  }

  class Dashboard {
    /** The role of `me`, "" when `me` has none; `None` before `me` is known. */
    var me: Option<string>
    var patients: seq<PatientRow>
    var loading: bool
    var connecting: bool
    var connectCode: string
    var error: Option<string>

    constructor ()
      ensures me == None && patients == [] && loading && !connecting && connectCode == "" && error == None
      ensures Role(me) == "family"
    {
      me, patients, loading, connecting, connectCode, error := None, [], true, false, "", None;
    }

    /** `fetchMe`: records `me` on an ok answer and routes as `MeRoute` says. */
    method FetchMe(access: Option<string>, reply: Login.MeReply) returns (route: Option<string>)
      modifies this`me
      ensures route == MeRoute(access, reply)
      ensures me == (if Session.Truthy(access) && reply.MeAnswered? && Session.IsOk(reply.status)
                     then Some(reply.role) else old(me))
    {
      if !Session.Truthy(access) {
        return Some("/login");
      }
      match reply {
        case MeThrew =>
          route := Some("/login");
        case MeAnswered(status, role) =>
          if Session.IsOk(status) {
            me := Some(role);
            route := None;
            if role != "" && role != "family" {
              route := Some(if role == "doctor" then "/doctor-dashboard" else "/memories");
            }
          } else {
            route := Some("/login");
          }
      }
    }

    /**
     * `fetchPatients`: nothing without a token; a 401 goes to /login and
     * keeps the list; every other failure empties the list and sets the
     * error; an ok answer shows the array (or nothing when the body is not
     * an array).
     */
    method FetchPatients(access: Option<string>, reply: PatientsReply) returns (route: Option<string>)
      modifies this`patients, this`loading, this`error
      ensures !Session.Truthy(access) ==>
        route == None && patients == old(patients) && loading == old(loading) && error == old(error)
      ensures Session.Truthy(access) ==>
        !loading && patients == ListAfter(old(patients), reply) && error == ErrorAfter(reply)
      ensures Session.Truthy(access) && reply.PatientsAnswered? ==>
        var status := reply.status;
        && route == (if !Session.IsOk(status) && status == 401 then Some("/login") else None)
        && (Session.IsOk(status) ==>
              error == None && patients == (if reply.body.PatientArray? then reply.body.rows else []))
        && (!Session.IsOk(status) && status == 404 ==> error == Some(NotFoundError) && patients == [])
        && (!Session.IsOk(status) && status == 401 ==> error == None && patients == old(patients))
        && (!Session.IsOk(status) && status != 404 && status != 401 ==>
              error == Some(HttpError(status, reply.text)) && patients == [])
      ensures Session.Truthy(access) && reply.PatientsThrew? ==>
        route == None && error == Some("Network error: " + reply.message) && patients == []
    {
      if !Session.Truthy(access) {
        return None;
      }
      loading := true;
      error := None;
      route := None;
      match reply {
        case PatientsAnswered(status, body, text) =>
          if Session.IsOk(status) {
            patients := if body.PatientArray? then body.rows else [];
          } else if status == 404 {
            error := Some(NotFoundError);
            patients := [];
          } else if status == 401 {
            route := Some("/login");
          } else {
            error := Some(HttpError(status, text));
            patients := [];
          }
        case PatientsThrew(message) =>
          error := Some("Network error: " + message);
          patients := [];
      }
      loading := false;
    }

    /**
     * `onConnect`: a blank code alerts and sends nothing; without a token
     * it goes to /login; otherwise it posts the normalised code, and on an
     * ok answer clears the input and reloads the patients.
     */
    method Connect(access: Option<string>, reply: ConnectReply, reload: PatientsReply)
      returns (sent: Option<ConnectRequest>, alertText: Option<string>, route: Option<string>)
      modifies this`patients, this`loading, this`error, this`connecting, this`connectCode
      ensures IsBlank(old(connectCode)) ==>
        && sent == None && alertText == Some(EnterCode) && route == None
        && connectCode == old(connectCode) && patients == old(patients) && connecting == old(connecting)
        && error == old(error) && loading == old(loading)
      ensures !IsBlank(old(connectCode)) && !Session.Truthy(access) ==>
        && sent == None && alertText == None && route == Some("/login")
        && connectCode == old(connectCode) && patients == old(patients) && connecting == old(connecting)
        && error == old(error) && loading == old(loading)
      ensures !IsBlank(old(connectCode)) && Session.Truthy(access) ==>
        && sent == Some(ConnectRequest(ConnectUrl, Session.Bearer(access.value), CodeToSend(old(connectCode))))
        && !connecting
      ensures !IsBlank(old(connectCode)) && Session.Truthy(access) && reply.ConnectAnswered?
              && Session.IsOk(reply.status) ==>
        && connectCode == "" && alertText == Some(Connected) && patients == ListAfter(old(patients), reload)
        && !loading && error == ErrorAfter(reload)
        && route == (if reload.PatientsAnswered? && !Session.IsOk(reload.status) && reload.status == 401
                     then Some("/login") else None)
      ensures !IsBlank(old(connectCode)) && Session.Truthy(access) && reply.ConnectAnswered?
              && !Session.IsOk(reply.status) ==>
        && connectCode == old(connectCode) && patients == old(patients) && route == None
        && alertText == Some(RefusalText(reply.detail, reply.message))
        && error == old(error) && loading == old(loading)
      ensures !IsBlank(old(connectCode)) && Session.Truthy(access) && reply.ConnectThrew? ==>
        && connectCode == old(connectCode) && patients == old(patients) && route == None
        && alertText == Some(ConnectNetworkError)
        && error == old(error) && loading == old(loading)
    {
      var code := CodeToSend(connectCode);
      if code == "" {
        return None, Some(EnterCode), None;
      }
      if !Session.Truthy(access) {
        return None, None, Some("/login");
      }
      connecting := true;
      sent := Some(ConnectRequest(ConnectUrl, Session.Bearer(access.value), code));
      route := None;
      match reply {
        case ConnectAnswered(status, detail, message) =>
          if Session.IsOk(status) {
            connectCode := "";
            route := FetchPatients(access, reload);
            alertText := Some(Connected);
          } else {
            alertText := Some(RefusalText(detail, message));
          }
        case ConnectThrew =>
          alertText := Some(ConnectNetworkError);
      }
      connecting := false;
    }
  }
}
