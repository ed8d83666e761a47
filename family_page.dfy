/**
 * The patient's Family page: the member list with its optimistic removal,
 * the `initials` avatar helper and the link-status badge.
 */
module FamilyPage {
  import opened Wrappers
  import opened Text
  import opened Lists
  import Session

  /** A family member as the page lists it. */
  datatype Member = Member(id: int, name: string, relation: string, status: string)

  /** `initials(name)`: first letters of the first two words, or "??" for a blank name. */
  function Initials(name: string): (r: string)
    ensures |r| <= 2 && IsUpperCase(r)
  {
    Letters(Words(name))
  }

  function Letters(parts: seq<string>): (r: string)
    ensures |r| <= 2 && IsUpperCase(r)
  {
    if |parts| == 0 then "??"
    else
      var first := CharAt0(parts[0]);
      var second := if |parts| > 1 then CharAt0(parts[1]) else "";
      var out := Upper(first + second);
      if out == "" then "??" else out
  }

  /** `w.charAt(0)`. */
  function CharAt0(w: string): (r: string)
    ensures |r| <= 1
  {
    if |w| == 0 then "" else w[..1]
  }

  lemma LettersShape(parts: seq<string>)
    requires forall i :: 0 <= i < |parts| ==> IsWord(parts[i])
    ensures parts == [] ==> Letters(parts) == "??"
    ensures parts != [] ==>
      && IsWord(parts[0])
      && Letters(parts)[0] == UpperChar(parts[0][0])
      && (|Letters(parts)| == 2 <==> |parts| >= 2)
      && (|parts| >= 2 ==> IsWord(parts[1]) && Letters(parts)[1] == UpperChar(parts[1][0]))
  {
    if |parts| > 0 {
      assert IsWord(parts[0]);
      var r := Letters(parts);
      if |parts| > 1 {
        assert IsWord(parts[1]);
      }
    }
  }

  /** Blank names show "??"; otherwise the letters come from the first two words, in order. */
  lemma InitialsShape(name: string)
    ensures IsBlank(name) ==> Initials(name) == "??"
    ensures !IsBlank(name) ==>
      var parts := Words(name);
      && parts != []
      && IsWord(parts[0])
      && Initials(name)[0] == UpperChar(parts[0][0])
      && (|Initials(name)| == 2 <==> |parts| >= 2)
      && (|parts| >= 2 ==> IsWord(parts[1]) && Initials(name)[1] == UpperChar(parts[1][0]))
  {
    WordsBlank(name);
    LettersShape(Words(name));
  }

  /** The badge shown for a link status. */
  datatype Badge = Badge(caption: string, cls: string)

  const Pending := Badge("Pending", "badge badge-pending")
  const Revoked := Badge("Revoked", "badge badge-revoked")
  const Connected := Badge("Connected", "badge badge-connected")

  /** `statusBadge(status)`; a missing status is "". */
  function StatusBadge(status: string): (b: Badge)
    ensures b == Pending <==> Upper(status) == "PENDING"
    ensures b == Revoked <==> Upper(status) == "REVOKED"
    ensures b in {Pending, Revoked, Connected}
  {
    var s := Upper(if status == "" then "CONNECTED" else status);
    if s == "PENDING" then Pending
    else if s == "REVOKED" then Revoked
    else Connected
  }

  /** The badge depends on the status only up to letter case. */
  lemma StatusBadgeIgnoresCase(status: string)
    ensures StatusBadge(status) == StatusBadge(Upper(status)) == StatusBadge(Lower(status))
  {
    UpperIdempotent(status);
    assert Upper(Lower(status)) == Upper(status);
    assert Upper(status) == "" <==> status == "";
  }

  function MemberId(m: Member): int { m.id }

  const RemoveFailed: string := "Failed to remove member"

  /** The error message the page shows when a removal does not succeed. */
  function RemovalError(result: Session.ApiResult): string {
    if result.Threw? then result.message else RemoveFailed
  }

  predicate Removed(result: Session.ApiResult) {
    result.Response? && Session.IsOk(result.status)
  }

  class Page {
    var members: seq<Member>
    var error: Option<string>

    constructor ()
      ensures members == [] && error == None
    {
      members := [];
      error := None;
    }

    /**
     * `onRemoveMember(member)`: drop the member at once, then send the
     * DELETE through the session helper; anything but an ok response puts
     * back the list exactly as it was and shows the error.  `toLogin` says
     * whether the session helper sent the page to /login.
     */
    method RemoveMember(store: Session.TokenStore, member: Member, confirmed: bool,
                        now: int, payload: Session.Payload, net: Session.Net)
      returns (log: seq<Session.Fetch>, toLogin: bool)
      modifies this, store
      ensures !confirmed ==>
        members == old(members) && error == old(error) && store.items == old(store.items) && log == [] && !toLogin
      ensures confirmed ==>
        var o := Session.Requested(old(store.items), now, payload, net, Url(member.id), DeleteOptions);
        && store.items == o.items && log == o.log && toLogin == o.toLogin
        && (Removed(o.result) ==> members == RemoveKey(old(members), MemberId, member.id) && error == old(error))
        && (!Removed(o.result) ==> members == old(members) && error == Some(RemovalError(o.result)))
    {
      if !confirmed {
        return [], false;
      }
      var snapshot := members;
      members := RemoveKey(members, MemberId, member.id);
      var result;
      result, log, toLogin := Session.ApiRequest(store, now, payload, net, Url(member.id), DeleteOptions);
      if !Removed(result) {
        members := snapshot;
        error := Some(RemovalError(result));
      }
    }
  }

  /** `{ method: "DELETE" }`. */
  const DeleteOptions: Session.Options := Session.Options(Some("DELETE"), map[], None)

  function Url(id: int): string {
    Session.ApiBase + "/api/family-members/" + IntText(id) + "/"
  }

  /** After a removal the remaining members are the old ones minus exactly that id, in order. */
  lemma RemovalKeepsOthers(members: seq<Member>, id: int)
    ensures var r := RemoveKey(members, MemberId, id);
      IsSubseq(r, members)
      && (forall m :: m in r <==> m in members && m.id != id)
  {
  }
}
