/**
 * The computed fields of the backend's serializers: formatted durations,
 * speaker and user display names, avatar initials, resolved media URLs,
 * `can_edit` and `expires_in_minutes`, and the memory serializer's
 * `update`.
 *
 * Durations and times are integer microseconds, as in `Models`; a text
 * attribute that may be null is "".
 */
module Serializers {
  import opened Wrappers
  import opened Text
  import opened Models
  import Views
  import FamilyPage
  import ImageUrl
  import MemoryRecord

  // ---------------------------------------------------------------------
  // Durations

  const MicrosPerSecond: int := 1000000
  const MicrosPerMinute: int := 60 * MicrosPerSecond

  /** Python's `int(a / b)` for a positive divisor: the quotient truncated toward zero. */
  function TruncDiv(a: int, b: int): int
    requires b > 0
  {
    if a >= 0 then a / b else -((-a) / b)
  }

  /** The truncated quotient has the sign of `a` and drops less than one `b` of it. */
  lemma TruncDivBounds(a: int, b: int)
    requires b > 0
    ensures var q := TruncDiv(a, b);
      && (a >= 0 ==> q >= 0 && q * b <= a < (q + 1) * b)
      && (a < 0 ==> q <= 0 && (q - 1) * b < a <= q * b)
  {
    if a >= 0 {
      DivBounds(a, b);
    } else {
      DivBounds(-a, b);
      var d := (-a) / b;
      assert TruncDiv(a, b) == -d;
      assert (-d - 1) * b == -((d + 1) * b);
      assert -d * b == -(d * b);
    }
  }

  /** Euclidean division of a non-negative number, stated with the products. */
  lemma DivBounds(n: int, b: int)
    requires n >= 0 && b > 0
    ensures n / b >= 0 && (n / b) * b <= n < (n / b + 1) * b
  {
    var d, m := n / b, n % b;
    assert n == d * b + m && 0 <= m < b;
    assert (d + 1) * b == d * b + b;
  }

  /** `int(duration.total_seconds())`. */
  function WholeSeconds(micros: int): int {
    TruncDiv(micros, MicrosPerSecond)
  }

  /**
   * `get_duration_formatted`: "m:ss" of the whole seconds, with Python's
   * floor division and modulo, or None when the duration is null or zero.
   */
  function DurationFormatted(duration: Option<int>): (r: Option<string>)
    ensures r.None? <==> duration.None? || duration.value == 0
  {
    if duration.Some? && duration.value != 0 then
      var total := WholeSeconds(duration.value);
      Some(IntText(total / 60) + ":" + Pad2(total % 60))
    else
      None
  }

  predicate AllDigits(s: string) {
    forall i :: 0 <= i < |s| ==> '0' <= s[i] <= '9'
  }

  /** Reads an integer written with an optional "-" and decimal digits. */
  function ReadInt(s: string): Option<int> {
    if |s| >= 2 && s[0] == '-' && AllDigits(s[1..]) then Some(0 - DigitsValue(s[1..]))
    else if |s| >= 1 && AllDigits(s) then Some(DigitsValue(s) as int)
    else None
  }

  /** Reads "m:ss" back into seconds. */
  function ReadDuration(t: string): Option<int> {
    if |t| < 4 || t[|t| - 3] != ':' || !AllDigits(t[|t| - 2..]) then None
    else
      match ReadInt(t[..|t| - 3])
      case None => None
      case Some(m) => Some(m * 60 + DigitsValue(t[|t| - 2..]))
  }

  lemma IntTextRoundTrip(i: int)
    ensures ReadInt(IntText(i)) == Some(i)
  {
    var n: nat := if i < 0 then -i else i;
    var digits := Decimal(n);
    DecimalRoundTrip(n);
    assert AllDigits(digits);
    if i < 0 {
      var t := "-" + digits;
      assert IntText(i) == t;
      assert t[1..] == digits;
      assert ReadInt(t) == Some(0 - DigitsValue(digits));
    } else {
      assert IntText(i) == digits;
      assert digits[0] != '-';
      assert ReadInt(digits) == Some(DigitsValue(digits) as int);
    }
  }

  /**
   * The formatted text reads back as the duration's whole seconds, and its
   * seconds field is two digits below 60.
   */
  lemma DurationRoundTrip(micros: int)
    requires micros != 0
    ensures var t := DurationFormatted(Some(micros)).value;
      && ReadDuration(t) == Some(WholeSeconds(micros))
      && |t| >= 4 && t[|t| - 3] == ':' && AllDigits(t[|t| - 2..]) && DigitsValue(t[|t| - 2..]) < 60
  {
    var total := WholeSeconds(micros);
    var a, p := IntText(total / 60), Pad2(total % 60);
    var t := a + ":" + p;
    assert DurationFormatted(Some(micros)).value == t;
    Pad2RoundTrip(total % 60);
    IntTextRoundTrip(total / 60);
    assert t[..|t| - 3] == a;
    assert t[|t| - 2..] == p;
  }

  // ---------------------------------------------------------------------
  // Display names

  const UnknownSpeaker: string := "Unknown Speaker"

  /** `get_speaker_display`. */
  function SpeakerDisplay(name: string, relation: string): (r: string)
    ensures name == "" ==> r == UnknownSpeaker
    ensures name != "" ==> StartsWith(r, name) && (r == name <==> relation == "")
    ensures name != "" && relation != "" ==> r == name + " (" + relation + ")"
  {
    if name != "" && relation != "" then name + " (" + relation + ")"
    else if name != "" then name
    else UnknownSpeaker
  }

  /** A named speaker is shown the way `FamilyMember.__str__` shows a member. */
  lemma SpeakerLikeMember(m: MemberRow)
    requires m.name != ""
    ensures SpeakerDisplay(m.name, m.relation) == MemberText(m)
  {
  }

  /** `getattr(user, 'first_name', None) or user.username`. */
  function UserDisplay(u: User): (r: string)
    ensures u.firstName != "" ==> r == u.firstName
    ensures u.firstName == "" ==> r == u.username
  {
    if u.firstName != "" then u.firstName else u.username
  }

  /** The display is empty only for a user with neither a first name nor a username. */
  lemma UserDisplayEmpty(u: User)
    ensures UserDisplay(u) == "" <==> u.firstName == "" && u.username == ""
  {
  }

  // ---------------------------------------------------------------------
  // Avatar initials

  /**
   * `get_avatar_initials`: "??" for a blank name; the first letters of the
   * first two words; the first two characters of a single word.  The words
   * are those of `name.strip().split()`, which are the words of `name`.
   */
  function AvatarInitials(name: string): (r: string)
    ensures 1 <= |r| <= 2 && IsUpperCase(r)
  {
    if name == "" then "??" else WordInitials(Words(name))
  }

  function WordInitials(parts: seq<string>): (r: string)
    requires forall i :: 0 <= i < |parts| ==> IsWord(parts[i])
    ensures 1 <= |r| <= 2 && IsUpperCase(r)
  {
    if |parts| >= 2 then
      assert IsWord(parts[0]) && IsWord(parts[1]);
      Upper([parts[0][0], parts[1][0]])
    else if |parts| == 1 then
      assert IsWord(parts[0]);
      Upper(parts[0][..Min(2, |parts[0]|)])
    else "??"
  }

  /** The letters come from the words, in order: one per word for two or more words, up to two of a single word. */
  lemma WordInitialsShape(parts: seq<string>)
    requires forall i :: 0 <= i < |parts| ==> IsWord(parts[i])
    ensures parts == [] ==> WordInitials(parts) == "??"
    ensures parts != [] ==> IsWord(parts[0]) && WordInitials(parts)[0] == UpperChar(parts[0][0])
    ensures |parts| >= 2 ==> IsWord(parts[1]) && WordInitials(parts) == [UpperChar(parts[0][0]), UpperChar(parts[1][0])]
    ensures |parts| == 1 ==> WordInitials(parts) == Upper(parts[0][..Min(2, |parts[0]|)])
  {
    if |parts| > 0 {
      assert IsWord(parts[0]);
      if |parts| > 1 {
        assert IsWord(parts[1]);
      }
    }
  }

  /** On a blank name the initials are "??"; otherwise they are the initials of its words. */
  lemma AvatarInitialsLetters(name: string)
    ensures IsBlank(name) ==> AvatarInitials(name) == "??"
    ensures !IsBlank(name) ==> Words(name) != [] && AvatarInitials(name) == WordInitials(Words(name))
  {
    WordsBlank(name);
    WordInitialsShape(Words(name));
  }

  /**
   * The serializer and the Family page agree on every name that is blank
   * or has at least two words; on a single word the serializer keeps two
   * characters where the page keeps one.
   */
  lemma AvatarInitialsLikeFamilyPage(name: string)
    ensures |Words(name)| != 1 ==> AvatarInitials(name) == FamilyPage.Initials(name)
    ensures |Words(name)| == 1 && |Words(name)[0]| >= 2 ==>
      |AvatarInitials(name)| == 2 && |FamilyPage.Initials(name)| == 1
  {
    var parts := Words(name);
    assert FamilyPage.Initials(name) == FamilyPage.Letters(parts);
    AvatarInitialsLetters(name);
    WordsBlank(name);
    WordInitialsLikeLetters(parts);
  }

  /** The same comparison on the words themselves. */
  lemma WordInitialsLikeLetters(parts: seq<string>)
    requires forall i :: 0 <= i < |parts| ==> IsWord(parts[i])
    ensures |parts| != 1 ==> WordInitials(parts) == FamilyPage.Letters(parts)
    ensures |parts| == 1 && |parts[0]| >= 2 ==>
      |WordInitials(parts)| == 2 && |FamilyPage.Letters(parts)| == 1
  {
    WordInitialsShape(parts);
    FamilyPage.LettersShape(parts);
  }

  // ---------------------------------------------------------------------
  // Resolved media URLs

  /**
   * `get_resolved_image_url` and its video, audio and memory twins: the
   * remote URL when set, else the stored file's URL (made absolute for the
   * request when there is one, given as `absoluteFile`), else None.
   */
  function ResolvedUrl(remote: string, file: string, absoluteFile: Option<string>): (r: Option<string>)
    ensures r.None? <==> remote == "" && file == ""
    ensures remote != "" ==> r == Some(remote)
    ensures remote == "" && file != "" ==> r == Some(absoluteFile.GetOr(file))
  {
    if remote != "" then Some(remote)
    else if file != "" then Some(absoluteFile.GetOr(file))
    else None
  }

  /**
   * A memory the backend resolves to some URL shows that URL, passed
   * through `formatImageUrl`, on the patient's Memories page.
   */
  lemma ResolvedImageShown(remote: string, file: string, absoluteFile: Option<string>, m: MemoryRecord.Memory)
    requires ResolvedUrl(remote, file, absoluteFile).Some?
    requires m.resolvedImageUrl == ResolvedUrl(remote, file, absoluteFile).value
    requires m.resolvedImageUrl != ""
    ensures MemoryRecord.WithFormattedImage(m).image == ImageUrl.FormatImageUrl(m.resolvedImageUrl).value
  {
  }

  // ---------------------------------------------------------------------
  // can_edit

  /** `FamilyLink.objects.filter(patient=…, family_member=…, status="APPROVED").exists()`. */
  function HasApprovedLink(links: seq<LinkRow>, patient: int, family: int): (r: bool)
    ensures r <==> Views.CanAccessPatientData(links, family, patient)
    decreases |links|
  {
    if |links| == 0 then false
    else
      var l := links[0];
      (l.patient == patient && l.family == family && l.status == Approved)
      || (assert forall x :: x in links[1..] ==> x in links; HasApprovedLink(links[1..], patient, family))
  }

  /**
   * `get_can_edit`; `viewer` is the authenticated user of the request, None
   * without a request or an authenticated user.
   */
  function CanEdit(viewer: Option<int>, owner: int, links: seq<LinkRow>): (r: bool)
    ensures viewer.None? ==> !r
    ensures viewer == Some(owner) ==> r
    ensures viewer.Some? && viewer.value != owner ==>
      (r <==> Views.CanAccessPatientData(links, viewer.value, owner))
  {
    if viewer.None? then false
    else if viewer.value == owner then true
    else HasApprovedLink(links, owner, viewer.value)
  }

  // ---------------------------------------------------------------------
  // expires_in_minutes

  /**
   * `get_expires_in_minutes`.  The code reads the clock twice: `firstNow`
   * for the comparison, `secondNow` for the remaining time.
   */
  function ExpiresInMinutes(c: CodeRow, firstNow: int, secondNow: int): (r: int)
    ensures c.expiresAt <= firstNow ==> r == 0
  {
    if c.expiresAt > firstNow then TruncDiv(c.expiresAt - secondNow, MicrosPerMinute) else 0
  }

  /**
   * Read at one instant, the value is never negative and is the whole
   * minutes left, rounded down; it is positive only while the code is
   * still valid and at least a minute remains.
   */
  lemma ExpiresInMinutesRemaining(c: CodeRow, now: int)
    ensures var r := ExpiresInMinutes(c, now, now);
      && r >= 0
      && (IsValidCode(c, now) ==> r * MicrosPerMinute <= c.expiresAt - now < (r + 1) * MicrosPerMinute)
      && (r > 0 <==> c.expiresAt - now >= MicrosPerMinute)
  {
    TruncDivBounds(c.expiresAt - now, MicrosPerMinute);
  }

  // ---------------------------------------------------------------------
  // MemorySerializer.update

  /** The attributes after `setattr` of each validated pair in turn. */
  function Overlay(fields: map<string, string>, data: seq<(string, string)>): (r: map<string, string>)
    ensures r.Keys == fields.Keys + set p | p in data :: p.0
    decreases |data|
  {
    if |data| == 0 then fields
    else
      var last := data[|data| - 1];
      var init := data[..|data| - 1];
      var prev := Overlay(fields, init);
      assert data == init + [last];
      assert (set p | p in data :: p.0) == (set p | p in init :: p.0) + {last.0};
      prev[last.0 := last.1]
  }

  /** An attribute that is not supplied keeps its value. */
  lemma {:induction false} OverlayKeeps(fields: map<string, string>, data: seq<(string, string)>, k: string)
    requires k in fields && forall j :: 0 <= j < |data| ==> data[j].0 != k
    ensures Overlay(fields, data)[k] == fields[k]
    decreases |data|
  {
    if |data| > 0 {
      OverlayKeeps(fields, data[..|data| - 1], k);
    }
  }

  /** A supplied attribute takes the value of its last occurrence. */
  lemma {:induction false} OverlayTakes(fields: map<string, string>, data: seq<(string, string)>, j: nat)
    requires j < |data| && forall i :: j < i < |data| ==> data[i].0 != data[j].0
    ensures Overlay(fields, data)[data[j].0] == data[j].1
    decreases |data|
  {
    if j < |data| - 1 {
      OverlayTakes(fields, data[..|data| - 1], j);
    }
  }

  /** A memory instance during `MemorySerializer.update`. */
  class MemoryInstance {
    /** The attributes in memory. */
    var fields: map<string, string>
    /** The attributes as last saved to the table. */
    var stored: map<string, string>
    /** The memory's `members` relation (FamilyMember ids). */
    var members: set<int>

    constructor (fields: map<string, string>, members: set<int>)
      ensures this.fields == fields && stored == fields && this.members == members
    {
      this.fields := fields;
      stored := fields;
      this.members := members;
    }

    /**
     * `update(instance, validated_data)`: `members` is popped off, every
     * other pair is set in order, the instance is saved, and the relation
     * is replaced only when `members` was supplied.
     */
    method Update(data: seq<(string, string)>, newMembers: Option<seq<int>>)
      modifies this
      ensures fields == Overlay(old(fields), data) && stored == fields
      ensures newMembers.None? ==> members == old(members)
      ensures newMembers.Some? ==> members == set m | m in newMembers.value
    {
      var i := 0;
      while i < |data|
        invariant 0 <= i <= |data|
        invariant fields == Overlay(old(fields), data[..i]) && members == old(members)
      {
        assert data[..i + 1][..i] == data[..i];
        fields := fields[data[i].0 := data[i].1];
        i := i + 1;
      }
      assert data[..i] == data;
      stored := fields;
      if newMembers.Some? {
        members := set m | m in newMembers.value;
      }
    }
  }
}
