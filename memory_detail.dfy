/**
 * The memory detail page: the like button with its optimistic update and
 * revert, the recording player toggle, the back button, the avatar
 * initials of the people shown and the tag colours.
 */
module MemoryDetail {
  import opened Wrappers
  import opened Text
  import Session
  import MemoriesPage
  import Serializers
  import Models

  // ---------------------------------------------------------------------
  // Like button

  /** `${API_BASE}/api/memories/${memoryId}/like/`, with the route's id text. */
  function LikeUrl(memoryId: string): string {
    Session.ApiBase + "/api/memories/" + memoryId + "/like/"
  }

  /** The like request: a fetch that answers with a status, or one that throws. */
  datatype Reply = Answered(status: int) | Threw

  /** Whether the optimistic update stays: only an ok answer keeps it. */
  predicate Kept(reply: Reply) {
    reply.Answered? && Session.IsOk(reply.status)
  }

  function Bit(b: bool): int {
    if b then 1 else 0
  }

  /** The count with the viewer's own like taken out. */
  function Others(liked: bool, count: int): int {
    count - Bit(liked)
  }

  // ---------------------------------------------------------------------
  // Recording player

  /** Clicking the recording that plays stops it; clicking another plays that one. */
  function NextPlaying(playing: Option<int>, id: int): (r: Option<int>)
    ensures r == None <==> playing == Some(id)
    ensures r.Some? ==> r == Some(id)
  {
    if playing == Some(id) then None else Some(id)
  }

  /** Two clicks on a recording that is not playing start it and stop it again. */
  lemma ClickTwiceStops(playing: Option<int>, id: int)
    requires playing != Some(id)
    ensures NextPlaying(playing, id) == Some(id)
    ensures NextPlaying(NextPlaying(playing, id), id) == None
  {
  }

  // ---------------------------------------------------------------------
  // Back button

  datatype Navigation = HistoryBack | GoTo(path: string)

  /** `handleBack`: back in history when the page was opened from a patient's memories. */
  function BackTarget(from: Option<string>): (r: Navigation)
    ensures r == HistoryBack <==> from == Some("patient-memories")
    ensures r != HistoryBack ==> r == GoTo("/memories")
  {
    if from == Some("patient-memories") then HistoryBack else GoTo("/memories")
  }

  class Page {
    var isLiking: bool
    var likedByUser: bool
    var likesCount: int
    var playingRecording: Option<int>

    /** The state before the memory is fetched. */
    constructor ()
      ensures !isLiking && !likedByUser && likesCount == 0 && playingRecording == None
    {
      isLiking, likedByUser, likesCount, playingRecording := false, false, 0, None;
    }

    /**
     * `handleLikeToggle`: ignored while a toggle is running or without an
     * access token; otherwise flips the like and moves the count by one at
     * once, sends POST (like) or DELETE (unlike), puts both back unless the
     * answer is ok, and ends with `isLiking` false.
     */
    method LikeToggle(access: Option<string>, memoryId: string, reply: Reply)
      returns (sent: Option<MemoriesPage.BearerRequest>)
      modifies this`isLiking, this`likedByUser, this`likesCount
      ensures old(isLiking) || !Session.Truthy(access) ==>
        && sent == None && isLiking == old(isLiking)
        && likedByUser == old(likedByUser) && likesCount == old(likesCount)
      ensures !old(isLiking) && Session.Truthy(access) ==>
        && sent == Some(MemoriesPage.BearerRequest(LikeUrl(memoryId),
                          if old(likedByUser) then "DELETE" else "POST",
                          Session.Bearer(access.value)))
        && !isLiking
        && likedByUser == (if Kept(reply) then !old(likedByUser) else old(likedByUser))
        && likesCount == (if !Kept(reply) then old(likesCount)
                          else if old(likedByUser) then old(likesCount) - 1
                          else old(likesCount) + 1)
      ensures Others(likedByUser, likesCount) == old(Others(likedByUser, likesCount))
    {
      if isLiking {
        return None;
      }
      if !Session.Truthy(access) {
        return None;
      }
      isLiking := true;
      var wasLiked := likedByUser;
      likedByUser := !wasLiked;
      likesCount := if wasLiked then likesCount - 1 else likesCount + 1;
      sent := Some(MemoriesPage.BearerRequest(LikeUrl(memoryId), if wasLiked then "DELETE" else "POST",
                                            Session.Bearer(access.value)));
      if !Kept(reply) {
        likedByUser := wasLiked;
        likesCount := if wasLiked then likesCount + 1 else likesCount - 1;
      }
      isLiking := false;
    }

    /** `handlePlayRecording(recording)`; pausing and playing the audio elements is left out. */
    method PlayRecording(id: int)
      modifies this`playingRecording
      ensures playingRecording == NextPlaying(old(playingRecording), id)
    {
      if playingRecording == Some(id) {
        playingRecording := None;
      } else {
        playingRecording := Some(id);
      }
    }
  }

  // ---------------------------------------------------------------------
  // Avatar initials, as the page computes them

  /** `w[0]` in a string concatenation: the first character, or "undefined" past the end. */
  function FirstOrUndefined(w: string): string {
    if w == "" then "undefined" else [w[0]]
  }

  /**
   * `getAvatarInitials` as written: the trimmed name split on single
   * spaces, so an empty part between two spaces contributes "undefined"
   * and a whitespace-only name gives "" instead of "??".
   */
  function AvatarInitials(name: string): (r: string)
    ensures IsUpperCase(r)
    ensures name == "" ==> r == "??"
  {
    if name == "" then "??" else PartInitials(SplitOn(Trim(name), ' '))
  }

  /**
   * The initials of the parts of the split name: the first characters of
   * the first two parts ("undefined" for an empty one), or the first two
   * characters of a single part, upper-cased.
   */
  function PartInitials(parts: seq<string>): (r: string)
    ensures IsUpperCase(r)
    ensures |parts| >= 2 && parts[0] != "" && parts[1] != "" ==>
      r == [UpperChar(parts[0][0]), UpperChar(parts[1][0])]
    ensures |parts| >= 2 && parts[0] != "" && parts[1] == "" ==> r == [UpperChar(parts[0][0])] + "UNDEFINED"
    ensures |parts| == 1 ==>
      |r| == Models.Min(2, |parts[0]|) && forall i :: 0 <= i < |r| ==> r[i] == UpperChar(parts[0][i])
    ensures |parts| == 0 ==> r == "??"
  {
    if |parts| >= 2 then Upper(FirstOrUndefined(parts[0]) + FirstOrUndefined(parts[1]))
    else if |parts| == 1 then Upper(parts[0][..Models.Min(2, |parts[0]|)])
    else "??"
  }

  /**
   * Two spaces between two words: the page shows the first initial and
   * "UNDEFINED" where the serializer shows both initials.
   */
  lemma DoubleSpaceDiffers(a: string, b: string)
    requires IsWord(a) && IsWord(b)
    ensures AvatarInitials(a + "  " + b) == [UpperChar(a[0])] + "UNDEFINED"
    ensures Serializers.AvatarInitials(a + "  " + b) == [UpperChar(a[0]), UpperChar(b[0])]
  {
    DoubleSpaceParts(a, b);
    EmptySecondPart(a, b);
    DoubleSpaceWords(a, b);
    Serializers.WordInitialsShape([a, b]);
  }

  lemma DoubleSpaceParts(a: string, b: string)
    requires IsWord(a) && IsWord(b)
    ensures AvatarInitials(a + "  " + b) == PartInitials([a, "", b])
  {
    DoubleSpaceTrim(a, b);
    DoubleSpaceSplit(a, b);
  }

  /** An empty second part reads as "undefined". */
  lemma EmptySecondPart(a: string, b: string)
    requires a != ""
    ensures PartInitials([a, "", b]) == [UpperChar(a[0])] + "UNDEFINED"
  {
    var first, second := FirstOrUndefined(a), FirstOrUndefined("");
    assert first == [a[0]];
    assert second == "undefined";
    assert PartInitials([a, "", b]) == Upper(first + second);
    UndefinedUpper(a[0]);
  }

  lemma UndefinedUpper(c: char)
    ensures Upper([c] + "undefined") == [UpperChar(c)] + "UNDEFINED"
  {
  }

  /** The two words keep the trimmed name as it is. */
  lemma DoubleSpaceTrim(a: string, b: string)
    requires IsWord(a) && IsWord(b)
    ensures Trim(a + "  " + b) == a + "  " + b
  {
    var name := a + "  " + b;
    assert name[0] == a[0] && name[|name| - 1] == b[|b| - 1];
    assert TrimStart(name) == name;
    assert TrimEnd(name) == name;
  }

  /** The page's split of two words joined by two spaces has an empty part in the middle. */
  lemma DoubleSpaceSplit(a: string, b: string)
    requires IsWord(a) && IsWord(b)
    ensures SplitOn(a + "  " + b, ' ') == [a, "", b]
  {
    assert ' ' !in a by {
      forall k | 0 <= k < |a| ensures a[k] != ' ' { assert !IsSpace(a[k]); }
    }
    assert ' ' !in b by {
      forall k | 0 <= k < |b| ensures b[k] != ' ' { assert !IsSpace(b[k]); }
    }
    assert a + "  " + b == a + [' '] + ([' '] + b);
    assert [' '] + b == [] + [' '] + b;
    SplitOnCons(a, [' '] + b, ' ');
    SplitOnCons([], b, ' ');
    SplitOnAbsent(b, ' ');
  }

  /** Whitespace splitting finds just the two words. */
  lemma DoubleSpaceWords(a: string, b: string)
    requires IsWord(a) && IsWord(b)
    ensures Words(a + "  " + b) == [a, b]
  {
    assert a + "  " + b == a + ([' '] + ([' '] + b));
    WordsCons(a, [' '] + ([' '] + b));
    WordsSkipSpace(' ', [' '] + b);
    WordsSkipSpace(' ', b);
    WordsOfWord(b);
  }

  /** A name of spaces only: the page shows "" where the serializer shows "??". */
  lemma BlankNameDiffers()
    ensures AvatarInitials(" ") == ""
    ensures Serializers.AvatarInitials(" ") == "??"
  {
    assert TrimStart(" ") == "";
    assert SplitOn("", ' ') == [""];
    Serializers.AvatarInitialsLetters(" ");
  }

  /**
   * Two words joined by one space, then nothing or more text after one
   * space: the page shows the first letters of the two words, as the
   * serializer does.
   */
  lemma SingleSpacedAgrees(a: string, b: string, rest: string)
    requires IsWord(a) && IsWord(b)
    requires rest == "" || (rest[0] == ' ' && !IsSpace(rest[|rest| - 1]))
    ensures AvatarInitials(a + " " + b + rest) == [UpperChar(a[0]), UpperChar(b[0])]
    ensures Serializers.AvatarInitials(a + " " + b + rest) == AvatarInitials(a + " " + b + rest)
  {
    var name := a + " " + b + rest;
    SingleSpacedTrim(a, b, rest);
    var parts := SingleSpacedSplit(a, b, rest);
    assert AvatarInitials(name) == PartInitials(parts);
    SingleSpacedWords(a, b, rest);
    Serializers.WordInitialsShape(Words(name));
  }

  lemma SingleSpacedTrim(a: string, b: string, rest: string)
    requires IsWord(a) && IsWord(b)
    requires rest == "" || (rest[0] == ' ' && !IsSpace(rest[|rest| - 1]))
    ensures Trim(a + " " + b + rest) == a + " " + b + rest
  {
    var name := a + " " + b + rest;
    assert name[0] == a[0];
    assert name[|name| - 1] == if rest == "" then b[|b| - 1] else rest[|rest| - 1];
    assert TrimStart(name) == name;
    assert TrimEnd(name) == name;
  }

  /** The page's split starts with the two words. */
  lemma SingleSpacedSplit(a: string, b: string, rest: string) returns (parts: seq<string>)
    requires IsWord(a) && IsWord(b)
    requires rest == "" || rest[0] == ' '
    ensures parts == SplitOn(a + " " + b + rest, ' ')
    ensures |parts| >= 2 && parts[0] == a && parts[1] == b
  {
    assert ' ' !in a by {
      forall k | 0 <= k < |a| ensures a[k] != ' ' { assert !IsSpace(a[k]); }
    }
    assert ' ' !in b by {
      forall k | 0 <= k < |b| ensures b[k] != ' ' { assert !IsSpace(b[k]); }
    }
    assert a + " " + b + rest == a + [' '] + (b + rest);
    SplitOnCons(a, b + rest, ' ');
    if rest == "" {
      assert b + rest == b;
      SplitOnAbsent(b, ' ');
    } else {
      assert b + rest == b + [' '] + rest[1..];
      SplitOnCons(b, rest[1..], ' ');
    }
    parts := SplitOn(a + " " + b + rest, ' ');
  }

  /** Whitespace splitting starts with the same two words. */
  lemma SingleSpacedWords(a: string, b: string, rest: string)
    requires IsWord(a) && IsWord(b)
    requires rest == "" || rest[0] == ' '
    ensures Words(a + " " + b + rest) == [a, b] + Words(rest)
  {
    var br := b + rest;
    var t := [' '] + br;
    assert a + " " + b + rest == a + t;
    WordsCons(a, t);
    WordsSkipSpace(' ', br);
    WordsCons(b, rest);
    PairPrefix(a, b, Words(rest));
  }

  lemma PairPrefix<T>(x: T, y: T, s: seq<T>)
    ensures [x] + ([y] + s) == [x, y] + s
  {
  }

  /** On a single word the page and the serializer agree. */
  lemma OneWordAgrees(w: string)
    requires IsWord(w)
    ensures AvatarInitials(w) == Serializers.AvatarInitials(w)
  {
    assert TrimStart(w) == w;
    assert TrimEnd(w) == w;
    assert ' ' !in w by {
      forall k | 0 <= k < |w| ensures w[k] != ' ' { assert !IsSpace(w[k]); }
    }
    SplitOnAbsent(w, ' ');
    WordsOfWord(w);
    Serializers.WordInitialsShape([w]);
  }

  // ---------------------------------------------------------------------
  // Tag colours

  const TagBackgrounds: map<string, string> := map[
    "family" := "#f3e5f5", "reunion" := "#e8f5e8", "summer" := "#fff3e0", "home" := "#e3f2fd",
    "birthday" := "#fce4ec", "vacation" := "#e0f2f1", "holiday" := "#fff8e1", "anniversary" := "#f1f8e9"]

  const TagTexts: map<string, string> := map[
    "family" := "#7b1fa2", "reunion" := "#2e7d32", "summer" := "#ef6c00", "home" := "#1976d2",
    "birthday" := "#c2185b", "vacation" := "#00695c", "holiday" := "#f57f17", "anniversary" := "#689f38"]

  const DefaultBackground: string := "#f5f5f5"
  const DefaultText: string := "#666"

  /** `colors[tagName?.toLowerCase()] || fallback`, for one of the two tables. */
  function Lookup(colors: map<string, string>, tag: Option<string>, fallback: string): string {
    if tag.Some? && Lower(tag.value) in colors then colors[Lower(tag.value)] else fallback
  }

  function TagColor(tag: Option<string>): (r: string)
    ensures r == DefaultBackground <==> tag.None? || Lower(tag.value) !in TagBackgrounds
    ensures tag.Some? && Lower(tag.value) in TagBackgrounds ==> r == TagBackgrounds[Lower(tag.value)]
  {
    Lookup(TagBackgrounds, tag, DefaultBackground)
  }

  function TagTextColor(tag: Option<string>): (r: string)
    ensures r == DefaultText <==> tag.None? || Lower(tag.value) !in TagTexts
    ensures tag.Some? && Lower(tag.value) in TagTexts ==> r == TagTexts[Lower(tag.value)]
  {
    Lookup(TagTexts, tag, DefaultText)
  }

  /** The lookups ignore case, and a tag gets its own colours in both tables or falls back in both. */
  lemma TagColorsAgree(a: string, b: string)
    requires Lower(a) == Lower(b)
    ensures TagColor(Some(a)) == TagColor(Some(b)) && TagTextColor(Some(a)) == TagTextColor(Some(b))
    ensures TagColor(Some(a)) == DefaultBackground <==> TagTextColor(Some(a)) == DefaultText
  {
  }
}
