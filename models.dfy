/**
 * The backend's models as in-memory tables: one sequence of rows per
 * model, in primary-key order, with the uniqueness constraints and foreign
 * keys the schema declares, the `post_delete` handlers that keep a
 * FamilyMember and its FamilyLink in step, and the small pure helpers of
 * the models (`is_valid`, `generate_code`, `__str__`).
 *
 * Times are integer microseconds.  A text column that may be null is ""
 * where the code only tests it for truthiness.
 */
module Models {
  import opened Wrappers
  import opened Text
  import opened Lists

  /** A user; `role` is None when the user object has no `role` attribute. */
  datatype User = User(id: int, username: string, role: Option<string>, firstName: string)
  datatype MemoryRow = MemoryRow(id: int, user: int, title: string, createdAt: int)
  datatype MemberRow = MemberRow(id: int, user: int, name: string, relation: string)
  datatype LinkRow = LinkRow(id: int, patient: int, family: int, relation: string, status: string)
  datatype LikeRow = LikeRow(id: int, memory: int, user: int)
  datatype CodeRow = CodeRow(id: int, patient: int, code: string, expiresAt: int)
  /** An image, video or voice recording attached to a memory. */
  datatype MediaRow = MediaRow(id: int, memory: int, url: string, order: int)

  /** The three media tables of a memory. */
  datatype MediaKind = Images | Videos | Recordings

  const Approved: string := "APPROVED"
  const DefaultRelation: string := "Family Member"

  // Keys of the tables
  function UserId(u: User): int { u.id }
  function Username(u: User): string { u.username }
  function MemoryId(m: MemoryRow): int { m.id }
  function MemberId(m: MemberRow): int { m.id }
  function MemberKey(m: MemberRow): (int, string) { (m.user, m.name) }
  function LinkId(l: LinkRow): int { l.id }
  function LinkKey(l: LinkRow): (int, int) { (l.patient, l.family) }
  function LikeId(l: LikeRow): int { l.id }
  function LikeKey(l: LikeRow): (int, int) { (l.memory, l.user) }
  function CodeId(c: CodeRow): int { c.id }
  function CodeText(c: CodeRow): string { c.code }
  function CodePatient(c: CodeRow): int { c.patient }
  function MediaId(m: MediaRow): int { m.id }

  function UserIds(users: seq<User>): set<int> { set u | u in users :: u.id }
  function MemoryIds(memories: seq<MemoryRow>): set<int> { set m | m in memories :: m.id }

  // ---------------------------------------------------------------------
  // The schema's constraints

  predicate MembersOk(members: seq<MemberRow>, uids: set<int>) {
    && UniqueBy(members, MemberId) && UniqueBy(members, MemberKey)
    && forall m {:trigger m in members} :: m in members ==> m.user in uids
  }

  predicate LinksOk(links: seq<LinkRow>, uids: set<int>) {
    && UniqueBy(links, LinkId) && UniqueBy(links, LinkKey)
    && forall l {:trigger l in links} :: l in links ==> l.patient in uids && l.family in uids
  }

  predicate LikesOk(likes: seq<LikeRow>, mids: set<int>, uids: set<int>) {
    && UniqueBy(likes, LikeId) && UniqueBy(likes, LikeKey)
    && forall l {:trigger l in likes} :: l in likes ==> l.memory in mids && l.user in uids
  }

  /** `code` is unique and `patient` is one-to-one. */
  predicate CodesOk(codes: seq<CodeRow>, uids: set<int>) {
    && UniqueBy(codes, CodeId) && UniqueBy(codes, CodeText) && UniqueBy(codes, CodePatient)
    && forall c {:trigger c in codes} :: c in codes ==> c.patient in uids
  }

  predicate MediaOk(media: seq<MediaRow>, mids: set<int>) {
    && UniqueBy(media, MediaId)
    && forall m {:trigger m in media} :: m in media ==> m.memory in mids
  }

  predicate MemoriesOk(memories: seq<MemoryRow>, uids: set<int>) {
    && UniqueBy(memories, MemoryId)
    && forall m {:trigger m in memories} :: m in memories ==> m.user in uids
  }

  /**
   * Rows whose ids run on from `base`, above every id already in the table,
   * keep the table's ids unique and its memory references valid.
   */
  lemma MediaRowsOk(media: seq<MediaRow>, rows: seq<MediaRow>, mids: set<int>, base: int)
    requires MediaOk(media, mids) && forall m :: m in media ==> m.id < base
    requires forall j :: 0 <= j < |rows| ==> rows[j].id == base + j && rows[j].memory in mids
    ensures MediaOk(media + rows, mids)
    ensures forall m :: m in media + rows ==> m.id < base + |rows|
  {
    var s := media + rows;
    forall i, j | 0 <= i < j < |s|
      ensures MediaId(s[i]) != MediaId(s[j])
    {
      if j < |media| {
        assert MediaId(media[i]) != MediaId(media[j]);
      } else if i < |media| {
        assert media[i] in media;
      }
    }
    forall m | m in s
      ensures m.memory in mids && m.id < base + |rows|
    {
      if m !in media {
        var j :| 0 <= j < |rows| && rows[j] == m;
      }
    }
  }

  /** First user with that username (usernames are unique). */
  function UserNamed(users: seq<User>, name: string): (r: Option<User>)
    ensures r.Some? ==> r.value in users && r.value.username == name
    ensures r.None? ==> forall u :: u in users ==> u.username != name
  {
    if |users| == 0 then None
    else if users[0].username == name then Some(users[0])
    else UserNamed(users[1..], name)
  }

  function UserWithId(users: seq<User>, id: int): (r: Option<User>)
    ensures r.Some? ==> r.value in users && r.value.id == id
    ensures r.None? <==> id !in UserIds(users)
  {
    if |users| == 0 then None
    else if users[0].id == id then Some(users[0])
    else UserWithId(users[1..], id)
  }

  /** `FamilyLink.objects.filter(patient=p, family_member=f).first()`. */
  function LinkBetween(links: seq<LinkRow>, patient: int, family: int): (r: Option<LinkRow>)
    ensures r.Some? ==> r.value in links && r.value.patient == patient && r.value.family == family
    ensures r.None? ==> forall l :: l in links ==> !(l.patient == patient && l.family == family)
  {
    if |links| == 0 then None
    else if links[0].patient == patient && links[0].family == family then Some(links[0])
    else LinkBetween(links[1..], patient, family)
  }

  /** `FamilyMember.objects.filter(user=u, name=n).first()`. */
  function MemberNamed(members: seq<MemberRow>, user: int, name: string): (r: Option<MemberRow>)
    ensures r.Some? ==> r.value in members && r.value.user == user && r.value.name == name
    ensures r.None? ==> forall m :: m in members ==> !(m.user == user && m.name == name)
  {
    if |members| == 0 then None
    else if members[0].user == user && members[0].name == name then Some(members[0])
    else MemberNamed(members[1..], user, name)
  }

  /** The link the member handler deletes: owner to the user named like the member. */
  function PairedLink(users: seq<User>, links: seq<LinkRow>, m: MemberRow): Option<LinkRow> {
    match UserNamed(users, m.name)
    case None => None
    case Some(u) => LinkBetween(links, m.user, u.id)
  }

  /** The member the link handler deletes: the patient's member named like the family user. */
  function PairedMember(users: seq<User>, members: seq<MemberRow>, l: LinkRow): Option<MemberRow> {
    match UserWithId(users, l.family)
    case None => None
    case Some(u) => MemberNamed(members, l.patient, u.username)
  }

  /** In a valid table only one row carries a given (owner, name) pair. */
  lemma MemberKeyIdentifies(members: seq<MemberRow>, m: MemberRow, x: MemberRow)
    requires UniqueBy(members, MemberKey) && UniqueBy(members, MemberId)
    requires m in members && x in members && x.user == m.user && x.name == m.name
    ensures x == m
  {
    var i :| 0 <= i < |members| && members[i] == m;
    var j :| 0 <= j < |members| && members[j] == x;
    assert MemberKey(members[i]) == MemberKey(members[j]);
  }

  lemma UsernameIdentifies(users: seq<User>, u: User, v: User)
    requires UniqueBy(users, Username) && u in users && v in users && u.username == v.username
    ensures u == v
  {
    var i :| 0 <= i < |users| && users[i] == u;
    var j :| 0 <= j < |users| && users[j] == v;
    assert Username(users[i]) == Username(users[j]);
  }

  lemma UserIdIdentifies(users: seq<User>, u: User, v: User)
    requires UniqueBy(users, UserId) && u in users && v in users && u.id == v.id
    ensures u == v
  {
    var i :| 0 <= i < |users| && users[i] == u;
    var j :| 0 <= j < |users| && users[j] == v;
    assert UserId(users[i]) == UserId(users[j]);
  }

  /** The tables. */
  class Db {
    var users: seq<User>
    var memories: seq<MemoryRow>
    var members: seq<MemberRow>
    var links: seq<LinkRow>
    var likes: seq<LikeRow>
    var codes: seq<CodeRow>
    var images: seq<MediaRow>
    var videos: seq<MediaRow>
    var recordings: seq<MediaRow>
    /** The next primary key the database hands out. */
    var nextId: int
    /** Whether the FamilyMember `post_delete` handler is connected. */
    var memberHandlerConnected: bool

    constructor ()
      ensures Valid() && users == [] && memories == [] && members == [] && links == [] && likes == []
      ensures codes == [] && images == [] && videos == [] && recordings == []
      ensures nextId == 1 && memberHandlerConnected
    {
      users, memories, members, links, likes := [], [], [], [], [];
      codes, images, videos, recordings := [], [], [], [];
      nextId, memberHandlerConnected := 1, true;
    }

    /** Every row of a table the views insert into has an id handed out before `nextId`. */
    predicate IdsIssued()
      reads this
    {
      && (forall m {:trigger m in members} :: m in members ==> m.id < nextId)
      && (forall l {:trigger l in links} :: l in links ==> l.id < nextId)
      && (forall l {:trigger l in likes} :: l in likes ==> l.id < nextId)
      && (forall c {:trigger c in codes} :: c in codes ==> c.id < nextId)
      && (forall m {:trigger m in images} :: m in images ==> m.id < nextId)
      && (forall m {:trigger m in videos} :: m in videos ==> m.id < nextId)
      && (forall m {:trigger m in recordings} :: m in recordings ==> m.id < nextId)
    }

    /** The uniqueness constraints and foreign keys of the schema. */
    predicate Valid()
      reads this
    {
      var uids := UserIds(users);
      var mids := MemoryIds(memories);
      && UniqueBy(users, UserId) && UniqueBy(users, Username)
      && MemoriesOk(memories, uids)
      && MembersOk(members, uids)
      && LinksOk(links, uids)
      && LikesOk(likes, mids, uids)
      && CodesOk(codes, uids)
      && MediaOk(images, mids) && MediaOk(videos, mids) && MediaOk(recordings, mids)
      && IdsIssued()
    }

    // -------------------------------------------------------------------
    // Single-row writes (`objects.create`, `save`, `delete`)

    /** `FamilyLink.objects.create(...)` for a pair that has no link yet. */
    method InsertLink(l: LinkRow)
      requires Valid() && l.id == nextId && l.patient in UserIds(users) && l.family in UserIds(users)
      requires LinkBetween(links, l.patient, l.family).None?
      modifies this`links, this`nextId
      ensures Valid() && links == old(links) + [l] && nextId == old(nextId) + 1
    {
      UniqueByAppend(links, LinkId, l);
      UniqueByAppend(links, LinkKey, l);
      links := links + [l];
      nextId := nextId + 1;
    }

    /** `link.save()` of a changed row that keeps its patient and family user. */
    method SaveLink(l: LinkRow)
      requires Valid()
      requires exists x :: x in links && x.id == l.id && LinkKey(x) == LinkKey(l)
      modifies this`links
      ensures Valid() && links == ReplaceKey(old(links), LinkId, l.id, l)
      ensures l in links
    {
      var x :| x in links && x.id == l.id && LinkKey(x) == LinkKey(l);
      var k :| 0 <= k < |links| && links[k] == x;
      forall i | 0 <= i < |links| && links[i].id == l.id
        ensures LinkKey(links[i]) == LinkKey(l)
      {
        assert LinkId(links[i]) == LinkId(links[k]);
      }
      ReplaceKeyUnique(links, LinkId, l.id, l, LinkId);
      ReplaceKeyUnique(links, LinkId, l.id, l, LinkKey);
      links := ReplaceKey(links, LinkId, l.id, l);
      assert links[k] == l;
    }

    /** `FamilyMember.objects.create(...)` for an (owner, name) pair not yet taken. */
    method InsertMember(m: MemberRow)
      requires Valid() && m.id == nextId && m.user in UserIds(users)
      requires MemberNamed(members, m.user, m.name).None?
      modifies this`members, this`nextId
      ensures Valid() && members == old(members) + [m] && nextId == old(nextId) + 1
    {
      UniqueByAppend(members, MemberId, m);
      UniqueByAppend(members, MemberKey, m);
      members := members + [m];
      nextId := nextId + 1;
    }

    /** `MemoryLike.objects.create(...)` for a (memory, user) pair with no like. */
    method InsertLike(l: LikeRow)
      requires Valid() && l.id == nextId && l.memory in MemoryIds(memories) && l.user in UserIds(users)
      requires forall x :: x in likes ==> LikeKey(x) != LikeKey(l)
      modifies this`likes, this`nextId
      ensures Valid() && likes == old(likes) + [l] && nextId == old(nextId) + 1
    {
      UniqueByAppend(likes, LikeId, l);
      UniqueByAppend(likes, LikeKey, l);
      likes := likes + [l];
      nextId := nextId + 1;
    }

    /** `like.delete()`. */
    method DeleteLike(l: LikeRow)
      requires Valid()
      modifies this`likes
      ensures Valid() && likes == RemoveKey(old(likes), LikeId, l.id)
    {
      RemoveKeyUnique(likes, LikeId, l.id, LikeId);
      RemoveKeyUnique(likes, LikeId, l.id, LikeKey);
      likes := RemoveKey(likes, LikeId, l.id);
    }

    /** `PatientConnectCode(...).save()` for a patient with no code and a code nobody holds. */
    method InsertCode(c: CodeRow)
      requires Valid() && c.id == nextId && c.patient in UserIds(users)
      requires forall x :: x in codes ==> x.patient != c.patient && x.code != c.code
      modifies this`codes, this`nextId
      ensures Valid() && codes == old(codes) + [c] && nextId == old(nextId) + 1
    {
      UniqueByAppend(codes, CodeId, c);
      UniqueByAppend(codes, CodeText, c);
      UniqueByAppend(codes, CodePatient, c);
      codes := codes + [c];
      nextId := nextId + 1;
    }

    /** `code_obj.save()` of an existing row with a code no other patient holds. */
    method SaveCode(c: CodeRow)
      requires Valid()
      requires exists x :: x in codes && x.id == c.id && x.patient == c.patient
      requires forall x :: x in codes && x.code == c.code ==> x.patient == c.patient
      modifies this`codes
      ensures Valid() && codes == ReplaceKey(old(codes), CodeId, c.id, c)
      ensures c in codes
    {
      var x :| x in codes && x.id == c.id && x.patient == c.patient;
      var k :| 0 <= k < |codes| && codes[k] == x;
      forall i | 0 <= i < |codes| && codes[i].id == c.id
        ensures codes[i] == x
      {
        assert CodeId(codes[i]) == CodeId(codes[k]);
      }
      ReplaceKeyUnique(codes, CodeId, c.id, c, CodeId);
      ReplaceKeyUnique(codes, CodeId, c.id, c, CodePatient);
      var r := ReplaceKey(codes, CodeId, c.id, c);
      forall i, j | 0 <= i < j < |r|
        ensures CodeText(r[i]) != CodeText(r[j])
      {
        assert CodePatient(codes[i]) != CodePatient(codes[j]);
      }
      codes := r;
      assert codes[k] == c;
    }

    /** `code_obj.delete()`. */
    method DeleteCode(c: CodeRow)
      requires Valid()
      modifies this`codes
      ensures Valid() && codes == RemoveKey(old(codes), CodeId, c.id)
    {
      RemoveKeyUnique(codes, CodeId, c.id, CodeId);
      RemoveKeyUnique(codes, CodeId, c.id, CodeText);
      RemoveKeyUnique(codes, CodeId, c.id, CodePatient);
      codes := RemoveKey(codes, CodeId, c.id);
    }

    function Media(k: MediaKind): seq<MediaRow>
      reads this
    {
      match k
      case Images => images
      case Videos => videos
      case Recordings => recordings
    }

    /**
     * `serializer.save()` of a new image, video or recording row, the id
     * the next one handed out.  The schema's constraints are the caller's
     * to restore: `InsertMedia` below for one row, `MediaRowsOk` for a run.
     */
    method AppendMedia(k: MediaKind, row: MediaRow)
      requires row.id == nextId
      modifies this`images, this`videos, this`recordings, this`nextId
      ensures nextId == old(nextId) + 1
      ensures images == if k == Images then old(images) + [row] else old(images)
      ensures videos == if k == Videos then old(videos) + [row] else old(videos)
      ensures recordings == if k == Recordings then old(recordings) + [row] else old(recordings)
    {
      match k {
        case Images => images := images + [row];
        case Videos => videos := videos + [row];
        case Recordings => recordings := recordings + [row];
      }
      nextId := nextId + 1;
    }

    /** A single saved row keeps the schema's constraints. */
    method InsertMedia(k: MediaKind, row: MediaRow)
      requires Valid() && row.id == nextId && row.memory in MemoryIds(memories)
      modifies this`images, this`videos, this`recordings, this`nextId
      ensures Valid() && nextId == old(nextId) + 1
      ensures images == if k == Images then old(images) + [row] else old(images)
      ensures videos == if k == Videos then old(videos) + [row] else old(videos)
      ensures recordings == if k == Recordings then old(recordings) + [row] else old(recordings)
    {
      MediaRowsOk(Media(k), [row], MemoryIds(memories), nextId);
      AppendMedia(k, row);
    }

    /** `filter(...).delete()` on a media table, leaving the rows `keep` accepts. */
    method FilterMedia(k: MediaKind, keep: MediaRow -> bool)
      requires Valid()
      modifies this`images, this`videos, this`recordings
      ensures Valid()
      ensures images == if k == Images then Keep(old(images), keep) else old(images)
      ensures videos == if k == Videos then Keep(old(videos), keep) else old(videos)
      ensures recordings == if k == Recordings then Keep(old(recordings), keep) else old(recordings)
    {
      UniqueByKeep(Media(k), MediaId, keep);
      match k {
        case Images => images := Keep(images, keep);
        case Videos => videos := Keep(videos, keep);
        case Recordings => recordings := Keep(recordings, keep);
      }
    }

    /**
     * `member.delete()`: remove the row, then, if the member handler is
     * connected, delete the link from the member's owner to the user whose
     * username is the member's name (that link's own handler then finds no
     * member left to delete).
     */
    method DeleteFamilyMember(m: MemberRow)
      requires Valid() && m in members
      modifies this
      ensures Valid()
      ensures members == RemoveKey(old(members), MemberId, m.id)
      ensures old(memberHandlerConnected) ==>
        links == (match PairedLink(old(users), old(links), m)
                  case None => old(links)
                  case Some(l) => RemoveKey(old(links), LinkId, l.id))
      ensures !old(memberHandlerConnected) ==> links == old(links)
      ensures memberHandlerConnected == old(memberHandlerConnected)
      ensures users == old(users) && memories == old(memories) && likes == old(likes) && codes == old(codes)
      ensures nextId == old(nextId)
      ensures images == old(images) && videos == old(videos) && recordings == old(recordings)
      decreases |members| + |links|
    {
      RemoveKeyShrinks(members, MemberId, m);
      RemoveKeyUnique(members, MemberId, m.id, MemberId);
      RemoveKeyUnique(members, MemberId, m.id, MemberKey);
      var before := members;
      members := RemoveKey(members, MemberId, m.id);
      if memberHandlerConnected {
        var link := PairedLink(users, links, m);
        if link.Some? {
          var l := link.value;
          // The link's handler looks for m again and finds it gone.
          var u := UserNamed(users, m.name).value;
          var fu := UserWithId(users, l.family);
          assert fu.Some? by {
            assert l.family in UserIds(users);
          }
          UserIdIdentifies(users, u, fu.value);
          forall x | x in members && x.user == l.patient && x.name == u.username
            ensures false
          {
            MemberKeyIdentifies(before, m, x);
          }
          assert PairedMember(users, members, l).None?;
          DeleteFamilyLink(l);
        }
      }
    }

    /**
     * `link.delete()`: remove the row, then delete the patient's member
     * named after the family user with the member handler disconnected,
     * reconnecting it afterwards.
     */
    method DeleteFamilyLink(l: LinkRow)
      requires Valid() && l in links
      modifies this
      ensures Valid()
      ensures links == RemoveKey(old(links), LinkId, l.id)
      ensures var fm := PairedMember(old(users), old(members), l);
        && members == (if fm.Some? then RemoveKey(old(members), MemberId, fm.value.id) else old(members))
        && memberHandlerConnected == (old(memberHandlerConnected) || fm.Some?)
      ensures users == old(users) && memories == old(memories) && likes == old(likes) && codes == old(codes)
      ensures nextId == old(nextId)
      ensures images == old(images) && videos == old(videos) && recordings == old(recordings)
      decreases |members| + |links|
    {
      RemoveKeyShrinks(links, LinkId, l);
      RemoveKeyUnique(links, LinkId, l.id, LinkId);
      RemoveKeyUnique(links, LinkId, l.id, LinkKey);
      links := RemoveKey(links, LinkId, l.id);
      var fm := PairedMember(users, members, l);
      if fm.Some? {
        memberHandlerConnected := false;
        DeleteFamilyMember(fm.value);
        memberHandlerConnected := true;
      }
    }
  }

  /** Deleting a member and then its link are the two halves of one disconnection. */
  lemma PairsAgree(users: seq<User>, members: seq<MemberRow>, links: seq<LinkRow>, m: MemberRow, l: LinkRow)
    requires UniqueBy(users, UserId) && UniqueBy(users, Username)
    requires UniqueBy(members, MemberKey) && UniqueBy(members, MemberId)
    requires m in members && l in links && l.family in UserIds(users)
    requires PairedLink(users, links, m) == Some(l)
    ensures PairedMember(users, members, l) == Some(m)
  {
    var u := UserNamed(users, m.name).value;
    var fu := UserWithId(users, l.family).value;
    UserIdIdentifies(users, u, fu);
    var found := MemberNamed(members, l.patient, fu.username);
    if found.Some? {
      MemberKeyIdentifies(members, m, found.value);
    }
  }

  // ---------------------------------------------------------------------
  // Connect codes

  /** `PatientConnectCode.is_valid`. */
  predicate IsValidCode(c: CodeRow, now: int) {
    now < c.expiresAt
  }

  function Min(a: int, b: int): int { if a < b then a else b }

  function WithoutDashes(s: string): (r: string)
    ensures '-' !in r && |r| <= |s|
    ensures forall i :: 0 <= i < |r| ==> r[i] in s
  {
    if |s| == 0 then ""
    else (if s[0] == '-' then "" else [s[0]]) + WithoutDashes(s[1..])
  }

  /**
   * `generate_code()`, given the random `secrets.token_urlsafe(6)` text:
   * upper-case it, drop its dashes, keep seven characters, and put a dash
   * after the fourth.
   */
  function GenerateCode(token: string): (code: string)
    ensures CountChar(code, '-') == 1
    ensures |code| <= 8
    ensures IsUpperCase(code)
  {
    var raw := WithoutDashes(Upper(token));
    var raw7 := raw[..Min(7, |raw|)];
    var cut := Min(4, |raw7|);
    var code := raw7[..cut] + "-" + raw7[cut..];
    assert raw7[..cut] + "-" + raw7[cut..] == raw7[..cut] + ("-" + raw7[cut..]);
    assert '-' !in raw7[..cut] && '-' !in raw7[cut..];
    CountCharAppend(raw7[..cut], "-" + raw7[cut..], '-');
    CountCharAppend("-", raw7[cut..], '-');
    CountCharAbsent(raw7[..cut], '-');
    CountCharAbsent(raw7[cut..], '-');
    assert forall i :: 0 <= i < |raw7| ==> raw7[i] in Upper(token);
    code
  }

  /** A code made from a token with no whitespace survives `connect_with_code`'s `.strip().upper()`. */
  lemma {:induction false} GeneratedCodeIsNormal(token: string)
    requires forall i :: 0 <= i < |token| ==> !IsSpace(token[i])
    ensures Upper(Trim(GenerateCode(token))) == GenerateCode(token)
  {
    var code := GenerateCode(token);
    assert forall i :: 0 <= i < |Upper(token)| ==> !IsSpace(Upper(token)[i]);
    var raw := WithoutDashes(Upper(token));
    assert forall i :: 0 <= i < |code| ==> !IsSpace(code[i]) by {
      var raw7 := raw[..Min(7, |raw|)];
      var cut := Min(4, |raw7|);
      assert code == raw7[..cut] + "-" + raw7[cut..];
      forall i | 0 <= i < |code| ensures !IsSpace(code[i]) {
        if i < cut {
          assert code[i] == raw7[i] && raw7[i] in Upper(token);
        } else if i > cut {
          assert code[i] == raw7[i - 1] && raw7[i - 1] in Upper(token);
        }
      }
    }
    NoSpaceTrim(code);
    UpperIdempotentOn(code);
  }

  lemma NoSpaceTrim(s: string)
    requires forall i :: 0 <= i < |s| ==> !IsSpace(s[i])
    ensures Trim(s) == s
  {
    assert TrimEnd(s) == s by {
      if |s| > 0 {
        assert !IsSpace(s[|s| - 1]);
      }
    }
    assert TrimStart(s) == s by {
      if |s| > 0 {
        assert !IsSpace(s[0]);
      }
    }
  }

  lemma UpperIdempotentOn(s: string)
    requires IsUpperCase(s)
    ensures Upper(s) == s
  {
  }

  // ---------------------------------------------------------------------
  // String forms

  /** `FamilyMember.__str__`: "name (relation)", or the name alone. */
  function MemberText(m: MemberRow): (r: string)
    ensures StartsWith(r, m.name)
    ensures m.relation == "" <==> r == m.name
    ensures m.relation != "" ==> r == m.name + " (" + m.relation + ")"
  {
    m.name + (if m.relation != "" then " (" + m.relation + ")" else "")
  }

  const PreviewLength: nat := 50

  /** `MemoryComment.__str__`: "username: content", the content cut to 50 characters plus "...". */
  function CommentText(username: string, content: string): (r: string)
    ensures StartsWith(r, username + ": ")
    ensures |content| <= PreviewLength ==> r == username + ": " + content
    ensures |content| > PreviewLength ==>
      |r| == |username| + 2 + PreviewLength + 3
      && r[|username| + 2..] == content[..PreviewLength] + "..."
  {
    var preview := if |content| > PreviewLength then content[..PreviewLength] + "..." else content;
    username + ": " + preview
  }
}
