/**
 * The backend views that decide who may act on whose data and that change
 * the tables: the role predicates, the approved-link rule, the
 * memory-create target, likes, the connect-code lifecycle, memory
 * navigation and the bulk media operations.
 *
 * The request's user is a row of `db.users` (every view demands an
 * authenticated user).  Uploads to the media host are an outcome per file.
 */
module Views {
  import opened Wrappers
  import opened Text
  import opened Lists
  import opened Models

  // ---------------------------------------------------------------------
  // Roles and access

  /** `getattr(user, "role", "patient") == "patient"`. */
  predicate IsPatient(u: User) {
    u.role.GetOr("patient") == "patient"
  }

  /** `getattr(user, "role", "family") == "family"`. */
  predicate IsFamily(u: User) {
    u.role.GetOr("family") == "family"
  }

  /** A user without a role attribute counts as both; one with a role is at most one of them. */
  lemma RolesOverlapOnlyWithoutRole(u: User)
    ensures IsPatient(u) && IsFamily(u) <==> u.role.None?
    ensures u.role.Some? ==> (IsPatient(u) <==> u.role.value == "patient")
    ensures u.role.Some? ==> (IsFamily(u) <==> u.role.value == "family")
  {
  }

  /** `can_access_patient_data`: an APPROVED link from the patient to the family user exists. */
  predicate CanAccessPatientData(links: seq<LinkRow>, familyUser: int, patient: int) {
    exists l :: l in links && l.family == familyUser && l.patient == patient && l.status == Approved
  }

  /** The patients linked to the family user by an APPROVED link. */
  function ApprovedPatients(links: seq<LinkRow>, familyUser: int): (r: set<int>)
    ensures forall p :: p in r <==> CanAccessPatientData(links, familyUser, p)
  {
    set l | l in links && l.family == familyUser && l.status == Approved :: l.patient
  }

  /** What a memory lookup of a view ends in. */
  datatype Access = Found(memory: MemoryRow) | NotFound | Forbidden

  /** `Memory.objects.get(id=id, user__in=owners)` (ids are unique, so the first hit). */
  function FindMemory(memories: seq<MemoryRow>, id: int, owners: set<int>): (r: Option<MemoryRow>)
    ensures r.Some? ==> r.value in memories && r.value.id == id && r.value.user in owners
    ensures r.None? ==> forall m :: m in memories && m.id == id ==> m.user !in owners
  {
    if |memories| == 0 then None
    else if memories[0].id == id && memories[0].user in owners then Some(memories[0])
    else FindMemory(memories[1..], id, owners)
  }

  /**
   * The access check at the head of the like, bulk-add and bulk-delete
   * views: a patient reaches its own memories, a family user those of the
   * patients it is APPROVED for, anyone else is refused.
   */
  function AccessibleMemory(memories: seq<MemoryRow>, links: seq<LinkRow>, u: User, id: int): (r: Access)
    ensures r.Forbidden? <==> !IsPatient(u) && !IsFamily(u)
    ensures r.Found? ==>
      && r.memory in memories && r.memory.id == id
      && (if IsPatient(u) then r.memory.user == u.id
          else CanAccessPatientData(links, u.id, r.memory.user))
    ensures r.NotFound? ==> forall m :: m in memories && m.id == id ==>
      if IsPatient(u) then m.user != u.id else !CanAccessPatientData(links, u.id, m.user)
  {
    if IsPatient(u) then
      match FindMemory(memories, id, {u.id})
      case Some(m) => Found(m)
      case None => NotFound
    else if IsFamily(u) then
      match FindMemory(memories, id, ApprovedPatients(links, u.id))
      case Some(m) => Found(m)
      case None => NotFound
    else Forbidden
  }

  // ---------------------------------------------------------------------
  // Creating a memory: whose memory it becomes

  datatype Target = Target(owner: int) | Refused(status: int, error: string)

  const NeedPatientId: string := "Family members must specify patient_id when creating memories"
  const NoPermission: string := "You don't have permission to create memories for this patient"
  const PatientNotFound: string := "Patient not found"
  const OnlyPatientsAndFamily: string := "Only patients and family members can create memories"

  /** The owner of a memory created by `u`; `patientId` is None when the field is missing or empty. */
  function CreateTarget(users: seq<User>, links: seq<LinkRow>, u: User, patientId: Option<int>): (r: Target)
    ensures r.Target? <==>
      IsPatient(u) || (IsFamily(u) && patientId.Some? && CanAccessPatientData(links, u.id, patientId.value)
                       && patientId.value in UserIds(users))
    ensures r.Target? && IsPatient(u) ==> r.owner == u.id
    ensures r.Target? && !IsPatient(u) ==> r.owner == patientId.value
    ensures r.Refused? ==> r.status in {400, 403, 404}
    ensures r == Refused(400, NeedPatientId) <==> !IsPatient(u) && IsFamily(u) && patientId.None?
  {
    if IsPatient(u) then Target(u.id)
    else if IsFamily(u) then
      if patientId.None? then Refused(400, NeedPatientId)
      else if !CanAccessPatientData(links, u.id, patientId.value) then Refused(403, NoPermission)
      else match UserWithId(users, patientId.value)
        case None => Refused(404, PatientNotFound)
        case Some(p) => Target(p.id)
    else Refused(403, OnlyPatientsAndFamily)
  }

  /** The link check comes first, so with intact foreign keys "Patient not found" cannot happen. */
  lemma PatientNotFoundUnreachable(users: seq<User>, links: seq<LinkRow>, u: User, patientId: Option<int>)
    requires LinksOk(links, UserIds(users))
    ensures CreateTarget(users, links, u, patientId).Refused? ==>
      CreateTarget(users, links, u, patientId).status != 404
  {
  }

  // ---------------------------------------------------------------------
  // Likes

  datatype Verb = Post | Delete

  datatype LikeAnswer = LikeDenied(status: int, error: string) | LikeDone(status: int, message: string, liked: bool)

  const PermissionDenied: string := "Permission denied"
  const MemoryNotFound: string := "Memory not found"

  /** `MemoryLike.objects.filter(memory=m, user=u).first()`. */
  function LikeOf(likes: seq<LikeRow>, memory: int, user: int): (r: Option<LikeRow>)
    ensures r.Some? ==> r.value in likes && LikeKey(r.value) == (memory, user)
    ensures r.None? ==> forall l :: l in likes ==> LikeKey(l) != (memory, user)
  {
    if |likes| == 0 then None
    else if LikeKey(likes[0]) == (memory, user) then Some(likes[0])
    else LikeOf(likes[1..], memory, user)
  }

  predicate HasLike(likes: seq<LikeRow>, memory: int, user: int) {
    exists l :: l in likes && LikeKey(l) == (memory, user)
  }

  /** With (memory, user) unique, removing the like by its id removes every like with its key. */
  lemma RemoveLikeClears(likes: seq<LikeRow>, l: LikeRow)
    requires UniqueBy(likes, LikeId) && UniqueBy(likes, LikeKey) && l in likes
    ensures !HasLike(RemoveKey(likes, LikeId, l.id), l.memory, l.user)
    ensures forall x :: x in likes && LikeKey(x) != LikeKey(l) ==> x in RemoveKey(likes, LikeId, l.id)
  {
    var r := RemoveKey(likes, LikeId, l.id);
    var i :| 0 <= i < |likes| && likes[i] == l;
    forall x | x in r
      ensures LikeKey(x) != LikeKey(l)
    {
      var j :| 0 <= j < |likes| && likes[j] == x;
      assert LikeKey(likes[i]) == LikeKey(likes[j]) ==> i == j;
    }
    forall x | x in likes && LikeKey(x) != LikeKey(l)
      ensures x in r
    {
      assert x.id != l.id;
    }
  }

  /**
   * `toggle_memory_like`: after the access check, `get_or_create` the
   * user's like; POST answers 201 for a new like and 200 for an old one,
   * DELETE deletes it (so a DELETE with no like creates one and deletes it
   * again, and "Not liked" is never answered).
   */
  method ToggleLike(db: Db, u: User, memoryId: int, verb: Verb) returns (answer: LikeAnswer)
    requires db.Valid() && u in db.users
    modifies db`likes, db`nextId
    ensures db.Valid()
    ensures var access := AccessibleMemory(db.memories, db.links, u, memoryId);
      && (access.Forbidden? ==> answer == LikeDenied(403, PermissionDenied) && db.likes == old(db.likes))
      && (access.NotFound? ==> answer == LikeDenied(404, MemoryNotFound) && db.likes == old(db.likes))
      && (access.Found? ==>
            var m := access.memory;
            var existing := LikeOf(old(db.likes), m.id, u.id);
            && (verb == Post ==>
                  && HasLike(db.likes, m.id, u.id)
                  && answer == (if existing.Some? then LikeDone(200, "Already liked", true)
                                else LikeDone(201, "Memory liked", true))
                  && db.likes == (if existing.Some? then old(db.likes)
                                  else old(db.likes) + [LikeRow(old(db.nextId), m.id, u.id)]))
            && (verb == Delete ==>
                  && !HasLike(db.likes, m.id, u.id)
                  && answer == LikeDone(200, "Memory unliked", false)
                  && db.likes == (if existing.Some? then RemoveKey(old(db.likes), LikeId, existing.value.id)
                                  else old(db.likes))))
    ensures forall l :: l in old(db.likes) && LikeKey(l) != (memoryId, u.id) ==> l in db.likes
    ensures forall l :: l in db.likes && LikeKey(l) != (memoryId, u.id) ==> l in old(db.likes)
    ensures db.nextId >= old(db.nextId)
  {
    var access := AccessibleMemory(db.memories, db.links, u, memoryId);
    if access.Forbidden? {
      return LikeDenied(403, PermissionDenied);
    }
    if access.NotFound? {
      return LikeDenied(404, MemoryNotFound);
    }
    var m := access.memory;
    // get_or_create
    var like: LikeRow;
    var created: bool;
    var found := LikeOf(db.likes, m.id, u.id);
    if found.Some? {
      like, created := found.value, false;
    } else {
      like, created := LikeRow(db.nextId, m.id, u.id), true;
      db.InsertLike(like);
    }
    assert like in db.likes && LikeKey(like) == (m.id, u.id);
    if verb == Post {
      if !created {
        return LikeDone(200, "Already liked", true);
      }
      return LikeDone(201, "Memory liked", true);
    }
    RemoveLikeClears(db.likes, like);
    db.DeleteLike(like);
    if created {
      RemoveAppended(old(db.likes), like);
    }
    return LikeDone(200, "Memory unliked", false);
  }

  /** Dropping the id of the last row removes exactly that row, when no other row has it. */
  lemma {:induction false} RemoveAppended(s: seq<LikeRow>, x: LikeRow)
    requires forall l :: l in s ==> l.id != x.id
    ensures RemoveKey(s + [x], LikeId, x.id) == s
    decreases |s|
  {
    if |s| == 0 {
      assert [x][1..] == [];
    } else {
      assert (s + [x])[1..] == s[1..] + [x];
      RemoveAppended(s[1..], x);
      assert RemoveKey(s + [x], LikeId, x.id) == [s[0]] + RemoveKey(s[1..] + [x], LikeId, x.id);
      assert s == [s[0]] + s[1..];
    }
  }

  // ---------------------------------------------------------------------
  // Connect codes

  /** Thirty minutes, in microseconds. */
  const CodeLifetime: int := 30 * 60 * 1000000

  const OnlyPatientsGenerate: string := "Only patients can generate a code."
  const OnlyFamilyConnects: string := "Only family members can connect with a code."
  const CodeRequired: string := "Code is required."
  const InvalidCode: string := "Invalid or expired code."

  /** The first code row that satisfies `p`, or none. */
  function FirstCode(codes: seq<CodeRow>, p: CodeRow -> bool): (r: Option<CodeRow>)
    ensures r.Some? ==> r.value in codes && p(r.value)
    ensures r.None? ==> forall c :: c in codes ==> !p(c)
  {
    if |codes| == 0 then None
    else if p(codes[0]) then Some(codes[0])
    else FirstCode(codes[1..], p)
  }

  /** `getattr(user, "connect_code", None)`. */
  function CodeOf(codes: seq<CodeRow>, patient: int): (r: Option<CodeRow>)
    ensures r.Some? ==> r.value in codes && r.value.patient == patient
    ensures r.None? ==> forall c :: c in codes ==> c.patient != patient
  {
    FirstCode(codes, (c: CodeRow) => c.patient == patient)
  }

  /** `PatientConnectCode.objects.filter(code=code).first()`. */
  function CodeNamed(codes: seq<CodeRow>, code: string): (r: Option<CodeRow>)
    ensures r.Some? ==> r.value in codes && r.value.code == code
    ensures r.None? ==> forall c :: c in codes ==> c.code != code
  {
    FirstCode(codes, (c: CodeRow) => c.code == code)
  }

  /** `(code or "").strip().upper()`. */
  function NormalizeCode(code: string): (r: string)
    ensures IsUpperCase(r)
    ensures r == "" <==> IsBlank(code)
  {
    TrimBlank(code);
    Upper(Trim(code))
  }

  /** Whether saving `code` for `patient` would break the uniqueness of codes. */
  predicate CodeTaken(codes: seq<CodeRow>, patient: int, code: string) {
    exists c :: c in codes && c.code == code && c.patient != patient
  }

  /** What `create_connect_code` answers; `CodeClash` is the unique-constraint failure of the save. */
  datatype CodeAnswer = CodeRefused(status: int, detail: string) | CodeClash | CodeIssued(row: CodeRow)

  /**
   * `create_connect_code`: a patient's one code row gets a new code from
   * `token` (the random text) and expires thirty minutes from `now`.
   */
  method CreateConnectCode(db: Db, u: User, token: string, now: int) returns (answer: CodeAnswer)
    requires db.Valid() && u in db.users
    modifies db`codes, db`nextId
    ensures db.Valid()
    ensures !IsPatient(u) ==> answer == CodeRefused(403, OnlyPatientsGenerate) && db.codes == old(db.codes)
    ensures IsPatient(u) && CodeTaken(old(db.codes), u.id, GenerateCode(token)) ==>
      answer == CodeClash && db.codes == old(db.codes)
    ensures IsPatient(u) && !CodeTaken(old(db.codes), u.id, GenerateCode(token)) ==>
      && answer == CodeIssued(Issued(old(db.codes), u.id, GenerateCode(token), now + CodeLifetime, old(db.nextId)))
      && db.codes == Reissued(old(db.codes), answer.row)
      && CodeOf(db.codes, u.id) == Some(answer.row)
  {
    if !IsPatient(u) {
      return CodeRefused(403, OnlyPatientsGenerate);
    }
    assert u.id in UserIds(db.users);
    answer := SaveConnectCode(db, u.id, GenerateCode(token), now + CodeLifetime);
  }

  /** The row the save writes: the patient's existing row with the new code, or a new row. */
  function Issued(codes: seq<CodeRow>, patient: int, code: string, expiresAt: int, nextId: int): (r: CodeRow)
    ensures r.patient == patient && r.code == code && r.expiresAt == expiresAt
    ensures CodeOf(codes, patient).Some? ==> r.id == CodeOf(codes, patient).value.id
    ensures CodeOf(codes, patient).None? ==> r.id == nextId
  {
    match CodeOf(codes, patient)
    case Some(c) => c.(code := code, expiresAt := expiresAt)
    case None => CodeRow(nextId, patient, code, expiresAt)
  }

  /** The code table after the save: the patient's row is replaced, or the new row appended. */
  function Reissued(codes: seq<CodeRow>, row: CodeRow): seq<CodeRow> {
    match CodeOf(codes, row.patient)
    case Some(c) => ReplaceKey(codes, CodeId, c.id, row)
    case None => codes + [row]
  }

  /**
   * `code_obj.code = ...; code_obj.expires_at = ...; code_obj.save()`: a
   * code equal to another patient's makes the save fail on the unique
   * constraint, and nothing is saved.
   */
  method SaveConnectCode(db: Db, patient: int, code: string, expiresAt: int) returns (answer: CodeAnswer)
    requires db.Valid() && patient in UserIds(db.users)
    modifies db`codes, db`nextId
    ensures db.Valid()
    ensures CodeTaken(old(db.codes), patient, code) ==> answer == CodeClash && db.codes == old(db.codes)
    ensures !CodeTaken(old(db.codes), patient, code) ==>
      && answer == CodeIssued(Issued(old(db.codes), patient, code, expiresAt, old(db.nextId)))
      && db.codes == Reissued(old(db.codes), answer.row)
      && CodeOf(db.codes, patient) == Some(answer.row)
  {
    if CodeTaken(db.codes, patient, code) {
      return CodeClash;
    }
    var row := Issued(db.codes, patient, code, expiresAt, db.nextId);
    if CodeOf(db.codes, patient).Some? {
      db.SaveCode(row);
    } else {
      db.InsertCode(row);
    }
    PatientCodeIsFound(db.codes, row);
    return CodeIssued(row);
  }

  /** A save leaves every other patient's row as it was. */
  lemma ReissuedSparesOthers(codes: seq<CodeRow>, row: CodeRow)
    requires UniqueBy(codes, CodeId)
    ensures forall c :: c in codes && c.patient != row.patient ==> c in Reissued(codes, row)
    ensures forall c :: c in Reissued(codes, row) && c.patient != row.patient ==> c in codes
  {
    match CodeOf(codes, row.patient)
    case None =>
    case Some(x) =>
      var r := ReplaceKey(codes, CodeId, x.id, row);
      forall c | c in codes && c.patient != row.patient
        ensures c in r
      {
        var i :| 0 <= i < |codes| && codes[i] == c;
        var k :| 0 <= k < |codes| && codes[k] == x;
        assert CodeId(codes[i]) == CodeId(codes[k]) ==> i == k;
        assert r[i] == c;
      }
  }

  lemma PatientCodeIsFound(codes: seq<CodeRow>, row: CodeRow)
    requires UniqueBy(codes, CodePatient) && row in codes
    ensures CodeOf(codes, row.patient) == Some(row)
  {
    var c := CodeOf(codes, row.patient).value;
    var i :| 0 <= i < |codes| && codes[i] == c;
    var j :| 0 <= j < |codes| && codes[j] == row;
    assert CodePatient(codes[i]) == CodePatient(codes[j]);
  }

  /** What `connect_with_code` answers. */
  datatype ConnectAnswer = ConnectDenied(status: int, detail: string) | ConnectDone(patient: int)

  /** The link table after the link `get_or_create` and the upgrade to APPROVED. */
  function LinkedUp(links: seq<LinkRow>, patient: int, family: int, nextId: int): seq<LinkRow> {
    match LinkBetween(links, patient, family)
    case None => links + [LinkRow(nextId, patient, family, "", Approved)]
    case Some(l) => if l.status == Approved then links else ReplaceKey(links, LinkId, l.id, l.(status := Approved))
  }

  /** The member table after the member `get_or_create`. */
  function MemberAdded(members: seq<MemberRow>, patient: int, name: string, nextId: int): seq<MemberRow> {
    match MemberNamed(members, patient, name)
    case None => members + [MemberRow(nextId, patient, name, DefaultRelation)]
    case Some(_) => members
  }

  /** The checks of `connect_with_code` before anything is written. */
  datatype CodeCheck = CodeDenied(status: int, detail: string) | CodeAccepted(row: CodeRow)

  /** A family user, a non-blank code, and a row with that code that has not expired. */
  function CheckCode(codes: seq<CodeRow>, u: User, code: string, now: int): (r: CodeCheck)
    ensures !IsFamily(u) ==> r == CodeDenied(403, OnlyFamilyConnects)
    ensures IsFamily(u) && NormalizeCode(code) == "" ==> r == CodeDenied(400, CodeRequired)
    ensures IsFamily(u) && NormalizeCode(code) != "" && r.CodeDenied? ==> r == CodeDenied(400, InvalidCode)
    ensures r.CodeAccepted? <==>
      && IsFamily(u) && NormalizeCode(code) != ""
      && CodeNamed(codes, NormalizeCode(code)).Some?
      && IsValidCode(CodeNamed(codes, NormalizeCode(code)).value, now)
    ensures r.CodeAccepted? ==> r.row == CodeNamed(codes, NormalizeCode(code)).value
  {
    if !IsFamily(u) then CodeDenied(403, OnlyFamilyConnects)
    else
      var normal := NormalizeCode(code);
      if normal == "" then CodeDenied(400, CodeRequired)
      else match CodeNamed(codes, normal)
        case None => CodeDenied(400, InvalidCode)
        case Some(c) => if IsValidCode(c, now) then CodeAccepted(c) else CodeDenied(400, InvalidCode)
  }

  /**
   * `connect_with_code`: a family user hands in a patient's code; a valid
   * code yields an APPROVED link and a FamilyMember row named after the
   * user (each created only if missing), and the code is used up.
   */
  method ConnectWithCode(db: Db, u: User, code: string, now: int) returns (answer: ConnectAnswer)
    requires db.Valid() && u in db.users
    modifies db`links, db`members, db`codes, db`nextId
    ensures db.Valid()
    ensures var check := CheckCode(old(db.codes), u, code, now);
      && (check.CodeDenied? ==>
            && answer == ConnectDenied(check.status, check.detail)
            && db.links == old(db.links) && db.members == old(db.members) && db.codes == old(db.codes))
      && (check.CodeAccepted? ==>
            var p := check.row.patient;
            var linkCreated := LinkBetween(old(db.links), p, u.id).None?;
            && answer == ConnectDone(p)
            && db.links == LinkedUp(old(db.links), p, u.id, old(db.nextId))
            && db.members == MemberAdded(old(db.members), p, u.username, old(db.nextId) + if linkCreated then 1 else 0)
            && db.codes == RemoveKey(old(db.codes), CodeId, check.row.id))
  {
    var check := CheckCode(db.codes, u, code, now);
    if check.CodeDenied? {
      return ConnectDenied(check.status, check.detail);
    }
    assert u.id in UserIds(db.users);
    UseCode(db, check.row, u.id, u.username);
    return ConnectDone(check.row.patient);
  }

  /** The writes of a successful connect: link, member, and the code's deletion. */
  method UseCode(db: Db, c: CodeRow, family: int, name: string)
    requires db.Valid() && c in db.codes && family in UserIds(db.users)
    modifies db`links, db`members, db`codes, db`nextId
    ensures db.Valid()
    ensures db.links == LinkedUp(old(db.links), c.patient, family, old(db.nextId))
    ensures db.members == MemberAdded(old(db.members), c.patient, name,
                                      old(db.nextId) + if LinkBetween(old(db.links), c.patient, family).None? then 1 else 0)
    ensures db.codes == RemoveKey(old(db.codes), CodeId, c.id)
  {
    ApproveLink(db, c.patient, family);
    AddMember(db, c.patient, name);
    // One-time use.
    db.DeleteCode(c);
  }

  /** After a connect the family user may read the patient's data, finds the member, and the code is gone. */
  lemma ConnectOutcome(users: seq<User>, links: seq<LinkRow>, members: seq<MemberRow>, codes: seq<CodeRow>,
                       c: CodeRow, family: int, name: string, nextId: int)
    requires LinksOk(links, UserIds(users)) && UniqueBy(codes, CodeText) && c in codes
    requires c.patient in UserIds(users) && family in UserIds(users)
    requires forall l :: l in links ==> l.id < nextId
    ensures var after := LinkedUp(links, c.patient, family, nextId);
      && LinkBetween(after, c.patient, family).Some?
      && LinkBetween(after, c.patient, family).value.status == Approved
      && CanAccessPatientData(after, family, c.patient)
    ensures MemberNamed(MemberAdded(members, c.patient, name, nextId), c.patient, name).Some?
    ensures CodeNamed(RemoveKey(codes, CodeId, c.id), c.code).None?
  {
    CodeUsedUp(codes, c);
    var after := LinkedUp(links, c.patient, family, nextId);
    match LinkBetween(links, c.patient, family)
    case None =>
      var l := LinkRow(nextId, c.patient, family, "", Approved);
      UniqueByAppend(links, LinkKey, l);
      LinkIsFound(after, l);
    case Some(x) =>
      var l := x.(status := Approved);
      if x.status == Approved {
        LinkIsFound(after, x);
      } else {
        var k :| 0 <= k < |links| && links[k] == x;
        forall i | 0 <= i < |links| && links[i].id == x.id
          ensures LinkKey(links[i]) == LinkKey(l)
        {
          assert LinkId(links[i]) == LinkId(links[k]);
        }
        ReplaceKeyUnique(links, LinkId, x.id, l, LinkKey);
        assert after[k] == l;
        LinkIsFound(after, l);
      }
    var m := MemberAdded(members, c.patient, name, nextId);
    if MemberNamed(members, c.patient, name).None? {
      assert MemberRow(nextId, c.patient, name, DefaultRelation) in m;
    }
  }

  /** The link `get_or_create` with APPROVED as default, then the upgrade of an existing link. */
  method ApproveLink(db: Db, patient: int, family: int)
    requires db.Valid() && patient in UserIds(db.users) && family in UserIds(db.users)
    modifies db`links, db`nextId
    ensures db.Valid()
    ensures db.links == LinkedUp(old(db.links), patient, family, old(db.nextId))
    ensures db.nextId == old(db.nextId) + if LinkBetween(old(db.links), patient, family).None? then 1 else 0
    ensures LinkBetween(db.links, patient, family).Some?
    ensures LinkBetween(db.links, patient, family).value.status == Approved
  {
    var link := LinkBetween(db.links, patient, family);
    if link.None? {
      var l := LinkRow(db.nextId, patient, family, "", Approved);
      db.InsertLink(l);
      LinkIsFound(db.links, l);
    } else if link.value.status != Approved {
      var l := link.value.(status := Approved);
      db.SaveLink(l);
      LinkIsFound(db.links, l);
    } else {
      LinkIsFound(db.links, link.value);
    }
  }

  /** The FamilyMember `get_or_create` with the default relation. */
  method AddMember(db: Db, patient: int, name: string)
    requires db.Valid() && patient in UserIds(db.users)
    modifies db`members, db`nextId
    ensures db.Valid()
    ensures db.members == MemberAdded(old(db.members), patient, name, old(db.nextId))
    ensures db.nextId >= old(db.nextId)
    ensures MemberNamed(db.members, patient, name).Some?
  {
    if MemberNamed(db.members, patient, name).None? {
      var m := MemberRow(db.nextId, patient, name, DefaultRelation);
      db.InsertMember(m);
      assert m in db.members;
    }
  }

  lemma LinkIsFound(links: seq<LinkRow>, l: LinkRow)
    requires UniqueBy(links, LinkKey) && l in links
    ensures LinkBetween(links, l.patient, l.family) == Some(l)
  {
    var x := LinkBetween(links, l.patient, l.family).value;
    var i :| 0 <= i < |links| && links[i] == x;
    var j :| 0 <= j < |links| && links[j] == l;
    assert LinkKey(links[i]) == LinkKey(links[j]);
  }

  /** With codes unique, deleting a code's row leaves no row with that code. */
  lemma CodeUsedUp(codes: seq<CodeRow>, c: CodeRow)
    requires UniqueBy(codes, CodeText) && c in codes
    ensures CodeNamed(RemoveKey(codes, CodeId, c.id), c.code).None?
  {
    var r := RemoveKey(codes, CodeId, c.id);
    var i :| 0 <= i < |codes| && codes[i] == c;
    forall x | x in r
      ensures x.code != c.code
    {
      var j :| 0 <= j < |codes| && codes[j] == x;
      assert CodeText(codes[i]) == CodeText(codes[j]) ==> i == j;
    }
  }

  /** A code works once: a second connect with the same text is refused. */
  lemma SecondConnectRefused(codes: seq<CodeRow>, code: string, now: int)
    requires UniqueBy(codes, CodeText)
    requires CodeNamed(codes, NormalizeCode(code)).Some?
    ensures CodeNamed(RemoveKey(codes, CodeId, CodeNamed(codes, NormalizeCode(code)).value.id), NormalizeCode(code)).None?
  {
    CodeUsedUp(codes, CodeNamed(codes, NormalizeCode(code)).value);
  }

  // ---------------------------------------------------------------------
  // Navigation

  datatype Navigation = Navigation(position: int, total: int, previous: Option<int>, next: Option<int>)

  /** `memory_ids.index(memory_id) if memory_id in memory_ids else -1`. */
  function IndexOf(ids: seq<int>, id: int): (k: int)
    ensures -1 <= k < |ids|
    ensures k == -1 <==> id !in ids
    ensures k >= 0 ==> ids[k] == id && forall j :: 0 <= j < k ==> ids[j] != id
  {
    if id in ids then FirstIndex(ids, id) else -1
  }

  /**
   * `get_memory_navigation`, given the ids of the memories the user can
   * see, newest first: the neighbours of `id` in that order.
   */
  function Navigate(ids: seq<int>, id: int): (r: Navigation)
    ensures r.total == |ids|
    ensures r.position == IndexOf(ids, id) + 1
    ensures 0 <= r.position <= r.total
    ensures r.previous.Some? <==> IndexOf(ids, id) > 0
    ensures r.next.Some? <==> id in ids && IndexOf(ids, id) < |ids| - 1
    ensures r.previous.Some? ==> r.previous.value == ids[IndexOf(ids, id) - 1]
    ensures r.next.Some? ==> r.next.value == ids[IndexOf(ids, id) + 1]
  {
    var k := IndexOf(ids, id);
    var prev := if k > 0 then Some(ids[k - 1]) else None;
    var next := if k < |ids| - 1 && k != -1 then Some(ids[k + 1]) else None;
    Navigation(k + 1, |ids|, prev, next)
  }

  /** Stepping forward then back returns to the same memory, when ids are distinct. */
  lemma NavigateNextThenPrevious(ids: seq<int>, id: int)
    requires Distinct(ids) && Navigate(ids, id).next.Some?
    ensures Navigate(ids, Navigate(ids, id).next.value).previous == Some(id)
    ensures Navigate(ids, Navigate(ids, id).next.value).position == Navigate(ids, id).position + 1
  {
    var k := IndexOf(ids, id);
    var n := ids[k + 1];
    assert IndexOf(ids, n) == k + 1;
  }

  /** A missing id sits at position 0 with no neighbours. */
  lemma NavigateMissing(ids: seq<int>, id: int)
    requires id !in ids
    ensures Navigate(ids, id) == Navigation(0, |ids|, None, None)
  {
  }

  // ---------------------------------------------------------------------
  // Bulk media

  /** What happens to one uploaded file: the host refuses it, the serializer rejects it, or it is stored. */
  datatype FileOutcome = UploadFailed(error: string) | Invalid(errors: string) | Stored(url: string)

  function Noun(k: MediaKind): string {
    match k
    case Images => "Image"
    case Videos => "Video"
    case Recordings => "Recording"
  }

  /** How an error entry names the file at position `i` (0-based): "Image 1", "Video 2". */
  function FileLabel(k: MediaKind, i: nat): string {
    Noun(k) + " " + IntText(i + 1)
  }

  /** The error entry of the file at position `i` (0-based), if it failed. */
  function ErrorLine(k: MediaKind, i: nat, f: FileOutcome): Option<string> {
    match f
    case UploadFailed(e) => Some(FileLabel(k, i) + " upload failed: " + e)
    case Invalid(errors) => Some(FileLabel(k, i) + ": " + errors)
    case Stored(_) => None
  }

  /** The error entries of the first `n` files, in order. */
  function ErrorLines(k: MediaKind, files: seq<FileOutcome>, n: nat): seq<string>
    requires n <= |files|
  {
    if n == 0 then []
    else ErrorLines(k, files, n - 1) + (match ErrorLine(k, n - 1, files[n - 1]) case None => [] case Some(e) => [e])
  }

  /**
   * The rows saved for the first `n` files: ids handed out from `base` in
   * order, `order` the file's index.
   */
  function StoredRows(files: seq<FileOutcome>, memory: int, base: int, n: nat): seq<MediaRow>
    requires n <= |files|
  {
    if n == 0 then []
    else
      var prev := StoredRows(files, memory, base, n - 1);
      match files[n - 1]
      case Stored(url) => prev + [MediaRow(base + |prev|, memory, url, n - 1)]
      case _ => prev
  }

  /** Every file ends in exactly one saved row or one error entry, and no file stops the others. */
  lemma {:induction false} EachFileAccounted(k: MediaKind, files: seq<FileOutcome>, memory: int, base: int, n: nat)
    requires n <= |files|
    ensures |StoredRows(files, memory, base, n)| + |ErrorLines(k, files, n)| == n
  {
    if n > 0 {
      EachFileAccounted(k, files, memory, base, n - 1);
    }
  }

  /** Saved rows carry their file's url, their index as `order`, the memory, and consecutive ids, in file order. */
  lemma {:induction false} StoredRowsShape(files: seq<FileOutcome>, memory: int, base: int, n: nat)
    requires n <= |files|
    ensures forall j :: 0 <= j < |StoredRows(files, memory, base, n)| ==> RowOfFile(files, memory, base, n, j)
    ensures forall i, j :: 0 <= i < j < |StoredRows(files, memory, base, n)| ==>
      StoredRows(files, memory, base, n)[i].order < StoredRows(files, memory, base, n)[j].order
  {
    if n > 0 {
      StoredRowsShape(files, memory, base, n - 1);
      var prev := StoredRows(files, memory, base, n - 1);
      var rows := StoredRows(files, memory, base, n);
      forall j | 0 <= j < |rows|
        ensures RowOfFile(files, memory, base, n, j)
      {
        if j < |prev| {
          assert RowOfFile(files, memory, base, n - 1, j);
          assert rows[j] == prev[j];
        }
      }
      forall i, j | 0 <= i < j < |rows|
        ensures rows[i].order < rows[j].order
      {
        assert RowOfFile(files, memory, base, n - 1, i);
        assert rows[i] == prev[i];
        if j < |prev| {
          assert rows[j] == prev[j];
        }
      }
    }
  }

  /** Row `j` of the first `n` files' rows: the file it came from is stored with its url. */
  predicate RowOfFile(files: seq<FileOutcome>, memory: int, base: int, n: nat, j: nat)
    requires n <= |files| && j < |StoredRows(files, memory, base, n)|
  {
    var row := StoredRows(files, memory, base, n)[j];
    && 0 <= row.order < n
    && files[row.order] == Stored(row.url)
    && row.memory == memory && row.id == base + j
  }

  /** Every stored file has its row. */
  lemma {:induction false} StoredFilesSaved(files: seq<FileOutcome>, memory: int, base: int, n: nat, i: nat)
    requires n <= |files| && i < n && files[i].Stored?
    ensures exists j ::
      && 0 <= j < |StoredRows(files, memory, base, n)|
      && StoredRows(files, memory, base, n)[j].order == i
  {
    var rows := StoredRows(files, memory, base, n);
    if i == n - 1 {
      assert rows[|rows| - 1].order == i;
    } else {
      StoredFilesSaved(files, memory, base, n - 1, i);
      var prev := StoredRows(files, memory, base, n - 1);
      var j :| 0 <= j < |prev| && prev[j].order == i;
      assert rows[j] == prev[j];
    }
  }

  /** The response of `bulk_add_memory_media`. */
  datatype BulkAdded = BulkAdded(images: seq<MediaRow>, videos: seq<MediaRow>, audio: seq<MediaRow>, errors: seq<string>)

  /** The rows one file adds: its row if it was stored. */
  function SavedRow(f: FileOutcome, memory: int, id: int, i: nat): seq<MediaRow> {
    if f.Stored? then [MediaRow(id, memory, f.url, i)] else []
  }

  function ErrorEntry(k: MediaKind, i: nat, f: FileOutcome): seq<string> {
    match ErrorLine(k, i, f) case None => [] case Some(e) => [e]
  }

  /** One more file extends the saved rows and the error entries by that file's share. */
  lemma FileStep(k: MediaKind, files: seq<FileOutcome>, memory: int, base: int, i: nat)
    requires i < |files|
    ensures StoredRows(files, memory, base, i + 1)
      == StoredRows(files, memory, base, i) + SavedRow(files[i], memory, base + |StoredRows(files, memory, base, i)|, i)
    ensures ErrorLines(k, files, i + 1) == ErrorLines(k, files, i) + ErrorEntry(k, i, files[i])
  {
  }

  /** The loop over one kind of file: save each stored file's row, collect the failures. */
  method SaveFiles(db: Db, k: MediaKind, memory: int, files: seq<FileOutcome>)
    returns (rows: seq<MediaRow>, errors: seq<string>)
    modifies db`images, db`videos, db`recordings, db`nextId
    ensures rows == StoredRows(files, memory, old(db.nextId), |files|)
    ensures errors == ErrorLines(k, files, |files|)
    ensures db.images == if k == Images then old(db.images) + rows else old(db.images)
    ensures db.videos == if k == Videos then old(db.videos) + rows else old(db.videos)
    ensures db.recordings == if k == Recordings then old(db.recordings) + rows else old(db.recordings)
    ensures db.nextId == old(db.nextId) + |rows|
  {
    rows, errors := [], [];
    var i := 0;
    while i < |files|
      invariant 0 <= i <= |files|
      invariant rows == StoredRows(files, memory, old(db.nextId), i)
      invariant errors == ErrorLines(k, files, i)
      invariant db.images == if k == Images then old(db.images) + rows else old(db.images)
      invariant db.videos == if k == Videos then old(db.videos) + rows else old(db.videos)
      invariant db.recordings == if k == Recordings then old(db.recordings) + rows else old(db.recordings)
      invariant db.nextId == old(db.nextId) + |rows|
    {
      FileStep(k, files, memory, old(db.nextId), i);
      match files[i] {
        case Stored(url) =>
          var r := MediaRow(db.nextId, memory, url, i);
          assert rows + [r] == StoredRows(files, memory, old(db.nextId), i + 1);
          db.AppendMedia(k, r);
          AppendAssoc(old(db.Media(k)), rows, [r]);
          rows := rows + [r];
        case UploadFailed(e) =>
          errors := errors + [FileLabel(k, i) + " upload failed: " + e];
        case Invalid(es) =>
          errors := errors + [FileLabel(k, i) + ": " + es];
      }
      i := i + 1;
    }
  }

  /** The files of one kind, for a memory that exists: the saved rows keep the schema's constraints. */
  method StoreFiles(db: Db, k: MediaKind, memory: int, files: seq<FileOutcome>)
    returns (rows: seq<MediaRow>, errors: seq<string>)
    requires db.Valid() && memory in MemoryIds(db.memories)
    modifies db`images, db`videos, db`recordings, db`nextId
    ensures db.Valid()
    ensures rows == StoredRows(files, memory, old(db.nextId), |files|)
    ensures errors == ErrorLines(k, files, |files|)
    ensures db.images == if k == Images then old(db.images) + rows else old(db.images)
    ensures db.videos == if k == Videos then old(db.videos) + rows else old(db.videos)
    ensures db.recordings == if k == Recordings then old(db.recordings) + rows else old(db.recordings)
    ensures db.nextId == old(db.nextId) + |rows|
  {
    rows, errors := SaveFiles(db, k, memory, files);
    StoredRowsShape(files, memory, old(db.nextId), |files|);
    forall j | 0 <= j < |rows|
      ensures rows[j].id == old(db.nextId) + j && rows[j].memory in MemoryIds(db.memories)
    {
      assert RowOfFile(files, memory, old(db.nextId), |files|, j);
    }
    MediaRowsOk(old(db.Media(k)), rows, MemoryIds(db.memories), old(db.nextId));
  }

  /**
   * The response of `bulk_add_memory_media` after the access check, with
   * ids handed out from `base`: images first, then videos, each file on its
   * own; `audio` stays empty.
   */
  function Added(images: seq<FileOutcome>, videos: seq<FileOutcome>, memory: int, base: int): BulkAdded {
    var imageRows := StoredRows(images, memory, base, |images|);
    var videoRows := StoredRows(videos, memory, base + |imageRows|, |videos|);
    BulkAdded(imageRows, videoRows, [], ErrorLines(Images, images, |images|) + ErrorLines(Videos, videos, |videos|))
  }

  /** The two upload loops of a bulk add, for a memory the caller may reach. */
  method AddMedia(db: Db, memory: int, images: seq<FileOutcome>, videos: seq<FileOutcome>) returns (added: BulkAdded, ghost videoBase: int)
    requires db.Valid() && memory in MemoryIds(db.memories)
    modifies db`images, db`videos, db`recordings, db`nextId
    ensures db.Valid()
    ensures added.images == StoredRows(images, memory, old(db.nextId), |images|)
    ensures videoBase == old(db.nextId) + |added.images|
    ensures added.videos == StoredRows(videos, memory, videoBase, |videos|)
    ensures added.audio == [] && added.errors == ErrorLines(Images, images, |images|) + ErrorLines(Videos, videos, |videos|)
    ensures db.images == old(db.images) + added.images && db.videos == old(db.videos) + added.videos
    ensures db.recordings == old(db.recordings)
  {
    var imageRows, imageErrors := StoreFiles(db, Images, memory, images);
    videoBase := db.nextId;
    var videoRows, videoErrors := StoreFiles(db, Videos, memory, videos);
    added := BulkAdded(imageRows, videoRows, [], imageErrors + videoErrors);
  }

  method BulkAdd(db: Db, u: User, memoryId: int, images: seq<FileOutcome>, videos: seq<FileOutcome>)
    returns (status: int, result: Option<BulkAdded>)
    requires db.Valid() && u in db.users
    modifies db`images, db`videos, db`recordings, db`nextId
    ensures db.Valid()
    ensures db.recordings == old(db.recordings)
    ensures var access := AccessibleMemory(db.memories, db.links, u, memoryId);
      && (!access.Found? ==>
            && status == (if access.Forbidden? then 403 else 404) && result == None
            && db.images == old(db.images) && db.videos == old(db.videos))
      && (access.Found? ==>
            var added := Added(images, videos, access.memory.id, old(db.nextId));
            && status == 201 && result == Some(added)
            && db.images == old(db.images) + added.images
            && db.videos == old(db.videos) + added.videos)
  {
    var access := AccessibleMemory(db.memories, db.links, u, memoryId);
    if access.Forbidden? {
      return 403, None;
    }
    if access.NotFound? {
      return 404, None;
    }
    var added, _ := AddMedia(db, access.memory.id, images, videos);
    return 201, Some(added);
  }

  /** `filter(id__in=ids, memory=memory)`. */
  function Doomed(ids: set<int>, memory: int): MediaRow -> bool {
    (x: MediaRow) => x.id in ids && x.memory == memory
  }

  function Survives(ids: set<int>, memory: int): MediaRow -> bool {
    (x: MediaRow) => !(x.id in ids && x.memory == memory)
  }

  /** The rows the delete selects. */
  function Selected(rows: seq<MediaRow>, ids: set<int>, memory: int): (r: seq<MediaRow>)
    ensures forall x :: x in r ==> x in rows && x.id in ids && x.memory == memory
  {
    Keep(rows, Doomed(ids, memory))
  }

  /** The rows left after the delete. */
  function Purged(rows: seq<MediaRow>, ids: set<int>, memory: int): (r: seq<MediaRow>)
    ensures IsSubseq(r, rows)
    ensures forall x :: x in r ==> x in rows && !(x.id in ids && x.memory == memory)
    ensures forall x :: x in rows && !(x.id in ids && x.memory == memory) ==> x in r
  {
    var p := Survives(ids, memory);
    KeepIsSubseq(rows, p);
    forall x | x in rows && p(x)
      ensures x in Keep(rows, p)
    {
      KeepKeeps(rows, p, x);
    }
    Keep(rows, p)
  }

  /** Deletion splits the table: the count reported plus the rows left is the rows before. */
  lemma {:induction false} PurgeCounts(rows: seq<MediaRow>, ids: set<int>, memory: int)
    ensures |Selected(rows, ids, memory)| + |Purged(rows, ids, memory)| == |rows|
    decreases |rows|
  {
    if |rows| > 0 {
      PurgeCounts(rows[1..], ids, memory);
    }
  }

  /** An empty id list selects nothing and deletes nothing. */
  lemma PurgeNothing(rows: seq<MediaRow>, memory: int)
    ensures Purged(rows, {}, memory) == rows && |Selected(rows, {}, memory)| == 0
  {
    KeepAll(rows, Survives({}, memory));
    KeepNone(rows, Doomed({}, memory));
  }

  datatype Deleted = Deleted(images: int, videos: int, recordings: int)

  /** `if ids: ... .delete()` on one media table: the number of rows deleted. */
  method DeleteListed(db: Db, k: MediaKind, ids: set<int>, memory: int) returns (count: int)
    requires db.Valid()
    modifies db`images, db`videos, db`recordings
    ensures db.Valid()
    ensures count == |Selected(old(db.Media(k)), ids, memory)|
    ensures db.images == if k == Images then Purged(old(db.images), ids, memory) else old(db.images)
    ensures db.videos == if k == Videos then Purged(old(db.videos), ids, memory) else old(db.videos)
    ensures db.recordings == if k == Recordings then Purged(old(db.recordings), ids, memory) else old(db.recordings)
  {
    if ids == {} {
      PurgeNothing(db.Media(k), memory);
      return 0;
    }
    count := |Selected(db.Media(k), ids, memory)|;
    db.FilterMedia(k, Survives(ids, memory));
  }

  /**
   * `bulk_delete_memory_media`: after the access check, delete the listed
   * ids of each kind that belong to this memory and report how many went.
   */
  method BulkDelete(db: Db, u: User, memoryId: int, imageIds: set<int>, videoIds: set<int>, recordingIds: set<int>)
    returns (status: int, deleted: Option<Deleted>)
    requires db.Valid() && u in db.users
    modifies db`images, db`videos, db`recordings
    ensures db.Valid()
    ensures var access := AccessibleMemory(db.memories, db.links, u, memoryId);
      && (!access.Found? ==>
            && status == (if access.Forbidden? then 403 else 404) && deleted == None
            && db.images == old(db.images) && db.videos == old(db.videos) && db.recordings == old(db.recordings))
      && (access.Found? ==>
            var m := access.memory.id;
            && status == 200
            && db.images == Purged(old(db.images), imageIds, m)
            && db.videos == Purged(old(db.videos), videoIds, m)
            && db.recordings == Purged(old(db.recordings), recordingIds, m)
            && deleted == Some(Deleted(|Selected(old(db.images), imageIds, m)|,
                                       |Selected(old(db.videos), videoIds, m)|,
                                       |Selected(old(db.recordings), recordingIds, m)|)))
  {
    var access := AccessibleMemory(db.memories, db.links, u, memoryId);
    if access.Forbidden? {
      return 403, None;
    }
    if access.NotFound? {
      return 404, None;
    }
    var m := access.memory.id;
    var images := DeleteListed(db, Images, imageIds, m);
    var videos := DeleteListed(db, Videos, videoIds, m);
    var recordings := DeleteListed(db, Recordings, recordingIds, m);
    return 200, Some(Deleted(images, videos, recordings));
  }

  /** A bulk delete touches no media of other memories. */
  lemma PurgeSparesOthers(rows: seq<MediaRow>, ids: set<int>, memory: int)
    ensures forall x :: x in rows && x.memory != memory ==> x in Purged(rows, ids, memory)
  {
  }
}
