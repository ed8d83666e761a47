/**
 * A family member's view of one patient's memories: which memories of the
 * fetched list are shown, the name in the header, and the list updates
 * after a create, an edit and a delete.
 */
module PatientMemories {
  import opened Wrappers
  import opened Lists
  import opened MemoryRecord
  import Session

  const LoadFailed: string := "Failed to load memories"
  const LoadNetworkError: string := "Network error. Please try again."
  const DeleteFailed: string := "Failed to delete memory"
  const DeleteError: string := "Error deleting memory"

  // ---------------------------------------------------------------------
  // The patient in the navigation state

  datatype Patient = Patient(name: string, username: string)

  /** `state.patient` and `state.patientName`, "" where absent. */
  datatype NavState = NavState(patient: Option<Patient>, patientName: string)

  /** `state?.patient || { name: "Patient", username: "Unknown" }`. */
  function PatientOf(state: NavState): Patient {
    state.patient.GetOr(Patient("Patient", "Unknown"))
  }

  /** `state?.patientName || patient.name || patient.username || "Patient"`. */
  function PatientName(state: NavState): (r: string)
    ensures r != ""
  {
    var p := PatientOf(state);
    if state.patientName != "" then state.patientName
    else if p.name != "" then p.name
    else if p.username != "" then p.username
    else "Patient"
  }

  /** The first non-empty text of a list, or the last resort. */
  function FirstNonEmpty(texts: seq<string>, last: string): string {
    if |texts| == 0 then last else if texts[0] != "" then texts[0] else FirstNonEmpty(texts[1..], last)
  }

  /**
   * The header name is the first non-empty one of the state's name, the
   * patient's name and the patient's username; without a patient in the
   * state it is the state's name or "Patient".
   */
  lemma PatientNameFallback(state: NavState)
    ensures state.patient.Some? ==>
      PatientName(state) == FirstNonEmpty([state.patientName, state.patient.value.name,
                                           state.patient.value.username], "Patient")
    ensures state.patient.None? ==>
      PatientName(state) == (if state.patientName != "" then state.patientName else "Patient")
  {
    if state.patient.Some? {
      var p := state.patient.value;
      var texts := [state.patientName, p.name, p.username];
      assert texts[1..] == [p.name, p.username];
      assert texts[1..][1..] == [p.username];
      assert texts[1..][1..][1..] == [];
      assert FirstNonEmpty([p.username], "Patient") == if p.username != "" then p.username else "Patient";
      assert FirstNonEmpty([p.name, p.username], "Patient")
        == if p.name != "" then p.name else FirstNonEmpty([p.username], "Patient");
    } else {
      assert PatientOf(state).name == "Patient";
    }
  }

  // ---------------------------------------------------------------------
  // The patient filter

  /** `memory.user === parseInt(patientId) || memory.username === patient.username`; NaN is `None`. */
  predicate Belongs(m: Memory, patientId: Option<int>, username: string) {
    (patientId.Some? && m.user == patientId.value) || m.username == username
  }

  function Shown(data: seq<Memory>, patientId: Option<int>, username: string): seq<Memory> {
    Keep(data, (m: Memory) => Belongs(m, patientId, username))
  }

  /** The shown memories are exactly the patient's, in the server's order. */
  lemma ShownSpec(data: seq<Memory>, patientId: Option<int>, username: string)
    ensures IsSubseq(Shown(data, patientId, username), data)
    ensures forall m :: m in Shown(data, patientId, username) <==> m in data && Belongs(m, patientId, username)
  {
    var p := (m: Memory) => Belongs(m, patientId, username);
    KeepIsSubseq(data, p);
    forall m | m in data && Belongs(m, patientId, username)
      ensures m in Shown(data, patientId, username)
    {
      KeepKeeps(data, p, m);
    }
  }

  // ---------------------------------------------------------------------
  // The page

  datatype ListReply = ListAnswered(status: int, data: seq<Memory>) | ListThrew

  datatype DeleteReply = DeleteAnswered(status: int) | DeleteThrew

  class Page {
    var memories: seq<Memory>
    var loading: bool
    var error: Option<string>
    var showAddModal: bool
    var editing: Option<Memory>

    constructor ()
      ensures memories == [] && loading && error == None && !showAddModal && editing == None
    {
      memories, loading, error, showAddModal, editing := [], true, None, false, None;
    }

    /**
     * `fetchPatientMemories`: without a token, or on a 401, go to /login;
     * an ok answer shows the patient's memories; other failures set the
     * error; loading ends whenever the request was made.
     */
    method Fetch(access: Option<string>, patientId: Option<int>, state: NavState, reply: ListReply)
      returns (route: Option<string>)
      modifies this`memories, this`loading, this`error
      ensures !Session.Truthy(access) ==>
        route == Some("/login") && memories == old(memories) && loading == old(loading) && error == old(error)
      ensures Session.Truthy(access) ==> !loading
      ensures Session.Truthy(access) && reply.ListAnswered? && Session.IsOk(reply.status) ==>
        route == None && error == None && memories == Shown(reply.data, patientId, PatientOf(state).username)
      ensures Session.Truthy(access) && reply.ListAnswered? && !Session.IsOk(reply.status) ==>
        && memories == old(memories)
        && route == (if reply.status == 401 then Some("/login") else None)
        && error == (if reply.status == 401 then None else Some(LoadFailed))
      ensures Session.Truthy(access) && reply.ListThrew? ==>
        route == None && memories == old(memories) && error == Some(LoadNetworkError)
    {
      if !Session.Truthy(access) {
        return Some("/login");
      }
      loading := true;
      error := None;
      route := None;
      match reply {
        case ListAnswered(status, data) =>
          if Session.IsOk(status) {
            memories := Shown(data, patientId, PatientOf(state).username);
          } else if status == 401 {
            route := Some("/login");
          } else {
            error := Some(LoadFailed);
          }
        case ListThrew =>
          error := Some(LoadNetworkError);
      }
      loading := false;
    }

    /** `handleAddMemory`. */
    method StartAdd()
      modifies this`editing, this`showAddModal
      ensures editing == None && showAddModal
    {
      editing := None;
      showAddModal := true;
    }

    /** `handleEditMemory(memory)`. */
    method StartEdit(m: Memory)
      modifies this`editing, this`showAddModal
      ensures editing == Some(m) && showAddModal
    {
      editing := Some(m);
      showAddModal := true;
    }

    /** `handleMemoryCreated`: the new memory goes first and the modal closes. */
    method MemoryCreated(m: Memory)
      modifies this`memories, this`showAddModal, this`editing
      ensures memories == [m] + old(memories) && !showAddModal && editing == None
    {
      memories := [m] + memories;
      showAddModal := false;
      editing := None;
    }

    /** `handleMemoryUpdated`: every entry with the memory's id is replaced, and the modal closes. */
    method MemoryUpdated(m: Memory)
      modifies this`memories, this`showAddModal, this`editing
      ensures memories == ReplaceKey(old(memories), Id, m.id, m) && !showAddModal && editing == None
    {
      memories := ReplaceKey(memories, Id, m.id, m);
      showAddModal := false;
      editing := None;
    }

    /** `handleDeleteMemory`: the entry goes only after an ok answer; a failure alerts and keeps the list. */
    method DeleteMemory(access: Option<string>, memoryId: int, confirmed: bool, reply: DeleteReply)
      returns (alertText: Option<string>)
      modifies this`memories
      ensures !confirmed || !Session.Truthy(access) ==> alertText == None && memories == old(memories)
      ensures confirmed && Session.Truthy(access) ==>
        && (reply.DeleteAnswered? && Session.IsOk(reply.status) ==>
              alertText == None && memories == RemoveKey(old(memories), Id, memoryId))
        && (reply.DeleteAnswered? && !Session.IsOk(reply.status) ==>
              alertText == Some(DeleteFailed) && memories == old(memories))
        && (reply.DeleteThrew? ==> alertText == Some(DeleteError) && memories == old(memories))
    {
      if !confirmed || !Session.Truthy(access) {
        return None;
      }
      match reply {
        case DeleteAnswered(status) =>
          if Session.IsOk(status) {
            memories := RemoveKey(memories, Id, memoryId);
            alertText := None;
          } else {
            alertText := Some(DeleteFailed);
          }
        case DeleteThrew =>
          alertText := Some(DeleteError);
      }
    }
  }

  /** An update keeps the length and the ids, and a memory is updated in place where it is listed. */
  lemma UpdateKeepsIds(memories: seq<Memory>, m: Memory)
    ensures var r := ReplaceKey(memories, Id, m.id, m);
      && |r| == |memories|
      && (forall i :: 0 <= i < |r| ==> r[i].id == memories[i].id)
      && (m in r <==> m in memories || exists i :: 0 <= i < |memories| && memories[i].id == m.id)
  {
    var r := ReplaceKey(memories, Id, m.id, m);
    ReplaceKeepsKeys(memories, Id, m);
    if m in r && m !in memories {
      var i :| 0 <= i < |r| && r[i] == m;
      assert memories[i].id == m.id;
    }
    if exists i :: 0 <= i < |memories| && memories[i].id == m.id {
      var i :| 0 <= i < |memories| && memories[i].id == m.id;
      assert r[i] == m;
    }
    if m in memories {
      var i :| 0 <= i < |memories| && memories[i] == m;
      assert r[i] == m;
    }
  }

  /** Deleting a memory that was just created leaves the list as it was before, less that id. */
  lemma DeleteAfterCreate(memories: seq<Memory>, m: Memory)
    ensures RemoveKey([m] + memories, Id, m.id) == RemoveKey(memories, Id, m.id)
  {
    assert ([m] + memories)[1..] == memories;
  }
}
