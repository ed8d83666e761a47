/**
 * The patient's Memories page: the optimistic like toggle, the delete with
 * a snapshot restore, the list update after the add/edit modal, the
 * search-and-filter view and the tag options.
 */
module MemoriesPage {
  import opened Wrappers
  import opened Text
  import opened Lists
  import opened MemoryRecord
  import Session

  // ---------------------------------------------------------------------
  // The liked set

  /** `next.has(id) ? next.delete(id) : next.add(id)`. */
  function Flip(liked: set<int>, id: int): (r: set<int>)
    ensures id in r <==> id !in liked
    ensures forall x :: x != id ==> (x in r <==> x in liked)
  {
    if id in liked then liked - {id} else liked + {id}
  }

  /** Flipping twice gives the set back. */
  lemma FlipTwice(liked: set<int>, id: int)
    ensures Flip(Flip(liked, id), id) == liked
  {
  }

  /** A request the page sends itself, with the stored access token as bearer. */
  datatype BearerRequest = BearerRequest(url: string, verb: string, authorization: string)

  function MemoryUrl(id: int): string {
    Session.ApiBase + "/api/memories/" + IntText(id) + "/"
  }

  function LikeUrl(id: int): string {
    Session.ApiBase + "/api/memories/" + IntText(id) + "/like/"
  }

  /** A fetch that rejects is coerced to `{ ok: true }`, so only a non-ok status reverts. */
  datatype LikeReply = LikeAnswered(status: int) | LikeRejected

  predicate KeepsLike(reply: LikeReply) {
    reply.LikeRejected? || Session.IsOk(reply.status)
  }

  // ---------------------------------------------------------------------
  // Filtering

  /** The page's filter controls; "" is the unselected tag. */
  datatype Filters = Filters(search: string, tag: string, date: string, people: string, event: string)

  const Defaults: Filters := Filters("", "", "All Dates", "All People", "All Events")

  predicate SomePersonMatches(people: seq<string>, needle: string) {
    exists i :: 0 <= i < |people| && Contains(Lower(people[i]), Lower(needle))
  }

  /** The five conditions of `filteredMemories`, all of which must hold. */
  predicate Matches(f: Filters, m: Memory) {
    && (Contains(Lower(m.title), Lower(f.search)) || Contains(Lower(m.description), Lower(f.search)))
    && (f.tag == "" || m.tag == f.tag)
    && (f.date == "All Dates" || Contains(m.date, f.date))
    && (f.people == "All People" || SomePersonMatches(m.people, f.people))
    && (f.event == "All Events" || m.tag == f.event)
  }

  function Filtered(memories: seq<Memory>, f: Filters): (r: seq<Memory>)
    ensures forall i :: 0 <= i < |r| ==> Matches(f, r[i])
  {
    Keep(memories, (m: Memory) => Matches(f, m))
  }

  /** The view is an order-preserving subsequence that drops only non-matching memories. */
  lemma FilteredSubsequence(memories: seq<Memory>, f: Filters)
    ensures IsSubseq(Filtered(memories, f), memories)
    ensures forall m :: m in memories && Matches(f, m) ==> m in Filtered(memories, f)
  {
    var p := (m: Memory) => Matches(f, m);
    KeepIsSubseq(memories, p);
    forall m | m in memories && Matches(f, m)
      ensures m in Filtered(memories, f)
    {
      KeepKeeps(memories, p, m);
    }
  }

  /** With every control at its default, the view is the whole list. */
  lemma {:induction false} DefaultsShowAll(memories: seq<Memory>)
    ensures Filtered(memories, Defaults) == memories
  {
    forall i | 0 <= i < |memories|
      ensures Matches(Defaults, memories[i])
    {
      ContainsEmpty(Lower(memories[i].title));
    }
    KeepAll(memories, (m: Memory) => Matches(Defaults, m));
  }

  // ---------------------------------------------------------------------
  // Tag options

  function Tags(memories: seq<Memory>): (r: seq<string>)
    ensures |r| == |memories| && forall i :: 0 <= i < |r| ==> r[i] == memories[i].tag
  {
    seq(|memories|, i requires 0 <= i < |memories| => memories[i].tag)
  }

  /** `[...new Set(memories.map(m => m.tag).filter(Boolean))]`. */
  function UniqueTags(memories: seq<Memory>): seq<string> {
    Dedup(Keep(Tags(memories), (t: string) => t != ""))
  }

  /** Each non-empty tag of some memory is listed exactly once. */
  lemma UniqueTagsSpec(memories: seq<Memory>)
    ensures var u := UniqueTags(memories);
      && Distinct(u)
      && (forall t :: t in u <==> t != "" && t in Tags(memories))
  {
    var p := (t: string) => t != "";
    var tags := Tags(memories);
    var kept := Keep(tags, p);
    DedupSpec(kept);
    forall t | t != "" && t in tags
      ensures t in kept
    {
      KeepKeeps(tags, p, t);
    }
  }

  /** The tags are listed in the order of their first appearance. */
  lemma UniqueTagsOrder(memories: seq<Memory>)
    ensures var u := UniqueTags(memories);
      forall i, j :: 0 <= i < j < |u| ==>
        && u[i] in Tags(memories) && u[j] in Tags(memories)
        && FirstIndex(Tags(memories), u[i]) < FirstIndex(Tags(memories), u[j])
  {
    var p := (t: string) => t != "";
    var tags := Tags(memories);
    var kept := Keep(tags, p);
    var u := UniqueTags(memories);
    DedupSpec(kept);
    forall i, j | 0 <= i < j < |u|
      ensures u[i] in tags && u[j] in tags && FirstIndex(tags, u[i]) < FirstIndex(tags, u[j])
    {
      assert u[i] in kept && u[j] in kept;
      if FirstIndex(tags, u[j]) < FirstIndex(tags, u[i]) {
        KeepFirstIndexOrder(tags, u[j], u[i]);
        assert false;
      }
    }
  }

  /** Keeping the non-empty tags does not change the first-seen order of the others. */
  lemma KeepFirstIndexOrder(s: seq<string>, x: string, y: string)
    requires x != "" && y != "" && x in s && y in s
    requires FirstIndex(s, x) < FirstIndex(s, y)
    ensures var k := Keep(s, (t: string) => t != "");
      x in k && y in k && FirstIndex(k, x) < FirstIndex(k, y)
    decreases |s|
  {
    var p := (t: string) => t != "";
    KeepKeeps(s, p, x);
    KeepKeeps(s, p, y);
    if s[0] != x {
      assert s[0] != y;
      KeepFirstIndexOrder(s[1..], x, y);
    }
  }

  // ---------------------------------------------------------------------
  // The page

  const DeleteFailed: string := "Failed to delete. Please try again."
  const DeleteNetworkError: string := "Network error. Please try again."
  const NotAuthenticated: string := "Not authenticated"

  /** The answer to `DELETE /api/memories/{id}/`. */
  datatype DeleteReply = DeleteAnswered(status: int) | DeleteRejected

  class Page {
    var memories: seq<Memory>
    var liked: set<int>
    var editing: Option<Memory>
    var addOpen: bool
    var activeSidebar: string

    constructor ()
      ensures memories == [] && liked == {} && editing == None && !addOpen && activeSidebar == "all"
    {
      memories, liked, editing, addOpen, activeSidebar := [], {}, None, false, "all";
    }

    /**
     * `toggleLike(id)`: flip the id in the liked set at once and send POST
     * (like) or DELETE (unlike); a non-ok answer puts the set back exactly.
     */
    method ToggleLike(access: Option<string>, id: int, reply: LikeReply) returns (sent: Option<BearerRequest>)
      modifies this
      ensures !Session.Truthy(access) ==> sent == None && liked == old(liked)
      ensures Session.Truthy(access) ==>
        && sent == Some(BearerRequest(LikeUrl(id), if id in old(liked) then "DELETE" else "POST",
                                    Session.Bearer(access.value)))
        && liked == (if KeepsLike(reply) then Flip(old(liked), id) else old(liked))
      ensures memories == old(memories) && editing == old(editing)
        && addOpen == old(addOpen) && activeSidebar == old(activeSidebar)
    {
      if !Session.Truthy(access) {
        return None;
      }
      var wasLiked := id in liked;
      var next := liked;
      if wasLiked {
        next := next - {id};
      } else {
        next := next + {id};
      }
      liked := next;
      sent := Some(BearerRequest(LikeUrl(id), if wasLiked then "DELETE" else "POST", Session.Bearer(access.value)));
      if !KeepsLike(reply) {
        if wasLiked {
          next := next + {id};
        } else {
          next := next - {id};
        }
        liked := next;
      }
    }

    /**
     * `handleDelete(memory)`: after the confirmation, drop every entry with
     * that id at once and send the DELETE; anything but 204 puts the
     * previous list back.
     */
    method Delete(access: Option<string>, memory: Memory, confirmed: bool, reply: DeleteReply)
      returns (alertText: Option<string>, sent: Option<BearerRequest>)
      modifies this
      ensures !Session.Truthy(access) ==>
        alertText == Some(NotAuthenticated) && memories == old(memories) && sent == None
      ensures Session.Truthy(access) && !confirmed ==> alertText == None && memories == old(memories) && sent == None
      ensures Session.Truthy(access) && confirmed ==>
        && sent == Some(BearerRequest(MemoryUrl(memory.id), "DELETE", Session.Bearer(access.value)))
        && (reply == DeleteAnswered(204) ==> alertText == None && memories == RemoveKey(old(memories), Id, memory.id))
        && (reply.DeleteAnswered? && reply.status != 204 ==> alertText == Some(DeleteFailed) && memories == old(memories))
        && (reply.DeleteRejected? ==> alertText == Some(DeleteNetworkError) && memories == old(memories))
      ensures liked == old(liked) && editing == old(editing)
        && addOpen == old(addOpen) && activeSidebar == old(activeSidebar)
    {
      if !Session.Truthy(access) {
        return Some(NotAuthenticated), None;
      }
      if !confirmed {
        return None, None;
      }
      var prev := memories;
      memories := RemoveKey(memories, Id, memory.id);
      sent := Some(BearerRequest(MemoryUrl(memory.id), "DELETE", Session.Bearer(access.value)));
      alertText := None;
      match reply {
        case DeleteAnswered(status) =>
          if status != 204 {
            memories := prev;
            alertText := Some(DeleteFailed);
          }
        case DeleteRejected =>
          memories := prev;
          alertText := Some(DeleteNetworkError);
      }
    }

    /**
     * `handleMemoryCreated(m)`: an edit replaces the entry with the edited
     * id, a creation goes first; the modal closes either way.
     */
    method MemoryCreated(m: Memory)
      modifies this
      ensures old(editing).Some? ==>
        memories == ReplaceKey(old(memories), Id, old(editing).value.id, WithFormattedImage(m))
      ensures old(editing).None? ==> memories == [WithFormattedImage(m)] + old(memories)
      ensures editing == None && !addOpen && activeSidebar == "all" && liked == old(liked)
    {
      var shown := WithFormattedImage(m);
      if editing.Some? {
        memories := ReplaceKey(memories, Id, editing.value.id, shown);
        editing := None;
      } else {
        memories := [shown] + memories;
      }
      addOpen := false;
      activeSidebar := "all";
    }
  }

  /** An edit keeps the length, and replaces only the edited entries. */
  lemma EditKeepsOthers(memories: seq<Memory>, editedId: int, m: Memory)
    ensures var r := ReplaceKey(memories, Id, editedId, WithFormattedImage(m));
      |r| == |memories|
      && (forall i :: 0 <= i < |r| && memories[i].id != editedId ==> r[i] == memories[i])
      && (forall i :: 0 <= i < |r| && memories[i].id == editedId ==> r[i] == WithFormattedImage(m))
  {
  }
}
