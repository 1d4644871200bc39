/**
 * The renderer's session store: the listed sessions, which one is selected,
 * its loaded detail and the last detail error, updated by the actions below.
 * Replacing the list re-selects a listed session (or clears the selection when
 * the list is empty). Upserting and removing keep the selection listed when it
 * was listed; removing the selected session moves the selection to the first
 * remaining one, or clears it.
 */
module SessionStore {
  import opened Wrappers
  import opened Text
  import opened SessionClient

  /** JavaScript truthiness of a `string | null`. */
  predicate Truthy(id: Option<string>) {
    id.Some? && id.value != ""
  }

  /** Some session of `sessions` has the id. */
  predicate Listed(sessions: seq<SessionListItem>, id: string) {
    exists i | 0 <= i < |sessions| :: sessions[i].id == id
  }

  /** The selection `setSessions` leaves: kept while it is listed, else the first session, else none. */
  function SelectionFor(sessions: seq<SessionListItem>, selectedId: Option<string>): (r: Option<string>)
    ensures sessions == [] <==> r.None?
    ensures r.Some? ==> Listed(sessions, r.value)
    ensures Truthy(selectedId) && Listed(sessions, selectedId.value) ==> r == selectedId
    ensures sessions != [] && !(Truthy(selectedId) && Listed(sessions, selectedId.value)) ==> r == Some(sessions[0].id)
  {
    if |sessions| == 0 then None
    else if !Truthy(selectedId) || !Listed(sessions, selectedId.value) then Some(sessions[0].id)
    else selectedId
  }

  /** The detail `setSelectedId(id)` keeps: the current one only when it is for that id. */
  function DetailFor(id: Option<string>, detail: Option<SessionDetail>): (r: Option<SessionDetail>)
    ensures r.Some? <==> Truthy(id) && detail.Some? && detail.value.item.id == id.value
    ensures r.Some? ==> r == detail
  {
    if Truthy(id) && detail.Some? && detail.value.item.id == id.value then detail else None
  }

  /** `sessions.findIndex(item => item.id === id)`: the first index with the id, or -1. */
  function FindIndex(sessions: seq<SessionListItem>, id: string): (r: int)
    ensures -1 <= r < |sessions|
    ensures r == -1 <==> !Listed(sessions, id)
    ensures r >= 0 ==> sessions[r].id == id && forall j | 0 <= j < r :: sessions[j].id != id
    decreases |sessions|
  {
    if sessions == [] then -1
    else if sessions[0].id == id then 0
    else
      var k := FindIndex(sessions[1..], id);
      assert forall j | 1 <= j < |sessions| :: sessions[j] == sessions[1..][j - 1];
      if k == -1 then -1 else k + 1
  }

  /** The list after `upsertSession(session)`. */
  function Upserted(sessions: seq<SessionListItem>, session: SessionListItem): seq<SessionListItem> {
    var k := FindIndex(sessions, session.id);
    if k == -1 then [session] + sessions else sessions[k := session]
  }

  /**
   * An unknown id is put in front and the list grows by one; a known id
   * replaces the first session with that id and nothing else moves.
   */
  lemma UpsertPlacement(sessions: seq<SessionListItem>, session: SessionListItem)
    ensures var r := Upserted(sessions, session);
      && Listed(r, session.id)
      && (!Listed(sessions, session.id) ==> |r| == |sessions| + 1 && r[0] == session && r[1..] == sessions)
      && (Listed(sessions, session.id) ==>
            var k := FindIndex(sessions, session.id);
            && |r| == |sessions| && r[k] == session
            && (forall j | 0 <= j < k :: sessions[j].id != session.id)
            && (forall j | 0 <= j < |r| && j != k :: r[j] == sessions[j]))
  {
    var r := Upserted(sessions, session);
    if !Listed(sessions, session.id) {
      assert r[0].id == session.id;
    } else {
      var k := FindIndex(sessions, session.id);
      assert r[k].id == session.id;
    }
  }

  /** `sessions.filter(session => session.id !== id)`. */
  function Without(sessions: seq<SessionListItem>, id: string): (r: seq<SessionListItem>)
    ensures forall i | 0 <= i < |r| :: r[i].id != id
    ensures forall x :: x in r <==> x in sessions && x.id != id
    ensures IsSubsequence(r, sessions)
    ensures forall x :: multiset(r)[x] == if x.id == id then 0 else multiset(sessions)[x]
    decreases |sessions|
  {
    if sessions == [] then []
    else
      var rest := Without(sessions[1..], id);
      assert sessions == [sessions[0]] + sessions[1..];
      assert forall x :: x in sessions <==> x == sessions[0] || x in sessions[1..];
      if sessions[0].id == id then rest else [sessions[0]] + rest
  }

  /** The selection `removeSession(id)` leaves: moved to the first remaining session only when its session went. */
  function SelectionAfterRemove(remaining: seq<SessionListItem>, selectedId: Option<string>, id: string)
    : (r: Option<string>)
    ensures selectedId != Some(id) ==> r == selectedId
    ensures selectedId == Some(id) && remaining != [] ==> r == Some(remaining[0].id)
    ensures selectedId == Some(id) && remaining == [] ==> r.None?
  {
    if selectedId == Some(id) then (if remaining != [] then Some(remaining[0].id) else None) else selectedId
  }

  /** The store's invariant: nothing is selected, or the selected id is listed. */
  predicate SelectionListed(sessions: seq<SessionListItem>, selectedId: Option<string>) {
    selectedId.None? || Listed(sessions, selectedId.value)
  }

  /** Upserting never unlists a session, so a listed selection stays listed. */
  lemma UpsertKeepsSelectionListed(sessions: seq<SessionListItem>, session: SessionListItem, selectedId: Option<string>)
    requires SelectionListed(sessions, selectedId)
    ensures SelectionListed(Upserted(sessions, session), selectedId)
  {
    UpsertPlacement(sessions, session);
    if selectedId.Some? && selectedId.value != session.id {
      var r := Upserted(sessions, session);
      var i :| 0 <= i < |sessions| && sessions[i].id == selectedId.value;
      if Listed(sessions, session.id) {
        assert r[i] == sessions[i];
      } else {
        assert r[i + 1] == sessions[i];
      }
    }
  }

  /** Removing a session keeps a listed selection listed: the selection moves off the removed id. */
  lemma RemoveKeepsSelectionListed(sessions: seq<SessionListItem>, selectedId: Option<string>, id: string)
    requires SelectionListed(sessions, selectedId)
    ensures var r := Without(sessions, id);
      SelectionListed(r, SelectionAfterRemove(r, selectedId, id))
  {
    var r := Without(sessions, id);
    if selectedId.Some? && selectedId.value != id {
      var i :| 0 <= i < |sessions| && sessions[i].id == selectedId.value;
      assert sessions[i] in r;
    }
  }

  class Store {
    var sessions: seq<SessionListItem>
    var selectedId: Option<string>
    var detail: Option<SessionDetail>
    var detailError: Option<string>

    /** The initial state: nothing listed, selected or loaded. */
    constructor()
      ensures sessions == [] && selectedId.None? && detail.None? && detailError.None?
    {
      sessions := [];
      selectedId := None;
      detail := None;
      detailError := None;
    }

    /** `setSessions(sessions)`: replaces the list and repairs the selection; detail and its error stay. */
    method SetSessions(newSessions: seq<SessionListItem>)
      modifies this
      ensures sessions == newSessions
      ensures selectedId == SelectionFor(newSessions, old(selectedId))
      ensures detail == old(detail) && detailError == old(detailError)
    {
      var selected := selectedId;
      if |newSessions| == 0 {
        selected := None;
      } else if !Truthy(selected) || !Listed(newSessions, selected.value) {
        selected := Some(newSessions[0].id);
      }
      sessions := newSessions;
      selectedId := selected;
    }

    /** `setSelectedId(id)`: selects, keeps the detail only if it is the selected session's, clears the error. */
    method SetSelectedId(id: Option<string>)
      modifies this
      ensures selectedId == id
      ensures detail == DetailFor(id, old(detail))
      ensures detailError.None?
      ensures sessions == old(sessions)
    {
      detail := if Truthy(id) && detail.Some? && detail.value.item.id == id.value then detail else None;
      selectedId := id;
      detailError := None;
    }

    /** `setDetail(detail)`: stores the detail and clears the error. */
    method SetDetail(newDetail: Option<SessionDetail>)
      modifies this
      ensures detail == newDetail && detailError.None?
      ensures sessions == old(sessions) && selectedId == old(selectedId)
    {
      detail := newDetail;
      detailError := None;
    }

    /** `upsertSession(session)`: replaces the session with that id in place, or puts it first. */
    method UpsertSession(session: SessionListItem)
      modifies this
      ensures sessions == Upserted(old(sessions), session)
      ensures selectedId == old(selectedId) && detail == old(detail) && detailError == old(detailError)
    {
      var existingIndex := FindIndex(sessions, session.id);
      if existingIndex == -1 {
        sessions := [session] + sessions;
      } else {
        sessions := sessions[existingIndex := session];
      }
    }

    /**
     * `removeSession(id)`: drops every session with that id; when the
     * selected session goes, the first remaining one is selected and the
     * detail dropped. The error is cleared.
     */
    method RemoveSession(id: string)
      modifies this
      ensures sessions == Without(old(sessions), id)
      ensures selectedId == SelectionAfterRemove(sessions, old(selectedId), id)
      ensures detail == (if old(selectedId) == Some(id) then None else old(detail))
      ensures detailError.None?
    {
      var updated := Without(sessions, id);
      var selected := selectedId;
      var d := detail;
      if selected == Some(id) {
        selected := if |updated| > 0 then Some(updated[0].id) else None;
        d := None;
      }
      sessions := updated;
      selectedId := selected;
      detail := d;
      detailError := None;
    }
  }
}
