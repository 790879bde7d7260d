/**
 * The Kanban board: four stage columns projected from the request list, and
 * a drop that moves a card to another column optimistically and falls back
 * to the list the board was mounted with when saving the move fails.
 */
module KanbanBoard {
  import opened Wrappers
  import opened Sequences
  import opened MaintenanceRequests

  /** `requests.find((r) => r.id === requestId)`: the first request with that id, if there is one. */
  function FindById(requests: seq<Request>, id: string): (found: Option<Request>)
    ensures found.None? <==> forall r :: r in requests ==> r.id != id
    ensures found.Some? ==> exists i :: 0 <= i < |requests| && requests[i] == found.value && found.value.id == id
                                      && forall j :: 0 <= j < i ==> requests[j].id != id
  {
    if requests == [] then None
    else if requests[0].id == id then Some(requests[0])
    else
      var found := FindById(requests[1..], id);
      assert forall r :: r in requests ==> r == requests[0] || r in requests[1..];
      if found.Some? then
        ghost var i :| 0 <= i < |requests[1..]| && requests[1..][i] == found.value
                       && forall j :: 0 <= j < i ==> requests[1..][j].id != id;
        assert forall j :: 1 <= j < i + 1 ==> requests[j].id == requests[1..][j - 1].id;
        assert requests[i + 1] == found.value && found.value.id == id
               && forall j :: 0 <= j < i + 1 ==> requests[j].id != id;
        found
      else found
  }

  /**
   * `STAGES.reduce((acc, stage) => { acc[stage] = requests.filter(...); return acc }, {})`
   * run over `stages`: one column per stage, holding that stage's requests.
   */
  function GroupByStage(stages: seq<string>, requests: seq<Request>): (columns: map<string, seq<Request>>)
    ensures columns.Keys == set s | s in stages
    ensures forall s :: s in columns ==> columns[s] == WithStage(requests, s)
  {
    if stages == [] then map[]
    else
      var last := stages[|stages| - 1];
      var columns := GroupByStage(stages[..|stages| - 1], requests);
      assert forall s :: s in stages <==> s in stages[..|stages| - 1] || s == last;
      columns[last := WithStage(requests, last)]
  }

  /** `groupedRequests`: the board's four columns. */
  function Columns(requests: seq<Request>): map<string, seq<Request>> {
    GroupByStage(Stages, requests)
  }

  /**
   * Every request whose stage is one of the four stages is in the column of
   * its stage and in no other; a request with any other stage is in no
   * column; and the columns together with the unrecognised requests account
   * for the whole list.
   */
  lemma ColumnsPartitionRequests(requests: seq<Request>)
    ensures Columns(requests).Keys == {NewStage, InProgressStage, RepairedStage, ScrapStage}
    ensures forall r :: r in requests && r.stage in Stages ==> r in Columns(requests)[r.stage]
    ensures forall r, s :: s in Columns(requests) && r in Columns(requests)[s] ==> r in requests && r.stage == s
    ensures |Columns(requests)[NewStage]| + |Columns(requests)[InProgressStage]|
          + |Columns(requests)[RepairedStage]| + |Columns(requests)[ScrapStage]|
          + |Unstaged(requests)| == |requests|
  {
    StagesPartitionRequests(requests);
  }

  /** One card of the optimistic update: the dropped card gets the new stage, others are left alone. */
  function Restaged(r: Request, id: string, newStage: string): Request {
    if r.id == id then r.(stage := newStage) else r
  }

  /** `requests.map((r) => (r.id === requestId ? { ...r, stage: newStage } : r))`. */
  function MoveToStage(requests: seq<Request>, id: string, newStage: string): seq<Request> {
    if requests == [] then []
    else [Restaged(requests[0], id, newStage)] + MoveToStage(requests[1..], id, newStage)
  }

  /**
   * The optimistic update keeps the list's length and order; each record
   * with the dropped id takes the new stage and keeps every other field, and
   * every other record is unchanged.
   */
  lemma {:induction false} MoveToStageChangesOnlyDroppedCard(requests: seq<Request>, id: string, newStage: string)
    ensures |MoveToStage(requests, id, newStage)| == |requests|
    ensures forall i :: 0 <= i < |requests| ==>
              MoveToStage(requests, id, newStage)[i]
                == if requests[i].id == id then requests[i].(stage := newStage) else requests[i]
  {
    if requests != [] {
      MoveToStageChangesOnlyDroppedCard(requests[1..], id, newStage);
      var moved := MoveToStage(requests, id, newStage);
      forall i | 1 <= i < |requests|
        ensures moved[i] == if requests[i].id == id then requests[i].(stage := newStage) else requests[i]
      {
        assert moved[i] == MoveToStage(requests[1..], id, newStage)[i - 1];
        assert requests[1..][i - 1] == requests[i];
      }
    }
  }

  /**
   * Dropping a card onto the column it is already in gives back an equal
   * list (the board has no same-stage shortcut, so it still saves the move).
   */
  lemma {:induction false} SameStageDropKeepsList(requests: seq<Request>, id: string, newStage: string)
    requires forall r :: r in requests && r.id == id ==> r.stage == newStage
    ensures MoveToStage(requests, id, newStage) == requests
  {
    if requests != [] {
      assert forall r :: r in requests[1..] ==> r in requests;
      SameStageDropKeepsList(requests[1..], id, newStage);
      assert [requests[0]] + requests[1..] == requests;
    }
  }

  /** The requests other than those with the given id. */
  function WithoutId(requests: seq<Request>, id: string): (rest: seq<Request>)
    ensures forall r :: r in rest <==> r in requests && r.id != id
  {
    Filter(requests, (r: Request) => r.id != id)
  }

  /**
   * After a drop onto `newStage`, every other column holds exactly what it
   * held before minus the dropped card, in the same order.
   */
  lemma {:induction false} DropLeavesOtherColumns(requests: seq<Request>, id: string, newStage: string, other: string)
    requires other != newStage
    ensures WithStage(MoveToStage(requests, id, newStage), other) == WithoutId(WithStage(requests, other), id)
  {
    if requests != [] {
      var head, tail := requests[0], requests[1..];
      DropLeavesOtherColumns(tail, id, newStage, other);
      var moved := MoveToStage(requests, id, newStage);
      assert moved == [Restaged(head, id, newStage)] + MoveToStage(tail, id, newStage);
      assert WithStage(moved, other)
          == (if Restaged(head, id, newStage).stage == other then [head] else [])
             + WithStage(MoveToStage(tail, id, newStage), other);
      var column := WithStage(tail, other);
      if head.stage == other {
        assert WithStage(requests, other) == [head] + column;
        assert ([head] + column)[1..] == column;
        assert WithoutId([head] + column, id) == (if head.id != id then [head] else []) + WithoutId(column, id);
      } else {
        assert WithStage(requests, other) == column;
      }
    }
  }

  /** After a drop onto `newStage`, the dropped card, with its new stage, is in the `newStage` column. */
  lemma DroppedCardInNewColumn(requests: seq<Request>, id: string, newStage: string)
    ensures forall r :: r in requests && r.id == id ==> r.(stage := newStage) in WithStage(MoveToStage(requests, id, newStage), newStage)
  {
    MoveToStageChangesOnlyDroppedCard(requests, id, newStage);
    var moved := MoveToStage(requests, id, newStage);
    forall r | r in requests && r.id == id
      ensures r.(stage := newStage) in WithStage(moved, newStage)
    {
      var i :| 0 <= i < |requests| && requests[i] == r;
      assert moved[i] == r.(stage := newStage);
    }
  }

  /** The record the board sends to the database: `update({ stage: newStage }).eq("id", requestId)`. */
  datatype StageUpdate = StageUpdate(id: string, stage: string)

  /** What the database answered to the update. */
  datatype Outcome = Saved | Failed(error: string)

  /** The board component's state: the list it shows and the list it was mounted with. */
  class Board {
    var requests: seq<Request>
    const initialRequests: seq<Request>

    constructor (initialRequests: seq<Request>)
      ensures this.initialRequests == initialRequests
      ensures requests == initialRequests
    {
      this.initialRequests := initialRequests;
      requests := initialRequests;
    }

    /** `groupedRequests` over the list on display. */
    function GroupedRequests(): (columns: map<string, seq<Request>>)
      reads this
      ensures columns == Columns(requests)
    {
      Columns(requests)
    }

    /**
     * `handleDrop`: a card with id `requestId` was dropped on the `newStage`
     * column, and saving the move had the given `outcome`.  An unknown id
     * changes nothing and sends nothing.  Otherwise the stage update is
     * always sent; the list shows the move, unless saving failed, in which
     * case it goes back to the list the board was mounted with, discarding
     * every earlier move as well.
     */
    method HandleDrop(requestId: string, newStage: string, outcome: Outcome) returns (update: Option<StageUpdate>)
      modifies this
      ensures update.None? <==> forall r :: r in old(requests) ==> r.id != requestId
      ensures update.None? ==> requests == old(requests)
      ensures update.Some? ==> update.value == StageUpdate(requestId, newStage)
      ensures update.Some? && outcome.Saved? ==> requests == MoveToStage(old(requests), requestId, newStage)
      ensures update.Some? && outcome.Failed? ==> requests == initialRequests
    {
      var requestToMove := FindById(requests, requestId);
      if requestToMove.None? {
        return None;
      }
      requests := MoveToStage(requests, requestId, newStage);
      update := Some(StageUpdate(requestId, newStage));
      if outcome.Failed? {
        requests := initialRequests;
      }
    }
  }

  /** A pump leak moved from New to In Progress, then a failed second move that reverts both. */
  method PumpLeakScenario() {
    var pump := Request("r1", "Pump leak", NewStage, map["type" := "Corrective", "equipment" := "Pump-1"]);
    var fan := Request("r2", "Fan noise", NewStage, map[]);
    var board := new Board([pump, fan]);
    var update := board.HandleDrop("r1", InProgressStage, Saved);
    assert update == Some(StageUpdate("r1", InProgressStage));
    MoveToStageChangesOnlyDroppedCard([pump, fan], "r1", InProgressStage);
    assert board.requests == [pump.(stage := InProgressStage), fan];
    DroppedCardInNewColumn([pump, fan], "r1", InProgressStage);
    assert pump.(stage := InProgressStage) in WithStage(board.requests, InProgressStage);
    assert pump !in WithStage(board.requests, NewStage);
    update := board.HandleDrop("r2", ScrapStage, Failed("network"));
    assert board.requests == [pump, fan];
  }
}
