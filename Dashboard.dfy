/** The dashboard's counters over the loaded maintenance requests. */
module Dashboard {
  import opened Wrappers
  import opened Sequences
  import opened MaintenanceRequests
  import KanbanBoard

  /** `stats`: the request total and the New, In Progress and Repaired ("Completed") counts. */
  datatype Stats = Stats(total: nat, newCount: nat, inProgress: nat, repaired: nat)

  /**
   * `stats`, from the query result, which is `None` when the query returned
   * no data (`requests?.length || 0` is then 0).
   */
  function DashboardStats(requests: Option<seq<Request>>): (stats: Stats)
    ensures requests.None? ==> stats == Stats(0, 0, 0, 0)
    ensures requests.Some? ==> stats.total == |requests.value|
  {
    match requests
    case None => Stats(0, 0, 0, 0)
    case Some(rs) =>
      Stats(|rs|, |WithStage(rs, NewStage)|, |WithStage(rs, InProgressStage)|, |WithStage(rs, RepairedStage)|)
  }

  /** The positions in the list of the requests in `stage`. */
  function PositionsInStage(requests: seq<Request>, stage: string): set<int> {
    set i | 0 <= i < |requests| && requests[i].stage == stage
  }

  /** Appending a request adds its position to its stage's positions and to no other. */
  lemma PositionsAfterAppend(front: seq<Request>, last: Request, stage: string)
    ensures PositionsInStage(front + [last], stage)
         == PositionsInStage(front, stage) + (if last.stage == stage then {|front|} else {})
    ensures |front| !in PositionsInStage(front, stage)
  {
    var all := front + [last];
    forall i | 0 <= i < |front| ensures all[i] == front[i] { }
  }

  /** The size of a stage filter is the number of positions holding a request of that stage. */
  lemma {:induction false} StageFilterCountsPositions(requests: seq<Request>, stage: string)
    ensures |WithStage(requests, stage)| == |PositionsInStage(requests, stage)|
    decreases |requests|
  {
    if requests != [] {
      var front, last := requests[..|requests| - 1], requests[|requests| - 1];
      assert requests == front + [last];
      StageFilterCountsPositions(front, stage);
      FilterConcat(front, [last], (r: Request) => r.stage == stage);
      PositionsAfterAppend(front, last, stage);
    }
  }

  /**
   * Each counter is the number of requests whose stage is exactly its
   * stage, and none exceeds the total.
   */
  lemma CountersCountStages(requests: seq<Request>)
    ensures DashboardStats(Some(requests)).newCount == |PositionsInStage(requests, NewStage)|
    ensures DashboardStats(Some(requests)).inProgress == |PositionsInStage(requests, InProgressStage)|
    ensures DashboardStats(Some(requests)).repaired == |PositionsInStage(requests, RepairedStage)|
    ensures var stats := DashboardStats(Some(requests));
      stats.newCount <= stats.total && stats.inProgress <= stats.total && stats.repaired <= stats.total
  {
    StageFilterCountsPositions(requests, NewStage);
    StageFilterCountsPositions(requests, InProgressStage);
    StageFilterCountsPositions(requests, RepairedStage);
  }

  /**
   * The three counters add up to at most the total, and to exactly the total
   * when and only when no request is in Scrap or in an unrecognised stage.
   */
  lemma CountersSumToTotalUnlessScrapOrUnknown(requests: Option<seq<Request>>)
    ensures var stats := DashboardStats(requests);
      stats.newCount + stats.inProgress + stats.repaired <= stats.total
    ensures var stats := DashboardStats(requests);
      stats.newCount + stats.inProgress + stats.repaired == stats.total
      <==> requests.None? || forall r :: r in requests.value ==> r.stage in {NewStage, InProgressStage, RepairedStage}
  {
    if requests.Some? {
      var rs := requests.value;
      StagesPartitionRequests(rs);
      NoScrapNorUnstaged(rs);
    }
  }

  /** The dashboard's counters are the sizes of the Kanban board's New, In Progress and Repaired columns. */
  lemma CountersMatchBoardColumns(requests: seq<Request>)
    ensures DashboardStats(Some(requests)).newCount == |KanbanBoard.Columns(requests)[NewStage]|
    ensures DashboardStats(Some(requests)).inProgress == |KanbanBoard.Columns(requests)[InProgressStage]|
    ensures DashboardStats(Some(requests)).repaired == |KanbanBoard.Columns(requests)[RepairedStage]|
  {
    KanbanBoard.ColumnsPartitionRequests(requests);
  }
}
