/**
 * The maintenance-request record as the dashboard loads it and hands it to
 * the Kanban board, the four lifecycle stages, and the stage filters that
 * both the board columns and the dashboard counters are built from.
 */
module MaintenanceRequests {
  import opened Sequences

  /**
   * A maintenance request.  `stage` is kept as the text stored in the
   * database: the board can write any text into it, and a row may carry a
   * value outside the four stages.  `details` stands for the other selected
   * columns (type, equipment, team, dates), which no operation here edits.
   */
  datatype Request = Request(id: string, subject: string, stage: string, details: map<string, string>)

  const NewStage: string := "New"
  const InProgressStage: string := "In Progress"
  const RepairedStage: string := "Repaired"
  const ScrapStage: string := "Scrap"

  /** The board's columns, in display order. */
  const Stages: seq<string> := [NewStage, InProgressStage, RepairedStage, ScrapStage]

  /** `requests.filter((r) => r.stage === stage)`. */
  function WithStage(requests: seq<Request>, stage: string): (b: seq<Request>)
    ensures |b| <= |requests|
    ensures forall r :: r in b <==> r in requests && r.stage == stage
  {
    Filter(requests, (r: Request) => r.stage == stage)
  }

  /** The requests whose stage is none of the four `Stages`. */
  function Unstaged(requests: seq<Request>): (u: seq<Request>)
    ensures forall r :: r in u <==> r in requests && r.stage !in Stages
  {
    Filter(requests, (r: Request) => r.stage !in Stages)
  }

  /**
   * The four stage filters and the unrecognised-stage filter split the list:
   * their sizes add up to the size of the list.
   */
  lemma {:induction false} StagesPartitionRequests(requests: seq<Request>)
    ensures |WithStage(requests, NewStage)| + |WithStage(requests, InProgressStage)|
          + |WithStage(requests, RepairedStage)| + |WithStage(requests, ScrapStage)|
          + |Unstaged(requests)| == |requests|
  {
    if requests != [] {
      StagesPartitionRequests(requests[1..]);
    }
  }

  /** The Scrap filter and the unrecognised-stage filter are both empty exactly when every request is New, In Progress or Repaired. */
  lemma {:induction false} NoScrapNorUnstaged(requests: seq<Request>)
    ensures WithStage(requests, ScrapStage) == [] && Unstaged(requests) == []
        <==> forall r :: r in requests ==> r.stage in {NewStage, InProgressStage, RepairedStage}
  {
    if requests != [] {
      NoScrapNorUnstaged(requests[1..]);
      assert forall r :: r in requests <==> r == requests[0] || r in requests[1..];
    }
  }
}
