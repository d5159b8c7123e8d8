/** The Exchange as its clients see it: commits by (system id, task id), behind an unreliable network. */
module Exchange {
  import opened ProofModel
  import opened Client
  import opened Uuid
  import opened Verify

  type CommitTable = map<(string, string), Commit>

  /** How a POST ends: answered, recorded but the answer lost, or not recorded at all. */
  datatype PostOutcome = Acknowledged | AnswerLost | NotRecorded

  /** Every recorded commit is confirmed at once. */
  function AfterPost(commits: CommitTable, request: CommitRequest, outcome: PostOutcome): CommitTable {
    if outcome.NotRecorded? then commits
    else commits[(request.systemId, request.taskId) := Commit(request.sketch, Confirmed)]
  }

  /** Lookups when the network works: parsing the reply fails when the task id in it is no UUID text. */
  function ViewOf(commits: CommitTable): ExchangeView {
    (systemId: string, taskId: string) =>
      if (systemId, taskId) !in commits then
        LookupFailed("No commit found for system_id=" + systemId + ", task_id=" + taskId)
      else if !IsUuidText(taskId) then LookupFailed("Invalid response from backend: " + Complaint(taskId))
      else Fetched(commits[(systemId, taskId)])
  }

  class ExchangeServer {
    var commits: map<(string, string), Commit>

    constructor ()
      ensures commits == map[]
    {
      commits := map[];
    }

    /** False stands for the exception the client raises. */
    method Post(request: CommitRequest, outcome: PostOutcome) returns (ok: bool)
      modifies this
      ensures commits == AfterPost(old(commits), request, outcome)
      ensures ok == outcome.Acknowledged?
    {
      if !outcome.NotRecorded? {
        commits := commits[(request.systemId, request.taskId) := Commit(request.sketch, Confirmed)];
      }
      ok := outcome.Acknowledged?;
    }
  }
}
