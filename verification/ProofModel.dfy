/** The records agents store, commit and disclose. */
module ProofModel {
  import opened Basics
  import opened Json
  import opened Timestamp

  datatype Evaluation = Evaluation(evaluationType: string, policy: Option<string>, result: string, evaluatedAt: DateTime)

  datatype Dependency = Dependency(systemUri: Option<string>, taskId: string, challengeUrl: Option<string>, evaluations: seq<Evaluation>)

  datatype TrustLevel = Trusted | Verified | Untrusted | Unverified

  /** Full content of one task, kept by the agent. */
  datatype ProofTask = ProofTask(
    systemUri: string, systemType: string, taskId: string,
    invocation: Json, invocationHash: string, outcome: Json, outcomeHash: string,
    timestamp: DateTime, trustLevel: TrustLevel)

  datatype StoredProof = StoredProof(task: ProofTask, dependencies: seq<Dependency>, createdAt: DateTime, expiresAt: DateTime)

  /** What the Exchange receives: identity and hashes, no content. */
  datatype Sketch = Sketch(
    systemUri: string, systemType: string, taskId: string, classification: Option<string>,
    dependencies: seq<Dependency>,
    invocationHash: string, outcomeHash: string, dependenciesHash: Option<string>,
    timestamp: DateTime)

  datatype Status = Confirmed | Failed

  /** A commit as the Exchange returns it. */
  datatype Commit = Commit(sketch: Sketch, status: Status)
}
