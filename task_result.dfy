/** The outcome record a background task reports (app/tasks/task_result.py). */
module TaskResult {
  import opened Common

  datatype Status = Success | Warning | Failure | Skipped {
    /** The literal stored under the "status" key. */
    function Label(): (r: string)
      ensures r in {"SUCCESS", "WARNING", "FAILURE", "SKIPPED"}
    {
      match this
      case Success => "SUCCESS"
      case Warning => "WARNING"
      case Failure => "FAILURE"
      case Skipped => "SKIPPED"
    }
  }

  /** A task result: exactly a status and an optional message. */
  datatype TaskResult = TaskResult(status: Status, message: Option<string>)

  function SuccessResult(message: Option<string> := None): (r: TaskResult)
    ensures r.status.Label() == "SUCCESS" && r.message == message
  {
    TaskResult(Success, message)
  }

  function WarningResult(message: string): (r: TaskResult)
    ensures r.status.Label() == "WARNING" && r.message == Some(message)
  {
    TaskResult(Warning, Some(message))
  }

  function FailureResult(message: string): (r: TaskResult)
    ensures r.status.Label() == "FAILURE" && r.message == Some(message)
  {
    TaskResult(Failure, Some(message))
  }

  function SkippedResult(message: string): (r: TaskResult)
    ensures r.status.Label() == "SKIPPED" && r.message == Some(message)
  {
    TaskResult(Skipped, Some(message))
  }

  /** The label determines the status: no two statuses share a literal. */
  lemma LabelsAreDistinct(a: Status, b: Status)
    ensures a.Label() == b.Label() <==> a == b
  {
  }

  /** Called without an argument, the success constructor carries no message. */
  lemma SuccessDefaultHasNoMessage()
    ensures SuccessResult() == TaskResult(Success, None)
    ensures SuccessResult().message.None?
  {
  }
}
