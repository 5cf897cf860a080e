/** How each closed vocabulary is spelled (lifecycle/vocabulary.go); every other string reads as `Other`. */
module Vocabulary {
  import opened Events

  function ForegroundText(s: ForegroundState): string {
    match s
    case Running => "running"
    case Idle => "idle"
    case RequiresAction => "requires_action"
    case OtherForeground(name) => name
  }

  function ParseForeground(s: string): (v: ForegroundState)
    ensures ForegroundText(v) == s
  {
    if s == "running" then Running
    else if s == "idle" then Idle
    else if s == "requires_action" then RequiresAction
    else OtherForeground(s)
  }

  function CauseText(c: Cause): string {
    match c
    case NoCause => ""
    case Submission => "submission"
    case Activity => "activity"
    case Session => "session"
    case OtherCause(name) => name
  }

  function ParseCause(s: string): (v: Cause)
    ensures CauseText(v) == s
  {
    if s == "" then NoCause
    else if s == "submission" then Submission
    else if s == "activity" then Activity
    else if s == "session" then Session
    else OtherCause(s)
  }

  function OutcomeText(o: Outcome): string {
    match o
    case NoOutcome => ""
    case Success => "success"
    case Refused => "refused"
    case Cancelled => "cancelled"
    case Limit => "limit"
    case Failed => "failed"
    case OtherOutcome(name) => name
  }

  function ParseOutcome(s: string): (v: Outcome)
    ensures OutcomeText(v) == s
  {
    if s == "" then NoOutcome
    else if s == "success" then Success
    else if s == "refused" then Refused
    else if s == "cancelled" then Cancelled
    else if s == "limit" then Limit
    else if s == "failed" then Failed
    else OtherOutcome(s)
  }

  predicate ValidStopReason(s: string) {
    s == "end_turn" || s == "max_tokens" || s == "max_turn_requests" || s == "refusal" || s == "cancelled"
  }

  function ActivityKindText(k: ActivityKind): string {
    match k
    case NoActivityKind => ""
    case Task => "task"
    case Subagent => "subagent"
    case OtherActivityKind(name) => name
  }

  function ParseActivityKind(s: string): (v: ActivityKind)
    ensures ActivityKindText(v) == s
  {
    if s == "" then NoActivityKind
    else if s == "task" then Task
    else if s == "subagent" then Subagent
    else OtherActivityKind(s)
  }

  function ActivityStateText(s: ActivityState): string {
    match s
    case ActivityPending => "pending"
    case ActivityRunning => "running"
    case ActivityRequiresAction => "requires_action"
    case ActivityCompleted => "completed"
    case ActivityFailed => "failed"
    case ActivityCancelled => "cancelled"
    case OtherActivityState(name) => name
  }

  function ParseActivityState(s: string): (v: ActivityState)
    ensures ActivityStateText(v) == s
  {
    if s == "pending" then ActivityPending
    else if s == "running" then ActivityRunning
    else if s == "requires_action" then ActivityRequiresAction
    else if s == "completed" then ActivityCompleted
    else if s == "failed" then ActivityFailed
    else if s == "cancelled" then ActivityCancelled
    else OtherActivityState(s)
  }

  function ActionKindText(k: ActionKind): string {
    match k
    case NoActionKind => ""
    case Permission => "permission"
    case Elicitation => "elicitation"
    case OtherActionKind(name) => name
  }

  function ParseActionKind(s: string): (v: ActionKind)
    ensures ActionKindText(v) == s
  {
    if s == "" then NoActionKind
    else if s == "permission" then Permission
    else if s == "elicitation" then Elicitation
    else OtherActionKind(s)
  }

  function ActionStateText(s: ActionState): string {
    match s
    case ActionPending => "pending"
    case ActionAccepted => "accepted"
    case ActionDeclined => "declined"
    case ActionCancelled => "cancelled"
    case ActionFailed => "failed"
    case OtherActionState(name) => name
  }

  function ParseActionState(s: string): (v: ActionState)
    ensures ActionStateText(v) == s
  {
    if s == "pending" then ActionPending
    else if s == "accepted" then ActionAccepted
    else if s == "declined" then ActionDeclined
    else if s == "cancelled" then ActionCancelled
    else if s == "failed" then ActionFailed
    else OtherActionState(s)
  }

  function OwnerTypeText(t: OwnerType): string {
    match t
    case NoOwner => ""
    case OwnerTurn => "turn"
    case OwnerActivity => "activity"
    case OtherOwner(name) => name
  }

  function ParseOwnerType(s: string): (v: OwnerType)
    ensures OwnerTypeText(v) == s
  {
    if s == "" then NoOwner
    else if s == "turn" then OwnerTurn
    else if s == "activity" then OwnerActivity
    else OtherOwner(s)
  }
}
