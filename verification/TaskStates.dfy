/** The task state machine and the guards on its transitions. */
module TaskStates {
  import opened Wrappers

  datatype TaskState =
    | Backlog | Ready | InProgress | Blocked | ReadyForVerification | Review | ChangesRequested
    | Verified | Done | Failed | Cancelled | Stale | AwaitingHumanApproval

  function Allowed(current: TaskState): set<TaskState> {
    match current
    case Backlog => {Ready, Cancelled}
    case Ready => {InProgress, Blocked, Cancelled, Stale}
    case InProgress => {Blocked, ReadyForVerification, Failed, Cancelled, AwaitingHumanApproval, Stale}
    case Blocked => {Ready, InProgress, Cancelled, Failed, Stale}
    case ReadyForVerification => {Review, ChangesRequested, Failed, Stale}
    case Review => {Verified, ChangesRequested, Failed, Stale}
    case ChangesRequested => {InProgress, Cancelled, Stale}
    case Verified => {Done, Stale}
    case Done => {Stale}
    case Failed => {Ready, Cancelled}
    case Cancelled => {}
    case Stale => {Ready, Cancelled}
    case AwaitingHumanApproval => {InProgress, Cancelled, Failed, Stale}
  }

  /** The states a task may come from: the table of transitions read backwards. */
  function Origins(target: TaskState): set<TaskState> {
    match target
    case Backlog => {}
    case Ready => {Backlog, Blocked, Failed, Stale}
    case InProgress => {Ready, Blocked, ChangesRequested, AwaitingHumanApproval}
    case Blocked => {Ready, InProgress}
    case ReadyForVerification => {InProgress}
    case Review => {ReadyForVerification}
    case ChangesRequested => {ReadyForVerification, Review}
    case Verified => {Review}
    case Done => {Verified}
    case Failed => {InProgress, Blocked, ReadyForVerification, Review, AwaitingHumanApproval}
    case Cancelled => {Backlog, Ready, InProgress, Blocked, ChangesRequested, Failed, Stale, AwaitingHumanApproval}
    case Stale => {Ready, InProgress, Blocked, ReadyForVerification, Review, ChangesRequested, Verified, Done,
                   AwaitingHumanApproval}
    case AwaitingHumanApproval => {InProgress}
  }

  /** Both readings of the table agree. */
  lemma MovesExactly(current: TaskState, target: TaskState)
    ensures target in Allowed(current) <==> current in Origins(target)
  {
  }

  /** The enum's text values. */
  function Name(s: TaskState): string {
    match s
    case Backlog => "BACKLOG"
    case Ready => "READY"
    case InProgress => "IN_PROGRESS"
    case Blocked => "BLOCKED"
    case ReadyForVerification => "READY_FOR_VERIFICATION"
    case Review => "REVIEW"
    case ChangesRequested => "CHANGES_REQUESTED"
    case Verified => "VERIFIED"
    case Done => "DONE"
    case Failed => "FAILED"
    case Cancelled => "CANCELLED"
    case Stale => "STALE"
    case AwaitingHumanApproval => "AWAITING_HUMAN_APPROVAL"
  }

  /** The state with this text, if there is one. */
  function Parse(text: string): Option<TaskState> {
    if text == "BACKLOG" then Some(Backlog)
    else if text == "READY" then Some(Ready)
    else if text == "IN_PROGRESS" then Some(InProgress)
    else if text == "BLOCKED" then Some(Blocked)
    else if text == "READY_FOR_VERIFICATION" then Some(ReadyForVerification)
    else if text == "REVIEW" then Some(Review)
    else if text == "CHANGES_REQUESTED" then Some(ChangesRequested)
    else if text == "VERIFIED" then Some(Verified)
    else if text == "DONE" then Some(Done)
    else if text == "FAILED" then Some(Failed)
    else if text == "CANCELLED" then Some(Cancelled)
    else if text == "STALE" then Some(Stale)
    else if text == "AWAITING_HUMAN_APPROVAL" then Some(AwaitingHumanApproval)
    else None
  }

  lemma ParseName(s: TaskState)
    ensures Parse(Name(s)) == Some(s)
  {
    match s
    case Backlog => case Ready => case InProgress => case Blocked => case ReadyForVerification => case Review =>
    case ChangesRequested => case Verified => case Done => case Failed => case Cancelled => case Stale =>
    case AwaitingHumanApproval =>
  }

  /** The texts in which events hold states. */
  lemma TextsAreRead()
    ensures Parse("BACKLOG") == Some(Backlog) && Parse("READY") == Some(Ready)
    ensures Parse("IN_PROGRESS") == Some(InProgress) && Parse("BLOCKED") == Some(Blocked)
    ensures Parse("READY_FOR_VERIFICATION") == Some(ReadyForVerification) && Parse("REVIEW") == Some(Review)
    ensures Parse("CHANGES_REQUESTED") == Some(ChangesRequested) && Parse("VERIFIED") == Some(Verified)
    ensures Parse("DONE") == Some(Done) && Parse("FAILED") == Some(Failed) && Parse("CANCELLED") == Some(Cancelled)
    ensures Parse("STALE") == Some(Stale) && Parse("AWAITING_HUMAN_APPROVAL") == Some(AwaitingHumanApproval)
  {
  }

  lemma ParsedIsName(text: string)
    ensures Parse(text).Some? ==> text == Name(Parse(text).value)
  {
  }

  /** A text is read as a state exactly if it is that state's own. */
  lemma ParseExactly(text: string, s: TaskState)
    ensures Parse(text) == Some(s) <==> text == Name(s)
  {
    ParsedIsName(text);
    ParseName(s);
  }

  datatype TransitionContext = TransitionContext(
    evidenceIds: seq<string>,
    reviewerIds: seq<string>,
    workerIds: seq<string>,
    objections: seq<string>,
    approval: Option<string>)

  datatype TransitionError =
    | IllegalTransition
    | ReviewNeedsEvidence
    | VerifiedNeedsEvidence
    | VerifiedNeedsReviewer
    | ReviewerNotIndependent
    | BlockingObjections
    | ApprovalRequired

  /** validate_transition: the first guard a transition breaks. An empty approval id counts as none. */
  function ValidateTransition(current: TaskState, target: TaskState, ctx: TransitionContext): Option<TransitionError> {
    if target !in Allowed(current) then Some(IllegalTransition)
    else if target.Review? && ctx.evidenceIds == [] then Some(ReviewNeedsEvidence)
    else if target.Verified? && ctx.evidenceIds == [] then Some(VerifiedNeedsEvidence)
    else if target.Verified? && ctx.reviewerIds == [] then Some(VerifiedNeedsReviewer)
    else if target.Verified? && SetOf(ctx.reviewerIds) * SetOf(ctx.workerIds) != {} then Some(ReviewerNotIndependent)
    else if target.Verified? && ctx.objections != [] then Some(BlockingObjections)
    else if current.AwaitingHumanApproval? && target.InProgress? && ctx.approval in {None, Some("")}
    then Some(ApprovalRequired)
    else None
  }

  /** A refusal names the guard that was broken. */
  lemma RefusalExactly(current: TaskState, target: TaskState, ctx: TransitionContext)
    ensures match ValidateTransition(current, target, ctx)
            case None => current in Origins(target)
            case Some(IllegalTransition) => current !in Origins(target)
            case Some(ReviewNeedsEvidence) => target == Review && ctx.evidenceIds == []
            case Some(VerifiedNeedsEvidence) => target == Verified && ctx.evidenceIds == []
            case Some(VerifiedNeedsReviewer) => target == Verified && ctx.reviewerIds == []
            case Some(ReviewerNotIndependent) =>
              target == Verified && exists x :: x in ctx.reviewerIds && x in ctx.workerIds
            case Some(BlockingObjections) => target == Verified && ctx.objections != []
            case Some(ApprovalRequired) =>
              current == AwaitingHumanApproval && target == InProgress && ctx.approval in {None, Some("")}
  {
    MovesExactly(current, target);
    var both := SetOf(ctx.reviewerIds) * SetOf(ctx.workerIds);
    if both != {} {
      var x :| x in both;
      assert x in ctx.reviewerIds && x in ctx.workerIds;
    }
  }
}
