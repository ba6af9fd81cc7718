/** The rules by which board leads, workers and administrators change tasks, as functions
    from board to board. A rejected request leaves the board as it was. */
module TaskRules {
  import opened Policy
  import opened DependencyGraph

  type Time = int

  datatype Status = Inbox | InProgress | Review | Done

  datatype Task = Task(
    status: Status,
    assignee: Option<nat>,
    inProgressAt: Option<Time>,
    previousInProgressAt: Option<Time>)

  /** Tasks by identifier, and the dependency rows: (task, task it depends on). */
  datatype Board = Board(tasks: map<nat, Task>, edges: Edges)

  datatype Agent = Agent(id: nat, isLead: bool, boardId: Option<nat>)

  /** The requested changes; None is a field the request does not mention. */
  datatype Update = Update(
    status: Option<Status>,
    assignee: Option<Option<nat>>,
    otherFields: bool,
    dependsOn: Option<seq<nat>>,
    tags: bool,
    customFields: bool,
    comment: bool)

  datatype Settings = Settings(
    boardId: nat,
    agents: map<nat, Agent>,
    boardLead: Option<nat>,
    onlyLeadCanChangeStatus: bool,
    requireApprovalForDone: bool,
    requireReviewBeforeDone: bool,
    blockStatusWithPendingApproval: bool,
    commentRequiredForReview: bool)

  /** What the tables outside the board say about the request: the caller's write access,
      whether the tags and custom fields asked for are acceptable, and the approvals and
      activity of the task being changed. */
  datatype Facts = Facts(
    accessRefusal: Option<Refusal>,
    tagRefusal: Option<Refusal>,
    fieldRefusal: Option<Refusal>,
    pendingApproval: bool,
    approvedApproval: bool,
    recentComment: bool,
    lastWorkerInReview: Option<nat>)

  datatype Refusal = Blocked | Forbidden | NotFound | Conflict | Unprocessable | GateClosed

  datatype Result<+T> = Ok(value: T) | Refused(why: Refusal)

  // ---------------------------------------------------------------- dependencies

  /** Some dependency of `t` is not done. */
  predicate IsBlocked(tasks: map<nat, Task>, edges: Edges, t: nat) {
    exists d | d in Successors(edges, t) :: d !in tasks || tasks[d].status != Done
  }

  /** The rows left after a task's own rows are replaced by `deps`. */
  function WithDependencies(edges: Edges, t: nat, deps: seq<nat>): Edges {
    (set e | e in edges && e.0 != t) + (set d | d in deps :: (t, d))
  }

  /** Check a new dependency list and put it in place of the old one. */
  ghost function ReplaceDependencies(board: Board, t: nat, deps: seq<nat>): Result<Edges> {
    if t in deps then Refused(Unprocessable)
    else if deps == [] then Ok(WithDependencies(board.edges, t, deps))
    else if exists d | d in deps :: d !in board.tasks then Refused(NotFound)
    else if Cyclic(WithDependencies(board.edges, t, deps)) then Refused(Conflict)
    else Ok(WithDependencies(board.edges, t, deps))
  }

  // ---------------------------------------------------------------- the cascade

  function Returned(task: Task): Task {
    if task.status == Done then task
    else task.(status := Inbox, assignee := None, inProgressAt := None)
  }

  /** Reopening a finished task returns its unfinished direct dependents to the inbox. */
  function ReconcileDependents(tasks: map<nat, Task>, edges: Edges, t: nat, previous: Status): map<nat, Task>
    requires t in tasks
  {
    if previous == Done && tasks[t].status != Done then
      map d | d in tasks :: if (d, t) in edges then Returned(tasks[d]) else tasks[d]
    else tasks
  }

  // ---------------------------------------------------------------- gates

  function StatusGates(settings: Settings, facts: Facts, previous: Status, target: Status,
                       requested: bool): Option<Refusal> {
    if requested && previous != target && settings.blockStatusWithPendingApproval && facts.pendingApproval then
        Some(GateClosed)
    else if previous != Done && target == Done && settings.requireReviewBeforeDone && previous != Review then
        Some(GateClosed)
    else if previous != Done && target == Done && settings.requireApprovalForDone && !facts.approvedApproval then
        Some(GateClosed)
    else None
  }

  function StatusRequested(update: Update, previous: Status): bool {
    update.status.Some? && update.status.value != previous
  }

  // ---------------------------------------------------------------- creation and deletion

  ghost function CreateTask(board: Board, facts: Facts, t: nat, status: Status, assignee: Option<nat>, deps: seq<nat>)
    : Result<Board>
    requires t !in board.tasks
  {
    match ReplaceDependencies(board, t, deps)
    case Refused(why) => Refused(why)
    case Ok(edges) =>
      if facts.tagRefusal.Some? then Refused(facts.tagRefusal.value)
      else if IsBlocked(board.tasks, edges, t) && (assignee.Some? || status != Inbox) then Refused(Blocked)
      else if facts.fieldRefusal.Some? then Refused(facts.fieldRefusal.value)
      else Ok(Board(board.tasks[t := Task(status, assignee, None, None)], edges))
  }

  function DeleteTask(board: Board, t: nat): Board {
    Board(board.tasks - {t}, set e | e in board.edges && e.0 != t && e.1 != t)
  }

  /** Deleting an agent takes it off its tasks and returns the started ones to the inbox. */
  function Released(task: Task, agent: nat): Task {
    if task.assignee != Some(agent) then task
    else if task.status == InProgress then task.(status := Inbox, assignee := None, inProgressAt := None)
    else task.(assignee := None)
  }

  function RemoveAgent(board: Board, agent: nat): Board {
    board.(tasks := map t | t in board.tasks :: Released(board.tasks[t], agent))
  }

  // ---------------------------------------------------------------- board leads

  function LeadAssignment(settings: Settings, task: Task, update: Update): Result<Task> {
    match update.assignee
    case None => Ok(task)
    case Some(None) => Ok(task.(assignee := None))
    case Some(Some(a)) =>
      if a !in settings.agents then Refused(NotFound)
      else if settings.agents[a].isLead then Refused(Forbidden)
      else if settings.agents[a].boardId.Some? && settings.agents[a].boardId.value != settings.boardId then
          Refused(Conflict)
      else Ok(task.(assignee := Some(a)))
  }

  function LeadStatus(facts: Facts, task: Task, update: Update): Result<Task> {
    match update.status
    case None => Ok(task)
    case Some(target) =>
      if task.status != Review then
        if task.status == Inbox && target == InProgress && update.assignee.Some? && update.assignee.value.Some? then
          Ok(task.(status := InProgress))
        else Refused(Forbidden)
      else if target == Done then Ok(task.(status := Done))
      else if target == Inbox then
        Ok(task.(status := Inbox, assignee := facts.lastWorkerInReview, inProgressAt := None))
      else Refused(Forbidden)
  }

  /** The dependency rows an update asks for; a finished task keeps its own. */
  ghost function EffectiveEdges(board: Board, t: nat, update: Update): Result<Edges>
    requires t in board.tasks
  {
    if update.dependsOn.None? then Ok(board.edges)
    else if board.tasks[t].status == Done then Refused(Conflict)
    else ReplaceDependencies(board, t, update.dependsOn.value)
  }

  ghost function LeadUpdate(board: Board, settings: Settings, facts: Facts, t: nat, update: Update): Result<Board>
    requires t in board.tasks
  {
    var previous := board.tasks[t].status;
    if update.comment || update.otherFields then Refused(Forbidden)
    else
      match EffectiveEdges(board, t, update)
      case Refused(why) => Refused(why)
      case Ok(edges) =>
        if update.tags && facts.tagRefusal.Some? then Refused(facts.tagRefusal.value)
        else if IsBlocked(board.tasks, edges, t) && (update.assignee.Some? || update.status.Some?) then Refused(Blocked)
        else
          match LeadAssignment(settings, board.tasks[t], update)
          case Refused(why) => Refused(why)
          case Ok(staffed) =>
            match LeadStatus(facts, staffed, update)
            case Refused(why) => Refused(why)
            case Ok(moved) =>
              match StatusGates(settings, facts, previous, moved.status, StatusRequested(update, previous))
              case Some(why) => Refused(why)
              case None =>
                if update.customFields && facts.fieldRefusal.Some? then Refused(facts.fieldRefusal.value)
                else Ok(Board(ReconcileDependents(board.tasks[t := moved], edges, t, previous), edges))
  }

  // ---------------------------------------------------------------- workers and administrators

  function LeftProgress(task: Task): Task {
    task.(assignee := None, previousInProgressAt := task.inProgressAt, inProgressAt := None)
  }

  /** What a requested status does to the clock and the assignment. */
  function EnterStatus(task: Task, status: Status, now: Time): Task {
    match status
    case Inbox => LeftProgress(task)
    case Review => LeftProgress(task)
    case InProgress => task.(inProgressAt := Some(now))
    case Done => task
  }

  function WorkerRules(board: Board, settings: Settings, agent: Agent, now: Time, t: nat, update: Update): Result<Board>
    requires t in board.tasks
  {
    var task := board.tasks[t];
    if agent.boardId.Some? && agent.boardId.value != settings.boardId then Refused(Forbidden)
    else if task.assignee.Some? && task.assignee.value != agent.id && update.status.Some? then Refused(Forbidden)
    else if update.dependsOn.Some? || update.tags || update.assignee.Some? || update.otherFields then Refused(Forbidden)
    else if update.status.None? then Ok(board)
    else if settings.onlyLeadCanChangeStatus then Refused(Forbidden)
    else if update.status.value != Inbox && IsBlocked(board.tasks, board.edges, t) then Refused(Blocked)
    else
      var claimed := if update.status.value in {InProgress, Done} then task.(assignee := Some(agent.id)) else task;
      Ok(board.(tasks := board.tasks[t := EnterStatus(claimed, update.status.value, now)]))
  }

  /** An administrator's request for a blocked task becomes a return to the inbox, unless
      the task is done and stays done. */
  function AdminRewrite(task: Task, update: Update, blocked: bool): (Task, Update) {
    var target := if update.status.Some? then update.status.value else task.status;
    if blocked && !(task.status == Done && target == Done) then
      (task.(status := Inbox, assignee := None, inProgressAt := None),
       update.(status := Some(Inbox), assignee := Some(None)))
    else (task, update)
  }

  ghost function AdminRules(board: Board, settings: Settings, facts: Facts, now: Time, t: nat, update: Update)
    : Result<(Board, Update)>
    requires t in board.tasks
  {
    if update.tags && facts.tagRefusal.Some? then Refused(facts.tagRefusal.value)
    else
      match EffectiveEdges(board, t, update)
      case Refused(why) => Refused(why)
      case Ok(edges) =>
        var (reset, rewritten) := AdminRewrite(board.tasks[t], update, IsBlocked(board.tasks, edges, t));
        var entered := if rewritten.status.Some? then EnterStatus(reset, rewritten.status.value, now) else reset;
        if rewritten.assignee.Some? && rewritten.assignee.value.Some?
            && rewritten.assignee.value.value !in settings.agents then
          Refused(NotFound)
        else if rewritten.assignee.Some? && rewritten.assignee.value.Some?
                && settings.agents[rewritten.assignee.value.value].boardId.Some?
                && settings.agents[rewritten.assignee.value.value].boardId.value != settings.boardId then
          Refused(Conflict)
        else Ok((Board(board.tasks[t := entered], edges), rewritten))
  }

  function Written(task: Task, update: Update): Task {
    task.(
      status := if update.status.Some? then update.status.value else task.status,
      assignee := if update.assignee.Some? then update.assignee.value else task.assignee)
  }

  function HandedToLead(settings: Settings, task: Task, previous: Status): Task {
    if task.status == Review && previous != Review && settings.boardLead.Some? then
        task.(assignee := settings.boardLead)
    else task
  }

  /** Write the requested fields, pass the gates, hand a task entering review to the lead
      and let the change cascade. `previous` and `requested` describe the original request. */
  function Finalize(board: Board, settings: Settings, facts: Facts, t: nat, previous: Status, requested: bool,
                    update: Update)
    : Result<Board>
    requires t in board.tasks
  {
    var written := Written(board.tasks[t], update);
    match StatusGates(settings, facts, previous, written.status, requested)
    case Some(why) => Refused(why)
    case None =>
      if update.status == Some(Review) && settings.commentRequiredForReview && !update.comment
          && !facts.recentComment then
        Refused(Unprocessable)
      else if update.customFields && facts.fieldRefusal.Some? then Refused(facts.fieldRefusal.value)
      else
        var handed := board.tasks[t := HandedToLead(settings, written, previous)];
        Ok(board.(tasks := ReconcileDependents(handed, board.edges, t, previous)))
  }

  function WorkerUpdate(board: Board, settings: Settings, facts: Facts, agent: Agent, now: Time, t: nat, update: Update)
    : Result<Board>
    requires t in board.tasks
  {
    var previous := board.tasks[t].status;
    match WorkerRules(board, settings, agent, now, t, update)
    case Refused(why) => Refused(why)
    case Ok(prepared) => Finalize(prepared, settings, facts, t, previous, StatusRequested(update, previous), update)
  }

  ghost function AdminUpdate(board: Board, settings: Settings, facts: Facts, now: Time, t: nat,
                             update: Update): Result<Board>
    requires t in board.tasks
  {
    var previous := board.tasks[t].status;
    match AdminRules(board, settings, facts, now, t, update)
    case Refused(why) => Refused(why)
    case Ok((prepared, rewritten)) =>
      Finalize(prepared, settings, facts, t, previous, StatusRequested(update, previous), rewritten)
  }

  // ---------------------------------------------------------------- requests

  datatype Actor = Lead | Worker(agent: Agent) | Admin

  datatype Request =
    | Create(facts: Facts, t: nat, status: Status, assignee: Option<nat>, deps: seq<nat>)
    | Patch(actor: Actor, settings: Settings, facts: Facts, now: Time, t: nat, update: Update)
    | Delete(t: nat)
    | DeleteAgent(agent: nat)

  ghost function UpdateTask(board: Board, actor: Actor, settings: Settings, facts: Facts, now: Time, t: nat,
                            update: Update)
    : Result<Board>
    requires t in board.tasks
  {
    match actor
    case Lead => LeadUpdate(board, settings, facts, t, update)
    case Worker(agent) => WorkerUpdate(board, settings, facts, agent, now, t, update)
    case Admin =>
      if facts.accessRefusal.Some? then Refused(facts.accessRefusal.value)
      else AdminUpdate(board, settings, facts, now, t, update)
  }

  /** A refused request, a request about a missing task and a creation under a used
      identifier all leave the board as it was. */
  ghost function Answer(board: Board, request: Request): Result<Board> {
    match request
    case Create(facts, t, status, assignee, deps) =>
      if t in board.tasks then Refused(Conflict) else CreateTask(board, facts, t, status, assignee, deps)
    case Patch(actor, settings, facts, now, t, update) =>
      if t !in board.tasks then Refused(NotFound) else UpdateTask(board, actor, settings, facts, now, t, update)
    case Delete(t) => if t !in board.tasks then Refused(NotFound) else Ok(DeleteTask(board, t))
    case DeleteAgent(agent) => Ok(RemoveAgent(board, agent))
  }

  ghost function Apply(board: Board, request: Request): Board {
    match Answer(board, request)
    case Ok(after) => after
    case Refused(_) => board
  }

  ghost function Run(board: Board, requests: seq<Request>): Board
    decreases |requests|
  {
    if requests == [] then board else Run(Apply(board, requests[0]), requests[1..])
  }
}
