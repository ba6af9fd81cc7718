/** What every run of requests keeps true of a task board: the dependency graph stays
    acyclic and without dangling rows, an unfinished task with an unfinished dependency
    waits unassigned in the inbox unless a lead stranded it, and some task can always be
    worked on. */
module BoardSafety {
  import opened Policy
  import opened DependencyGraph
  import opened TaskRules

  ghost predicate WellFormed(board: Board) {
    && (forall e | e in board.edges :: e.0 in board.tasks && e.1 in board.tasks)
    && !Cyclic(board.edges)
  }

  /** An unfinished task that is blocked and yet started or assigned. */
  predicate Misplaced(board: Board, t: nat) {
    && t in board.tasks
    && board.tasks[t].status != Done
    && IsBlocked(board.tasks, board.edges, t)
    && !(board.tasks[t].status == Inbox && board.tasks[t].assignee.None?)
  }

  predicate Orderly(board: Board) {
    forall t | t in board.tasks :: !Misplaced(board, t)
  }

  /** The working clock runs only in progress, and may keep its last start when done. */
  predicate ClocksAgree(board: Board) {
    forall t | t in board.tasks && board.tasks[t].inProgressAt.Some? :: board.tasks[t].status in {InProgress, Done}
  }

  // ---------------------------------------------------------------- blocking

  lemma BlockedBy(tasks: map<nat, Task>, edges: Edges, t: nat) returns (d: nat)
    requires IsBlocked(tasks, edges, t)
    ensures (t, d) in edges && (d !in tasks || tasks[d].status != Done)
  {
    d :| d in Successors(edges, t) && (d !in tasks || tasks[d].status != Done);
    SuccessorEdge(edges, t, d);
  }

  lemma Blocks(tasks: map<nat, Task>, edges: Edges, t: nat, d: nat)
    requires (t, d) in edges && (d !in tasks || tasks[d].status != Done)
    ensures IsBlocked(tasks, edges, t)
  {
    SuccessorEdge(edges, t, d);
  }

  // ---------------------------------------------------------------- acyclicity

  lemma FewerEdgesStayAcyclic(edges: Edges, fewer: Edges)
    requires fewer <= edges && !Cyclic(edges)
    ensures !Cyclic(fewer)
  {
    if Cyclic(fewer) {
      var p :| IsCycle(fewer, p);
      assert IsCycle(edges, p);
    }
  }

  lemma NoSelfEdge(edges: Edges, t: nat)
    requires !Cyclic(edges)
    ensures (t, t) !in edges
  {
    if (t, t) in edges {
      var p := [t, t];
      assert IsCycle(edges, p);
    }
  }

  lemma OwnRowsOnly(edges: Edges, t: nat, deps: seq<nat>, v: nat, w: nat)
    ensures (v, w) in WithDependencies(edges, t, deps) <==> if v == t then w in deps else (v, w) in edges
  {
  }

  /** Accepted dependency lists keep the graph acyclic and free of dangling rows, and
      touch only the rows of their task. */
  lemma ReplacementIsSound(board: Board, t: nat, deps: seq<nat>)
    requires WellFormed(board) && ReplaceDependencies(board, t, deps).Ok?
    ensures !Cyclic(ReplaceDependencies(board, t, deps).value)
    ensures forall e | e in ReplaceDependencies(board, t, deps).value ::
              e.1 in board.tasks && (e.0 == t || e.0 in board.tasks)
    ensures forall v, w | v != t :: (v, w) in ReplaceDependencies(board, t, deps).value <==> (v, w) in board.edges
  {
    if deps == [] {
      FewerEdgesStayAcyclic(board.edges, WithDependencies(board.edges, t, deps));
    }
  }

  lemma EffectiveIsSound(board: Board, t: nat, update: Update)
    requires WellFormed(board) && t in board.tasks && EffectiveEdges(board, t, update).Ok?
    ensures WellFormed(Board(board.tasks, EffectiveEdges(board, t, update).value))
    ensures forall v, w | v != t :: (v, w) in EffectiveEdges(board, t, update).value <==> (v, w) in board.edges
  {
    if update.dependsOn.Some? {
      ReplacementIsSound(board, t, update.dependsOn.value);
    }
  }

  // ---------------------------------------------------------------- one level of cascade

  /** `t` becomes `task` under `edges` and the change cascades one level. */
  function Moved(board: Board, edges: Edges, t: nat, task: Task): Board
    requires t in board.tasks
  {
    Board(ReconcileDependents(board.tasks[t := task], edges, t, board.tasks[t].status), edges)
  }

  /** One level of cascade misplaces no other task, however deep the graph is: dependents
      of a returned task were already blocked by it. */
  lemma CascadeMisplacesNoOther(board: Board, edges: Edges, t: nat, task: Task, v: nat)
    requires t in board.tasks && v != t
    requires forall w :: (v, w) in edges <==> (v, w) in board.edges
    ensures Misplaced(Moved(board, edges, t, task), v) ==> Misplaced(board, v)
  {
    var after := Moved(board, edges, t, task);
    if board.tasks[t].status == Done && task.status != Done && (v, t) in edges && v in board.tasks {
      assert after.tasks[v] == Returned(board.tasks[v]);
    } else if Misplaced(after, v) {
      assert after.tasks[v] == board.tasks[v];
      var d := BlockedBy(after.tasks, edges, v);
      Blocks(board.tasks, board.edges, v, d);
    }
  }

  lemma MovedTask(board: Board, edges: Edges, t: nat, task: Task)
    requires t in board.tasks && (t, t) !in edges
    ensures Moved(board, edges, t, task).tasks[t] == task
    ensures IsBlocked(Moved(board, edges, t, task).tasks, edges, t) <==> IsBlocked(board.tasks, edges, t)
  {
    var after := Moved(board, edges, t, task);
    if IsBlocked(after.tasks, edges, t) {
      var d := BlockedBy(after.tasks, edges, t);
      Blocks(board.tasks, edges, t, d);
    }
    if IsBlocked(board.tasks, edges, t) {
      var d := BlockedBy(board.tasks, edges, t);
      Blocks(after.tasks, edges, t, d);
    }
  }

  lemma MovedKeepsClocks(board: Board, edges: Edges, t: nat, task: Task)
    requires t in board.tasks && ClocksAgree(board)
    requires task.inProgressAt.Some? ==> task.status in {InProgress, Done}
    ensures ClocksAgree(Moved(board, edges, t, task))
  {
  }

  // ---------------------------------------------------------------- each request

  /** The one request that leaves its task misplaced: a lead gives a task that is neither
      finished nor idle in the inbox an unfinished dependency, and asks for nothing else. */
  ghost predicate Strands(board: Board, request: Request) {
    && request.Patch? && request.actor.Lead? && request.t in board.tasks
    && request.update.dependsOn.Some?
    && request.update.status.None? && request.update.assignee.None?
    && !request.update.comment && !request.update.otherFields
    && (request.update.tags ==> request.facts.tagRefusal.None?)
    && (request.update.customFields ==> request.facts.fieldRefusal.None?)
    && var t, task := request.t, board.tasks[request.t];
       && task.status != Done
       && !(task.status == Inbox && task.assignee.None?)
       && ReplaceDependencies(board, t, request.update.dependsOn.value).Ok?
       && exists d | d in request.update.dependsOn.value :: board.tasks[d].status != Done
  }

  /** Every accepted patch moves its own task and cascades; it rewrites at most that task's
      dependency rows, and the graph stays acyclic. */
  ghost predicate IsMove(board: Board, t: nat, after: Board)
    requires t in board.tasks
  {
    && t in after.tasks
    && WellFormed(Board(board.tasks, after.edges))
    && (forall v, w | v != t :: (v, w) in after.edges <==> (v, w) in board.edges)
    && after == Moved(board, after.edges, t, after.tasks[t])
  }

  lemma MakeMove(board: Board, edges: Edges, t: nat, task: Task)
    requires t in board.tasks && WellFormed(Board(board.tasks, edges))
    requires forall v, w | v != t :: (v, w) in edges <==> (v, w) in board.edges
    ensures IsMove(board, t, Moved(board, edges, t, task)) && Moved(board, edges, t, task).tasks[t] == task
    ensures IsBlocked(Moved(board, edges, t, task).tasks, edges, t) <==> IsBlocked(board.tasks, edges, t)
  {
    NoSelfEdge(edges, t);
    MovedTask(board, edges, t, task);
  }

  lemma FinalizeIsAMove(board: Board, prepared: Board, settings: Settings, facts: Facts, t: nat, requested: bool,
                        update: Update)
    requires t in board.tasks && t in prepared.tasks && prepared.tasks == board.tasks[t := prepared.tasks[t]]
    requires WellFormed(Board(board.tasks, prepared.edges))
    requires forall v, w | v != t :: (v, w) in prepared.edges <==> (v, w) in board.edges
    ensures
      var result := Finalize(prepared, settings, facts, t, board.tasks[t].status, requested, update);
      result.Ok? ==>
        && IsMove(board, t, result.value)
        && result.value.edges == prepared.edges
        && result.value.tasks[t] == HandedToLead(settings, Written(prepared.tasks[t], update), board.tasks[t].status)
        && (IsBlocked(result.value.tasks, prepared.edges, t) <==> IsBlocked(board.tasks, prepared.edges, t))
  {
    var handed := HandedToLead(settings, Written(prepared.tasks[t], update), board.tasks[t].status);
    assert prepared.tasks[t := handed] == board.tasks[t := handed];
    MakeMove(board, prepared.edges, t, handed);
  }

  lemma LeadMoves(board: Board, settings: Settings, facts: Facts, t: nat, update: Update)
    requires WellFormed(board) && t in board.tasks && LeadUpdate(board, settings, facts, t, update).Ok?
    ensures
      var after := LeadUpdate(board, settings, facts, t, update).value;
      && IsMove(board, t, after)
      && Ok(after.edges) == EffectiveEdges(board, t, update)
      && (IsBlocked(after.tasks, after.edges, t) <==> IsBlocked(board.tasks, after.edges, t))
      && (update.status.None? && update.assignee.None? ==> after.tasks[t] == board.tasks[t])
      && (IsBlocked(board.tasks, after.edges, t) ==> update.status.None? && update.assignee.None?)
      && !update.comment && !update.otherFields
      && (update.tags ==> facts.tagRefusal.None?) && (update.customFields ==> facts.fieldRefusal.None?)
  {
    var edges := EffectiveEdges(board, t, update).value;
    EffectiveIsSound(board, t, update);
    var moved := LeadStatus(facts, LeadAssignment(settings, board.tasks[t], update).value, update).value;
    MakeMove(board, edges, t, moved);
  }

  lemma WorkerMoves(board: Board, settings: Settings, facts: Facts, agent: Agent, now: Time, t: nat, update: Update)
    requires WellFormed(board) && t in board.tasks && WorkerUpdate(board, settings, facts, agent, now, t, update).Ok?
    ensures
      var after := WorkerUpdate(board, settings, facts, agent, now, t, update).value;
      && IsMove(board, t, after)
      && after.edges == board.edges
      && (Misplaced(after, t) ==> Misplaced(board, t))
  {
    var prepared := WorkerRules(board, settings, agent, now, t, update).value;
    FinalizeIsAMove(board, prepared, settings, facts, t, StatusRequested(update, board.tasks[t].status), update);
  }

  lemma AdminMoves(board: Board, settings: Settings, facts: Facts, now: Time, t: nat, update: Update)
    requires WellFormed(board) && t in board.tasks && AdminUpdate(board, settings, facts, now, t, update).Ok?
    ensures
      var after := AdminUpdate(board, settings, facts, now, t, update).value;
      && IsMove(board, t, after)
      && Ok(after.edges) == EffectiveEdges(board, t, update)
      && !Misplaced(after, t)
  {
    var (prepared, rewritten) := AdminRules(board, settings, facts, now, t, update).value;
    EffectiveIsSound(board, t, update);
    FinalizeIsAMove(board, prepared, settings, facts, t, StatusRequested(update, board.tasks[t].status), rewritten);
  }

  /** What a lead's accepted patch does to the placement of its task, exactly. */
  lemma LeadPlaces(board: Board, request: Request)
    requires WellFormed(board) && request.Patch? && request.actor.Lead? && request.t in board.tasks
    ensures Strands(board, request) ==> Misplaced(Apply(board, request), request.t)
    ensures Misplaced(Apply(board, request), request.t) ==> Misplaced(board, request.t) || Strands(board, request)
  {
    var t, update := request.t, request.update;
    var result := LeadUpdate(board, request.settings, request.facts, t, update);
    if result.Ok? {
      LeadMoves(board, request.settings, request.facts, t, update);
      var after := result.value;
      if IsBlocked(board.tasks, after.edges, t) && update.dependsOn.Some? {
        var d := BlockedBy(board.tasks, after.edges, t);
        OwnRowsOnly(board.edges, t, update.dependsOn.value, t, d);
      }
    }
    if Strands(board, request) {
      var edges := ReplaceDependencies(board, t, update.dependsOn.value).value;
      var d :| d in update.dependsOn.value && board.tasks[d].status != Done;
      OwnRowsOnly(board.edges, t, update.dependsOn.value, t, d);
      Blocks(board.tasks, edges, t, d);
      assert result.Ok?;
    }
  }

  lemma PatchMisplacesNoOther(board: Board, t: nat, after: Board, v: nat)
    requires t in board.tasks && IsMove(board, t, after) && v != t
    ensures Misplaced(after, v) ==> Misplaced(board, v)
  {
    CascadeMisplacesNoOther(board, after.edges, t, after.tasks[t], v);
  }

  lemma PatchIsAMove(board: Board, request: Request)
    requires WellFormed(board) && request.Patch? && request.t in board.tasks && Answer(board, request).Ok?
    ensures IsMove(board, request.t, Apply(board, request))
  {
    match request.actor
    case Lead => LeadMoves(board, request.settings, request.facts, request.t, request.update);
    case Worker(agent) => WorkerMoves(board, request.settings, request.facts, agent, request.now, request.t,
                                      request.update);
    case Admin => AdminMoves(board, request.settings, request.facts, request.now, request.t, request.update);
  }

  lemma PatchPlaces(board: Board, request: Request)
    requires WellFormed(board) && request.Patch? && request.t in board.tasks
    ensures Misplaced(Apply(board, request), request.t) ==> Misplaced(board, request.t) || Strands(board, request)
  {
    match request.actor
    case Lead => LeadPlaces(board, request);
    case Worker(agent) =>
      if Answer(board, request).Ok? {
        WorkerMoves(board, request.settings, request.facts, agent, request.now, request.t, request.update);
      }
    case Admin =>
      if Answer(board, request).Ok? {
        AdminMoves(board, request.settings, request.facts, request.now, request.t, request.update);
      }
  }

  // ---------------------------------------------------------------- creation and deletion

  lemma CreateKeeps(board: Board, facts: Facts, t: nat, status: Status, assignee: Option<nat>, deps: seq<nat>)
    requires WellFormed(board) && t !in board.tasks && CreateTask(board, facts, t, status, assignee, deps).Ok?
    ensures WellFormed(CreateTask(board, facts, t, status, assignee, deps).value)
    ensures forall v :: Misplaced(CreateTask(board, facts, t, status, assignee, deps).value, v) ==> Misplaced(board, v)
  {
    var after := CreateTask(board, facts, t, status, assignee, deps).value;
    ReplacementIsSound(board, t, deps);
    NoSelfEdge(after.edges, t);
    forall v | Misplaced(after, v) ensures Misplaced(board, v) {
      var d := BlockedBy(after.tasks, after.edges, v);
      Blocks(board.tasks, after.edges, v, d);
      if v != t { Blocks(board.tasks, board.edges, v, d); }
    }
  }

  lemma DeleteKeeps(board: Board, t: nat)
    requires WellFormed(board)
    ensures WellFormed(DeleteTask(board, t))
    ensures forall v :: Misplaced(DeleteTask(board, t), v) ==> Misplaced(board, v)
  {
    var after := DeleteTask(board, t);
    FewerEdgesStayAcyclic(board.edges, after.edges);
    forall v | Misplaced(after, v) ensures Misplaced(board, v) {
      var d := BlockedBy(after.tasks, after.edges, v);
      Blocks(board.tasks, board.edges, v, d);
    }
  }

  lemma RemoveAgentKeeps(board: Board, agent: nat)
    requires WellFormed(board)
    ensures WellFormed(RemoveAgent(board, agent))
    ensures forall v :: Misplaced(RemoveAgent(board, agent), v) ==> Misplaced(board, v)
  {
    var after := RemoveAgent(board, agent);
    forall v | Misplaced(after, v) ensures Misplaced(board, v) {
      var d := BlockedBy(after.tasks, after.edges, v);
      Blocks(board.tasks, board.edges, v, d);
    }
  }

  // ---------------------------------------------------------------- runs

  lemma StepKeepsWellFormed(board: Board, request: Request)
    requires WellFormed(board)
    ensures WellFormed(Apply(board, request))
  {
    if Answer(board, request).Ok? {
      match request
      case Create(facts, t, status, assignee, deps) => CreateKeeps(board, facts, t, status, assignee, deps);
      case Patch(_, _, _, _, t, _) =>
        PatchIsAMove(board, request);
        MoveKeepsWellFormed(board, t, Apply(board, request));
      case Delete(t) => DeleteKeeps(board, t);
      case DeleteAgent(agent) => RemoveAgentKeeps(board, agent);
    }
  }

  lemma MoveKeepsWellFormed(board: Board, t: nat, after: Board)
    requires t in board.tasks && IsMove(board, t, after)
    ensures WellFormed(after)
  {
  }

  /** From any board, orderly or not, a request misplaces no task but the one a lead
      strands with it. */
  lemma StepMisplaces(board: Board, request: Request, v: nat)
    requires WellFormed(board) && Misplaced(Apply(board, request), v)
    ensures Misplaced(board, v) || (Strands(board, request) && request.t == v)
  {
    if Answer(board, request).Ok? {
      match request
      case Create(facts, t, status, assignee, deps) => CreateKeeps(board, facts, t, status, assignee, deps);
      case Patch(_, _, _, _, t, _) =>
        if v == t {
          PatchPlaces(board, request);
        } else {
          PatchIsAMove(board, request);
          PatchMisplacesNoOther(board, t, Apply(board, request), v);
        }
      case Delete(t) => DeleteKeeps(board, t);
      case DeleteAgent(agent) => RemoveAgentKeeps(board, agent);
    }
  }

  /** An orderly board stays orderly exactly when the request strands no task. */
  lemma OrderlyIffNotStranding(board: Board, request: Request)
    requires WellFormed(board) && Orderly(board)
    ensures Orderly(Apply(board, request)) <==> !Strands(board, request)
  {
    forall v | Misplaced(Apply(board, request), v) ensures Strands(board, request) {
      StepMisplaces(board, request, v);
    }
    if Strands(board, request) {
      LeadPlaces(board, request);
    }
  }

  ghost predicate Careful(board: Board, requests: seq<Request>)
    decreases |requests|
  {
    requests != [] ==> !Strands(board, requests[0]) && Careful(Apply(board, requests[0]), requests[1..])
  }

  lemma {:induction false} CarefulRunIsOrderly(board: Board, requests: seq<Request>)
    requires WellFormed(board) && Orderly(board) && Careful(board, requests)
    ensures Orderly(Run(board, requests))
    decreases |requests|
  {
    if requests != [] {
      StepKeepsWellFormed(board, requests[0]);
      OrderlyIffNotStranding(board, requests[0]);
      CarefulRunIsOrderly(Apply(board, requests[0]), requests[1..]);
    }
  }

  /** Over any run, every task found misplaced at the end was so from the start or was
      stranded by a lead's request of the run, namely the `i`-th. */
  lemma {:induction false} MisplacedWasStranded(board: Board, requests: seq<Request>, v: nat) returns (i: nat)
    requires WellFormed(board) && !Misplaced(board, v) && Misplaced(Run(board, requests), v)
    ensures i < |requests| && Strands(Run(board, requests[..i]), requests[i]) && requests[i].t == v
    decreases |requests|
  {
    var next := Apply(board, requests[0]);
    if Misplaced(next, v) {
      StepMisplaces(board, requests[0], v);
      i := 0;
    } else {
      StepKeepsWellFormed(board, requests[0]);
      var j := MisplacedWasStranded(next, requests[1..], v);
      i := j + 1;
      assert requests[..i][0] == requests[0] && requests[..i][1..] == requests[1..][..j];
    }
  }

  // ---------------------------------------------------------------- clocks

  lemma StepKeepsClocks(board: Board, request: Request)
    requires WellFormed(board) && ClocksAgree(board)
    ensures ClocksAgree(Apply(board, request))
  {
    if Answer(board, request).Ok? && request.Patch? {
      PatchIsAMove(board, request);
      PatchKeepsClock(board, request);
      MovedKeepsClocks(board, Apply(board, request).edges, request.t, Apply(board, request).tasks[request.t]);
    }
  }

  lemma PatchKeepsClock(board: Board, request: Request)
    requires WellFormed(board) && ClocksAgree(board)
    requires request.Patch? && request.t in board.tasks && Answer(board, request).Ok?
    requires IsMove(board, request.t, Apply(board, request))
    ensures var task := Apply(board, request).tasks[request.t];
            task.inProgressAt.Some? ==> task.status in {InProgress, Done}
  {
    var t, settings, facts, update := request.t, request.settings, request.facts, request.update;
    var requested := StatusRequested(update, board.tasks[t].status);
    match request.actor
    case Lead =>
      EffectiveIsSound(board, t, update);
      var moved := LeadStatus(facts, LeadAssignment(settings, board.tasks[t], update).value, update).value;
      MakeMove(board, EffectiveEdges(board, t, update).value, t, moved);
    case Worker(agent) =>
      var prepared := WorkerRules(board, settings, agent, request.now, t, update).value;
      FinalizeIsAMove(board, prepared, settings, facts, t, requested, update);
    case Admin =>
      var (prepared, rewritten) := AdminRules(board, settings, facts, request.now, t, update).value;
      EffectiveIsSound(board, t, update);
      FinalizeIsAMove(board, prepared, settings, facts, t, requested, rewritten);
  }

  lemma {:induction false} RunKeepsWellFormed(board: Board, requests: seq<Request>)
    requires WellFormed(board)
    ensures WellFormed(Run(board, requests))
    ensures ClocksAgree(board) ==> ClocksAgree(Run(board, requests))
    decreases |requests|
  {
    if requests != [] {
      StepKeepsWellFormed(board, requests[0]);
      if ClocksAgree(board) {
        StepKeepsClocks(board, requests[0]);
      }
      RunKeepsWellFormed(Apply(board, requests[0]), requests[1..]);
    }
  }

  /** A row of the cycle-time query: a task in review whose clock shows when work began. */
  predicate HasCycleTime(task: Task) {
    task.status == Review && task.inProgressAt.Some?
  }

  /** Over any run the cycle-time query selects no task at all: entering review stops the
      clock that the query measures from. */
  lemma CycleTimeFindsNothing(requests: seq<Request>, t: nat)
    ensures var board := Run(Board(map[], {}), requests);
            t in board.tasks ==> !HasCycleTime(board.tasks[t])
  {
    hide Run;
    var empty := Board(map[], {});
    SingleEdgeIsAcyclic(0, 1);
    FewerEdgesStayAcyclic({(0, 1)}, {});
    RunKeepsWellFormed(empty, requests);
  }

  // ---------------------------------------------------------------- finishing

  /** However a task becomes done, it was its own patch that did it, its dependencies were
      done, and every gate the board has switched on was passed. */
  lemma DoneIsEarned(board: Board, request: Request, t: nat)
    requires WellFormed(board) && t in board.tasks && board.tasks[t].status != Done
    requires t in Apply(board, request).tasks && Apply(board, request).tasks[t].status == Done
    ensures request.Patch? && request.t == t
    ensures !IsBlocked(board.tasks, Apply(board, request).edges, t)
    ensures request.settings.requireReviewBeforeDone ==> board.tasks[t].status == Review
    ensures request.settings.requireApprovalForDone ==> request.facts.approvedApproval
    ensures request.settings.blockStatusWithPendingApproval ==> !request.facts.pendingApproval
    ensures request.settings.onlyLeadCanChangeStatus ==> !request.actor.Worker?
    ensures request.actor.Lead? ==> board.tasks[t].status == Review
  {
    if request.Patch? && request.t in board.tasks && Answer(board, request).Ok? {
      PatchIsAMove(board, request);
      if t == request.t {
        OwnPatchEarnsDone(board, request);
      }
    }
  }

  lemma OwnPatchEarnsDone(board: Board, request: Request)
    requires WellFormed(board) && request.Patch? && request.t in board.tasks && Answer(board, request).Ok?
    requires IsMove(board, request.t, Apply(board, request))
    requires board.tasks[request.t].status != Done && Apply(board, request).tasks[request.t].status == Done
    ensures !IsBlocked(board.tasks, Apply(board, request).edges, request.t)
    ensures StatusRequested(request.update, board.tasks[request.t].status)
    ensures StatusGates(request.settings, request.facts, board.tasks[request.t].status, Done, true) == None
    ensures request.settings.onlyLeadCanChangeStatus ==> !request.actor.Worker?
    ensures request.actor.Lead? ==> board.tasks[request.t].status == Review
  {
    var t, settings, facts, update := request.t, request.settings, request.facts, request.update;
    var requested := StatusRequested(update, board.tasks[t].status);
    match request.actor
    case Lead =>
      LeadMoves(board, settings, facts, t, update);
      EffectiveIsSound(board, t, update);
      var moved := LeadStatus(facts, LeadAssignment(settings, board.tasks[t], update).value, update).value;
      MakeMove(board, EffectiveEdges(board, t, update).value, t, moved);
    case Worker(agent) =>
      var prepared := WorkerRules(board, settings, agent, request.now, t, update).value;
      FinalizeIsAMove(board, prepared, settings, facts, t, requested, update);
    case Admin =>
      var (prepared, rewritten) := AdminRules(board, settings, facts, request.now, t, update).value;
      EffectiveIsSound(board, t, update);
      FinalizeIsAMove(board, prepared, settings, facts, t, requested, rewritten);
  }

  // ---------------------------------------------------------------- progress

  predicate Ready(board: Board, t: nat) {
    t in board.tasks && board.tasks[t].status != Done && !IsBlocked(board.tasks, board.edges, t)
  }

  /** Follow unfinished dependencies from an unfinished task: on an acyclic board the walk
      must end at a task that can be worked on. */
  lemma {:induction false} FollowDependencies(board: Board, path: seq<nat>) returns (ready: nat)
    requires WellFormed(board)
    requires IsWalk(board.edges, path)
    requires forall i, j | 0 <= i < j < |path| :: path[i] != path[j]
    requires forall v | v in path :: v in board.tasks && board.tasks[v].status != Done
    ensures Ready(board, ready)
    decreases board.tasks.Keys - set v | v in path
  {
    var last := path[|path| - 1];
    if !IsBlocked(board.tasks, board.edges, last) {
      ready := last;
    } else {
      var d := BlockedBy(board.tasks, board.edges, last);
      if d in path {
        PathCloses(board.edges, path, d);
        assert false;
      }
      WalkExtends(board.edges, path, d);
      var visited, longer := set v | v in path, set v | v in path + [d];
      assert d in longer && d !in visited && visited <= longer <= board.tasks.Keys;
      ready := FollowDependencies(board, path + [d]);
    }
  }

  /** The board never deadlocks: after any run, if some task is unfinished then some
      unfinished task has all its dependencies done. */
  lemma SomeTaskIsReady(board: Board, requests: seq<Request>, t: nat) returns (ready: nat)
    requires WellFormed(board)
    requires t in Run(board, requests).tasks && Run(board, requests).tasks[t].status != Done
    ensures Ready(Run(board, requests), ready)
  {
    RunKeepsWellFormed(board, requests);
    ready := FollowDependencies(Run(board, requests), [t]);
  }

  // ---------------------------------------------------------------- the exception

  /** A started task is stranded: its lead adds an unfinished dependency and nothing else. */
  lemma LeadCanStrand(settings: Settings, facts: Facts)
    ensures
      var board := Board(map[0 := Task(InProgress, Some(7), None, None), 1 := Task(Inbox, None, None, None)], {});
      var request := Patch(Lead, settings, facts, 0, 0, Update(None, None, false, Some([1]), false, false, false));
      WellFormed(board) && Orderly(board) && !Orderly(Apply(board, request))
  {
    var board := Board(map[0 := Task(InProgress, Some(7), None, None), 1 := Task(Inbox, None, None, None)], {});
    var request := Patch(Lead, settings, facts, 0, 0, Update(None, None, false, Some([1]), false, false, false));
    SingleEdgeIsAcyclic(0, 1);
    FewerEdgesStayAcyclic({(0, 1)}, {});
    assert WithDependencies({}, 0, [1]) == {(0, 1)};
    var d := 1;
    assert d in request.update.dependsOn.value && board.tasks[d].status != Done;
    assert Strands(board, request);
    OrderlyIffNotStranding(board, request);
  }

  lemma SingleEdgeIsAcyclic(a: nat, b: nat)
    requires a != b
    ensures !Cyclic({(a, b)})
  {
    var edges, order := {(a, b)}, [b, a];
    forall i, w | 0 <= i < |order| && (order[i], w) in edges ensures w in order[..i] {
      assert i == 1 && order[..1][0] == b;
    }
    if Cyclic(edges) {
      var p :| IsCycle(edges, p);
      assert (p[0], p[1]) in edges;
      assert order[1] == a;
      OrderedIsAcyclic(edges, order, p);
    }
  }
}
