/** Exactly which requests a task board accepts, for what reasons it refuses the others, and
    what an accepted request makes of every task. */
module BoardAnswers {
  import opened Policy
  import opened DependencyGraph
  import opened TaskRules
  import opened BoardSafety

  // ---------------------------------------------------------------- dependency lists

  /** The new list names other, known tasks and closes no cycle, on a task that is not done. */
  ghost predicate DependenciesFit(board: Board, t: nat, update: Update)
    requires t in board.tasks
  {
    update.dependsOn.Some? ==>
      && board.tasks[t].status != Done && t !in update.dependsOn.value
      && (forall d | d in update.dependsOn.value :: d in board.tasks)
      && !Cyclic(WithDependencies(board.edges, t, update.dependsOn.value))
  }

  /** The dependency rows after an accepted list: the task's own are those asked for. */
  ghost predicate RowsAsAsked(board: Board, t: nat, update: Update, edges: Edges) {
    forall v: nat, w: nat :: (v, w) in edges <==>
      if v == t && update.dependsOn.Some? then w in update.dependsOn.value else (v, w) in board.edges
  }

  ghost predicate DependencyRefusal(board: Board, t: nat, update: Update, why: Refusal)
    requires t in board.tasks
  {
    update.dependsOn.Some? &&
    var deps := update.dependsOn.value;
    || (why == Conflict && (board.tasks[t].status == Done || Cyclic(WithDependencies(board.edges, t, deps))))
    || (why == Unprocessable && t in deps)
    || (why == NotFound && exists d | d in deps :: d !in board.tasks)
  }

  lemma DependenciesAnswer(board: Board, t: nat, update: Update)
    requires WellFormed(board) && t in board.tasks
    ensures EffectiveEdges(board, t, update).Ok? <==> DependenciesFit(board, t, update)
    ensures match EffectiveEdges(board, t, update)
            case Ok(edges) => RowsAsAsked(board, t, update, edges)
            case Refused(why) => DependencyRefusal(board, t, update, why)
  {
    if update.dependsOn.Some? {
      var deps := update.dependsOn.value;
      forall v: nat, w: nat ensures (v, w) in WithDependencies(board.edges, t, deps) <==>
                          if v == t then w in deps else (v, w) in board.edges {
        OwnRowsOnly(board.edges, t, deps, v, w);
      }
      if deps == [] {
        FewerEdgesStayAcyclic(board.edges, WithDependencies(board.edges, t, deps));
      }
    }
  }

  // ---------------------------------------------------------------- gates

  /** Every switched-on gate lets a task go from `previous` to `target`. */
  predicate GatesOpen(settings: Settings, facts: Facts, previous: Status, target: Status, requested: bool) {
    && (requested && target != previous && settings.blockStatusWithPendingApproval ==> !facts.pendingApproval)
    && (target == Done && previous != Done ==>
          && (settings.requireReviewBeforeDone ==> previous == Review)
          && (settings.requireApprovalForDone ==> facts.approvedApproval))
  }

  lemma GatesAnswer(settings: Settings, facts: Facts, previous: Status, target: Status, requested: bool)
    ensures StatusGates(settings, facts, previous, target, requested)
            == if GatesOpen(settings, facts, previous, target, requested) then None else Some(GateClosed)
  {
  }

  predicate FieldsFit(facts: Facts, update: Update) {
    update.customFields ==> facts.fieldRefusal.None?
  }

  predicate TagsFit(facts: Facts, update: Update) {
    update.tags ==> facts.tagRefusal.None?
  }

  predicate CommentFits(settings: Settings, facts: Facts, update: Update, asked: Option<Status>) {
    asked == Some(Review) && settings.commentRequiredForReview ==> update.comment || facts.recentComment
  }

  predicate Changes(update: Update, task: Task) {
    update.status.Some? && update.status.value != task.status
  }

  /** An agent of this board, or of none. */
  predicate OfBoard(settings: Settings, agent: Agent) {
    agent.boardId.None? || agent.boardId.value == settings.boardId
  }

  // ---------------------------------------------------------------- the cascade

  /** Only dependents of a task that was done and is reopened change: those not done return to
      the inbox, unassigned and with the clock stopped. */
  ghost predicate CascadesFrom(board: Board, t: nat, after: Board)
    requires t in board.tasks
  {
    && after.tasks.Keys == board.tasks.Keys
    && forall v | v in board.tasks && v != t ::
         var was, is_ := board.tasks[v], after.tasks[v];
         var reopened := board.tasks[t].status == Done && after.tasks[t].status != Done;
         if reopened && (v, t) in after.edges && was.status != Done
         then is_.status == Inbox && is_.assignee.None? && is_.inProgressAt.None?
              && is_.previousInProgressAt == was.previousInProgressAt
         else is_ == was
  }

  lemma MoveCascades(board: Board, t: nat, after: Board)
    requires t in board.tasks && IsMove(board, t, after)
    ensures CascadesFrom(board, t, after)
  {
    NoSelfEdge(after.edges, t);
    MovedTask(board, after.edges, t, after.tasks[t]);
  }

  lemma FinalizeAnswers(prepared: Board, settings: Settings, facts: Facts, t: nat, previous: Status, requested: bool,
                        update: Update)
    requires t in prepared.tasks
    ensures var target := if update.status.Some? then update.status.value else prepared.tasks[t].status;
            var open := GatesOpen(settings, facts, previous, target, requested);
            match Finalize(prepared, settings, facts, t, previous, requested, update)
            case Ok(_) => open && CommentFits(settings, facts, update, update.status) && FieldsFit(facts, update)
            case Refused(why) =>
              || (why == GateClosed && !open)
              || (why == Unprocessable && !CommentFits(settings, facts, update, update.status))
              || (update.customFields && facts.fieldRefusal == Some(why))
  {
    hide GatesOpen, StatusGates;
    GatesAnswer(settings, facts, previous, Written(prepared.tasks[t], update).status, requested);
  }

  // ---------------------------------------------------------------- workers

  ghost predicate WorkerMay(board: Board, settings: Settings, facts: Facts, agent: Agent, t: nat, update: Update)
    requires t in board.tasks
  {
    var task := board.tasks[t];
    && OfBoard(settings, agent)
    && update.dependsOn.None? && !update.tags && update.assignee.None? && !update.otherFields
    && (update.status.Some? ==>
          && task.assignee in {None, Some(agent.id)} && !settings.onlyLeadCanChangeStatus
          && (update.status.value == Inbox || !IsBlocked(board.tasks, board.edges, t))
          && GatesOpen(settings, facts, task.status, update.status.value, true))
    && CommentFits(settings, facts, update, update.status) && FieldsFit(facts, update)
  }

  /** A worker's patch gives the task the status asked for. It is the worker's while in progress
      or done, nobody's in the inbox, and the lead's, or nobody's, in review. The clock starts
      in progress and stops, its start remembered, in the inbox and in review. */
  ghost predicate WorkedAsAsked(settings: Settings, agent: Agent, now: Time, was: Task, update: Update, is_: Task) {
    match update.status
    case None => is_ == was
    case Some(status) =>
      && is_.status == status
      && (status in {InProgress, Done} ==> is_.assignee == Some(agent.id))
      && (status == Inbox ==> is_.assignee.None?)
      && (status == Review ==> is_.assignee == if was.status != Review then settings.boardLead else None)
      && (status in {Inbox, Review} ==> is_.inProgressAt.None? && is_.previousInProgressAt == was.inProgressAt)
      && (status in {InProgress, Done} ==> is_.previousInProgressAt == was.previousInProgressAt)
      && (status == InProgress ==> is_.inProgressAt == Some(now))
      && (status == Done ==> is_.inProgressAt == was.inProgressAt)
  }

  ghost predicate WorkerRefusal(board: Board, settings: Settings, facts: Facts, agent: Agent, t: nat, update: Update,
                                why: Refusal)
    requires t in board.tasks
  {
    var task := board.tasks[t];
    || (why == Forbidden &&
          (|| !OfBoard(settings, agent) || update.dependsOn.Some? || update.tags || update.assignee.Some?
           || update.otherFields
           || (update.status.Some? && (settings.onlyLeadCanChangeStatus || task.assignee !in {None, Some(agent.id)}))))
    || (why == Blocked && update.status.Some? && update.status.value != Inbox
        && IsBlocked(board.tasks, board.edges, t))
    || (why == GateClosed && update.status.Some? && !GatesOpen(settings, facts, task.status, update.status.value, true))
    || (why == Unprocessable && !CommentFits(settings, facts, update, update.status))
    || (update.customFields && facts.fieldRefusal == Some(why))
  }

  /** What a worker's rules make of the task, before the gates. */
  lemma WorkerPrepares(board: Board, settings: Settings, agent: Agent, now: Time, t: nat, update: Update)
    requires t in board.tasks
    ensures var task := board.tasks[t];
            var blocked := IsBlocked(board.tasks, board.edges, t);
            match WorkerRules(board, settings, agent, now, t, update)
            case Ok(prepared) =>
              && OfBoard(settings, agent)
              && update.dependsOn.None? && !update.tags && update.assignee.None? && !update.otherFields
              && (update.status.Some? ==>
                    && task.assignee in {None, Some(agent.id)} && !settings.onlyLeadCanChangeStatus
                    && (update.status.value == Inbox || !blocked))
              && prepared.edges == board.edges && t in prepared.tasks
              && prepared.tasks == board.tasks[t := prepared.tasks[t]]
              && WorkedAsAsked(settings, agent, now, task, update,
                   HandedToLead(settings, Written(prepared.tasks[t], update), task.status))
              && (update.status.None? ==> prepared.tasks[t] == task)
            case Refused(why) =>
              || (why == Forbidden &&
                    (|| !OfBoard(settings, agent) || update.dependsOn.Some? || update.tags || update.assignee.Some?
                     || update.otherFields
                     || (update.status.Some?
                         && (settings.onlyLeadCanChangeStatus || task.assignee !in {None, Some(agent.id)}))))
              || (why == Blocked && update.status.Some? && update.status.value != Inbox && blocked)
  {
    hide IsBlocked;
  }

  lemma WorkerAnswers(board: Board, settings: Settings, facts: Facts, agent: Agent, now: Time, t: nat, update: Update)
    requires WellFormed(board) && t in board.tasks
    ensures var answer := WorkerUpdate(board, settings, facts, agent, now, t, update);
            && (answer.Ok? <==> WorkerMay(board, settings, facts, agent, t, update))
            && match answer
               case Ok(after) =>
                 && t in after.tasks && after.edges == board.edges && CascadesFrom(board, t, after)
                 && WorkedAsAsked(settings, agent, now, board.tasks[t], update, after.tasks[t])
               case Refused(why) => WorkerRefusal(board, settings, facts, agent, t, update, why)
  {
    hide IsBlocked, WellFormed, IsMove, Finalize, GatesOpen, WorkedAsAsked, CascadesFrom, Written, HandedToLead,
         OfBoard, WorkerRules;
    var task := board.tasks[t];
    var requested := StatusRequested(update, task.status);
    WorkerPrepares(board, settings, agent, now, t, update);
    var rules := WorkerRules(board, settings, agent, now, t, update);
    if rules.Ok? {
      FinalizeAnswers(rules.value, settings, facts, t, task.status, requested, update);
      StayingIsOpen(settings, facts, task.status, requested);
      WellFormedIs(board);
      FinalizeIsAMove(board, rules.value, settings, facts, t, requested, update);
      if WorkerUpdate(board, settings, facts, agent, now, t, update).Ok? {
        MoveIsMove(board, t, WorkerUpdate(board, settings, facts, agent, now, t, update).value);
        MoveCascades(board, t, WorkerUpdate(board, settings, facts, agent, now, t, update).value);
      }
    }
  }

  lemma StayingIsOpen(settings: Settings, facts: Facts, status: Status, requested: bool)
    ensures GatesOpen(settings, facts, status, status, requested)
    ensures forall target :: GatesOpen(settings, facts, status, target, target != status)
                             <==> GatesOpen(settings, facts, status, target, true)
  {
  }

  lemma WellFormedIs(board: Board)
    requires WellFormed(board)
    ensures WellFormed(Board(board.tasks, board.edges))
  {
  }

  // ---------------------------------------------------------------- administrators

  /** A blocked task is returned to the inbox, whatever was asked, unless it is done and stays
      done. */
  ghost predicate SentBack(board: Board, t: nat, update: Update, edges: Edges)
    requires t in board.tasks
  {
    IsBlocked(board.tasks, edges, t) &&
    !(board.tasks[t].status == Done && (update.status.None? || update.status.value == Done))
  }

  /** The status an administrator's patch leaves. */
  ghost function AdminStatus(board: Board, t: nat, update: Update, edges: Edges): Status
    requires t in board.tasks
  {
    if SentBack(board, t, update, edges) then Inbox
    else if update.status.Some? then update.status.value
    else board.tasks[t].status
  }

  predicate AssigneeFits(settings: Settings, assignee: Option<Option<nat>>) {
    assignee.Some? && assignee.value.Some? ==>
      assignee.value.value in settings.agents && OfBoard(settings, settings.agents[assignee.value.value])
  }

  ghost predicate AdminMay(board: Board, settings: Settings, facts: Facts, t: nat, update: Update, edges: Edges)
    requires t in board.tasks
  {
    var task, status := board.tasks[t], AdminStatus(board, t, update, edges);
    && TagsFit(facts, update) && DependenciesFit(board, t, update)
    && (!SentBack(board, t, update, edges) ==> AssigneeFits(settings, update.assignee))
    && GatesOpen(settings, facts, task.status, status, Changes(update, task))
    && (!SentBack(board, t, update, edges) ==> CommentFits(settings, facts, update, update.status))
    && FieldsFit(facts, update)
  }

  /** An administrator's patch gives the task the status and assignee asked for; a task sent
      back has neither assignee nor clock; entering review hands the task to the lead. The clock
      starts in progress and stops in the inbox and in review. */
  ghost predicate AdministeredAsAsked(board: Board, settings: Settings, now: Time, t: nat, update: Update, edges: Edges,
                                      is_: Task)
    requires t in board.tasks
  {
    var was := board.tasks[t];
    && is_.status == AdminStatus(board, t, update, edges)
    && if SentBack(board, t, update, edges) then
         is_.assignee.None? && is_.inProgressAt.None? && is_.previousInProgressAt.None?
       else
         && is_.assignee == (if is_.status == Review && was.status != Review && settings.boardLead.Some? then
                               settings.boardLead
                             else if update.assignee.Some? then update.assignee.value
                             else if update.status in {Some(Inbox), Some(Review)} then None
                             else was.assignee)
         && (update.status in {Some(Inbox), Some(Review)} ==>
               is_.inProgressAt.None? && is_.previousInProgressAt == was.inProgressAt)
         && (update.status == Some(InProgress) ==>
               is_.inProgressAt == Some(now) && is_.previousInProgressAt == was.previousInProgressAt)
         && (update.status in {None, Some(Done)} ==>
               is_.inProgressAt == was.inProgressAt && is_.previousInProgressAt == was.previousInProgressAt)
  }

  ghost predicate AdminRefusal(board: Board, settings: Settings, facts: Facts, t: nat, update: Update, why: Refusal)
    requires t in board.tasks
  {
    || (update.tags && facts.tagRefusal == Some(why))
    || DependencyRefusal(board, t, update, why)
    || (why in {NotFound, Conflict} && !AssigneeFits(settings, update.assignee)
        && (why == NotFound <==> update.assignee.value.value !in settings.agents))
    || (why == GateClosed && EffectiveEdges(board, t, update).Ok? &&
        var edges := EffectiveEdges(board, t, update).value;
        !GatesOpen(settings, facts, board.tasks[t].status, AdminStatus(board, t, update, edges),
                   Changes(update, board.tasks[t])))
    || (why == Unprocessable && !CommentFits(settings, facts, update, update.status))
    || (update.customFields && facts.fieldRefusal == Some(why))
  }

  /** What an administrator's rules make of the task and of the request, before the gates. */
  lemma AdminPrepares(board: Board, settings: Settings, facts: Facts, now: Time, t: nat, update: Update)
    requires t in board.tasks && EffectiveEdges(board, t, update).Ok?
    ensures var edges := EffectiveEdges(board, t, update).value;
            var sent := SentBack(board, t, update, edges);
            match AdminRules(board, settings, facts, now, t, update)
            case Ok((prepared, wanted)) =>
              && TagsFit(facts, update) && (!sent ==> AssigneeFits(settings, update.assignee))
              && prepared.edges == edges && t in prepared.tasks
              && prepared.tasks == board.tasks[t := prepared.tasks[t]]
              && wanted.status == (if sent then Some(Inbox) else update.status)
              && wanted.comment == update.comment && wanted.customFields == update.customFields
              && Written(prepared.tasks[t], wanted).status == AdminStatus(board, t, update, edges)
              && AdministeredAsAsked(board, settings, now, t, update, edges,
                   HandedToLead(settings, Written(prepared.tasks[t], wanted), board.tasks[t].status))
            case Refused(why) =>
              || (update.tags && facts.tagRefusal == Some(why))
              || (!sent && why in {NotFound, Conflict} && !AssigneeFits(settings, update.assignee)
                  && (why == NotFound <==> update.assignee.value.value !in settings.agents))
  {
    hide IsBlocked, EffectiveEdges;
  }

  lemma AdminAnswers(board: Board, settings: Settings, facts: Facts, now: Time, t: nat, update: Update)
    requires WellFormed(board) && t in board.tasks
    ensures var answer := AdminUpdate(board, settings, facts, now, t, update);
            match EffectiveEdges(board, t, update)
            case Refused(_) => answer.Refused? && AdminRefusal(board, settings, facts, t, update, answer.why)
            case Ok(edges) =>
              && (answer.Ok? <==> AdminMay(board, settings, facts, t, update, edges))
              && match answer
                 case Ok(after) =>
                   && t in after.tasks && after.edges == edges && CascadesFrom(board, t, after)
                   && AdministeredAsAsked(board, settings, now, t, update, edges, after.tasks[t])
                 case Refused(why) => AdminRefusal(board, settings, facts, t, update, why)
  {
    hide IsBlocked, WellFormed, IsMove, DependenciesFit, DependencyRefusal, EffectiveEdges, GatesOpen, Finalize,
         AdministeredAsAsked, CascadesFrom, AssigneeFits, SentBack, Written, HandedToLead;
    DependenciesAnswer(board, t, update);
    if EffectiveEdges(board, t, update).Ok? {
      var previous, edges := board.tasks[t].status, EffectiveEdges(board, t, update).value;
      var requested := StatusRequested(update, previous);
      AdminPrepares(board, settings, facts, now, t, update);
      var rules := AdminRules(board, settings, facts, now, t, update);
      if rules.Ok? {
        var (prepared, wanted) := rules.value;
        FinalizeAnswers(prepared, settings, facts, t, previous, requested, wanted);
        TargetWritten(prepared.tasks[t], wanted);
        EffectiveIsSound(board, t, update);
        AdminFinishes(board, settings, facts, now, t, update, prepared, wanted);
      }
    } else {
      TagsThenDependencies(board, settings, facts, now, t, update);
    }
  }

  lemma TargetWritten(task: Task, update: Update)
    ensures Written(task, update).status == if update.status.Some? then update.status.value else task.status
  {
  }

  lemma TagsThenDependencies(board: Board, settings: Settings, facts: Facts, now: Time, t: nat, update: Update)
    requires t in board.tasks && EffectiveEdges(board, t, update).Refused?
    ensures match AdminRules(board, settings, facts, now, t, update)
            case Ok(_) => false
            case Refused(why) => (update.tags && facts.tagRefusal == Some(why))
                                 || EffectiveEdges(board, t, update) == Refused(why)
  {
    hide EffectiveEdges;
  }

  lemma AdminFinishes(board: Board, settings: Settings, facts: Facts, now: Time, t: nat, update: Update,
                      prepared: Board, wanted: Update)
    requires WellFormed(board) && t in board.tasks && t in prepared.tasks
    requires AdminRules(board, settings, facts, now, t, update) == Ok((prepared, wanted))
    requires prepared.tasks == board.tasks[t := prepared.tasks[t]] && WellFormed(Board(board.tasks, prepared.edges))
    requires forall v, w | v != t :: (v, w) in prepared.edges <==> (v, w) in board.edges
    ensures match AdminUpdate(board, settings, facts, now, t, update)
            case Refused(_) => true
            case Ok(after) =>
              && t in after.tasks && after.edges == prepared.edges && CascadesFrom(board, t, after)
              && after.tasks[t]
                 == HandedToLead(settings, Written(prepared.tasks[t], wanted), board.tasks[t].status)
  {
    hide IsBlocked, WellFormed, IsMove, Finalize, CascadesFrom, Written, HandedToLead, AdminRules;
    var previous := board.tasks[t].status;
    var requested := StatusRequested(update, previous);
    FinalizeIsAMove(board, prepared, settings, facts, t, requested, wanted);
    if AdminUpdate(board, settings, facts, now, t, update).Ok? {
      MoveIsMove(board, t, AdminUpdate(board, settings, facts, now, t, update).value);
      MoveCascades(board, t, AdminUpdate(board, settings, facts, now, t, update).value);
    }
  }

  lemma MoveIsMove(board: Board, t: nat, after: Board)
    requires t in board.tasks && IsMove(board, t, after)
    ensures t in after.tasks
  {
  }

  // ---------------------------------------------------------------- leads

  /** The move a lead asks for is one of three: start an assigned task of the inbox, finish a
      reviewed task, or send it back. */
  predicate LeadMoveFits(task: Task, update: Update) {
    update.status.Some? ==>
      || (task.status == Inbox && update.status.value == InProgress
          && update.assignee.Some? && update.assignee.value.Some?)
      || (task.status == Review && update.status.value in {Done, Inbox})
  }

  predicate LeadAssigneeFits(settings: Settings, update: Update) {
    AssigneeFits(settings, update.assignee)
    && (update.assignee.Some? && update.assignee.value.Some? ==> !settings.agents[update.assignee.value.value].isLead)
  }

  ghost predicate LeadMay(board: Board, settings: Settings, facts: Facts, t: nat, update: Update, edges: Edges)
    requires t in board.tasks
  {
    var task := board.tasks[t];
    && !update.comment && !update.otherFields
    && DependenciesFit(board, t, update) && TagsFit(facts, update)
    && (update.status.Some? || update.assignee.Some? ==> !IsBlocked(board.tasks, edges, t))
    && LeadAssigneeFits(settings, update) && LeadMoveFits(task, update)
    && GatesOpen(settings, facts, task.status, if update.status.Some? then update.status.value else task.status, true)
    && FieldsFit(facts, update)
  }

  /** A lead's patch gives the task the status and the assignee asked for; one sent back from
      review goes to the worker who had it, with the clock stopped. */
  ghost predicate LedAsAsked(facts: Facts, was: Task, update: Update, is_: Task) {
    && is_.status == (if update.status.Some? then update.status.value else was.status)
    && is_.assignee == (if update.status == Some(Inbox) then facts.lastWorkerInReview
                        else if update.assignee.Some? then update.assignee.value
                        else was.assignee)
    && (update.status == Some(Inbox) ==> is_.inProgressAt.None?)
    && (update.status != Some(Inbox) ==> is_.inProgressAt == was.inProgressAt)
    && is_.previousInProgressAt == was.previousInProgressAt
  }

  ghost predicate LeadRefusal(board: Board, settings: Settings, facts: Facts, t: nat, update: Update, why: Refusal)
    requires t in board.tasks
  {
    var task := board.tasks[t];
    var target := if update.status.Some? then update.status.value else task.status;
    || (why == Forbidden
        && (update.comment || update.otherFields || !LeadMoveFits(task, update)
            || (update.assignee.Some? && update.assignee.value.Some?
                && update.assignee.value.value in settings.agents
                && settings.agents[update.assignee.value.value].isLead)))
    || DependencyRefusal(board, t, update, why)
    || (update.tags && facts.tagRefusal == Some(why))
    || (why == Blocked && (update.status.Some? || update.assignee.Some?) && EffectiveEdges(board, t, update).Ok?
        && IsBlocked(board.tasks, EffectiveEdges(board, t, update).value, t))
    || (why in {NotFound, Conflict} && !AssigneeFits(settings, update.assignee)
        && (why == NotFound <==> update.assignee.value.value !in settings.agents))
    || (why == GateClosed && !GatesOpen(settings, facts, task.status, target, true))
    || (update.customFields && facts.fieldRefusal == Some(why))
  }

  lemma LeadAssigns(settings: Settings, task: Task, update: Update)
    ensures match LeadAssignment(settings, task, update)
            case Ok(staffed) =>
              && LeadAssigneeFits(settings, update)
              && staffed.status == task.status && staffed.inProgressAt == task.inProgressAt
              && staffed.previousInProgressAt == task.previousInProgressAt
              && staffed.assignee == if update.assignee.Some? then update.assignee.value else task.assignee
            case Refused(why) =>
              && !LeadAssigneeFits(settings, update)
              && var a := update.assignee.value.value;
                 && (why == NotFound <==> a !in settings.agents)
                 && (why == Forbidden <==> a in settings.agents && settings.agents[a].isLead)
                 && (why == Conflict <==> a in settings.agents && !settings.agents[a].isLead
                                          && !OfBoard(settings, settings.agents[a]))
                 && why in {NotFound, Forbidden, Conflict}
  {
  }

  lemma LeadStatusAnswers(facts: Facts, task: Task, staffed: Task, update: Update)
    requires staffed.status == task.status && staffed.inProgressAt == task.inProgressAt
    requires staffed.previousInProgressAt == task.previousInProgressAt
    requires staffed.assignee == if update.assignee.Some? then update.assignee.value else task.assignee
    ensures match LeadStatus(facts, staffed, update)
            case Ok(moved) => LeadMoveFits(task, update) && LedAsAsked(facts, task, update, moved)
            case Refused(why) => why == Forbidden && !LeadMoveFits(task, update)
  {
  }

  lemma LeadAnswers(board: Board, settings: Settings, facts: Facts, t: nat, update: Update)
    requires WellFormed(board) && t in board.tasks
    ensures var answer := LeadUpdate(board, settings, facts, t, update);
            match EffectiveEdges(board, t, update)
            case Refused(_) => answer.Refused? && LeadRefusal(board, settings, facts, t, update, answer.why)
            case Ok(edges) =>
              && (answer.Ok? <==> LeadMay(board, settings, facts, t, update, edges))
              && match answer
                 case Ok(after) =>
                   && t in after.tasks && after.edges == edges && CascadesFrom(board, t, after)
                   && LedAsAsked(facts, board.tasks[t], update, after.tasks[t])
                 case Refused(why) => LeadRefusal(board, settings, facts, t, update, why)
  {
    hide IsBlocked, WellFormed, IsMove, DependenciesFit, DependencyRefusal, EffectiveEdges, GatesOpen, StatusGates,
         CascadesFrom, LeadAssignment, LeadStatus, LeadMoveFits, LedAsAsked, TaskRules.ReconcileDependents;
    DependenciesAnswer(board, t, update);
    if EffectiveEdges(board, t, update).Ok? {
      EffectiveIsSound(board, t, update);
      var task, edges := board.tasks[t], EffectiveEdges(board, t, update).value;
      LeadAssigns(settings, task, update);
      var staffed := LeadAssignment(settings, task, update);
      if staffed.Ok? {
        LeadStatusAnswers(facts, task, staffed.value, update);
        var moved := LeadStatus(facts, staffed.value, update);
        if moved.Ok? {
          GatesAnswer(settings, facts, task.status, moved.value.status, StatusRequested(update, task.status));
          StayingIsOpen(settings, facts, task.status, StatusRequested(update, task.status));
          LeadFinishes(board, t, edges, moved.value);
        }
      }
    }
  }

  lemma LeadFinishes(board: Board, t: nat, edges: Edges, task: Task)
    requires t in board.tasks && WellFormed(Board(board.tasks, edges))
    requires RowsOfOthers(board, t, edges)
    ensures var after := Moved(board, edges, t, task);
            t in after.tasks && after.edges == edges && after.tasks[t] == task && CascadesFrom(board, t, after)
  {
    hide IsBlocked, WellFormed, IsMove, CascadesFrom;
    MakeMove(board, edges, t, task);
    MoveIsMove(board, t, Moved(board, edges, t, task));
    MoveCascades(board, t, Moved(board, edges, t, task));
  }

  ghost predicate RowsOfOthers(board: Board, t: nat, edges: Edges) {
    forall v, w | v != t :: (v, w) in edges <==> (v, w) in board.edges
  }

  // ---------------------------------------------------------------- any patch

  /** The patch is one its actor may make. */
  ghost predicate PatchMay(board: Board, request: Request)
    requires request.Patch? && request.t in board.tasks
  {
    var t, settings, facts, update := request.t, request.settings, request.facts, request.update;
    EffectiveEdges(board, t, update).Ok? &&
    var edges := EffectiveEdges(board, t, update).value;
    match request.actor
    case Lead => LeadMay(board, settings, facts, t, update, edges)
    case Worker(agent) => WorkerMay(board, settings, facts, agent, t, update)
    case Admin => facts.accessRefusal.None? && AdminMay(board, settings, facts, t, update, edges)
  }

  /** The task is what the patch of its actor makes of it. */
  ghost predicate PatchedAsAsked(board: Board, request: Request, after: Board)
    requires request.Patch? && request.t in board.tasks
  {
    var t, settings, facts, update := request.t, request.settings, request.facts, request.update;
    t in after.tasks &&
    match request.actor
    case Lead => LedAsAsked(facts, board.tasks[t], update, after.tasks[t])
    case Worker(agent) => WorkedAsAsked(settings, agent, request.now, board.tasks[t], update, after.tasks[t])
    case Admin => AdministeredAsAsked(board, settings, request.now, t, update, after.edges, after.tasks[t])
  }

  ghost predicate PatchRefusal(board: Board, request: Request, why: Refusal)
    requires request.Patch? && request.t in board.tasks
  {
    var t, settings, facts, update := request.t, request.settings, request.facts, request.update;
    match request.actor
    case Lead => LeadRefusal(board, settings, facts, t, update, why)
    case Worker(agent) => WorkerRefusal(board, settings, facts, agent, t, update, why)
    case Admin => facts.accessRefusal == Some(why)
                  || (facts.accessRefusal.None? && AdminRefusal(board, settings, facts, t, update, why))
  }

  /** A patch, by whomever, is accepted if and only if its actor may make it; it then does to the
      task, its rows and its dependents what it has to, and a refusal has its reason. */
  lemma PatchAnswers(board: Board, request: Request)
    requires WellFormed(board) && request.Patch? && request.t in board.tasks
    ensures Answer(board, request).Ok? <==> PatchMay(board, request)
    ensures match Answer(board, request)
            case Ok(after) =>
              && PatchedAsAsked(board, request, after) && CascadesFrom(board, request.t, after)
              && RowsAsAsked(board, request.t, request.update, after.edges)
            case Refused(why) => PatchRefusal(board, request, why)
  {
    hide IsBlocked, WellFormed, DependenciesFit, DependencyRefusal, EffectiveEdges, CascadesFrom, LeadUpdate,
         WorkerUpdate, AdminUpdate, LeadMay, AdminMay, WorkedAsAsked, LedAsAsked, AdministeredAsAsked, LeadRefusal,
         WorkerRefusal, AdminRefusal, RowsAsAsked;
    var t, settings, facts, update := request.t, request.settings, request.facts, request.update;
    DependenciesAnswer(board, t, update);
    OwnRows(board, t, update);
    match request.actor
    case Lead => LeadAnswers(board, settings, facts, t, update);
    case Worker(agent) => WorkerAnswers(board, settings, facts, agent, request.now, t, update);
    case Admin => AdminAnswers(board, settings, facts, request.now, t, update);
  }

  // ---------------------------------------------------------------- finishing a task

  /** What a patch that asks for done has to meet: its dependencies are done under the list asked
      for, the gates are open, and its actor may ask for all that it asks. */
  ghost predicate EarnsDone(board: Board, request: Request)
    requires request.Patch? && request.t in board.tasks
  {
    var t, task, settings, facts, update :=
      request.t, board.tasks[request.t], request.settings, request.facts, request.update;
    && update.status == Some(Done)
    && DependenciesFit(board, t, update) && FieldsFit(facts, update)
    && EffectiveEdges(board, t, update).Ok? && !IsBlocked(board.tasks, EffectiveEdges(board, t, update).value, t)
    && (settings.requireReviewBeforeDone ==> task.status == Review)
    && (settings.requireApprovalForDone ==> facts.approvedApproval)
    && (settings.blockStatusWithPendingApproval ==> !facts.pendingApproval)
    && match request.actor
       case Lead =>
         && task.status == Review && !update.comment && !update.otherFields && TagsFit(facts, update)
         && LeadAssigneeFits(settings, update)
       case Worker(agent) =>
         && OfBoard(settings, agent) && task.assignee in {None, Some(agent.id)} && !settings.onlyLeadCanChangeStatus
         && update.dependsOn.None? && !update.tags && update.assignee.None? && !update.otherFields
       case Admin =>
         facts.accessRefusal.None? && TagsFit(facts, update) && AssigneeFits(settings, update.assignee)
  }

  /** A task that is not done becomes done if and only if a patch of it earns that. */
  lemma DoneIffEarned(board: Board, request: Request, t: nat)
    requires WellFormed(board) && t in board.tasks && board.tasks[t].status != Done
    ensures t in Apply(board, request).tasks && Apply(board, request).tasks[t].status == Done <==>
            request.Patch? && request.t == t && EarnsDone(board, request)
  {
    hide IsBlocked, WellFormed, DependenciesFit, EffectiveEdges, CascadesFrom, LeadUpdate, WorkerUpdate, AdminUpdate,
         LeadAssigneeFits, AssigneeFits, OfBoard;
    if t in Apply(board, request).tasks && Apply(board, request).tasks[t].status == Done {
      DoneIsEarned(board, request, t);
    }
    if request.Patch? && request.t == t {
      OwnDoneIff(board, request);
    }
  }

  lemma OwnDoneIff(board: Board, request: Request)
    requires WellFormed(board) && request.Patch? && request.t in board.tasks && board.tasks[request.t].status != Done
    ensures request.t in Apply(board, request).tasks && Apply(board, request).tasks[request.t].status == Done <==>
            EarnsDone(board, request)
  {
    hide IsBlocked, WellFormed, DependenciesFit, EffectiveEdges, CascadesFrom, LeadUpdate, WorkerUpdate, AdminUpdate,
         LeadAssigneeFits, AssigneeFits, OfBoard;
    var t, settings, facts, update := request.t, request.settings, request.facts, request.update;
    DependenciesAnswer(board, t, update);
    match request.actor
    case Lead => LeadAnswers(board, settings, facts, t, update);
    case Worker(agent) =>
      WorkerAnswers(board, settings, facts, agent, request.now, t, update);
      OwnRows(board, t, update);
    case Admin => AdminAnswers(board, settings, facts, request.now, t, update);
  }

  lemma OwnRows(board: Board, t: nat, update: Update)
    requires t in board.tasks
    ensures update.dependsOn.None? ==>
              EffectiveEdges(board, t, update) == Ok(board.edges) && DependenciesFit(board, t, update)
  {
  }

  // ---------------------------------------------------------------- creation and deletion

  /** A task is created if and only if its list names known tasks, not itself, and it is idle in
      the inbox or has no unfinished dependency; it is then as asked, with no clock, and the
      other tasks and rows are as they were. */
  lemma CreationAnswers(board: Board, facts: Facts, t: nat, status: Status, assignee: Option<nat>, deps: seq<nat>)
    requires WellFormed(board) && t !in board.tasks
    ensures var answer := CreateTask(board, facts, t, status, assignee, deps);
            var known := t !in deps && forall d | d in deps :: d in board.tasks;
            var waits := exists d | d in deps :: d in board.tasks && board.tasks[d].status != Done;
            var misplaced := waits && (assignee.Some? || status != Inbox);
            && (answer.Ok? <==> known && facts.tagRefusal.None? && !misplaced && facts.fieldRefusal.None?)
            && match answer
               case Ok(after) =>
                 && after.tasks.Keys == board.tasks.Keys + {t}
                 && (forall v | v in board.tasks :: after.tasks[v] == board.tasks[v])
                 && after.tasks[t].status == status && after.tasks[t].assignee == assignee
                 && after.tasks[t].inProgressAt.None? && after.tasks[t].previousInProgressAt.None?
                 && forall v: nat, w: nat :: (v, w) in after.edges <==>
                      if v == t then w in deps else (v, w) in board.edges
               case Refused(why) =>
                 || (why == Unprocessable && t in deps)
                 || (why == NotFound && exists d | d in deps :: d !in board.tasks)
                 || facts.tagRefusal == Some(why)
                 || (why == Blocked && misplaced)
                 || facts.fieldRefusal == Some(why)
  {
    var rows := WithDependencies(board.edges, t, deps);
    forall v: nat, w: nat ensures (v, w) in rows <==> if v == t then w in deps else (v, w) in board.edges {
      OwnRowsOnly(board.edges, t, deps, v, w);
    }
    if t !in deps && forall d | d in deps :: d in board.tasks {
      NewTaskClosesNoCycle(board, t, deps);
      if IsBlocked(board.tasks, rows, t) {
        var d := BlockedBy(board.tasks, rows, t);
      }
      forall d | d in deps && board.tasks[d].status != Done ensures IsBlocked(board.tasks, rows, t) {
        Blocks(board.tasks, rows, t, d);
      }
    }
  }

  /** Nothing depends on a task that is not there yet, so its list cannot close a cycle. */
  lemma NewTaskClosesNoCycle(board: Board, t: nat, deps: seq<nat>)
    requires WellFormed(board) && t !in board.tasks && t !in deps
    ensures !Cyclic(WithDependencies(board.edges, t, deps))
  {
    var rows := WithDependencies(board.edges, t, deps);
    forall v, w | (v, w) in rows ensures w != t {
      OwnRowsOnly(board.edges, t, deps, v, w);
    }
    if Cyclic(rows) {
      var p :| IsCycle(rows, p);
      CycleAvoids(board.edges, rows, p, t, deps);
      assert IsCycle(board.edges, p);
    }
  }

  lemma CycleAvoids(edges: Edges, rows: Edges, p: seq<nat>, t: nat, deps: seq<nat>)
    requires rows == WithDependencies(edges, t, deps) && IsCycle(rows, p)
    requires forall v, w | (v, w) in rows :: w != t
    ensures IsWalk(edges, p)
  {
    assert (p[|p| - 2], p[|p| - 1]) in rows;
    forall i, j | 0 <= i < j < |p| && j == i + 1 ensures (p[i], p[j]) in edges {
      assert (p[i], p[j]) in rows;
      if i > 0 { assert (p[i - 1], p[i]) in rows; }
      OwnRowsOnly(edges, t, deps, p[i], p[j]);
    }
  }

  /** Deleting a task removes it and every row that names it, and nothing else. */
  lemma DeletionAnswers(board: Board, t: nat)
    ensures var after := DeleteTask(board, t);
            && after.tasks.Keys == board.tasks.Keys - {t}
            && (forall v | v in after.tasks :: after.tasks[v] == board.tasks[v])
            && forall v: nat, w: nat :: (v, w) in after.edges <==> (v, w) in board.edges && v != t && w != t
  {
  }

  /** Deleting an agent leaves none of its tasks with it: those in progress are back in the inbox
      with the clock stopped, the others keep their status and clock. */
  lemma AgentLeaves(board: Board, agent: nat, t: nat)
    requires t in board.tasks
    ensures var after := RemoveAgent(board, agent);
            && after.tasks.Keys == board.tasks.Keys && after.edges == board.edges
            && var was, is_ := board.tasks[t], after.tasks[t];
            && is_.assignee != Some(agent)
            && (was.assignee != Some(agent) ==> is_ == was)
            && (was.assignee == Some(agent) ==>
                  && is_.assignee.None? && is_.previousInProgressAt == was.previousInProgressAt
                  && (was.status == InProgress ==> is_.status == Inbox && is_.inProgressAt.None?)
                  && (was.status != InProgress ==> is_.status == was.status && is_.inProgressAt == was.inProgressAt))
  {
  }
}
