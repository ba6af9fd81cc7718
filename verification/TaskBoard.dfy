/** The task and dependency tables of one board, changed in place by the task endpoints.
    Each endpoint does to the tables what its function in TaskRules says; a refusal rolls
    the session back. */
module TaskBoard {
  import opened Policy
  import opened DependencyGraph
  import opened TaskRules
  import opened BoardSafety

  /** No dependency row names a missing task, as the foreign keys demand. */
  predicate KeysHold(board: Board) {
    forall e | e in board.edges :: e.0 in board.tasks && e.1 in board.tasks
  }

  /** `answer` is what the caller was told and what the tables now hold. */
  predicate Delivered(answer: Result<Board>, refusal: Option<Refusal>, before: Board, now: Board) {
    match answer
    case Ok(after) => refusal.None? && now == after
    case Refused(why) => refusal == Some(why) && now == before
  }

  lemma CycleMeetsTasks(tasks: map<nat, Task>, edges: Edges, p: seq<nat>)
    requires (forall e | e in edges :: e.1 in tasks) && IsCycle(edges, p)
    ensures p[0] in tasks
  {
    assert (p[|p| - 2], p[|p| - 1]) in edges;
  }

  class TaskTables {
    var tasks: map<nat, Task>
    var edges: Edges

    constructor ()
      ensures Valid() && Rows() == Board(map[], {})
    {
      tasks, edges := map[], {};
      EmptyIsWellFormed();
    }

    /** The dependency graph has no dangling rows and no cycle. */
    ghost predicate Valid()
      reads this
    {
      WellFormed(Rows())
    }

    function Rows(): Board
      reads this
    {
      Board(tasks, edges)
    }

    // -------------------------------------------------------------- dependencies

    /** The board's task identifiers, in whatever order the rows come. */
    method TaskIds() returns (ids: seq<nat>)
      ensures forall t :: t in ids <==> t in tasks
    {
      ids := [];
      var remaining := tasks.Keys;
      while remaining != {}
        invariant remaining <= tasks.Keys
        invariant forall t :: t in ids <==> t in tasks && t !in remaining
        decreases remaining
      {
        var t :| t in remaining;
        ids := ids + [t];
        remaining := remaining - {t};
      }
    }

    method ValidateDependencyUpdate(t: nat, deps: seq<nat>) returns (refusal: Option<Refusal>)
      requires KeysHold(Rows())
      ensures refusal == (match ReplaceDependencies(Rows(), t, deps) case Ok(_) => None case Refused(why) => Some(why))
    {
      if t in deps {
        return Some(Unprocessable);
      }
      if deps == [] {
        return None;
      }
      for i := 0 to |deps|
        invariant forall k | 0 <= k < i :: deps[k] in tasks
      {
        if deps[i] !in tasks {
          return Some(NotFound);
        }
      }
      var overlay := WithDependencies(edges, t, deps);
      var search := new CycleSearch(overlay);
      var ids := TaskIds();
      var found := search.HasCycle(ids, tasks.Keys);
      forall p | IsCycle(overlay, p) ensures p[0] in ids {
        CycleMeetsTasks(tasks, overlay, p);
      }
      refusal := if found then Some(Conflict) else None;
    }

    method ReplaceTaskDependencies(t: nat, deps: seq<nat>) returns (refusal: Option<Refusal>)
      requires KeysHold(Rows())
      modifies this`edges
      ensures match ReplaceDependencies(old(Rows()), t, deps)
              case Ok(rows) => refusal.None? && edges == rows
              case Refused(why) => refusal == Some(why) && edges == old(edges)
    {
      refusal := ValidateDependencyUpdate(t, deps);
      if refusal.Some? {
        return;
      }
      edges := set e | e in edges && e.0 != t;
      ghost var kept := edges;
      for i := 0 to |deps|
        invariant edges == kept + set d | d in deps[..i] :: (t, d)
      {
        edges := edges + {(t, deps[i])};
        assert deps[..i + 1] == deps[..i] + [deps[i]];
      }
      assert deps[..|deps|] == deps;
    }

    // -------------------------------------------------------------- the cascade

    /** Reset the dependents one by one when a finished task is reopened. */
    method ReconcileDependents(t: nat, previous: Status)
      requires t in tasks
      modifies this`tasks
      ensures tasks == TaskRules.ReconcileDependents(old(tasks), edges, t, previous)
    {
      if (previous == Done) == (tasks[t].status == Done) {
        return;
      }
      var reopened := previous == Done;
      var dependents := set d | d in tasks && (d, t) in edges;
      var remaining := dependents;
      while remaining != {}
        invariant remaining <= dependents && tasks.Keys == old(tasks).Keys
        invariant forall d | d in tasks ::
                    tasks[d] == if reopened && d in dependents - remaining then Returned(old(tasks)[d])
                        else old(tasks)[d]
        decreases remaining
      {
        var d :| d in remaining;
        remaining := remaining - {d};
        if tasks[d].status != Done && reopened {
          tasks := tasks[d := tasks[d].(status := Inbox)];
          tasks := tasks[d := tasks[d].(assignee := None)];
          tasks := tasks[d := tasks[d].(inProgressAt := None)];
        }
      }
    }

    // -------------------------------------------------------------- creation and deletion

    method CreateTask(facts: Facts, t: nat, status: Status, assignee: Option<nat>, deps: seq<nat>)
      returns (refusal: Option<Refusal>)
      requires Valid() && t !in tasks
      modifies this
      ensures Valid()
      ensures Delivered(TaskRules.CreateTask(old(Rows()), facts, t, status, assignee, deps), refusal, old(Rows()),
                        Rows())
      ensures old(Orderly(Rows())) ==> Orderly(Rows())
    {
      hide WellFormed, Orderly;
      ghost var request := Create(facts, t, status, assignee, deps);
      StepKeepsWellFormed(Rows(), request);
      WellFormedKeys(Rows());
      if Orderly(Rows()) {
        OrderlyIffNotStranding(Rows(), request);
      }
      refusal := InsertTask(facts, t, status, assignee, deps);
    }

    method InsertTask(facts: Facts, t: nat, status: Status, assignee: Option<nat>, deps: seq<nat>)
      returns (refusal: Option<Refusal>)
      requires KeysHold(Rows()) && t !in tasks
      modifies this
      ensures Delivered(TaskRules.CreateTask(old(Rows()), facts, t, status, assignee, deps), refusal, old(Rows()),
                        Rows())
    {
      refusal := ValidateDependencyUpdate(t, deps);
      if refusal.Some? {
        return;
      }
      if facts.tagRefusal.Some? {
        return facts.tagRefusal;
      }
      var wanted := set d | d in deps :: (t, d);
      var blocked := exists d | d in deps :: tasks[d].status != Done;
      BlockedAtBirth(tasks, edges, t, deps);
      if blocked && (assignee.Some? || status != Inbox) {
        return Some(Blocked);
      }
      tasks := tasks[t := Task(status, assignee, None, None)];
      if facts.fieldRefusal.Some? {
        tasks := tasks - {t};
        assert tasks == old(tasks);
        return facts.fieldRefusal;
      }
      edges := edges + wanted;
      assert edges == WithDependencies(old(edges), t, deps);
    }

    method DeleteTask(t: nat)
      requires Valid()
      modifies this
      ensures Valid() && Rows() == TaskRules.DeleteTask(old(Rows()), t)
    {
      DeleteKeeps(Rows(), t);
      edges := set e | e in edges && !(e.0 == t || e.1 == t);
      tasks := tasks - {t};
      assert edges == TaskRules.DeleteTask(old(Rows()), t).edges;
    }

    /** Two bulk updates: first the agent's started tasks, then whatever it still holds. */
    method DeleteAgent(agent: nat)
      requires Valid()
      modifies this`tasks
      ensures Valid() && Rows() == RemoveAgent(old(Rows()), agent)
    {
      hide WellFormed;
      RemoveAgentKeeps(Rows(), agent);
      tasks := map t | t in tasks ::
        if tasks[t].assignee == Some(agent) && tasks[t].status == InProgress then
          tasks[t].(assignee := None, status := Inbox, inProgressAt := None)
        else tasks[t];
      tasks := map t | t in tasks ::
        if tasks[t].assignee == Some(agent) && tasks[t].status != InProgress then tasks[t].(assignee := None)
            else tasks[t];
      assert Rows() == RemoveAgent(old(Rows()), agent);
    }

    // -------------------------------------------------------------- updates

    method Rollback(saved: Board)
      modifies this
      ensures Rows() == saved
    {
      tasks, edges := saved.tasks, saved.edges;
    }

    method EffectiveDependencies(t: nat, update: Update) returns (refusal: Option<Refusal>)
      requires KeysHold(Rows()) && t in tasks
      modifies this`edges
      ensures match EffectiveEdges(old(Rows()), t, update)
              case Ok(rows) => refusal.None? && edges == rows
              case Refused(why) => refusal == Some(why) && edges == old(edges)
    {
      if update.dependsOn.None? {
        return None;
      }
      if tasks[t].status == Done {
        return Some(Conflict);
      }
      refusal := ReplaceTaskDependencies(t, update.dependsOn.value);
    }

    method LeadApplyAssignment(settings: Settings, t: nat, update: Update) returns (refusal: Option<Refusal>)
      requires t in tasks
      modifies this`tasks
      ensures match LeadAssignment(settings, old(tasks)[t], update)
              case Ok(task) => refusal.None? && tasks == old(tasks)[t := task]
              case Refused(why) => refusal == Some(why)
    {
      if update.assignee.None? {
        return None;
      }
      if update.assignee.value.None? {
        tasks := tasks[t := tasks[t].(assignee := None)];
        return None;
      }
      var a := update.assignee.value.value;
      if a !in settings.agents {
        return Some(NotFound);
      }
      var agent := settings.agents[a];
      if agent.isLead {
        return Some(Forbidden);
      }
      if agent.boardId.Some? && agent.boardId.value != settings.boardId {
        return Some(Conflict);
      }
      tasks := tasks[t := tasks[t].(assignee := Some(a))];
      refusal := None;
    }

    method LeadApplyStatus(facts: Facts, t: nat, update: Update) returns (refusal: Option<Refusal>)
      requires t in tasks
      modifies this`tasks
      ensures match LeadStatus(facts, old(tasks)[t], update)
              case Ok(task) => refusal.None? && tasks == old(tasks)[t := task]
              case Refused(why) => refusal == Some(why)
    {
      if update.status.None? {
        return None;
      }
      var target := update.status.value;
      if tasks[t].status != Review {
        var assigning := update.assignee.Some? && update.assignee.value.Some?;
        if tasks[t].status == Inbox && target == InProgress && assigning {
          tasks := tasks[t := tasks[t].(status := target)];
          return None;
        }
        return Some(Forbidden);
      }
      if target !in {Done, Inbox} {
        return Some(Forbidden);
      }
      if target == Inbox {
        tasks := tasks[t := tasks[t].(assignee := facts.lastWorkerInReview)];
        tasks := tasks[t := tasks[t].(inProgressAt := None)];
      }
      tasks := tasks[t := tasks[t].(status := target)];
      refusal := None;
    }

    method ApplyLeadUpdate(settings: Settings, facts: Facts, t: nat, update: Update) returns (refusal: Option<Refusal>)
      requires KeysHold(Rows()) && t in tasks
      modifies this
      ensures match LeadUpdate(old(Rows()), settings, facts, t, update)
              case Ok(after) => refusal.None? && Rows() == after
              case Refused(why) => refusal == Some(why)
    {
      hide IsBlocked, StatusGates, EffectiveEdges, TaskRules.ReconcileDependents, LeadAssignment, LeadStatus, KeysHold;
      var previous := tasks[t].status;
      if update.comment || update.otherFields {
        return Some(Forbidden);
      }
      refusal := EffectiveDependencies(t, update);
      if refusal.Some? {
        return;
      }
      if update.tags && facts.tagRefusal.Some? {
        return facts.tagRefusal;
      }
      if IsBlocked(tasks, edges, t) && (update.assignee.Some? || update.status.Some?) {
        return Some(Blocked);
      }
      refusal := LeadApplyAssignment(settings, t, update);
      if refusal.Some? {
        return;
      }
      refusal := LeadApplyStatus(facts, t, update);
      if refusal.Some? {
        return;
      }
      assert tasks == old(tasks)[t := tasks[t]];
      refusal := StatusGates(settings, facts, previous, tasks[t].status, StatusRequested(update, previous));
      if refusal.Some? {
        return;
      }
      if update.customFields && facts.fieldRefusal.Some? {
        return facts.fieldRefusal;
      }
      ReconcileDependents(t, previous);
    }

    method ApplyWorkerRules(settings: Settings, agent: Agent, now: Time, t: nat, update: Update)
      returns (refusal: Option<Refusal>)
      requires t in tasks
      modifies this`tasks
      ensures match WorkerRules(old(Rows()), settings, agent, now, t, update)
              case Ok(prepared) => refusal.None? && Rows() == prepared
              case Refused(why) => refusal == Some(why)
    {
      if agent.boardId.Some? && agent.boardId.value != settings.boardId {
        return Some(Forbidden);
      }
      if tasks[t].assignee.Some? && tasks[t].assignee.value != agent.id && update.status.Some? {
        return Some(Forbidden);
      }
      if update.dependsOn.Some? || update.tags || update.assignee.Some? || update.otherFields {
        return Some(Forbidden);
      }
      if update.status.Some? {
        if settings.onlyLeadCanChangeStatus {
          return Some(Forbidden);
        }
        var status := update.status.value;
        if status != Inbox && IsBlocked(tasks, edges, t) {
          return Some(Blocked);
        }
        if status == Inbox || status == Review {
          LeaveProgress(t);
        } else {
          tasks := tasks[t := tasks[t].(assignee := Some(agent.id))];
          if status == InProgress {
            tasks := tasks[t := tasks[t].(inProgressAt := Some(now))];
          }
        }
      }
      assert tasks == old(tasks)[t := tasks[t]];
      refusal := None;
    }

    /** Unassign, remember when work had started, and stop the clock. */
    method LeaveProgress(t: nat)
      requires t in tasks
      modifies this`tasks
      ensures tasks == old(tasks)[t := LeftProgress(old(tasks)[t])]
    {
      tasks := tasks[t := tasks[t].(assignee := None)];
      tasks := tasks[t := tasks[t].(previousInProgressAt := tasks[t].inProgressAt)];
      tasks := tasks[t := tasks[t].(inProgressAt := None)];
    }

    /** A blocked request is turned into a return to the inbox, in the row and in the
        request. */
    method ResetIfBlocked(t: nat, update: Update) returns (rewritten: Update)
      requires t in tasks
      modifies this`tasks
      ensures t in tasks && tasks == old(tasks)[t := tasks[t]]
      ensures (tasks[t], rewritten) == AdminRewrite(old(tasks)[t], update, old(IsBlocked(tasks, edges, t)))
    {
      hide IsBlocked;
      rewritten := update;
      var target := if update.status.Some? then update.status.value else tasks[t].status;
      if IsBlocked(tasks, edges, t) && !(tasks[t].status == Done && target == Done) {
        tasks := tasks[t := tasks[t].(status := Inbox)];
        tasks := tasks[t := tasks[t].(assignee := None)];
        tasks := tasks[t := tasks[t].(inProgressAt := None)];
        rewritten := rewritten.(status := Some(Inbox));
        rewritten := rewritten.(assignee := Some(None));
      }
    }

    method EnterRequestedStatus(t: nat, update: Update, now: Time)
      requires t in tasks
      modifies this`tasks
      ensures tasks == old(tasks)[t := if update.status.Some? then EnterStatus(old(tasks)[t], update.status.value, now)
                                       else old(tasks)[t]]
    {
      if update.status.Some? {
        if update.status.value in {Inbox, Review} {
          LeaveProgress(t);
        } else if update.status.value == InProgress {
          tasks := tasks[t := tasks[t].(inProgressAt := Some(now))];
        }
      }
    }

    method ApplyAdminRules(settings: Settings, facts: Facts, now: Time, t: nat, update: Update)
      returns (refusal: Option<Refusal>, rewritten: Update)
      requires KeysHold(Rows()) && t in tasks
      modifies this
      ensures match AdminRules(old(Rows()), settings, facts, now, t, update)
              case Ok((prepared, wanted)) => refusal.None? && Rows() == prepared && rewritten == wanted
              case Refused(why) => refusal == Some(why)
    {
      hide IsBlocked, EffectiveEdges, KeysHold, AdminRewrite, EnterStatus;
      rewritten := update;
      if update.tags && facts.tagRefusal.Some? {
        return facts.tagRefusal, rewritten;
      }
      refusal := EffectiveDependencies(t, update);
      if refusal.Some? {
        return;
      }
      rewritten := ResetIfBlocked(t, update);
      EnterRequestedStatus(t, rewritten, now);
      assert tasks == old(tasks)[t := tasks[t]];
      if rewritten.assignee.Some? && rewritten.assignee.value.Some? {
        var a := rewritten.assignee.value.value;
        if a !in settings.agents {
          return Some(NotFound), rewritten;
        }
        if settings.agents[a].boardId.Some? && settings.agents[a].boardId.value != settings.boardId {
          return Some(Conflict), rewritten;
        }
      }
      refusal := None;
    }

    method WriteFields(t: nat, update: Update)
      requires t in tasks
      modifies this`tasks
      ensures tasks == old(tasks)[t := Written(old(tasks)[t], update)]
    {
      if update.status.Some? {
        tasks := tasks[t := tasks[t].(status := update.status.value)];
      }
      if update.assignee.Some? {
        tasks := tasks[t := tasks[t].(assignee := update.assignee.value)];
      }
    }

    method AssignReviewTaskToLead(settings: Settings, t: nat, previous: Status)
      requires t in tasks
      modifies this`tasks
      ensures tasks == old(tasks)[t := HandedToLead(settings, old(tasks)[t], previous)]
    {
      if tasks[t].status != Review || previous == Review {
        return;
      }
      if settings.boardLead.None? {
        return;
      }
      tasks := tasks[t := tasks[t].(assignee := settings.boardLead)];
    }

    method FinalizeUpdatedTask(settings: Settings, facts: Facts, t: nat, previous: Status, requested: bool,
                               update: Update)
      returns (refusal: Option<Refusal>)
      requires t in tasks
      modifies this
      ensures match Finalize(old(Rows()), settings, facts, t, previous, requested, update)
              case Ok(after) => refusal.None? && Rows() == after
              case Refused(why) => refusal == Some(why)
    {
      hide StatusGates, TaskRules.ReconcileDependents, Written, HandedToLead;
      WriteFields(t, update);
      refusal := StatusGates(settings, facts, previous, tasks[t].status, requested);
      if refusal.Some? {
        return;
      }
      if update.status == Some(Review) && settings.commentRequiredForReview {
        if !update.comment && !facts.recentComment {
          return Some(Unprocessable);
        }
      }
      AssignReviewTaskToLead(settings, t, previous);
      if update.customFields && facts.fieldRefusal.Some? {
        return facts.fieldRefusal;
      }
      assert tasks == old(tasks)[t := tasks[t]];
      ReconcileDependents(t, previous);
    }

    method PatchRows(actor: Actor, settings: Settings, facts: Facts, now: Time, t: nat, update: Update)
      returns (refusal: Option<Refusal>)
      requires KeysHold(Rows()) && t in tasks
      modifies this
      ensures Delivered(TaskRules.UpdateTask(old(Rows()), actor, settings, facts, now, t, update), refusal,
                        old(Rows()), Rows())
    {
      var saved := Rows();
      var previous := tasks[t].status;
      var requested := StatusRequested(update, previous);
      if actor.Admin? && facts.accessRefusal.Some? {
        return facts.accessRefusal;
      }
      if actor.Lead? {
        refusal := ApplyLeadUpdate(settings, facts, t, update);
      } else {
        var wanted := update;
        if actor.Worker? {
          refusal := ApplyWorkerRules(settings, actor.agent, now, t, update);
        } else {
          refusal, wanted := ApplyAdminRules(settings, facts, now, t, update);
        }
        if refusal.None? {
          refusal := FinalizeUpdatedTask(settings, facts, t, previous, requested, wanted);
        }
      }
      if refusal.Some? {
        Rollback(saved);
      }
    }

    /** An orderly board stays orderly unless the patch strands its task. */
    method UpdateTask(actor: Actor, settings: Settings, facts: Facts, now: Time, t: nat, update: Update)
      returns (refusal: Option<Refusal>)
      requires Valid() && t in tasks
      modifies this
      ensures Valid()
      ensures Delivered(TaskRules.UpdateTask(old(Rows()), actor, settings, facts, now, t, update), refusal,
                        old(Rows()), Rows())
      ensures old(Orderly(Rows())) ==>
                (Orderly(Rows()) <==> !Strands(old(Rows()), Patch(actor, settings, facts, now, t, update)))
    {
      hide WellFormed, Orderly, Strands, TaskRules.UpdateTask;
      ghost var request := Patch(actor, settings, facts, now, t, update);
      StepKeepsWellFormed(Rows(), request);
      WellFormedKeys(Rows());
      if Orderly(Rows()) {
        OrderlyIffNotStranding(Rows(), request);
      }
      refusal := PatchRows(actor, settings, facts, now, t, update);
    }
  }

  lemma WellFormedKeys(board: Board)
    requires WellFormed(board)
    ensures KeysHold(board)
  {
  }

  lemma EmptyIsWellFormed()
    ensures WellFormed(Board(map[], {}))
  {
    SingleEdgeIsAcyclic(0, 1);
    FewerEdgesStayAcyclic({(0, 1)}, {});
  }

  lemma BlockedAtBirth(tasks: map<nat, Task>, edges: Edges, t: nat, deps: seq<nat>)
    requires forall d | d in deps :: d in tasks
    ensures IsBlocked(tasks, WithDependencies(edges, t, deps), t) <==> exists d | d in deps :: tasks[d].status != Done
  {
    var rows := WithDependencies(edges, t, deps);
    forall d ensures d in Successors(rows, t) <==> d in deps {
      SuccessorEdge(rows, t, d);
    }
  }
}
