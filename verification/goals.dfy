/** GoalService: savings goals that complete themselves when a deposit
    reaches the target, and are frozen once completed. */
module Goals {
  import opened Common
  import opened Entities
  import opened Requests
  import opened Percent

  /** GoalRepository.findByIdAndUserId, failing as the service does. */
  function GetGoal(s: Ledger, id: Id, user: UserId): (r: Result<Goal>)
    ensures r.Ok? <==> id in s.goals && s.goals[id].owner == user
    ensures r.Ok? ==> r.value == s.goals[id]
    ensures r.Err? ==> r.error == NotFound("Goal not found")
  {
    if id in s.goals && s.goals[id].owner == user then Ok(s.goals[id])
    else Err(NotFound("Goal not found"))
  }

  /** The computed fields of GoalResponse. */
  datatype GoalView = GoalView(goal: Goal, remaining: Cents, percentCompleted: int)

  /** GoalService.toResponse: what is still missing (negative once the target
      is overshot) and the progress in hundredths of a percent, uncapped. */
  function View(g: Goal): (v: GoalView)
    ensures v.goal == g
    ensures v.remaining + g.current == g.target
    ensures g.target <= 0 ==> v.percentCompleted == 0
    ensures g.target > 0 && g.current >= 0 ==>
      (v.percentCompleted >= 0 && 2 * v.percentCompleted * g.target - g.target <= 20000 * g.current < 2 * v.percentCompleted * g.target + g.target)
    ensures g.target > 0 && g.current < 0 ==>
      (v.percentCompleted <= 0 && 2 * v.percentCompleted * g.target - g.target < 20000 * g.current <= 2 * v.percentCompleted * g.target + g.target)
  {
    GoalView(g, g.target - g.current, PercentHundredths(g.current, g.target))
  }

  /** GoalService.findById. */
  function FindById(s: Ledger, id: Id, user: UserId): (r: Result<GoalView>)
    ensures r.Ok? <==> GetGoal(s, id, user).Ok?
    ensures r.Err? ==> r.error == NotFound("Goal not found")
    ensures r.Ok? ==> r.value.goal == s.goals[id]
  {
    var g :- GetGoal(s, id, user);
    Ok(View(g))
  }

  /** GoalService.findAll: exactly the user's goals. */
  function FindAll(s: Ledger, user: UserId): (vs: seq<GoalView>)
    ensures forall i :: 0 <= i < |vs| ==> vs[i].goal in s.goals.Values && vs[i].goal.owner == user
    ensures forall k :: k in s.goals && s.goals[k].owner == user ==>
      exists i :: 0 <= i < |vs| && vs[i].goal == s.goals[k]
  {
    var rows := Select(s.goals, (g: Goal) => g.owner == user);
    assert forall k :: k in s.goals && s.goals[k].owner == user ==> s.goals[k] in rows;
    Views(rows)
  }

  function Views(rows: seq<Goal>): (vs: seq<GoalView>)
    ensures |vs| == |rows|
    ensures forall i :: 0 <= i < |rows| ==> vs[i].goal == rows[i]
  {
    seq(|rows|, i requires 0 <= i < |rows| => View(rows[i]))
  }

  /** GoalService.create: a missing current amount starts at 0, and the goal
      starts IN_PROGRESS even when it is already reached. */
  function Create(s: Ledger, req: GoalRequest, user: UserId, id: Id): (r: (Ledger, Goal))
    requires req.Complete()
    requires id !in s.goals
    ensures r.1.status == InProgress
    ensures r.1.current == (if req.currentAmount.Some? then req.currentAmount.value else 0)
    ensures r.1.name == req.name.value && r.1.target == req.targetAmount.value
    ensures r.1.deadline == req.deadline && r.1.notes == req.notes
    ensures GetGoal(r.0, id, user) == Ok(r.1)
    ensures r.0 == s.(goals := s.goals[id := r.1])
  {
    var current := match req.currentAmount case Some(c) => c case None => 0;
    var goal := Goal(user, req.name.value, req.targetAmount.value, current, req.deadline, InProgress, req.notes);
    (s.(goals := s.goals[id := goal]), goal)
  }

  /** GoalService.update: name, target, deadline and notes of a goal that is
      not COMPLETED; the amount saved and the status are kept even when the
      new target is already met. */
  function Update(s: Ledger, id: Id, req: GoalRequest, user: UserId): (r: Result<(Ledger, Goal)>)
    requires req.Complete()
    ensures GetGoal(s, id, user).Err? ==> r == Err(NotFound("Goal not found"))
    ensures GetGoal(s, id, user).Ok? && s.goals[id].status == GoalStatus.Completed ==>
      r == Err(Business("Completed goals cannot be edited"))
    ensures r.Ok? <==> GetGoal(s, id, user).Ok? && s.goals[id].status != GoalStatus.Completed
    ensures r.Ok? ==> (r.value.1.name == req.name.value && r.value.1.target == req.targetAmount.value
                       && r.value.1.deadline == req.deadline && r.value.1.notes == req.notes)
    ensures r.Ok? ==> (r.value.1.current == s.goals[id].current && r.value.1.status == s.goals[id].status
                       && r.value.1.owner == user)
    ensures r.Ok? ==> r.value.0 == s.(goals := s.goals[id := r.value.1])
  {
    var goal :- GetGoal(s, id, user);
    if goal.status == GoalStatus.Completed then Err(Business("Completed goals cannot be edited"))
    else
      var updated := goal.(name := req.name.value, target := req.targetAmount.value,
                           deadline := req.deadline, notes := req.notes);
      Ok((s.(goals := s.goals[id := updated]), updated))
  }

  /** GoalService.addAmount: a deposit into an IN_PROGRESS goal, uncapped,
      which completes the goal once the target is reached. */
  function AddAmount(s: Ledger, id: Id, amount: Cents, user: UserId): (r: Result<(Ledger, Goal)>)
    ensures GetGoal(s, id, user).Err? ==> r == Err(NotFound("Goal not found"))
    ensures GetGoal(s, id, user).Ok? && s.goals[id].status != InProgress ==>
      r == Err(Business("Only in-progress goals can receive deposits"))
    ensures r.Ok? <==> GetGoal(s, id, user).Ok? && s.goals[id].status == InProgress
    ensures r.Ok? ==> r.value.1.current == s.goals[id].current + amount
    ensures r.Ok? ==> (r.value.1.status == GoalStatus.Completed <==> r.value.1.current >= r.value.1.target)
    ensures r.Ok? ==> (r.value.1.status == InProgress <==> r.value.1.current < r.value.1.target)
    ensures r.Ok? ==> (r.value.1.name == s.goals[id].name && r.value.1.target == s.goals[id].target
                       && r.value.1.deadline == s.goals[id].deadline && r.value.1.notes == s.goals[id].notes
                       && r.value.1.owner == user)
    ensures r.Ok? ==> r.value.0 == s.(goals := s.goals[id := r.value.1])
  {
    var goal :- GetGoal(s, id, user);
    if goal.status != InProgress then Err(Business("Only in-progress goals can receive deposits"))
    else
      var current := goal.current + amount;
      var updated := goal.(current := current, status := if current >= goal.target then GoalStatus.Completed else goal.status);
      Ok((s.(goals := s.goals[id := updated]), updated))
  }

  /** GoalService.delete. */
  function Delete(s: Ledger, id: Id, user: UserId): (r: Result<Ledger>)
    ensures r.Err? <==> GetGoal(s, id, user).Err?
    ensures r.Err? ==> r.error == NotFound("Goal not found")
    ensures r.Ok? ==> r.value == s.(goals := s.goals - {id})
  {
    var _ :- GetGoal(s, id, user);
    Ok(s.(goals := s.goals - {id}))
  }

  /** No goal is ever CANCELLED. */
  ghost predicate NoneCancelled(goals: map<Id, Goal>) {
    forall k :: k in goals ==> goals[k].status != GoalStatus.Cancelled
  }

  /** One step of the goal service, as the state it leaves behind. */
  datatype GoalOp =
    | CreateOp(req: GoalRequest, id: Id)
    | UpdateOp(req: GoalRequest, id: Id)
    | DepositOp(amount: Cents, id: Id)
    | DeleteOp(id: Id)

  predicate Enabled(s: Ledger, op: GoalOp) {
    match op
    case CreateOp(req, id) => req.Complete() && id !in s.goals
    case UpdateOp(req, _) => req.Complete()
    case _ => true
  }

  /** The goals after `op`; a failed step leaves them as they were. */
  function Step(s: Ledger, op: GoalOp, user: UserId): Ledger
    requires Enabled(s, op)
  {
    match op
    case CreateOp(req, id) => Create(s, req, user, id).0
    case UpdateOp(req, id) => var r := Update(s, id, req, user); if r.Ok? then r.value.0 else s
    case DepositOp(amount, id) => var r := AddAmount(s, id, amount, user); if r.Ok? then r.value.0 else s
    case DeleteOp(id) => var r := Delete(s, id, user); if r.Ok? then r.value else s
  }

  /** Starting from goals none of which is CANCELLED (an empty table, say),
      whatever the sequence of steps, every goal stays IN_PROGRESS or
      COMPLETED. */
  lemma {:induction false} StatusStaysInProgressOrCompleted(s: Ledger, ops: seq<GoalOp>, user: UserId)
    requires NoneCancelled(s.goals)
    ensures RunGoals(s, ops, user).Some? ==> NoneCancelled(RunGoals(s, ops, user).value.goals)
    decreases |ops|
  {
    if |ops| > 0 && Enabled(s, ops[0]) {
      var s' := Step(s, ops[0], user);
      StepKeepsNoneCancelled(s, ops[0], user);
      StatusStaysInProgressOrCompleted(s', ops[1..], user);
    }
  }

  lemma StepKeepsNoneCancelled(s: Ledger, op: GoalOp, user: UserId)
    requires Enabled(s, op)
    requires NoneCancelled(s.goals)
    ensures NoneCancelled(Step(s, op, user).goals)
  {
  }

  /** The steps run in order; None when some step is not enabled. */
  function RunGoals(s: Ledger, ops: seq<GoalOp>, user: UserId): Option<Ledger>
    decreases |ops|
  {
    if |ops| == 0 then Some(s)
    else if Enabled(s, ops[0]) then RunGoals(Step(s, ops[0], user), ops[1..], user)
    else None
  }

  /** A COMPLETED goal is frozen: no update or deposit succeeds on it, and
      whatever succeeds elsewhere leaves it unchanged. */
  lemma CompletedGoalsAreFrozen(s: Ledger, op: GoalOp, user: UserId, k: Id)
    requires Enabled(s, op)
    requires k in s.goals && s.goals[k].status == GoalStatus.Completed
    requires !op.DeleteOp?
    ensures k in Step(s, op, user).goals && Step(s, op, user).goals[k] == s.goals[k]
  {
  }

  /** The cases of the service tests: a deposit of 100.00 on 900.00 of
      1000.00 completes the goal, and 1000.00 saved of 10000.00 shows
      10.00 %. */
  lemma TestedGoals(s: Ledger, id: Id, user: UserId)
    requires id in s.goals && s.goals[id].owner == user && s.goals[id].status == InProgress
    requires s.goals[id].current == 90000 && s.goals[id].target == 100000
    ensures AddAmount(s, id, 10000, user).Ok?
    ensures AddAmount(s, id, 10000, user).value.1.status == GoalStatus.Completed
    ensures View(s.goals[id].(current := 100000, target := 1000000)).percentCompleted == 1000
  {
  }
}
