/**
  The poller of preheat jobs: `pollingJob` in manager/service/job.go, run by `retry.Run` in
  pkg/retry/retry.go on the group state computed in internal/job/job.go.

  What each poll finds, whether each write to the database succeeds and whether the context is done
  after an attempt are oracles over the number of the attempt.
 */
module PollingJob {
  import opened Wrappers

  /** The states of a machinery task; Unset is the state of a job row not read yet. */
  datatype State = Unset | Pending | Received | Started | Retrying | Success | Failure

  datatype TaskState = TaskState(state: State, createdAt: int)

  /** What the backend answers for a group: an error, or the states of its members. */
  datatype Poll = Unreachable | Members(states: seq<TaskState>)

  datatype GroupState = GroupState(state: State, createdAt: int)

  ghost predicate AnyFailed(states: seq<TaskState>) {
    exists i :: 0 <= i < |states| && states[i].state == Failure
  }

  ghost predicate AllSucceeded(states: seq<TaskState>) {
    states != [] && forall i | 0 <= i < |states| :: states[i].state == Success
  }

  /** The states of a group, member by member. */
  lemma GroupMeans(states: seq<TaskState>)
    ensures AnyFailed(states) <==> exists t :: t in states && t.state == Failure
    ensures AllSucceeded(states) <==> states != [] && forall t | t in states :: t.state == Success
  {
    if t :| t in states && t.state == Failure {
      var i :| 0 <= i < |states| && states[i] == t;
    }
    forall t | t in states && AllSucceeded(states) ensures t.state == Success {
      var i :| 0 <= i < |states| && states[i] == t;
    }
    assert forall i | 0 <= i < |states| :: states[i] in states;
  }

  /** The member that decides: the first failed one, else the first that has not succeeded, else the
      first. */
  ghost predicate Decides(states: seq<TaskState>, i: int) {
    && 0 <= i < |states|
    && (if AnyFailed(states) then states[i].state == Failure && forall j | 0 <= j < i :: states[j].state != Failure
        else if !AllSucceeded(states) then states[i].state != Success && forall j | 0 <= j < i :: states[j].state == Success
        else i == 0)
  }

  /** The state of a group of jobs; None is an error. */
  method GetGroupJobState(poll: Poll) returns (r: Option<GroupState>)
    ensures r.None? <==> poll.Unreachable? || poll.states == []
    ensures r.Some? ==>
              && (r.value.state == Failure <==> AnyFailed(poll.states))
              && (r.value.state == Success <==> AllSucceeded(poll.states))
              && (r.value.state == Pending <==> !AnyFailed(poll.states) && !AllSucceeded(poll.states))
              && exists i :: Decides(poll.states, i) && r.value.createdAt == poll.states[i].createdAt
  {
    if poll.Unreachable? {
      return None;
    }
    var states := poll.states;
    if |states| == 0 {
      return None;
    }
    for i := 0 to |states|
      invariant forall j | 0 <= j < i :: states[j].state != Failure
    {
      if states[i].state == Failure {
        assert Decides(states, i);
        return Some(GroupState(Failure, states[i].createdAt));
      }
    }
    for i := 0 to |states|
      invariant forall j | 0 <= j < i :: states[j].state == Success
    {
      if states[i].state != Success {
        assert Decides(states, i);
        return Some(GroupState(Pending, states[i].createdAt));
      }
    }
    assert Decides(states, 0);
    r := Some(GroupState(Success, states[0].createdAt));
  }

  // ---------------------------------------------------------------------------------------------

  const MAX_ATTEMPTS := 120

  ghost predicate Succeeded(poll: Poll) {
    poll.Members? && AllSucceeded(poll.states)
  }

  ghost predicate Failed(poll: Poll) {
    poll.Members? && AnyFailed(poll.states)
  }

  /** The stored row of a job. */
  class JobRow {
    var state: State
  }

  /** The surroundings of one pollingJob. When a write fails, `leftover` is what it leaves in the job
      held in memory. */
  datatype World = World(
    polls: nat -> Poll,
    writes: nat -> bool,
    leftover: nat -> State,
    contextDone: nat -> bool,
    finalWrite: bool)
  {
    ghost predicate WritesSucceed() {
      finalWrite && forall i :: writes(i)
    }
  }

  /** One attempt: the closure that pollingJob hands to retry.Run. */
  method Attempt(row: JobRow, w: World, i: nat, job: State) returns (job': State, cancel: bool, failed: bool)
    modifies row
    ensures w.polls(i).Unreachable? || w.polls(i).states == [] ==>
              job' == job && !cancel && failed && row.state == old(row.state)
    ensures w.polls(i).Members? && w.polls(i).states != [] && !w.writes(i) ==>
              cancel && failed && row.state == old(row.state)
    ensures w.polls(i).Members? && w.polls(i).states != [] && w.writes(i) ==>
              && row.state == job'
              && (job' == Success <==> Succeeded(w.polls(i))) && (job' == Failure <==> Failed(w.polls(i)))
              && (job' == Pending <==> !Succeeded(w.polls(i)) && !Failed(w.polls(i)))
              && (cancel <==> job' == Success || job' == Failure) && (failed <==> !cancel)
  {
    var group := GetGroupJobState(w.polls(i));
    if group.None? {
      return job, false, true;
    }
    if !w.writes(i) {
      return w.leftover(i), true, true;
    }
    row.state := group.value.state;
    job' := group.value.state;
    match job' {
      case Success => return job', true, false;
      case Failure => return job', true, false;
      case _ => return job', false, true;
    }
  }

  /** pollingJob, with the loop of retry.Run; `count` is the number of polls made. */
  method PollJob(row: JobRow, w: World) returns (count: nat)
    modifies row
    ensures 1 <= count <= 120
    ensures forall i | 0 <= i < count - 1 :: !Succeeded(w.polls(i)) && !Failed(w.polls(i)) && !w.contextDone(i)
    ensures w.WritesSucceed() ==>
              && (row.state == Success <==> Succeeded(w.polls(count - 1)))
              && (row.state == Failure <==> !Succeeded(w.polls(count - 1)))
    ensures w.WritesSucceed() && count < 120 ==>
              Succeeded(w.polls(count - 1)) || Failed(w.polls(count - 1)) || w.contextDone(count - 1)
  {
    var job := Unset;
    count := 0;
    while count < MAX_ATTEMPTS
      invariant 0 <= count <= MAX_ATTEMPTS
      invariant forall i | 0 <= i < count :: !Succeeded(w.polls(i)) && !Failed(w.polls(i)) && !w.contextDone(i)
      invariant job != Success && job != Failure
    {
      var cancel, failed;
      job, cancel, failed := Attempt(row, w, count, job);
      count := count + 1;
      if !failed || cancel {
        break;
      }
      if w.contextDone(count - 1) {
        break;
      }
    }
    if job != Success && job != Failure {
      if w.finalWrite {
        row.state := Failure;
      }
    }
  }

  /** A group that never gets decided uses up all 120 polls, and a failure is stored. */
  method PollUndecided(row: JobRow, w: World) returns (count: nat)
    requires w.WritesSucceed()
    requires forall i :: !Succeeded(w.polls(i)) && !Failed(w.polls(i)) && !w.contextDone(i)
    modifies row
    ensures count == 120 && row.state == Failure
  {
    count := PollJob(row, w);
  }
}
