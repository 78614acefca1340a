/** `operations_service.py`: one server as the maintenance loop sees it, and runs of that loop between owner actions. */
module Operations {
  import opened Common

  datatype Desired = ToRun | ToStop

  /** What Docker reports of the container; `Down` is every other state, "not_created" included. */
  datatype ContainerState = Running | Created | Down(name: string)

  datatype Snapshot = Snapshot(containerId: Option<string>, state: ContainerState)

  /** What `runtime.start` does if it is called. */
  datatype StartResult = Raises | Returns(containerId: string, state: ContainerState)

  datatype Event =
    | CrashDetected(state: ContainerState)
    | AutoRestart(attempt: nat)
    | AutoRestartFailed(attempt: nat)
    | ScheduledBackupFailed

  /** The fields of the server record that crash recovery reads and writes. */
  datatype Watch = Watch(
    desired: Desired,
    autoRestart: bool,
    failures: nat,
    last: Option<ContainerState>,
    containerId: Option<string>)

  // ------------------------------------------------------------------
  // One pass of crash recovery
  // ------------------------------------------------------------------

  predicate IsCrash(w: Watch, s: Snapshot) {
    w.last == Some(Running) && s.state.Down? && w.desired.ToRun?
  }

  /** The failure count once the pass has looked at the container. */
  function SeenFailures(w: Watch, s: Snapshot): nat {
    if s.state.Running? then 0 else w.failures
  }

  predicate Retries(w: Watch, limit: nat, s: Snapshot) {
    s.state.Down? && w.desired.ToRun? && w.autoRestart && SeenFailures(w, s) < limit
  }

  predicate Starts(result: StartResult) {
    result.Returns? && result.state.Running?
  }

  function AfterPass(w: Watch, limit: nat, s: Snapshot, result: StartResult): Watch {
    if !Retries(w, limit, s) then w.(failures := SeenFailures(w, s), last := Some(s.state))
    else if Starts(result) then
      w.(failures := w.failures + 1, last := Some(Running), containerId := Some(result.containerId))
    else w.(failures := w.failures + 1, last := Some(s.state))
  }

  function PassEvents(w: Watch, limit: nat, s: Snapshot, result: StartResult): seq<Event> {
    (if IsCrash(w, s) then [CrashDetected(s.state)] else []) +
    (if !Retries(w, limit, s) then []
     else if Starts(result) then [AutoRestart(w.failures + 1)]
     else [AutoRestartFailed(w.failures + 1)])
  }

  /**
    * One pass, spelled out: when it reports a crash, when it calls start, how often it has failed by then, and
    * what the record says afterwards.
    */
  lemma PassMeans(w: Watch, limit: nat, s: Snapshot, result: StartResult)
    ensures
      var after, events := Step(w, limit, Pass(s, result)), StepEvents(w, limit, Pass(s, result));
      var crashed := w.last == Some(Running) && s.state.Down? && w.desired == ToRun;
      var retries := s.state.Down? && w.desired == ToRun && w.autoRestart && w.failures < limit;
      var started := retries && result.Returns? && result.state == Running;
      && after.desired == w.desired && after.autoRestart == w.autoRestart
      && after.failures == (if s.state == Running then 0 else if retries then w.failures + 1 else w.failures)
      && after.last == Some(if started then Running else s.state)
      && after.containerId == (if started then Some(result.containerId) else w.containerId)
      && StepStarts(w, limit, Pass(s, result)) == (if retries then 1 else 0)
      && events ==
         (if crashed then [CrashDetected(s.state)] else []) +
         (if started then [AutoRestart(w.failures + 1)]
          else if retries then [AutoRestartFailed(w.failures + 1)]
          else [])
  {
  }

  // ------------------------------------------------------------------
  // Runs of passes and owner actions
  // ------------------------------------------------------------------

  datatype Action =
    | Pass(snapshot: Snapshot, result: StartResult)
    | SaveRestartPolicy(autoRestart: bool)
    | OwnerSets(desired: Desired, containerId: Option<string>)  // start, stop, restart, update, rollback

  function Step(w: Watch, limit: nat, a: Action): Watch {
    match a
    case Pass(s, result) => AfterPass(w, limit, s, result)
    case SaveRestartPolicy(auto) => w.(autoRestart := auto, failures := if auto then w.failures else 0)
    case OwnerSets(desired, containerId) => w.(desired := desired, containerId := containerId)
  }

  function StepEvents(w: Watch, limit: nat, a: Action): seq<Event> {
    if a.Pass? then PassEvents(w, limit, a.snapshot, a.result) else []
  }

  function StepStarts(w: Watch, limit: nat, a: Action): nat {
    if a.Pass? && Retries(w, limit, a.snapshot) then 1 else 0
  }

  function Run(w: Watch, limit: nat, actions: seq<Action>): Watch
    decreases |actions|
  {
    if actions == [] then w else Run(Step(w, limit, actions[0]), limit, actions[1..])
  }

  function RunEvents(w: Watch, limit: nat, actions: seq<Action>): seq<Event>
    decreases |actions|
  {
    if actions == [] then []
    else StepEvents(w, limit, actions[0]) + RunEvents(Step(w, limit, actions[0]), limit, actions[1..])
  }

  /** How often a run calls `runtime.start`. */
  function RunStarts(w: Watch, limit: nat, actions: seq<Action>): nat
    decreases |actions|
  {
    if actions == [] then 0
    else StepStarts(w, limit, actions[0]) + RunStarts(Step(w, limit, actions[0]), limit, actions[1..])
  }

  /** In every run the failure count stays within the limit. */
  lemma {:induction false} FailuresStayWithinLimit(w: Watch, limit: nat, actions: seq<Action>)
    requires w.failures <= limit
    ensures Run(w, limit, actions).failures <= limit
    decreases |actions|
  {
    if actions != [] {
      FailuresStayWithinLimit(Step(w, limit, actions[0]), limit, actions[1..]);
    }
  }

  /** Nothing in the stretch gives the budget back: no pass sees the server running, nobody turns restarts off. */
  predicate SpendsOnly(actions: seq<Action>) {
    forall i :: 0 <= i < |actions| ==>
      && (actions[i].Pass? ==> !actions[i].snapshot.state.Running?)
      && (actions[i].SaveRestartPolicy? ==> actions[i].autoRestart)
  }

  /**
    * The restart budget: over such a stretch each start call uses up one failure, so that there are no more
    * of them than the limit leaves.
    */
  lemma {:induction false} StartsSpendTheBudget(w: Watch, limit: nat, actions: seq<Action>)
    requires w.failures <= limit && SpendsOnly(actions)
    ensures Run(w, limit, actions).failures == w.failures + RunStarts(w, limit, actions)
    ensures RunStarts(w, limit, actions) <= limit - w.failures
    decreases |actions|
  {
    if actions != [] {
      assert SpendsOnly(actions[1..]) by {
        assert forall i :: 0 <= i < |actions[1..]| ==> actions[1..][i] == actions[i + 1];
      }
      var a := actions[0];
      assert a.Pass? ==> !a.snapshot.state.Running?;
      StartsSpendTheBudget(Step(w, limit, a), limit, actions[1..]);
    }
  }

  /** A server that is wanted, watched, and down at every look. */
  predicate StaysDown(w: Watch, actions: seq<Action>) {
    w.desired.ToRun? && w.autoRestart &&
    forall i :: 0 <= i < |actions| ==> actions[i].Pass? && actions[i].snapshot.state.Down?
  }

  /** The loop does not give up early either: it calls start in every pass until the budget is spent. */
  lemma {:induction false} RetriesUntilSpent(w: Watch, limit: nat, actions: seq<Action>)
    requires w.failures <= limit && StaysDown(w, actions)
    ensures RunStarts(w, limit, actions) ==
            if |actions| <= limit - w.failures then |actions| else limit - w.failures
    decreases |actions|
  {
    if actions != [] {
      var a := actions[0];
      assert a.Pass? && a.snapshot.state.Down?;
      assert forall i :: 0 <= i < |actions[1..]| ==> actions[1..][i] == actions[i + 1];
      RetriesUntilSpent(Step(w, limit, a), limit, actions[1..]);
    }
  }

  predicate IsRestartEvent(e: Event) {
    e.AutoRestart? || e.AutoRestartFailed?
  }

  function CountRestartEvents(events: seq<Event>): nat {
    if events == [] then 0 else (if IsRestartEvent(events[0]) then 1 else 0) + CountRestartEvents(events[1..])
  }

  lemma {:induction false} CountConcat(a: seq<Event>, b: seq<Event>)
    ensures CountRestartEvents(a + b) == CountRestartEvents(a) + CountRestartEvents(b)
  {
    if a == [] {
      assert a + b == b;
    } else {
      assert (a + b)[1..] == a[1..] + b;
      CountConcat(a[1..], b);
    }
  }

  lemma StepAccounts(w: Watch, limit: nat, a: Action)
    ensures CountRestartEvents(StepEvents(w, limit, a)) == StepStarts(w, limit, a)
  {
    if a.Pass? {
      var crash := if IsCrash(w, a.snapshot) then [CrashDetected(a.snapshot.state)] else [];
      var restart := PassEvents(w, limit, a.snapshot, a.result)[|crash|..];
      assert PassEvents(w, limit, a.snapshot, a.result) == crash + restart;
      CountConcat(crash, restart);
    }
  }

  /** The audit log accounts for every start call: one success or one failure event each. */
  lemma {:induction false} StartsAreAudited(w: Watch, limit: nat, actions: seq<Action>)
    ensures RunStarts(w, limit, actions) == CountRestartEvents(RunEvents(w, limit, actions))
    decreases |actions|
  {
    if actions != [] {
      var w' := Step(w, limit, actions[0]);
      StepAccounts(w, limit, actions[0]);
      StartsAreAudited(w', limit, actions[1..]);
      CountConcat(StepEvents(w, limit, actions[0]), RunEvents(w', limit, actions[1..]));
    }
  }

  // Crashes, by the position of the pass in the run

  predicate CrashAt(w: Watch, limit: nat, actions: seq<Action>, i: nat)
    requires i < |actions|
  {
    actions[i].Pass? && IsCrash(Run(w, limit, actions[..i]), actions[i].snapshot)
  }

  /** The pass at `j` leaves the record saying that the server runs. */
  predicate EndsRunning(w: Watch, limit: nat, actions: seq<Action>, j: nat)
    requires j < |actions|
  {
    actions[j].Pass? && Run(w, limit, actions[..j + 1]).last == Some(Running)
  }

  predicate IsPassBefore(actions: seq<Action>, j: nat, i: nat) {
    j < i <= |actions| && actions[j].Pass? && forall k :: j < k < i ==> !actions[k].Pass?
  }

  lemma {:induction false} RunSnoc(w: Watch, limit: nat, actions: seq<Action>)
    requires actions != []
    ensures Run(w, limit, actions) ==
            Step(Run(w, limit, actions[..|actions| - 1]), limit, actions[|actions| - 1])
    decreases |actions|
  {
    if |actions| > 1 {
      var w' := Step(w, limit, actions[0]);
      RunSnoc(w', limit, actions[1..]);
      assert actions[1..][..|actions| - 2] == actions[..|actions| - 1][1..];
      assert actions[1..][|actions| - 2] == actions[|actions| - 1];
    } else {
      assert actions[..0] == [];
    }
  }

  /** The recorded state is what the last pass recorded. */
  lemma {:induction false} LastComesFromPass(w: Watch, limit: nat, actions: seq<Action>, i: nat) returns (j: nat)
    requires i <= |actions| && w.last.None? && Run(w, limit, actions[..i]).last.Some?
    ensures IsPassBefore(actions, j, i)
    ensures Run(w, limit, actions[..j + 1]).last == Run(w, limit, actions[..i]).last
    decreases i
  {
    assert actions[..0] == [];
    if i == 0 {
      assert false;
    } else {
      RunSnoc(w, limit, actions[..i]);
      assert actions[..i][..i - 1] == actions[..i - 1];
      if actions[i - 1].Pass? {
        j := i - 1;
      } else {
        j := LastComesFromPass(w, limit, actions, i - 1);
      }
    }
  }

  /** Each detected crash belongs to an earlier pass that ended with the server running: the pass right before it. */
  lemma CrashFollowsRunning(w: Watch, limit: nat, actions: seq<Action>, i: nat) returns (j: nat)
    requires i < |actions| && w.last.None? && CrashAt(w, limit, actions, i)
    ensures IsPassBefore(actions, j, i) && EndsRunning(w, limit, actions, j)
  {
    j := LastComesFromPass(w, limit, actions, i);
  }

  /** Two crashes never share that pass. */
  lemma CrashesHaveOwnPasses(w: Watch, limit: nat, actions: seq<Action>, i: nat, i': nat, j: nat, j': nat)
    requires i < i' < |actions| && CrashAt(w, limit, actions, i) && CrashAt(w, limit, actions, i')
    requires IsPassBefore(actions, j, i) && IsPassBefore(actions, j', i')
    ensures j < i <= j'
  {
  }

  // ------------------------------------------------------------------
  // Scheduled backups
  // ------------------------------------------------------------------

  const HOUR: int := 3600

  /** The backup policy of a server and when the next scheduled backup is due. */
  datatype Schedule = Schedule(enabled: bool, intervalHours: nat, next: Option<int>)

  /** What the calls of one scheduled backup would do: whether each of them goes through. */
  datatype Attempt = Attempt(
    running: bool,          // the container runs, so saving is paused first
    saveOff: bool,
    flush: bool,
    created: Option<string>,  // file name of the artifact, or None for BackupError
    saveOn: bool)

  predicate Succeeds(a: Attempt) {
    (a.running ==> a.saveOff && a.flush) && a.created.Some?
  }

  datatype Outcome = Off | Armed | NotDue | Failed | Succeeded

  function TickOutcome(s: Schedule, now: int, a: Attempt): Outcome {
    if !s.enabled then Off
    else if s.next.None? then Armed
    else if s.next.value > now then NotDue
    else if Succeeds(a) then Succeeded
    else Failed
  }

  function AfterTick(s: Schedule, now: int, a: Attempt): Schedule {
    match TickOutcome(s, now, a)
    case Off => s
    case NotDue => s
    case Armed => s.(next := Some(now + s.intervalHours * HOUR))
    case Failed => s.(next := Some(now + HOUR))
    case Succeeded => s.(next := Some(now + s.intervalHours * HOUR))
  }

  datatype ScheduleAction =
    | Tick(now: int, attempt: Attempt)
    | SavePolicy(now: int, enabled: bool, intervalHours: nat)

  function ScheduleStep(s: Schedule, a: ScheduleAction): Schedule {
    match a
    case Tick(now, attempt) => AfterTick(s, now, attempt)
    case SavePolicy(now, enabled, hours) =>
      Schedule(enabled, hours, if enabled then Some(now + hours * HOUR) else None)
  }

  predicate IsAttempt(s: Schedule, a: ScheduleAction) {
    a.Tick? && TickOutcome(s, a.now, a.attempt) in {Failed, Succeeded}
  }

  /** In the run from `s` on, no backup is attempted before `bound`. */
  predicate NoAttemptBefore(s: Schedule, actions: seq<ScheduleAction>, bound: int)
    decreases |actions|
  {
    actions == [] ||
    ((IsAttempt(s, actions[0]) ==> actions[0].now >= bound) &&
     NoAttemptBefore(ScheduleStep(s, actions[0]), actions[1..], bound))
  }

  predicate PolicyUntouched(actions: seq<ScheduleAction>) {
    forall i :: 0 <= i < |actions| ==> !actions[i].SavePolicy?
  }

  /** Once the next backup is set, it is never attempted earlier, whatever fails in between. */
  lemma {:induction false} NextOnlyMovesOn(s: Schedule, actions: seq<ScheduleAction>, bound: int)
    requires s.next.Some? && s.next.value >= bound && PolicyUntouched(actions)
    ensures NoAttemptBefore(s, actions, bound)
    decreases |actions|
  {
    if actions != [] {
      assert !actions[0].SavePolicy?;
      assert forall i :: 0 <= i < |actions[1..]| ==> actions[1..][i] == actions[i + 1];
      NextOnlyMovesOn(ScheduleStep(s, actions[0]), actions[1..], bound);
    }
  }

  /**
    * After a successful scheduled backup no other one is attempted before the interval then in force has
    * passed, in every run in which the policy is not saved.
    */
  lemma BackupsKeepTheInterval(s: Schedule, first: ScheduleAction, rest: seq<ScheduleAction>)
    requires first.Tick? && TickOutcome(s, first.now, first.attempt) == Succeeded
    requires PolicyUntouched(rest)
    ensures NoAttemptBefore(ScheduleStep(s, first), rest, first.now + s.intervalHours * HOUR)
  {
    NextOnlyMovesOn(ScheduleStep(s, first), rest, first.now + s.intervalHours * HOUR);
  }

  /** After a failed one there is at least an hour of quiet. */
  lemma FailureWaitsAnHour(s: Schedule, first: ScheduleAction, rest: seq<ScheduleAction>)
    requires first.Tick? && TickOutcome(s, first.now, first.attempt) == Failed
    requires PolicyUntouched(rest)
    ensures NoAttemptBefore(ScheduleStep(s, first), rest, first.now + HOUR)
  {
    NextOnlyMovesOn(ScheduleStep(s, first), rest, first.now + HOUR);
  }

  /** Saving an enabled policy starts the wait afresh, with the new interval. */
  lemma SavedPolicyStartsAfresh(s: Schedule, saved: ScheduleAction, rest: seq<ScheduleAction>)
    requires saved.SavePolicy? && saved.enabled && PolicyUntouched(rest)
    ensures NoAttemptBefore(ScheduleStep(s, saved), rest, saved.now + saved.intervalHours * HOUR)
  {
    NextOnlyMovesOn(ScheduleStep(s, saved), rest, saved.now + saved.intervalHours * HOUR);
  }

  // ------------------------------------------------------------------
  // Retention
  // ------------------------------------------------------------------

  datatype Row = Row(fileName: string, createdAt: int)

  /** Rows as the query returns them: newest first. */
  ghost predicate NewestFirst(rows: seq<Row>) {
    forall i, j :: 0 <= i < j < |rows| ==> rows[i].createdAt > rows[j].createdAt
  }

  /** The rows whose file could not be deleted. */
  function Undeleted(rows: seq<Row>, files: set<string>, stuck: set<string>): seq<Row> {
    if rows == [] then []
    else
      (if rows[0].fileName !in files || rows[0].fileName in stuck then [rows[0]] else [])
      + Undeleted(rows[1..], files, stuck)
  }

  predicate Differ(rows: seq<Row>, i: nat, j: nat) {
    i < j < |rows| ==> rows[i].fileName != rows[j].fileName
  }

  ghost predicate HaveOwnFiles(rows: seq<Row>) {
    forall i: nat, j: nat {:trigger Differ(rows, i, j)} :: Differ(rows, i, j)
  }

  lemma {:induction false} UndeletedMembers(rows: seq<Row>, files: set<string>, stuck: set<string>)
    ensures forall r :: r in Undeleted(rows, files, stuck) <==>
              r in rows && (r.fileName !in files || r.fileName in stuck)
  {
    if rows != [] {
      UndeletedMembers(rows[1..], files, stuck);
      assert rows == [rows[0]] + rows[1..];
    }
  }

  /** How many rows are newer than `r`. */
  function NewerThan(rows: seq<Row>, r: Row): nat {
    if rows == [] then 0 else (if rows[0].createdAt > r.createdAt then 1 else 0) + NewerThan(rows[1..], r)
  }

  lemma {:induction false} RankOfRow(rows: seq<Row>, i: nat)
    requires NewestFirst(rows) && i < |rows|
    ensures NewerThan(rows, rows[i]) == i
  {
    var tail := rows[1..];
    assert forall a, b :: 0 <= a < b < |tail| ==> tail[a].createdAt > tail[b].createdAt by {
      forall a, b | 0 <= a < b < |tail| ensures tail[a].createdAt > tail[b].createdAt {
        assert tail[a] == rows[a + 1] && tail[b] == rows[b + 1];
      }
    }
    if i == 0 {
      NoneNewer(tail, rows[0]);
    } else {
      RankOfRow(tail, i - 1);
    }
  }

  lemma {:induction false} NoneNewer(rows: seq<Row>, r: Row)
    requires forall i :: 0 <= i < |rows| ==> rows[i].createdAt < r.createdAt
    ensures NewerThan(rows, r) == 0
  {
    if rows != [] {
      assert forall i :: 0 <= i < |rows[1..]| ==> rows[1..][i] == rows[i + 1];
      NoneNewer(rows[1..], r);
    }
  }

  /** The rows a successful pass leaves, given those it found together with the new one. */
  function Retained(rows: seq<Row>, retention: nat, files: set<string>, stuck: set<string>): seq<Row> {
    if |rows| <= retention then rows else rows[..retention] + Undeleted(rows[retention..], files, stuck)
  }

  lemma RowInTop(rows: seq<Row>, retention: nat, i: nat)
    requires NewestFirst(rows) && i < |rows| && retention <= |rows|
    ensures rows[i] in rows[..retention] <==> i < retention
  {
    if i < retention {
      assert rows[..retention][i] == rows[i];
    }
  }

  lemma RowInRest(rows: seq<Row>, retention: nat, i: nat)
    requires NewestFirst(rows) && i < |rows| && retention <= |rows|
    ensures rows[i] in rows[retention..] <==> i >= retention
  {
    if i >= retention {
      assert rows[retention..][i - retention] == rows[i];
    }
  }

  /** They are exactly the newest `retention` rows and those whose file could not be deleted. */
  lemma RetainedIsNewest(rows: seq<Row>, retention: nat, files: set<string>, stuck: set<string>, i: nat)
    requires NewestFirst(rows) && i < |rows|
    ensures rows[i] in Retained(rows, retention, files, stuck) <==>
              NewerThan(rows, rows[i]) < retention || rows[i].fileName !in files || rows[i].fileName in stuck
  {
    RankOfRow(rows, i);
    if |rows| > retention {
      UndeletedMembers(rows[retention..], files, stuck);
      RowInTop(rows, retention, i);
      RowInRest(rows, retention, i);
    }
  }

  /** Nothing appears that was not there. */
  lemma RetainedAddsNothing(rows: seq<Row>, retention: nat, files: set<string>, stuck: set<string>)
    ensures forall r :: r in Retained(rows, retention, files, stuck) ==> r in rows
  {
    if |rows| > retention {
      UndeletedMembers(rows[retention..], files, stuck);
      assert rows == rows[..retention] + rows[retention..];
    }
  }

  lemma {:induction false} AllDeleted(rows: seq<Row>, files: set<string>)
    requires forall r :: r in rows ==> r.fileName in files
    ensures Undeleted(rows, files, {}) == []
  {
    if rows != [] {
      assert rows[0] in rows;
      assert forall r :: r in rows[1..] ==> r in rows;
      AllDeleted(rows[1..], files);
    }
  }

  /** When every file is there and can be deleted, a successful pass leaves at most `retention` rows. */
  lemma NothingStuckNothingLeft(rows: seq<Row>, retention: nat, files: set<string>)
    requires forall r :: r in rows ==> r.fileName in files
    ensures Retained(rows, retention, files, {}) == (if |rows| <= retention then rows else rows[..retention])
    ensures |Retained(rows, retention, files, {})| <= retention
  {
    if |rows| > retention {
      assert forall r :: r in rows[retention..] ==> r in rows;
      AllDeleted(rows[retention..], files);
    }
  }

  /** The rows a successful pass finds: its own and, older than that, the ones there before. */
  function Found(rows: seq<Row>, now: int, fileName: string): seq<Row> {
    [Row(fileName, now)] + rows
  }

  ghost predicate IsNewFile(rows: seq<Row>, fileName: string) {
    forall r :: r in rows ==> r.fileName != fileName
  }

  function RowsKept(
    rows: seq<Row>, now: int, fileName: string, retention: nat, files: set<string>, stuck: set<string>): seq<Row>
  {
    Retained(Found(rows, now, fileName), retention, files + {fileName}, stuck)
  }

  /**
    * With the new row youngest, a pass leaves a row if and only if fewer than `retention` rows are younger
    * (the new one among them) or its file could not be deleted.
    */
  lemma PassKeepsTheNewest(
    rows: seq<Row>, now: int, fileName: string, retention: nat, files: set<string>, stuck: set<string>, r: Row)
    requires NewestFirst(rows) && (forall i :: 0 <= i < |rows| ==> rows[i].createdAt < now)
    ensures r in RowsKept(rows, now, fileName, retention, files, stuck) <==>
              && r in Found(rows, now, fileName)
              && (|| NewerThan(Found(rows, now, fileName), r) < retention
                  || r.fileName !in files + {fileName}
                  || r.fileName in stuck)
  {
    var found := Found(rows, now, fileName);
    forall i, j | 0 <= i < j < |found| ensures found[i].createdAt > found[j].createdAt {
      assert found[j] == rows[j - 1];
      assert i > 0 ==> found[i] == rows[i - 1];
    }
    RetainedAddsNothing(found, retention, files + {fileName}, stuck);
    if r in found {
      var i: nat :| i < |found| && found[i] == r;
      RetainedIsNewest(found, retention, files + {fileName}, stuck, i);
    }
  }

  /** The files that deleting `rows` takes away. */
  function Deletable(rows: seq<Row>, stuck: set<string>): set<string> {
    set r | r in rows && r.fileName !in stuck :: r.fileName
  }

  function FilesKept(
    rows: seq<Row>, now: int, fileName: string, retention: nat, files: set<string>, stuck: set<string>): set<string>
  {
    var found := Found(rows, now, fileName);
    files + {fileName} - (if |found| <= retention then {} else Deletable(found[retention..], stuck))
  }

  lemma FoundHaveOwnFiles(rows: seq<Row>, now: int, fileName: string)
    requires HaveOwnFiles(rows) && IsNewFile(rows, fileName)
    ensures HaveOwnFiles(Found(rows, now, fileName))
  {
    var found := Found(rows, now, fileName);
    forall i: nat, j: nat ensures Differ(found, i, j) {
      if i < j < |found| {
        assert found[j] == rows[j - 1] && found[j] in rows;
        if i > 0 {
          assert found[i] == rows[i - 1] && Differ(rows, i - 1, j - 1);
        }
      }
    }
  }

  lemma OthersHaveOtherFiles(rows: seq<Row>, i: nat)
    requires HaveOwnFiles(rows) && i < |rows|
    ensures forall k :: 0 <= k <= i ==> IsNewFile(rows[..k], rows[i].fileName)
    ensures IsNewFile(rows[i + 1..], rows[i].fileName)
  {
    forall j: nat | j < |rows| && j != i ensures rows[j].fileName != rows[i].fileName {
      assert Differ(rows, i, j) && Differ(rows, j, i);
    }
  }

  lemma DeletableStep(rows: seq<Row>, from: nat, i: nat, stuck: set<string>)
    requires from <= i < |rows| && HaveOwnFiles(rows)
    ensures Deletable(rows[from..i + 1], stuck) ==
            Deletable(rows[from..i], stuck) + (if rows[i].fileName in stuck then {} else {rows[i].fileName})
    ensures rows[i].fileName !in Deletable(rows[from..i], stuck)
  {
    assert rows[from..i + 1] == rows[from..i] + [rows[i]];
    OthersHaveOtherFiles(rows, i);
    assert forall r :: r in rows[from..i] ==> r in rows[..i];
  }

  lemma UndeletedStep(left: seq<Row>, rows: seq<Row>, i: nat, files: set<string>, stuck: set<string>)
    requires i < |rows|
    ensures rows[i].fileName !in files || rows[i].fileName in stuck ==>
              left + Undeleted(rows[i..], files, stuck) == left + [rows[i]] + Undeleted(rows[i + 1..], files, stuck)
    ensures !(rows[i].fileName !in files || rows[i].fileName in stuck) ==>
              left + Undeleted(rows[i..], files, stuck) == left + Undeleted(rows[i + 1..], files, stuck)
  {
    assert rows[i..][0] == rows[i] && rows[i..][1..] == rows[i + 1..];
  }

  // ------------------------------------------------------------------
  // Retention over runs
  // ------------------------------------------------------------------

  /** `a` is what is left of `b` when some rows are taken out. */
  predicate IsPickedFrom(a: seq<Row>, b: seq<Row>)
    decreases |b|
  {
    if b == [] then a == []
    else IsPickedFrom(a, b[1..]) || (a != [] && a[0] == b[0] && IsPickedFrom(a[1..], b[1..]))
  }

  lemma TailIsInOrder(rows: seq<Row>)
    requires rows != []
    ensures NewestFirst(rows) ==> NewestFirst(rows[1..]) && forall r :: r in rows[1..] ==> r.createdAt < rows[0].createdAt
    ensures HaveOwnFiles(rows) ==> HaveOwnFiles(rows[1..]) && IsNewFile(rows[1..], rows[0].fileName)
  {
    var tail := rows[1..];
    if NewestFirst(rows) {
      forall i, j | 0 <= i < j < |tail| ensures tail[i].createdAt > tail[j].createdAt {
        assert tail[i] == rows[i + 1] && tail[j] == rows[j + 1];
      }
    }
    if HaveOwnFiles(rows) {
      forall i: nat, j: nat ensures Differ(tail, i, j) {
        assert Differ(rows, i + 1, j + 1);
      }
      OthersHaveOtherFiles(rows, 0);
    }
  }

  lemma HeadIsInOrder(r: Row, rows: seq<Row>)
    ensures NewestFirst(rows) && (forall q :: q in rows ==> q.createdAt < r.createdAt) ==> NewestFirst([r] + rows)
    ensures HaveOwnFiles(rows) && IsNewFile(rows, r.fileName) ==> HaveOwnFiles([r] + rows)
  {
    var whole := [r] + rows;
    if HaveOwnFiles(rows) && IsNewFile(rows, r.fileName) {
      FoundHaveOwnFiles(rows, r.createdAt, r.fileName);
      assert whole == Found(rows, r.createdAt, r.fileName);
    }
    if NewestFirst(rows) && forall q :: q in rows ==> q.createdAt < r.createdAt {
      forall i, j | 0 <= i < j < |whole| ensures whole[i].createdAt > whole[j].createdAt {
        assert whole[j] == rows[j - 1];
        assert i > 0 ==> whole[i] == rows[i - 1];
      }
    }
  }

  /** Taking rows out keeps their order and their files apart. */
  lemma {:induction false} PickingKeepsOrder(a: seq<Row>, b: seq<Row>)
    requires IsPickedFrom(a, b)
    ensures forall r :: r in a ==> r in b
    ensures NewestFirst(b) ==> NewestFirst(a)
    ensures HaveOwnFiles(b) ==> HaveOwnFiles(a)
    decreases |b|
  {
    if b != [] {
      TailIsInOrder(b);
      assert b == [b[0]] + b[1..];
      if IsPickedFrom(a, b[1..]) {
        PickingKeepsOrder(a, b[1..]);
      } else {
        PickingKeepsOrder(a[1..], b[1..]);
        assert a == [b[0]] + a[1..];
        HeadIsInOrder(b[0], a[1..]);
      }
    }
  }

  lemma {:induction false} UndeletedIsPicked(rows: seq<Row>, files: set<string>, stuck: set<string>)
    ensures IsPickedFrom(Undeleted(rows, files, stuck), rows)
  {
    if rows != [] {
      UndeletedIsPicked(rows[1..], files, stuck);
      var rest := Undeleted(rows[1..], files, stuck);
      assert ([rows[0]] + rest)[1..] == rest && [] + rest == rest;
    }
  }

  lemma {:induction false} PickedBehind(front: seq<Row>, a: seq<Row>, b: seq<Row>)
    requires IsPickedFrom(a, b)
    ensures IsPickedFrom(front + a, front + b)
  {
    if front == [] {
      assert front + a == a && front + b == b;
    } else {
      PickedBehind(front[1..], a, b);
      assert (front + a)[1..] == front[1..] + a && (front + b)[1..] == front[1..] + b;
    }
  }

  lemma {:induction false} IsPickedFromItself(rows: seq<Row>)
    ensures IsPickedFrom(rows, rows)
  {
    if rows != [] {
      IsPickedFromItself(rows[1..]);
    }
  }

  lemma RetainedIsPicked(rows: seq<Row>, retention: nat, files: set<string>, stuck: set<string>)
    ensures IsPickedFrom(Retained(rows, retention, files, stuck), rows)
  {
    if |rows| <= retention {
      IsPickedFromItself(rows);
    } else {
      UndeletedIsPicked(rows[retention..], files, stuck);
      PickedBehind(rows[..retention], Undeleted(rows[retention..], files, stuck), rows[retention..]);
      assert rows == rows[..retention] + rows[retention..];
    }
  }

  /** The rows without the one whose file has that name. */
  function Without(rows: seq<Row>, fileName: string): seq<Row> {
    if rows == [] then []
    else (if rows[0].fileName == fileName then [] else [rows[0]]) + Without(rows[1..], fileName)
  }

  lemma {:induction false} WithoutMembers(rows: seq<Row>, fileName: string)
    ensures forall r :: r in Without(rows, fileName) <==> r in rows && r.fileName != fileName
  {
    if rows != [] {
      WithoutMembers(rows[1..], fileName);
      assert rows == [rows[0]] + rows[1..];
    }
  }

  lemma {:induction false} WithoutIsPicked(rows: seq<Row>, fileName: string)
    ensures IsPickedFrom(Without(rows, fileName), rows)
  {
    if rows != [] {
      WithoutIsPicked(rows[1..], fileName);
      var rest := Without(rows[1..], fileName);
      assert ([rows[0]] + rest)[1..] == rest && [] + rest == rest;
    }
  }

  /** The backups of a server: its policy, its rows, and the files on disk. */
  datatype Shelf = Shelf(schedule: Schedule, retention: nat, rows: seq<Row>, files: set<string>)

  datatype ShelfAction =
    | Maintain(now: int, attempt: Attempt, stuck: set<string>)
    | Policy(now: int, enabled: bool, intervalHours: nat, retention: nat)
    | Taken(now: int, fileName: string)  // by hand, or before an update or a restore
    | Deleted(fileName: string)
    | Lost(fileName: string)             // the file goes without the panel

  function AfterMaintenance(s: Shelf, now: int, attempt: Attempt, stuck: set<string>): Shelf {
    var schedule := AfterTick(s.schedule, now, attempt);
    if TickOutcome(s.schedule, now, attempt) != Succeeded then s.(schedule := schedule)
    else
      var name := attempt.created.value;
      Shelf(schedule, s.retention,
            RowsKept(s.rows, now, name, s.retention, s.files, stuck),
            FilesKept(s.rows, now, name, s.retention, s.files, stuck))
  }

  function ShelfStep(s: Shelf, a: ShelfAction): Shelf {
    match a
    case Maintain(now, attempt, stuck) => AfterMaintenance(s, now, attempt, stuck)
    case Policy(now, enabled, hours, retention) =>
      s.(schedule := ScheduleStep(s.schedule, SavePolicy(now, enabled, hours)), retention := retention)
    case Taken(now, fileName) => s.(rows := Found(s.rows, now, fileName), files := s.files + {fileName})
    case Deleted(fileName) =>
      if fileName !in s.files then s
      else s.(rows := Without(s.rows, fileName), files := s.files - {fileName})
    case Lost(fileName) => s.(files := s.files - {fileName})
  }

  function ShelfRun(s: Shelf, actions: seq<ShelfAction>): Shelf
    decreases |actions|
  {
    if actions == [] then s else ShelfRun(ShelfStep(s, actions[0]), actions[1..])
  }

  /** The name of the backup the action takes, if it takes one. */
  function NewBackup(a: ShelfAction): Option<string> {
    match a
    case Maintain(_, attempt, _) => attempt.created
    case Taken(_, fileName) => Some(fileName)
    case _ => None
  }

  /** Backups are taken one after the other, under new names. */
  ghost predicate ComesNext(s: Shelf, clock: int, a: ShelfAction) {
    NewBackup(a).Some? ==> a.now > clock && IsNewFile(s.rows, NewBackup(a).value)
  }

  function ClockAfter(clock: int, a: ShelfAction): int {
    if NewBackup(a).Some? then a.now else clock
  }

  function ClockRun(clock: int, actions: seq<ShelfAction>): int
    decreases |actions|
  {
    if actions == [] then clock else ClockRun(ClockAfter(clock, actions[0]), actions[1..])
  }

  ghost predicate Timely(s: Shelf, clock: int, actions: seq<ShelfAction>)
    decreases |actions|
  {
    actions == [] ||
    (ComesNext(s, clock, actions[0]) &&
     Timely(ShelfStep(s, actions[0]), ClockAfter(clock, actions[0]), actions[1..]))
  }

  ghost predicate Orderly(s: Shelf, clock: int) {
    NewestFirst(s.rows) && HaveOwnFiles(s.rows) && forall r :: r in s.rows ==> r.createdAt <= clock
  }

  lemma FoundIsOrderly(s: Shelf, clock: int, now: int, fileName: string)
    requires Orderly(s, clock) && now > clock && IsNewFile(s.rows, fileName)
    ensures Orderly(s.(rows := Found(s.rows, now, fileName)), now)
  {
    HeadIsInOrder(Row(fileName, now), s.rows);
  }

  lemma StepStaysOrderly(s: Shelf, clock: int, a: ShelfAction)
    requires Orderly(s, clock) && ComesNext(s, clock, a)
    ensures Orderly(ShelfStep(s, a), ClockAfter(clock, a))
  {
    match a
    case Maintain(now, attempt, stuck) =>
      if TickOutcome(s.schedule, now, attempt) == Succeeded {
        var name := attempt.created.value;
        var found := Found(s.rows, now, name);
        FoundIsOrderly(s, clock, now, name);
        RetainedIsPicked(found, s.retention, s.files + {name}, stuck);
        PickingKeepsOrder(Retained(found, s.retention, s.files + {name}, stuck), found);
      }
    case Policy(now, enabled, hours, retention) =>
    case Taken(now, fileName) => FoundIsOrderly(s, clock, now, fileName);
    case Deleted(fileName) =>
      WithoutIsPicked(s.rows, fileName);
      PickingKeepsOrder(Without(s.rows, fileName), s.rows);
    case Lost(fileName) =>
  }

  /**
    * In every run with increasing backup times the rows stay newest first, not younger than the clock, each with
    * a file of its own.
    */
  lemma {:induction false} RunStaysOrderly(s: Shelf, clock: int, actions: seq<ShelfAction>)
    requires Orderly(s, clock) && Timely(s, clock, actions)
    ensures Orderly(ShelfRun(s, actions), ClockRun(clock, actions))
    decreases |actions|
  {
    if actions != [] {
      StepStaysOrderly(s, clock, actions[0]);
      RunStaysOrderly(ShelfStep(s, actions[0]), ClockAfter(clock, actions[0]), actions[1..]);
    }
  }

  /** The rows a successful pass has to leave, of those it found and its own: the newest, and those it cannot delete. */
  predicate ToKeep(s: Shelf, pass: ShelfAction, r: Row)
    requires pass.Maintain? && pass.attempt.created.Some?
  {
    var name := pass.attempt.created.value;
    var found := Found(s.rows, pass.now, name);
    r in found && (NewerThan(found, r) < s.retention || r.fileName !in s.files + {name} || r.fileName in pass.stuck)
  }

  /**
    * Retention: after any run with increasing backup times, a successful pass leaves exactly the newest
    * `backup_retention` rows, its own among them, and those whose file it could not delete; every other file
    * than those of the deleted rows stays.
    */
  lemma RetentionHolds(s: Shelf, clock: int, actions: seq<ShelfAction>, pass: ShelfAction)
    requires Orderly(s, clock) && Timely(s, clock, actions)
    requires pass.Maintain? && ComesNext(ShelfRun(s, actions), ClockRun(clock, actions), pass)
    requires TickOutcome(ShelfRun(s, actions).schedule, pass.now, pass.attempt) == Succeeded
    ensures
      var before, after := ShelfRun(s, actions), ShelfStep(ShelfRun(s, actions), pass);
      var found := Found(before.rows, pass.now, pass.attempt.created.value);
      && (forall r :: r in after.rows <==> ToKeep(before, pass, r))
      && Orderly(after, pass.now)
      && after.files == before.files + {pass.attempt.created.value}
                        - (set r | r in found && !ToKeep(before, pass, r) :: r.fileName)
  {
    var before := ShelfRun(s, actions);
    RunStaysOrderly(s, clock, actions);
    StepStaysOrderly(before, ClockRun(clock, actions), pass);
    var name := pass.attempt.created.value;
    forall r ensures r in ShelfStep(before, pass).rows <==> ToKeep(before, pass, r) {
      PassKeepsTheNewest(before.rows, pass.now, name, before.retention, before.files, pass.stuck, r);
    }
    FoundIsOrderly(before, ClockRun(clock, actions), pass.now, name);
    OnlyThoseFilesGo(before, pass);
  }

  /** A file goes only with its row. */
  lemma OnlyThoseFilesGo(s: Shelf, pass: ShelfAction)
    requires pass.Maintain? && pass.attempt.created.Some?
    requires NewestFirst(Found(s.rows, pass.now, pass.attempt.created.value))
    ensures
      var name := pass.attempt.created.value;
      var found := Found(s.rows, pass.now, name);
      FilesKept(s.rows, pass.now, name, s.retention, s.files, pass.stuck) ==
      s.files + {name} - (set r | r in found && !ToKeep(s, pass, r) :: r.fileName)
  {
    var name := pass.attempt.created.value;
    var found := Found(s.rows, pass.now, name);
    if |found| > s.retention {
      var rest := found[s.retention..];
      var gone := set r | r in found && !ToKeep(s, pass, r) :: r.fileName;
      forall f | f in s.files + {name} ensures f in Deletable(rest, pass.stuck) <==> f in gone {
        if f in gone {
          var r :| r in found && !ToKeep(s, pass, r) && r.fileName == f;
          RankOfExpired(found, s.retention, r);
        }
        if f in Deletable(rest, pass.stuck) {
          var r :| r in rest && r.fileName !in pass.stuck && r.fileName == f;
          RankOfExpired(found, s.retention, r);
          assert !ToKeep(s, pass, r);
        }
      }
    } else {
      forall r | r in found ensures ToKeep(s, pass, r) {
        RankOfExpired(found, |found|, r);
      }
    }
  }

  lemma RankOfExpired(rows: seq<Row>, retention: nat, r: Row)
    requires NewestFirst(rows) && retention <= |rows|
    ensures r in rows[retention..] ==> r in rows
    ensures r in rows ==> (r in rows[retention..] <==> NewerThan(rows, r) >= retention)
  {
    if r in rows {
      var i: nat :| i < |rows| && rows[i] == r;
      RankOfRow(rows, i);
      RowInRest(rows, retention, i);
    }
  }

  /** What the deletion loop has done when it has been through all expired rows. */
  lemma AllLookedAt(rows: seq<Row>, retention: nat, left: seq<Row>, files: set<string>, stuck: set<string>)
    requires retention < |rows| && HaveOwnFiles(rows)
    requires left + Undeleted(rows[|rows|..], files, stuck) == Undeleted(rows[retention..], files, stuck)
    ensures rows[..retention] + left == Retained(rows, retention, files, stuck)
    ensures HaveOwnFiles(rows[..retention] + left) && rows[retention..|rows|] == rows[retention..]
  {
    assert rows[|rows|..] == [] && left + [] == left;
    RetainedIsPicked(rows, retention, files, stuck);
    PickingKeepsOrder(Retained(rows, retention, files, stuck), rows);
  }

  // ------------------------------------------------------------------
  // A due backup is taken
  // ------------------------------------------------------------------

  /** Every call that a backup needs goes through; only with the server running are there any but the archive. */
  predicate AllGoesWell(a: Attempt) {
    a.created.Some? && (a.running ==> a.saveOff && a.flush)
  }

  predicate IsDue(s: Schedule, now: int) {
    s.enabled && s.next.Some? && s.next.value <= now
  }

  /**
    * One pass of the schedule, whatever state the container is in: a due backup is attempted, it succeeds exactly
    * if all its calls do, and the next one is due exactly an interval later, or an hour later after a failure.
    */
  lemma DueMeansAttempted(s: Shelf, now: int, attempt: Attempt, stuck: set<string>)
    ensures
      var after := ShelfStep(s, Maintain(now, attempt, stuck));
      var hours := s.schedule.intervalHours;
      && after.retention == s.retention
      && after.schedule.enabled == s.schedule.enabled && after.schedule.intervalHours == hours
      && after.schedule.next ==
         (if IsDue(s.schedule, now) then Some(now + if AllGoesWell(attempt) then hours * 3600 else 3600)
          else if s.schedule.enabled && s.schedule.next.None? then Some(now + hours * 3600)
          else s.schedule.next)
      && (!(IsDue(s.schedule, now) && AllGoesWell(attempt)) ==> after.rows == s.rows && after.files == s.files)
      && (IsDue(s.schedule, now) && AllGoesWell(attempt) && s.retention >= 1 ==>
            after.rows != [] && after.rows[0] == Row(attempt.created.value, now))
  {
  }

  /** The file of the new backup is there as well. */
  lemma NewFileIsThere(s: Shelf, now: int, attempt: Attempt, stuck: set<string>)
    requires IsDue(s.schedule, now) && AllGoesWell(attempt) && s.retention >= 1
    requires IsNewFile(s.rows, attempt.created.value)
    ensures attempt.created.value in ShelfStep(s, Maintain(now, attempt, stuck)).files
  {
    var found := Found(s.rows, now, attempt.created.value);
    if |found| > s.retention {
      forall r | r in found[s.retention..] ensures r in s.rows {
        var i: nat :| i < |found| - s.retention && found[s.retention..][i] == r;
        assert r == s.rows[s.retention + i - 1];
      }
    }
  }

  /** Up to `due` there are passes only before it, and nobody saves the policy. */
  predicate AllBefore(actions: seq<ShelfAction>, due: int) {
    forall i :: 0 <= i < |actions| ==> !actions[i].Policy? && (actions[i].Maintain? ==> actions[i].now < due)
  }

  lemma {:induction false} ScheduleWaits(s: Shelf, due: int, actions: seq<ShelfAction>)
    requires s.schedule.enabled && s.schedule.next == Some(due) && AllBefore(actions, due)
    ensures ShelfRun(s, actions).schedule == s.schedule && ShelfRun(s, actions).retention == s.retention
    decreases |actions|
  {
    if actions != [] {
      assert !actions[0].Policy? && (actions[0].Maintain? ==> actions[0].now < due);
      assert forall i :: 0 <= i < |actions[1..]| ==> actions[1..][i] == actions[i + 1];
      ScheduleWaits(ShelfStep(s, actions[0]), due, actions[1..]);
    }
  }

  /** Passes come at most `period` apart. */
  predicate ComeEvery(actions: seq<ShelfAction>, last: int, period: int)
    decreases |actions|
  {
    actions == [] ||
    if actions[0].Maintain? then last <= actions[0].now <= last + period && ComeEvery(actions[1..], actions[0].now, period)
    else ComeEvery(actions[1..], last, period)
  }

  lemma {:induction false} FirstPassFrom(actions: seq<ShelfAction>, last: int, due: int, period: int, j: nat)
    returns (i: nat)
    requires ComeEvery(actions, last, period) && last < due
    requires j < |actions| && actions[j].Maintain? && actions[j].now >= due
    requires forall k :: 0 <= k <= j ==> !actions[k].Policy?
    ensures i <= j && actions[i].Maintain? && due <= actions[i].now < due + period
    ensures AllBefore(actions[..i], due)
    decreases |actions|
  {
    if actions[0].Maintain? && actions[0].now >= due {
      i := 0;
    } else {
      var rest := actions[1..];
      assert forall k :: 0 <= k < |rest| ==> rest[k] == actions[k + 1];
      i := FirstPassFrom(rest, if actions[0].Maintain? then actions[0].now else last, due, period, j - 1);
      i := i + 1;
      forall k | 0 <= k < i
        ensures !actions[..i][k].Policy? && (actions[..i][k].Maintain? ==> actions[..i][k].now < due)
      {
        if k > 0 {
          assert actions[..i][k] == rest[..i - 1][k - 1];
        }
      }
    }
  }

  /**
    * No due backup is passed over: with passes at most `period` apart and the policy left alone, the first pass
    * at or after the due time attempts it, less than `period` late, and sets the next due time from there.
    */
  lemma DueBackupIsAttempted(s: Shelf, due: int, actions: seq<ShelfAction>, last: int, period: int, j: nat)
    returns (i: nat)
    requires s.schedule.enabled && s.schedule.next == Some(due)
    requires ComeEvery(actions, last, period) && last < due
    requires j < |actions| && actions[j].Maintain? && actions[j].now >= due
    requires forall k :: 0 <= k <= j ==> !actions[k].Policy?
    ensures i <= j && actions[i].Maintain? && due <= actions[i].now < due + period
    ensures IsDue(ShelfRun(s, actions[..i]).schedule, actions[i].now)
    ensures
      var after := ShelfStep(ShelfRun(s, actions[..i]), actions[i]);
      var well := AllGoesWell(actions[i].attempt);
      && after.schedule.next == Some(actions[i].now + if well then s.schedule.intervalHours * 3600 else 3600)
      && (well && s.retention >= 1 ==>
            after.rows != [] && after.rows[0] == Row(actions[i].attempt.created.value, actions[i].now))
  {
    i := FirstPassFrom(actions, last, due, period, j);
    ScheduleWaits(s, due, actions[..i]);
    DueMeansAttempted(ShelfRun(s, actions[..i]), actions[i].now, actions[i].attempt, actions[i].stuck);
  }

  // ------------------------------------------------------------------
  // The record, as the loop updates it
  // ------------------------------------------------------------------

  class ServerRecord {
    var desired: Desired
    var autoRestart: bool
    var restartFailures: nat
    var lastRuntimeState: Option<ContainerState>
    var containerId: Option<string>
    var backupEnabled: bool
    var backupIntervalHours: nat
    var backupRetention: nat
    var nextBackupAt: Option<int>
    var rows: seq<Row>
    var files: set<string>
    var events: seq<Event>
    var commands: seq<string>
    ghost var starts: nat

    constructor (hours: nat, retention: nat)
      ensures WatchState() == Watch(ToStop, false, 0, None, None)
      ensures ScheduleState() == Schedule(false, hours, None) && backupRetention == retention
      ensures rows == [] && files == {} && events == [] && commands == [] && starts == 0
    {
      desired, autoRestart, restartFailures, lastRuntimeState, containerId := ToStop, false, 0, None, None;
      backupEnabled, backupIntervalHours, backupRetention, nextBackupAt := false, hours, retention, None;
      rows, files, events, commands, starts := [], {}, [], [], 0;
    }

    ghost function WatchState(): Watch
      reads this
    {
      Watch(desired, autoRestart, restartFailures, lastRuntimeState, containerId)
    }

    ghost function ScheduleState(): Schedule
      reads this
    {
      Schedule(backupEnabled, backupIntervalHours, nextBackupAt)
    }

    ghost function ShelfState(): Shelf
      reads this
    {
      Shelf(ScheduleState(), backupRetention, rows, files)
    }

    /** `_sample_and_recover`; `result` is what `runtime.start` does in case it is called. */
    method SampleAndRecover(limit: nat, sample: Snapshot, result: StartResult)
      modifies this`restartFailures, this`lastRuntimeState, this`containerId, this`events, this`starts
      ensures WatchState() == AfterPass(old(WatchState()), limit, sample, result)
      ensures events == old(events) + PassEvents(old(WatchState()), limit, sample, result)
      ensures starts == old(starts) + (if Retries(old(WatchState()), limit, sample) then 1 else 0)
    {
      var state := sample.state;
      var crashed := lastRuntimeState == Some(Running) && state.Down? && desired.ToRun?;
      if state.Running? {
        restartFailures := 0;
      } else if crashed {
        events := events + [CrashDetected(state)];
      }
      var shouldRetry := state.Down? && desired.ToRun? && autoRestart && restartFailures < limit;
      if shouldRetry {
        restartFailures := restartFailures + 1;
        starts := starts + 1;
        match result
        case Returns(id, Running) =>
          containerId := Some(id);
          state := Running;
          events := events + [AutoRestart(restartFailures)];
        case _ =>
          events := events + [AutoRestartFailed(restartFailures)];
      }
      lastRuntimeState := Some(state);
    }

    /** `update_restart_policy` */
    method UpdateRestartPolicy(auto: bool)
      modifies this`autoRestart, this`restartFailures
      ensures WatchState() == Step(old(WatchState()), 0, SaveRestartPolicy(auto))
      ensures autoRestart == auto && restartFailures == if auto then old(restartFailures) else 0
    {
      autoRestart := auto;
      if !auto {
        restartFailures := 0;
      }
    }

    /** `update_backup_policy` */
    method UpdateBackupPolicy(now: int, enabled: bool, hours: nat, retention: nat)
      modifies this`backupEnabled, this`backupIntervalHours, this`backupRetention, this`nextBackupAt
      ensures ShelfState() == ShelfStep(old(ShelfState()), Policy(now, enabled, hours, retention))
      ensures backupEnabled == enabled && backupIntervalHours == hours && backupRetention == retention
      ensures nextBackupAt == if enabled then Some(now + hours * 3600) else None
    {
      backupEnabled := enabled;
      backupIntervalHours := hours;
      backupRetention := retention;
      nextBackupAt := if enabled then Some(now + hours * HOUR) else None;
    }

    /**
      * `_scheduled_backup`; `stuck` are the files `unlink` fails on, and the new file name, with random digits
      * in it, is new.
      */
    method ScheduledBackup(now: int, attempt: Attempt, stuck: set<string>) returns (outcome: Outcome)
      requires HaveOwnFiles(rows)
      requires attempt.created.Some? ==> IsNewFile(rows, attempt.created.value)
      modifies this`nextBackupAt, this`rows, this`files, this`events, this`commands
      ensures HaveOwnFiles(rows)
      ensures outcome.Off? <==> !old(backupEnabled)
      ensures outcome.Armed? <==> old(backupEnabled) && old(nextBackupAt).None?
      ensures outcome.NotDue? <==> old(backupEnabled) && old(nextBackupAt).Some? && now < old(nextBackupAt).value
      ensures outcome.Succeeded? <==> IsDue(old(ScheduleState()), now) && AllGoesWell(attempt)
      ensures outcome.Failed? <==> IsDue(old(ScheduleState()), now) && !AllGoesWell(attempt)
      ensures ShelfState() == ShelfStep(old(ShelfState()), Maintain(now, attempt, stuck))
      ensures events == old(events) + (if outcome.Failed? then [ScheduledBackupFailed] else [])
      ensures commands == old(commands) +
                (if outcome in {Failed, Succeeded} && attempt.running && attempt.saveOff
                 then ["save-off", "save-all flush", "save-on"]
                 else if outcome in {Failed, Succeeded} && attempt.running then ["save-off"]
                 else [])
    {
      if !backupEnabled {
        return Off;
      }
      if nextBackupAt.None? {
        nextBackupAt := Some(now + backupIntervalHours * HOUR);
        return Armed;
      }
      if nextBackupAt.value > now {
        return NotDue;
      }
      var made := MakeArtifact(attempt);
      if made.None? {
        events := events + [ScheduledBackupFailed];
        nextBackupAt := Some(now + HOUR);
        return Failed;
      }
      KeepBackup(now, made.value, stuck);
      outcome := Succeeded;
    }

    /** What follows the archive: the new row, the next due time, the deletion of expired backups. */
    method KeepBackup(now: int, fileName: string, stuck: set<string>)
      requires HaveOwnFiles(rows) && IsNewFile(rows, fileName)
      modifies this`nextBackupAt, this`rows, this`files
      ensures HaveOwnFiles(rows)
      ensures nextBackupAt == Some(now + backupIntervalHours * HOUR)
      ensures rows == RowsKept(old(rows), now, fileName, backupRetention, old(files), stuck)
      ensures files == FilesKept(old(rows), now, fileName, backupRetention, old(files), stuck)
    {
      AddRow(now, fileName);
      nextBackupAt := Some(now + backupIntervalHours * HOUR);
      if |rows| > backupRetention {
        DeleteExpired(stuck);
      }
    }

    /** The row of a new backup, also of one taken by hand. */
    method AddRow(now: int, fileName: string)
      requires HaveOwnFiles(rows) && IsNewFile(rows, fileName)
      modifies this`rows, this`files
      ensures HaveOwnFiles(rows)
      ensures ShelfState() == ShelfStep(old(ShelfState()), Taken(now, fileName))
      ensures rows == [Row(fileName, now)] + old(rows) && files == old(files) + {fileName}
    {
      FoundHaveOwnFiles(rows, now, fileName);
      files := files + {fileName};
      rows := Found(rows, now, fileName);
    }

    /** `delete_server_backup`; `fault` says that `unlink` fails. */
    method DeleteRow(fileName: string, fault: bool) returns (ok: bool)
      requires HaveOwnFiles(rows)
      modifies this`rows, this`files
      ensures HaveOwnFiles(rows)
      ensures ok == (fileName in old(files) && !fault)
      ensures ShelfState() == if ok then ShelfStep(old(ShelfState()), Deleted(fileName)) else old(ShelfState())
      ensures ok ==> files == old(files) - {fileName}
      ensures ok ==> forall r :: r in rows <==> r in old(rows) && r.fileName != fileName
    {
      WithoutMembers(rows, fileName);
      if fileName !in files || fault {
        return false;
      }
      WithoutIsPicked(rows, fileName);
      PickingKeepsOrder(Without(rows, fileName), rows);
      files := files - {fileName};
      rows := Without(rows, fileName);
      ok := true;
    }

    /** Pausing saves, the archive, and resuming saves on every way out. */
    method MakeArtifact(attempt: Attempt) returns (made: Option<string>)
      modifies this`commands
      ensures made == if Succeeds(attempt) then attempt.created else None
      ensures commands == old(commands) +
                (if attempt.running && attempt.saveOff then ["save-off", "save-all flush", "save-on"]
                 else if attempt.running then ["save-off"]
                 else [])
    {
      var savesPaused := false;
      made := None;
      if attempt.running {
        commands := commands + ["save-off"];
        if attempt.saveOff {
          savesPaused := true;
          commands := commands + ["save-all flush"];
          if attempt.flush {
            made := attempt.created;
          }
        }
      } else {
        made := attempt.created;
      }
      if savesPaused {
        commands := commands + ["save-on"];
      }
    }

    /** The deletion loop over `existing[backup_retention:]`. */
    method DeleteExpired(stuck: set<string>)
      requires HaveOwnFiles(rows) && |rows| > backupRetention
      modifies this`rows, this`files
      ensures rows == Retained(old(rows), backupRetention, old(files), stuck)
      ensures files == old(files) - Deletable(old(rows)[backupRetention..], stuck)
      ensures HaveOwnFiles(rows)
    {
      var existing := rows;
      var left := [];
      for i := backupRetention to |existing|
        invariant left + Undeleted(existing[i..], old(files), stuck)
                  == Undeleted(existing[backupRetention..], old(files), stuck)
        invariant files == old(files) - Deletable(existing[backupRetention..i], stuck)
      {
        var expired := existing[i];
        UndeletedStep(left, existing, i, old(files), stuck);
        DeletableStep(existing, backupRetention, i, stuck);
        if expired.fileName !in files || expired.fileName in stuck {
          left := left + [expired];
        } else {
          files := files - {expired.fileName};
        }
      }
      AllLookedAt(existing, backupRetention, left, old(files), stuck);
      rows := existing[..backupRetention] + left;
    }
  }
}
