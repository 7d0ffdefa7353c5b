/** Selecting pending transactions while earlier ones are fetched and written, at most so many blocks at once. */
module TransactionWindow {
  import opened Wrappers

  type Id = nat

  const WINDOW: nat := 32         // heights in flight
  const READY_JOBS: nat := 32     // jobs sent together
  const READY_BATCHES: nat := 32  // batches the channel holds
  const SELECTION: nat := 256     // transactions one query returns

  datatype Job = Job(height: nat, ids: seq<Id>)

  /** Where the selector stands.  `excluded` is the copy of the active heights a query was given. */
  datatype Selector =
    | Top
    | Room
    | Full                                          // waits for a commit: the window is full
    | Asking(excluded: set<nat>)
    | Answered(excluded: set<nat>, pending: seq<Id>)
    | Idle(excluded: set<nat>)                      // waits for a commit: nothing else is pending
    | Ended

  datatype Place = Receiving | BetweenJobs | OnJob(height: nat, left: seq<Id>)

  /** Where the writer stands, and for a detour where it goes on afterwards. */
  datatype Phase =
    | At(place: Place)
    | Recording(place: Place)
    | Draining(place: Place)
    | Leaving(height: nat)
    | Notifying(place: Place)

  datatype Pipe = Pipe(fetching: seq<Job>, outbox: seq<Job>, sending: bool, channel: seq<seq<Job>>, batch: seq<Job>)

  /** `jobs` is history only: the transactions of each job in flight. */
  datatype State = State(
    recorded: set<Id>, active: set<nat>, permit: bool,
    selector: Selector, queued: seq<Job>, pipe: Pipe,
    objects: seq<Id>, completed: seq<nat>, phase: Phase,
    jobs: map<nat, seq<Id>>)

  datatype Event =
    | CheckFull
    | Wake
    | Pop
    | Snapshot
    | Query(pending: seq<Id>)
    | Digest
    | Ready(i: nat)      // a fetch completes
    | Seal               // the jobs that are ready become one batch
    | Send
    | Receive
    | NextJob
    | EndBatch
    | Push
    | EndJob
    | Record
    | Drain
    | Leave
    | Notify

  // ----- selection -----

  ghost predicate Eligible(home: map<Id, nat>, recorded: set<Id>, excluded: set<nat>, id: Id) {
    id in home && id !in recorded && home[id] !in excluded
  }

  /** What the database answers: the pending transactions outside the excluded heights, lowest
      height first, at most so many. */
  ghost predicate IsAnswer(home: map<Id, nat>, recorded: set<Id>, excluded: set<nat>, pending: seq<Id>) {
    && |pending| <= SELECTION
    && (forall i :: 0 <= i < |pending| ==> Eligible(home, recorded, excluded, pending[i]))
    && (forall i, j :: 0 <= i < j < |pending| ==> pending[i] != pending[j] && home[pending[i]] <= home[pending[j]])
    && (forall id :: Eligible(home, recorded, excluded, id) && id !in pending ==>
          |pending| == SELECTION && home[pending[|pending| - 1]] <= home[id])
  }

  /** Add a transaction to the job of its height. */
  function AddTo(jobs: seq<Job>, height: nat, id: Id): seq<Job> {
    if jobs == [] || height < jobs[0].height then [Job(height, [id])] + jobs
    else if jobs[0].height == height then [Job(height, jobs[0].ids + [id])] + jobs[1..]
    else [jobs[0]] + AddTo(jobs[1..], height, id)
  }

  /** One job per height, in order of height. */
  function Groups(home: map<Id, nat>, pending: seq<Id>): seq<Job>
    requires forall i :: 0 <= i < |pending| ==> pending[i] in home
  {
    if pending == [] then []
    else AddTo(Groups(home, pending[..|pending| - 1]), home[pending[|pending| - 1]], pending[|pending| - 1])
  }

  // ----- one step -----

  ghost predicate Enabled(home: map<Id, nat>, batchSize: nat, s: State, e: Event) {
    match e
    case CheckFull => !s.pipe.sending && s.selector.Top?
    case Wake => !s.pipe.sending && (s.selector.Full? || s.selector.Idle?) && s.permit
    case Pop => !s.pipe.sending && s.selector.Room? && s.queued != []
    case Snapshot => !s.pipe.sending && s.selector.Room? && s.queued == []
    case Query(pending) =>
      !s.pipe.sending && s.selector.Asking? && IsAnswer(home, s.recorded, s.selector.excluded, pending)
    case Digest =>
      !s.pipe.sending && s.selector.Answered? && forall i :: 0 <= i < |s.selector.pending| ==> s.selector.pending[i] in home
    case Ready(i) => !s.pipe.sending && i < |s.pipe.fetching| && |s.pipe.outbox| < READY_JOBS
    case Seal => !s.pipe.sending && s.pipe.outbox != []
    case Send => s.pipe.sending && |s.pipe.channel| < READY_BATCHES
    case Receive => s.phase == At(Receiving) && s.pipe.channel != []
    case NextJob => s.phase == At(BetweenJobs) && s.pipe.batch != []
    case EndBatch => s.phase == At(BetweenJobs) && s.pipe.batch == []
    case Push => s.phase.At? && s.phase.place.OnJob? && s.phase.place.left != []
    case EndJob => s.phase.At? && s.phase.place.OnJob? && s.phase.place.left == []
    case Record => s.phase.Recording?
    case Drain => s.phase.Draining?
    case Leave => s.phase.Leaving?
    case Notify => s.phase.Notifying?
  }

  function ToSet(ids: seq<Id>): set<Id> {
    set id | id in ids
  }

  ghost function Without<T>(s: seq<T>, i: nat): seq<T>
    requires i < |s|
  {
    s[..i] + s[i + 1..]
  }

  ghost function Next(home: map<Id, nat>, batchSize: nat, s: State, e: Event): State
    requires Enabled(home, batchSize, s, e)
  {
    match e
    case CheckFull => s.(selector := if |s.active| == WINDOW then Full else Room)
    case Wake => s.(selector := Top, permit := false)
    case Pop =>
      var job := s.queued[0];
      s.(selector := Top, queued := s.queued[1..], active := s.active + {job.height},
         pipe := s.pipe.(fetching := s.pipe.fetching + [job]), jobs := s.jobs[job.height := job.ids])
    case Snapshot => s.(selector := Asking(s.active))
    case Query(pending) => s.(selector := Answered(s.selector.excluded, pending))
    case Digest =>
      if s.selector.pending != [] then s.(selector := Top, queued := Groups(home, s.selector.pending))
      else if s.active != s.selector.excluded then s.(selector := Top)
      else if s.selector.excluded == {} then s.(selector := Ended)
      else s.(selector := Idle(s.selector.excluded))
    case Ready(i) =>
      s.(pipe := s.pipe.(fetching := Without(s.pipe.fetching, i), outbox := s.pipe.outbox + [s.pipe.fetching[i]]))
    case Seal => s.(pipe := s.pipe.(sending := true))
    case Send => s.(pipe := s.pipe.(outbox := [], sending := false, channel := s.pipe.channel + [s.pipe.outbox]))
    case Receive =>
      s.(pipe := s.pipe.(channel := s.pipe.channel[1..], batch := s.pipe.channel[0]), phase := At(BetweenJobs))
    case NextJob =>
      var job := s.pipe.batch[0];
      s.(pipe := s.pipe.(batch := s.pipe.batch[1..]), phase := At(OnJob(job.height, job.ids)))
    case EndBatch => s.(phase := if s.objects != [] then Recording(Receiving) else Draining(Receiving))
    case Push =>
      var place := OnJob(s.phase.place.height, s.phase.place.left[1..]);
      var objects := s.objects + [s.phase.place.left[0]];
      s.(objects := objects, phase := if |objects| == batchSize then Recording(place) else At(place))
    case EndJob =>
      if s.objects == [] then s.(phase := Leaving(s.phase.place.height))
      else s.(completed := s.completed + [s.phase.place.height], phase := At(BetweenJobs))
    case Record =>
      s.(recorded := s.recorded + ToSet(s.objects), objects := [], phase := Draining(s.phase.place))
    case Drain =>
      if s.completed == [] then s.(phase := Notifying(s.phase.place))
      else s.(active := s.active - {s.completed[0]}, jobs := s.jobs - {s.completed[0]}, completed := s.completed[1..])
    case Leave =>
      s.(active := s.active - {s.phase.height}, jobs := s.jobs - {s.phase.height}, phase := Notifying(BetweenJobs))
    case Notify => s.(permit := true, phase := At(s.phase.place))
  }

  ghost function Initial(): State {
    State({}, {}, false, Top, [], Pipe([], [], false, [], []), [], [], At(Receiving), map[])
  }

  // ----- the invariant -----

  ghost function Concat(batches: seq<seq<Job>>): seq<Job> {
    if batches == [] then [] else batches[0] + Concat(batches[1..])
  }

  /** The jobs selected but not yet with the writer, wherever they wait. */
  ghost function Flow(p: Pipe): multiset<Job> {
    multiset(p.fetching) + multiset(p.outbox) + multiset(Concat(p.channel)) + multiset(p.batch)
  }

  ghost predicate HasHeight(flow: multiset<Job>, h: nat) {
    exists j :: j in flow && j.height == h
  }

  /** The job the writer is on. */
  ghost function Current(phase: Phase): Option<(nat, seq<Id>)> {
    match phase
    case Leaving(h) => Some((h, []))
    case At(OnJob(h, left)) => Some((h, left))
    case Recording(OnJob(h, left)) => Some((h, left))
    case Draining(OnJob(h, left)) => Some((h, left))
    case Notifying(OnJob(h, left)) => Some((h, left))
    case _ => None
  }

  ghost function Height(current: Option<(nat, seq<Id>)>): Option<nat> {
    match current
    case Some((h, _)) => Some(h)
    case None => None
  }

  /** The active heights are those of the jobs in flight, each of which is in one place. */
  ghost predicate InFlight(flow: multiset<Job>, active: set<nat>, jobs: map<nat, seq<Id>>, completed: seq<nat>,
                           working: Option<nat>) {
    && jobs.Keys == active
    && (forall j :: j in flow ==> flow[j] == 1 && j.height in active && jobs[j.height] == j.ids)
    && (forall i :: 0 <= i < |completed| ==> completed[i] in active && !HasHeight(flow, completed[i]))
    && (forall i, j :: 0 <= i < j < |completed| ==> completed[i] != completed[j])
    && (working.Some? ==> working.value in active && working.value !in completed && !HasHeight(flow, working.value))
    && (forall h :: h in active ==> HasHeight(flow, h) || h in completed || working == Some(h))
  }

  /** What the writer holds. */
  ghost predicate Writing(batchSize: nat, objects: seq<Id>, completed: seq<nat>, phase: Phase, batch: seq<Job>) {
    && |objects| <= batchSize
    && (phase.At? ==> |objects| < batchSize)
    && (phase.Recording? ==> objects != [])
    && (phase.Draining? || phase.Leaving? || phase.Notifying? ==> objects == [])
    && (phase.Notifying? || phase.Leaving? ==> completed == [])
    && (phase.At? && objects == [] ==> completed == [])
    && (phase == At(Receiving) ==> objects == [])
    && (!phase.Leaving? && phase.place.Receiving? ==> batch == [])
  }

  ghost predicate Sealed(p: Pipe) {
    p.sending ==> p.outbox != []
  }

  /** Every job consists of different transactions of its height. */
  ghost predicate Sound(home: map<Id, nat>, jobs: map<nat, seq<Id>>) {
    forall h :: h in jobs ==> IsJob(home, {}, Job(h, jobs[h]))
  }

  ghost predicate IsJob(home: map<Id, nat>, recorded: set<Id>, job: Job) {
    && job.ids != []
    && (forall k :: 0 <= k < |job.ids| ==>
          job.ids[k] in home && home[job.ids[k]] == job.height && job.ids[k] !in recorded)
    && (forall i, k :: 0 <= i < k < |job.ids| ==> job.ids[i] != job.ids[k])
  }

  /** Jobs on their way to the writer hold nothing recorded. */
  ghost predicate Unrecorded(flow: multiset<Job>, recorded: set<Id>) {
    forall j, k :: j in flow && 0 <= k < |j.ids| ==> j.ids[k] !in recorded
  }

  /** Buffered transactions are different, not recorded, and of jobs the writer has not let go. */
  ghost predicate Buffered(home: map<Id, nat>, objects: seq<Id>, recorded: set<Id>, completed: seq<nat>, working: Option<nat>) {
    && (forall i, k :: 0 <= i < k < |objects| ==> objects[i] != objects[k])
    && (forall i :: 0 <= i < |objects| ==>
          && objects[i] !in recorded && objects[i] in home
          && (home[objects[i]] in completed || working == Some(home[objects[i]])))
  }

  ghost predicate AllStored(objects: seq<Id>, recorded: set<Id>, ids: seq<Id>) {
    forall k :: 0 <= k < |ids| ==> ids[k] in objects || ids[k] in recorded
  }

  /** Completed jobs have passed all their transactions on. */
  ghost predicate Completed(jobs: map<nat, seq<Id>>, completed: seq<nat>, objects: seq<Id>, recorded: set<Id>) {
    forall i :: 0 <= i < |completed| ==> completed[i] in jobs && AllStored(objects, recorded, jobs[completed[i]])
  }

  /** The current job has passed on the transactions before the remaining ones. */
  ghost predicate InHand(jobs: map<nat, seq<Id>>, current: Option<(nat, seq<Id>)>, objects: seq<Id>, recorded: set<Id>) {
    current.Some? ==>
      var (h, left) := current.value;
      && h in jobs && |left| <= |jobs[h]|
      && left == jobs[h][|jobs[h]| - |left|..]
      && AllStored(objects, recorded, jobs[h][..|jobs[h]| - |left|])
      && forall k :: 0 <= k < |left| ==> left[k] !in objects && left[k] !in recorded
  }

  /** What is selected next is disjoint from what is in flight or done. */
  ghost predicate Selecting(home: map<Id, nat>, selector: Selector, queued: seq<Job>, active: set<nat>, recorded: set<Id>) {
    && |active| <= WINDOW
    && (selector.Room? ==> |active| < WINDOW)
    && (forall i :: 0 <= i < |queued| ==> queued[i].height !in active && IsJob(home, recorded, queued[i]))
    && (forall i, j :: 0 <= i < j < |queued| ==> queued[i].height != queued[j].height)
    && (selector.Asking? || selector.Answered? || selector.Idle? || selector.Ended? ==> queued == [])
    && (selector.Asking? || selector.Answered? || selector.Idle? ==> active <= selector.excluded)
    && (selector.Answered? ==> Chosen(home, recorded, selector.excluded, selector.pending))
    && (selector.Idle? ==> selector.excluded != {})
    && (selector.Ended? ==> active == {} && forall id :: id in home ==> id in recorded)
  }

  ghost predicate Chosen(home: map<Id, nat>, recorded: set<Id>, excluded: set<nat>, pending: seq<Id>) {
    && (forall i :: 0 <= i < |pending| ==> Eligible(home, recorded, excluded, pending[i]))
    && (forall i, j :: 0 <= i < j < |pending| ==> pending[i] != pending[j])
    && (pending == [] ==> forall id :: !Eligible(home, recorded, excluded, id))
  }

  /** Whoever waits while no wake-up is stored or coming waits for a reason that still holds. */
  ghost predicate Awake(permit: bool, phase: Phase, selector: Selector, active: set<nat>) {
    permit || (!phase.At? && !phase.Recording?) ||
    ((selector.Full? ==> |active| == WINDOW) && (selector.Idle? ==> active == selector.excluded))
  }

  ghost predicate Inv(home: map<Id, nat>, batchSize: nat, s: State) {
    && InFlight(Flow(s.pipe), s.active, s.jobs, s.completed, Height(Current(s.phase)))
    && Writing(batchSize, s.objects, s.completed, s.phase, s.pipe.batch)
    && Sealed(s.pipe)
    && Sound(home, s.jobs)
    && Unrecorded(Flow(s.pipe), s.recorded)
    && Buffered(home, s.objects, s.recorded, s.completed, Height(Current(s.phase)))
    && Completed(s.jobs, s.completed, s.objects, s.recorded)
    && InHand(s.jobs, Current(s.phase), s.objects, s.recorded)
    && Selecting(home, s.selector, s.queued, s.active, s.recorded)
    && Awake(s.permit, s.phase, s.selector, s.active)
  }

  // ----- the pipeline -----

  lemma {:induction false} ConcatAppend(batches: seq<seq<Job>>, batch: seq<Job>)
    ensures Concat(batches + [batch]) == Concat(batches) + batch
  {
    if batches == [] {
      assert batches + [batch] == [batch] && Concat([batch]) == batch + Concat([]) == batch;
    } else {
      ConcatAppend(batches[1..], batch);
      assert (batches + [batch])[1..] == batches[1..] + [batch];
    }
  }

  lemma WithoutMultiset(jobs: seq<Job>, i: nat)
    requires i < |jobs|
    ensures multiset(Without(jobs, i)) + multiset{jobs[i]} == multiset(jobs)
  {
    assert jobs == jobs[..i] + ([jobs[i]] + jobs[i + 1..]);
  }

  /** The steps of the pipeline move jobs and lose none. */
  lemma PipeKeepsFlow(home: map<Id, nat>, batchSize: nat, s: State, e: Event)
    requires Enabled(home, batchSize, s, e) && (e.Ready? || e.Seal? || e.Send? || (e.Receive? && s.pipe.batch == []))
    ensures Flow(Next(home, batchSize, s, e).pipe) == Flow(s.pipe)
  {
    match e
    case Ready(i) => WithoutMultiset(s.pipe.fetching, i);
    case Send => ConcatAppend(s.pipe.channel, s.pipe.outbox);
    case Seal =>
    case Receive =>
  }

  lemma PipeKeeps(home: map<Id, nat>, batchSize: nat, s: State, e: Event)
    requires Inv(home, batchSize, s) && Enabled(home, batchSize, s, e)
    requires e.Ready? || e.Seal? || e.Send? || e.Receive?
    ensures Inv(home, batchSize, Next(home, batchSize, s, e))
  {
    hide Flow, InFlight, Sound, Unrecorded, Buffered, Completed, InHand, Selecting;
    PipeKeepsFlow(home, batchSize, s, e);
  }

  /** Taking a job out of the flow, to work on it. */
  lemma TakeJob(flow: multiset<Job>, rest: multiset<Job>, job: Job, active: set<nat>, jobs: map<nat, seq<Id>>,
                completed: seq<nat>, recorded: set<Id>)
    requires flow == rest + multiset{job}
    requires InFlight(flow, active, jobs, completed, None) && Unrecorded(flow, recorded)
    ensures InFlight(rest, active, jobs, completed, Some(job.height)) && Unrecorded(rest, recorded)
    ensures job.height in jobs && jobs[job.height] == job.ids
    ensures forall k :: 0 <= k < |job.ids| ==> job.ids[k] !in recorded
  {
    assert job in flow && flow[job] == 1 && job !in rest;
    forall j | j in rest
      ensures j in flow && j.height != job.height
    {
    }
    assert HasHeight(flow, job.height);
    assert forall h :: h != job.height ==> (HasHeight(rest, h) <==> HasHeight(flow, h));
  }

  lemma TakePassed(home: map<Id, nat>, jobs: map<nat, seq<Id>>, job: Job, objects: seq<Id>, recorded: set<Id>, completed: seq<nat>)
    requires job.height in jobs && jobs[job.height] == job.ids
    requires forall k :: 0 <= k < |job.ids| ==> job.ids[k] !in objects && job.ids[k] !in recorded
    requires Buffered(home, objects, recorded, completed, None)
    ensures InHand(jobs, Some((job.height, job.ids)), objects, recorded)
    ensures Buffered(home, objects, recorded, completed, Some(job.height))
  {
    assert job.ids[0..] == job.ids;
  }

  lemma NextJobFlow(p: Pipe)
    requires p.batch != []
    ensures Flow(p) == Flow(p.(batch := p.batch[1..])) + multiset{p.batch[0]}
  {
    assert p.batch == [p.batch[0]] + p.batch[1..];
  }

  lemma NextJobKeeps(home: map<Id, nat>, batchSize: nat, s: State)
    requires Inv(home, batchSize, s) && Enabled(home, batchSize, s, NextJob)
    ensures Inv(home, batchSize, Next(home, batchSize, s, NextJob))
  {
    hide Flow, InFlight, Sound, Completed, Selecting, Unrecorded, InHand, Buffered;
    var t := Next(home, batchSize, s, NextJob);
    var job := s.pipe.batch[0];
    NextJobFlow(s.pipe);
    UnbufferedJob(home, s, job);
    TakeJob(Flow(s.pipe), Flow(t.pipe), job, s.active, s.jobs, s.completed, s.recorded);
    TakePassed(home, s.jobs, job, s.objects, s.recorded, s.completed);
  }

  /** What is on its way is not buffered. */
  lemma UnbufferedJob(home: map<Id, nat>, s: State, job: Job)
    requires InFlight(Flow(s.pipe), s.active, s.jobs, s.completed, Height(Current(s.phase))) && Sound(home, s.jobs)
    requires Buffered(home, s.objects, s.recorded, s.completed, Height(Current(s.phase)))
    requires job in Flow(s.pipe)
    ensures forall k :: 0 <= k < |job.ids| ==> job.ids[k] !in s.objects
  {
    hide Flow;
    assert HasHeight(Flow(s.pipe), job.height);
    assert IsJob(home, {}, Job(job.height, s.jobs[job.height]));
  }

  // ----- the writer -----

  lemma EndBatchKeeps(home: map<Id, nat>, batchSize: nat, s: State)
    requires Inv(home, batchSize, s) && Enabled(home, batchSize, s, EndBatch)
    ensures Inv(home, batchSize, Next(home, batchSize, s, EndBatch))
  {
    hide Flow, InFlight, Sound, Completed, Selecting, Unrecorded, InHand, Buffered;
  }

  lemma PushPassed(home: map<Id, nat>, jobs: map<nat, seq<Id>>, h: nat, left: seq<Id>, objects: seq<Id>, recorded: set<Id>,
                   completed: seq<nat>)
    requires Sound(home, jobs) && left != [] && InHand(jobs, Some((h, left)), objects, recorded)
    requires Buffered(home, objects, recorded, completed, Some(h)) && Completed(jobs, completed, objects, recorded)
    ensures var more := objects + [left[0]];
            && InHand(jobs, Some((h, left[1..])), more, recorded)
            && Buffered(home, more, recorded, completed, Some(h)) && Completed(jobs, completed, more, recorded)
  {
    var ids := jobs[h];
    var n := |ids| - |left|;
    assert IsJob(home, {}, Job(h, ids));
    assert left[0] == ids[n];
    assert forall k :: 0 <= k < |left| ==> left[k] == ids[n + k];
    assert ids[..n + 1] == ids[..n] + [left[0]];
    assert left[1..] == ids[n + 1..];
    forall i | 0 <= i < |completed|
      ensures AllStored(objects + [left[0]], recorded, jobs[completed[i]])
    {
    }
  }

  lemma PushPhase(batchSize: nat, objects: seq<Id>, completed: seq<nat>, place: Place, batch: seq<Job>, permit: bool,
                  selector: Selector, active: set<nat>)
    requires place.OnJob? && place.left != []
    requires Writing(batchSize, objects, completed, At(place), batch) && Awake(permit, At(place), selector, active)
    ensures var after := OnJob(place.height, place.left[1..]);
            var more := objects + [place.left[0]];
            var phase := if |more| == batchSize then Recording(after) else At(after);
            Writing(batchSize, more, completed, phase, batch) && Awake(permit, phase, selector, active)
  {
  }

  lemma PushKeeps(home: map<Id, nat>, batchSize: nat, s: State)
    requires Inv(home, batchSize, s) && Enabled(home, batchSize, s, Push)
    ensures Inv(home, batchSize, Next(home, batchSize, s, Push))
  {
    hide Flow, InFlight, Sound, Completed, Selecting, Unrecorded, InHand, Buffered, Writing, Awake;
    var place := s.phase.place;
    PushPhase(batchSize, s.objects, s.completed, place, s.pipe.batch, s.permit, s.selector, s.active);
    PushPassed(home, s.jobs, place.height, place.left, s.objects, s.recorded, s.completed);
  }

  lemma CompleteJob(home: map<Id, nat>, flow: multiset<Job>, active: set<nat>, jobs: map<nat, seq<Id>>, completed: seq<nat>,
                    h: nat, objects: seq<Id>, recorded: set<Id>)
    requires InFlight(flow, active, jobs, completed, Some(h)) && Buffered(home, objects, recorded, completed, Some(h))
    requires Completed(jobs, completed, objects, recorded) && InHand(jobs, Some((h, [])), objects, recorded)
    ensures InFlight(flow, active, jobs, completed + [h], None) && Buffered(home, objects, recorded, completed + [h], None)
    ensures Completed(jobs, completed + [h], objects, recorded) && InHand(jobs, None, objects, recorded)
  {
    assert forall g :: g in completed ==> g in completed + [h];
    assert h in completed + [h];
    assert jobs[h][..|jobs[h]|] == jobs[h];
  }

  lemma EndJobKeeps(home: map<Id, nat>, batchSize: nat, s: State)
    requires Inv(home, batchSize, s) && Enabled(home, batchSize, s, EndJob)
    ensures Inv(home, batchSize, Next(home, batchSize, s, EndJob))
  {
    hide Flow, InFlight, Sound, Completed, Selecting, Unrecorded, InHand, Buffered;
    var h := s.phase.place.height;
    assert Current(s.phase) == Some((h, []));
    CompleteJob(home, Flow(s.pipe), s.active, s.jobs, s.completed, h, s.objects, s.recorded);
  }

  lemma RecordPassed(home: map<Id, nat>, s: State)
    requires InFlight(Flow(s.pipe), s.active, s.jobs, s.completed, Height(Current(s.phase))) && Sound(home, s.jobs)
    requires Buffered(home, s.objects, s.recorded, s.completed, Height(Current(s.phase)))
    requires Unrecorded(Flow(s.pipe), s.recorded) && Completed(s.jobs, s.completed, s.objects, s.recorded)
    requires InHand(s.jobs, Current(s.phase), s.objects, s.recorded)
    ensures var recorded := s.recorded + ToSet(s.objects);
            && Unrecorded(Flow(s.pipe), recorded) && Completed(s.jobs, s.completed, [], recorded)
            && InHand(s.jobs, Current(s.phase), [], recorded)
            && Buffered(home, [], recorded, s.completed, Height(Current(s.phase)))
  {
    hide Flow, InFlight, Sound;
    var recorded := s.recorded + ToSet(s.objects);
    forall j, k | j in Flow(s.pipe) && 0 <= k < |j.ids|
      ensures j.ids[k] !in recorded
    {
      UnbufferedJob(home, s, j);
    }
    forall i | 0 <= i < |s.completed|
      ensures AllStored([], recorded, s.jobs[s.completed[i]])
    {
      assert AllStored(s.objects, s.recorded, s.jobs[s.completed[i]]);
    }
  }

  /** Recording does not touch what is queued or chosen: it is of other heights. */
  lemma RecordSelecting(home: map<Id, nat>, s: State)
    requires InFlight(Flow(s.pipe), s.active, s.jobs, s.completed, Height(Current(s.phase)))
    requires Buffered(home, s.objects, s.recorded, s.completed, Height(Current(s.phase)))
    requires Selecting(home, s.selector, s.queued, s.active, s.recorded)
    ensures Selecting(home, s.selector, s.queued, s.active, s.recorded + ToSet(s.objects))
  {
    hide Flow;
    var recorded := s.recorded + ToSet(s.objects);
    assert forall id :: id in ToSet(s.objects) ==> id in home && home[id] in s.active;
    forall i | 0 <= i < |s.queued|
      ensures IsJob(home, recorded, s.queued[i])
    {
      assert IsJob(home, s.recorded, s.queued[i]);
    }
    if s.selector.Answered? {
      ChosenLater(home, s.recorded, recorded, s.selector.excluded, s.selector.pending);
    }
  }

  lemma ChosenLater(home: map<Id, nat>, before: set<Id>, after: set<Id>, excluded: set<nat>, pending: seq<Id>)
    requires Chosen(home, before, excluded, pending) && before <= after
    requires forall id :: id in after - before ==> id in home && home[id] in excluded
    ensures Chosen(home, after, excluded, pending)
  {
    forall id
      ensures Eligible(home, after, excluded, id) <==> Eligible(home, before, excluded, id)
    {
    }
  }

  lemma RecordKeeps(home: map<Id, nat>, batchSize: nat, s: State)
    requires Inv(home, batchSize, s) && Enabled(home, batchSize, s, Record)
    ensures Inv(home, batchSize, Next(home, batchSize, s, Record))
  {
    hide Flow, InFlight, Sound, Completed, Selecting, Unrecorded, InHand, Buffered, ToSet;
    RecordPassed(home, s);
    RecordSelecting(home, s);
  }

  // ----- letting a height go -----

  lemma LetGo(home: map<Id, nat>, active: set<nat>, jobs: map<nat, seq<Id>>, h: nat, selector: Selector, queued: seq<Job>, recorded: set<Id>)
    requires Sound(home, jobs) && Selecting(home, selector, queued, active, recorded) && h in active
    ensures Sound(home, jobs - {h}) && Selecting(home, selector, queued, active - {h}, recorded)
  {
    hide IsJob, Chosen;
    assert |active - {h}| == |active| - 1;
  }

  lemma DrainJob(home: map<Id, nat>, flow: multiset<Job>, active: set<nat>, jobs: map<nat, seq<Id>>, completed: seq<nat>,
                 current: Option<(nat, seq<Id>)>, recorded: set<Id>)
    requires InFlight(flow, active, jobs, completed, Height(current)) && completed != []
    requires Completed(jobs, completed, [], recorded) && InHand(jobs, current, [], recorded)
    ensures completed[0] in active
    ensures var rest := jobs - {completed[0]};
            && InFlight(flow, active - {completed[0]}, rest, completed[1..], Height(current))
            && Completed(rest, completed[1..], [], recorded) && InHand(rest, current, [], recorded)
            && Buffered(home, [], recorded, completed[1..], Height(current))
  {
    hide AllStored;
    var h := completed[0];
    forall j | j in flow
      ensures j.height != h
    {
      assert !HasHeight(flow, h);
    }
    assert forall g :: g in completed && g != h ==> g in completed[1..];
    forall i | 0 <= i < |completed[1..]|
      ensures completed[1..][i] == completed[i + 1] && completed[i + 1] != h
    {
    }
  }

  lemma DrainKeeps(home: map<Id, nat>, batchSize: nat, s: State)
    requires Inv(home, batchSize, s) && Enabled(home, batchSize, s, Drain)
    ensures Inv(home, batchSize, Next(home, batchSize, s, Drain))
  {
    hide Flow, InFlight, Sound, Completed, Selecting, Unrecorded, InHand, Buffered;
    if s.completed != [] {
      DrainJob(home, Flow(s.pipe), s.active, s.jobs, s.completed, Current(s.phase), s.recorded);
      LetGo(home, s.active, s.jobs, s.completed[0], s.selector, s.queued, s.recorded);
    }
  }

  lemma LeaveJob(home: map<Id, nat>, flow: multiset<Job>, active: set<nat>, jobs: map<nat, seq<Id>>, h: nat, recorded: set<Id>)
    requires InFlight(flow, active, jobs, [], Some(h))
    ensures h in active && InFlight(flow, active - {h}, jobs - {h}, [], None)
    ensures Completed(jobs - {h}, [], [], recorded) && InHand(jobs - {h}, None, [], recorded)
    ensures Buffered(home, [], recorded, [], None)
  {
    forall j | j in flow
      ensures j.height != h
    {
      assert !HasHeight(flow, h);
    }
  }

  lemma LeaveKeeps(home: map<Id, nat>, batchSize: nat, s: State)
    requires Inv(home, batchSize, s) && Enabled(home, batchSize, s, Leave)
    ensures Inv(home, batchSize, Next(home, batchSize, s, Leave))
  {
    hide Flow, InFlight, Sound, Selecting, Unrecorded, InHand, Buffered, Completed;
    LeaveJob(home, Flow(s.pipe), s.active, s.jobs, s.phase.height, s.recorded);
    LetGo(home, s.active, s.jobs, s.phase.height, s.selector, s.queued, s.recorded);
  }

  lemma NotifyKeeps(home: map<Id, nat>, batchSize: nat, s: State)
    requires Inv(home, batchSize, s) && Enabled(home, batchSize, s, Notify) && batchSize > 0
    ensures Inv(home, batchSize, Next(home, batchSize, s, Notify))
  {
    hide Flow, InFlight, Sound, Completed, Selecting, Unrecorded, InHand, Buffered;
  }

  // ----- the selector -----

  ghost function IdSet(jobs: seq<Job>): set<Id> {
    if jobs == [] then {} else ToSet(jobs[0].ids) + IdSet(jobs[1..])
  }

  /** Jobs of different heights, lowest first. */
  ghost predicate Grouped(home: map<Id, nat>, jobs: seq<Job>) {
    && (forall i :: 0 <= i < |jobs| ==> IsJob(home, {}, jobs[i]))
    && (forall i, j :: 0 <= i < j < |jobs| ==> jobs[i].height < jobs[j].height)
  }

  lemma JobGrows(home: map<Id, nat>, job: Job, id: Id)
    requires IsJob(home, {}, job) && id in home && home[id] == job.height && id !in job.ids
    ensures IsJob(home, {}, Job(job.height, job.ids + [id]))
  {
  }

  lemma {:induction false} AddToHeights(jobs: seq<Job>, height: nat, id: Id, i: nat)
    requires i < |AddTo(jobs, height, id)|
    ensures var h := AddTo(jobs, height, id)[i].height; h == height || exists k :: 0 <= k < |jobs| && jobs[k].height == h
    decreases |jobs|
  {
    if jobs != [] && height > jobs[0].height && i > 0 {
      AddToHeights(jobs[1..], height, id, i - 1);
      var h := AddTo(jobs, height, id)[i].height;
      if h != height {
        var k :| 0 <= k < |jobs[1..]| && jobs[1..][k].height == h;
        assert jobs[k + 1].height == h;
      }
    }
  }

  lemma AddFront(home: map<Id, nat>, jobs: seq<Job>, job: Job)
    requires Grouped(home, jobs) && IsJob(home, {}, job) && (jobs == [] || job.height < jobs[0].height)
    ensures Grouped(home, [job] + jobs) && IdSet([job] + jobs) == ToSet(job.ids) + IdSet(jobs)
  {
    hide IsJob, ToSet;
    assert ([job] + jobs)[1..] == jobs;
  }

  lemma GroupedTail(home: map<Id, nat>, jobs: seq<Job>)
    requires Grouped(home, jobs) && jobs != []
    ensures Grouped(home, jobs[1..]) && IsJob(home, {}, jobs[0])
    ensures forall i :: 0 <= i < |jobs[1..]| ==> jobs[0].height < jobs[1..][i].height
    ensures IdSet(jobs) == ToSet(jobs[0].ids) + IdSet(jobs[1..])
  {
    hide IsJob, ToSet;
  }

  lemma {:induction false} AddToGroups(home: map<Id, nat>, jobs: seq<Job>, height: nat, id: Id)
    requires Grouped(home, jobs) && id in home && home[id] == height && id !in IdSet(jobs)
    ensures Grouped(home, AddTo(jobs, height, id))
    ensures IdSet(AddTo(jobs, height, id)) == IdSet(jobs) + {id}
    ensures AddTo(jobs, height, id) != []
    decreases |jobs|
  {
    hide IsJob, ToSet, Grouped, IdSet;
    NewJob(home, height, id);
    if jobs == [] || height < jobs[0].height {
      AddFront(home, jobs, Job(height, [id]));
    } else {
      GroupedTail(home, jobs);
      SetOfBack(jobs[0].ids, id);
      if jobs[0].height == height {
        JobGrows(home, jobs[0], id);
        AddFront(home, jobs[1..], Job(height, jobs[0].ids + [id]));
      } else {
        AddToGroups(home, jobs[1..], height, id);
        var rest := AddTo(jobs[1..], height, id);
        AddToHeights(jobs[1..], height, id, 0);
        AddFront(home, rest, jobs[0]);
      }
    }
  }

  lemma SetOfBack(ids: seq<Id>, id: Id)
    ensures ToSet(ids + [id]) == ToSet(ids) + {id}
    ensures id in ToSet(ids) <==> id in ids
  {
  }

  lemma NewJob(home: map<Id, nat>, height: nat, id: Id)
    requires id in home && home[id] == height
    ensures IsJob(home, {}, Job(height, [id])) && ToSet([id]) == {id}
  {
  }

  /** Grouping makes one job per height and keeps exactly the transactions answered. */
  lemma {:induction false} GroupsAre(home: map<Id, nat>, pending: seq<Id>)
    requires forall i :: 0 <= i < |pending| ==> pending[i] in home
    requires forall i, j :: 0 <= i < j < |pending| ==> pending[i] != pending[j]
    ensures Grouped(home, Groups(home, pending))
    ensures IdSet(Groups(home, pending)) == ToSet(pending)
    ensures pending != [] ==> Groups(home, pending) != []
    decreases |pending|
  {
    if pending != [] {
      var n := |pending| - 1;
      GroupsAre(home, pending[..n]);
      assert pending == pending[..n] + [pending[n]];
      assert pending[n] !in pending[..n];
      AddToGroups(home, Groups(home, pending[..n]), home[pending[n]], pending[n]);
    }
  }

  lemma {:induction false} InIdSet(jobs: seq<Job>, i: nat, k: nat)
    requires i < |jobs| && k < |jobs[i].ids|
    ensures jobs[i].ids[k] in IdSet(jobs)
    decreases i
  {
    if i > 0 {
      InIdSet(jobs[1..], i - 1, k);
    }
  }

  lemma GroupsSelecting(home: map<Id, nat>, excluded: set<nat>, pending: seq<Id>, active: set<nat>, recorded: set<Id>)
    requires Selecting(home, Answered(excluded, pending), [], active, recorded)
    ensures forall i :: 0 <= i < |pending| ==> pending[i] in home
    ensures pending != [] ==> Selecting(home, Top, Groups(home, pending), active, recorded)
  {
    assert forall i :: 0 <= i < |pending| ==> Eligible(home, recorded, excluded, pending[i]);
    GroupsAre(home, pending);
    var jobs := Groups(home, pending);
    forall i | 0 <= i < |jobs|
      ensures jobs[i].height !in active && IsJob(home, recorded, jobs[i])
    {
      assert IsJob(home, {}, jobs[i]);
      forall k | 0 <= k < |jobs[i].ids|
        ensures jobs[i].ids[k] in pending
      {
        InIdSet(jobs, i, k);
      }
      assert jobs[i].ids[0] in pending;
    }
  }

  /** If nothing is eligible and nothing in flight, everything is recorded. */
  lemma NothingLeft(home: map<Id, nat>, recorded: set<Id>)
    requires Chosen(home, recorded, {}, [])
    ensures forall id :: id in home ==> id in recorded
  {
    forall id | id in home
      ensures id in recorded
    {
      assert !Eligible(home, recorded, {}, id);
    }
  }

  lemma DigestKeeps(home: map<Id, nat>, batchSize: nat, s: State)
    requires Inv(home, batchSize, s) && Enabled(home, batchSize, s, Digest)
    ensures Inv(home, batchSize, Next(home, batchSize, s, Digest))
  {
    hide Flow, InFlight, Sound, Completed, Unrecorded, InHand, Buffered, Groups, Writing, Selecting, Awake;
    var t := Next(home, batchSize, s, Digest);
    AnsweredSelecting(home, s.selector.excluded, s.selector.pending, s.queued, s.active, s.recorded);
    AwakeWhen(s.permit, s.phase, s.selector, t.selector, s.active);
  }

  lemma AwakeWhen(permit: bool, phase: Phase, before: Selector, after: Selector, active: set<nat>)
    requires Awake(permit, phase, before, active)
    requires !after.Full? && (after.Idle? ==> active == after.excluded)
    ensures Awake(permit, phase, after, active)
  {
  }

  lemma AnsweredSelecting(home: map<Id, nat>, excluded: set<nat>, pending: seq<Id>, queued: seq<Job>, active: set<nat>, recorded: set<Id>)
    requires Selecting(home, Answered(excluded, pending), queued, active, recorded)
    ensures forall i :: 0 <= i < |pending| ==> pending[i] in home
    ensures Selecting(home, Top, queued, active, recorded)
    ensures pending != [] ==> Selecting(home, Top, Groups(home, pending), active, recorded)
    ensures excluded != {} ==> Selecting(home, Idle(excluded), queued, active, recorded)
    ensures pending == [] && active == excluded == {} ==> Selecting(home, Ended, queued, active, recorded)
  {
    hide Groups, IsJob;
    GroupsSelecting(home, excluded, pending, active, recorded);
    if pending == [] && excluded == {} {
      NothingLeft(home, recorded);
    }
  }

  lemma QueryKeeps(home: map<Id, nat>, batchSize: nat, s: State, pending: seq<Id>)
    requires Inv(home, batchSize, s) && Enabled(home, batchSize, s, Query(pending))
    ensures Inv(home, batchSize, Next(home, batchSize, s, Query(pending)))
  {
    hide Flow, InFlight, Sound, Completed, Unrecorded, InHand, Buffered, IsJob;
  }

  lemma LookKeeps(home: map<Id, nat>, batchSize: nat, s: State, e: Event)
    requires Inv(home, batchSize, s) && Enabled(home, batchSize, s, e) && (e.CheckFull? || e.Wake? || e.Snapshot?)
    ensures Inv(home, batchSize, Next(home, batchSize, s, e))
  {
    hide Flow, InFlight, Sound, Completed, Unrecorded, InHand, Buffered, IsJob, Chosen;
  }

  /** A job enters the flow. */
  lemma PopJob(flow: multiset<Job>, active: set<nat>, jobs: map<nat, seq<Id>>, completed: seq<nat>, working: Option<nat>,
               recorded: set<Id>, job: Job)
    requires InFlight(flow, active, jobs, completed, working) && job.height !in active
    requires Unrecorded(flow, recorded) && forall k :: 0 <= k < |job.ids| ==> job.ids[k] !in recorded
    ensures InFlight(flow + multiset{job}, active + {job.height}, jobs[job.height := job.ids], completed, working)
    ensures Unrecorded(flow + multiset{job}, recorded)
  {
    var more := flow + multiset{job};
    assert job in more && HasHeight(more, job.height) && job !in flow;
    assert forall j :: j in more <==> j in flow || j == job;
    assert forall h :: h != job.height ==> (HasHeight(more, h) <==> HasHeight(flow, h)) by {
      assert forall j :: j in flow ==> j in more;
    }
  }

  lemma PopPassed(home: map<Id, nat>, s: State, job: Job)
    requires InFlight(Flow(s.pipe), s.active, s.jobs, s.completed, Height(Current(s.phase)))
    requires Sound(home, s.jobs) && IsJob(home, s.recorded, job) && job.height !in s.active
    requires Completed(s.jobs, s.completed, s.objects, s.recorded)
    requires InHand(s.jobs, Current(s.phase), s.objects, s.recorded)
    ensures var jobs := s.jobs[job.height := job.ids];
            && Sound(home, jobs)
            && Completed(jobs, s.completed, s.objects, s.recorded)
            && InHand(jobs, Current(s.phase), s.objects, s.recorded)
  {
    hide Flow, AllStored;
    assert IsJob(home, {}, job);
  }

  lemma PopFlow(p: Pipe, job: Job)
    ensures Flow(p.(fetching := p.fetching + [job])) == Flow(p) + multiset{job}
  {
  }

  lemma PopSelecting(home: map<Id, nat>, queued: seq<Job>, active: set<nat>, recorded: set<Id>)
    requires queued != [] && Selecting(home, Room, queued, active, recorded)
    ensures Selecting(home, Top, queued[1..], active + {queued[0].height}, recorded)
    ensures queued[0].height !in active && IsJob(home, recorded, queued[0])
    ensures forall k :: 0 <= k < |queued[0].ids| ==> queued[0].ids[k] !in recorded
  {
    assert |active + {queued[0].height}| == |active| + 1;
    hide IsJob;
    assert IsJob(home, recorded, queued[0]);
  }

  lemma PopKeeps(home: map<Id, nat>, batchSize: nat, s: State)
    requires Inv(home, batchSize, s) && Enabled(home, batchSize, s, Pop)
    ensures Inv(home, batchSize, Next(home, batchSize, s, Pop))
  {
    hide Flow, InFlight, Sound, Completed, Unrecorded, InHand, Buffered, Selecting, IsJob;
    var job := s.queued[0];
    PopFlow(s.pipe, job);
    PopSelecting(home, s.queued, s.active, s.recorded);
    PopJob(Flow(s.pipe), s.active, s.jobs, s.completed, Height(Current(s.phase)), s.recorded, job);
    PopPassed(home, s, job);
  }

  // ----- whole runs -----

  lemma StepKeeps(home: map<Id, nat>, batchSize: nat, s: State, e: Event)
    requires batchSize > 0 && Inv(home, batchSize, s) && Enabled(home, batchSize, s, e)
    ensures Inv(home, batchSize, Next(home, batchSize, s, e))
  {
    hide Inv, Enabled, Next;
    match e
    case CheckFull => LookKeeps(home, batchSize, s, e);
    case Wake => LookKeeps(home, batchSize, s, e);
    case Pop => PopKeeps(home, batchSize, s);
    case Snapshot => LookKeeps(home, batchSize, s, e);
    case Query(pending) => QueryKeeps(home, batchSize, s, pending);
    case Digest => DigestKeeps(home, batchSize, s);
    case Ready(_) => PipeKeeps(home, batchSize, s, e);
    case Seal => PipeKeeps(home, batchSize, s, e);
    case Send => PipeKeeps(home, batchSize, s, e);
    case Receive => PipeKeeps(home, batchSize, s, e);
    case NextJob => NextJobKeeps(home, batchSize, s);
    case EndBatch => EndBatchKeeps(home, batchSize, s);
    case Push => PushKeeps(home, batchSize, s);
    case EndJob => EndJobKeeps(home, batchSize, s);
    case Record => RecordKeeps(home, batchSize, s);
    case Drain => DrainKeeps(home, batchSize, s);
    case Leave => LeaveKeeps(home, batchSize, s);
    case Notify => NotifyKeeps(home, batchSize, s);
  }

  ghost predicate Runs(home: map<Id, nat>, batchSize: nat, s: State, events: seq<Event>)
    decreases |events|
  {
    events == [] ||
    (Enabled(home, batchSize, s, events[0]) && Runs(home, batchSize, Next(home, batchSize, s, events[0]), events[1..]))
  }

  ghost function Run(home: map<Id, nat>, batchSize: nat, s: State, events: seq<Event>): State
    requires Runs(home, batchSize, s, events)
    decreases |events|
  {
    if events == [] then s else Run(home, batchSize, Next(home, batchSize, s, events[0]), events[1..])
  }

  lemma InitialInv(home: map<Id, nat>, batchSize: nat)
    requires batchSize > 0
    ensures Inv(home, batchSize, Initial())
  {
  }

  lemma {:induction false} RunKeeps(home: map<Id, nat>, batchSize: nat, s: State, events: seq<Event>)
    requires batchSize > 0 && Inv(home, batchSize, s) && Runs(home, batchSize, s, events)
    ensures Inv(home, batchSize, Run(home, batchSize, s, events))
    decreases |events|
  {
    hide Inv, Enabled, Next;
    if events != [] {
      StepKeeps(home, batchSize, s, events[0]);
      RunKeeps(home, batchSize, Next(home, batchSize, s, events[0]), events[1..]);
    }
  }

  /** In every reachable state at most 32 heights are active, and the jobs in flight have different ones. */
  lemma WindowBounded(home: map<Id, nat>, batchSize: nat, events: seq<Event>)
    requires batchSize > 0 && Runs(home, batchSize, Initial(), events)
    ensures var s := Run(home, batchSize, Initial(), events);
            && |s.active| <= 32
            && forall j, k :: j in Flow(s.pipe) && k in Flow(s.pipe) ==>
                 j.height in s.active && (j.height == k.height ==> j == k && Flow(s.pipe)[j] == 1)
  {
    InitialInv(home, batchSize);
    RunKeeps(home, batchSize, Initial(), events);
    hide Flow, Run, Runs, Initial;
  }

  /** A height leaves the active set only when every transaction of its job is recorded. */
  lemma LeavesRecorded(home: map<Id, nat>, batchSize: nat, s: State, e: Event, h: nat)
    requires Inv(home, batchSize, s) && Enabled(home, batchSize, s, e)
    requires h in s.active && h !in Next(home, batchSize, s, e).active
    ensures h in s.jobs && forall k :: 0 <= k < |s.jobs[h]| ==> s.jobs[h][k] in s.recorded
  {
    hide Inv;
    if e.Drain? {
      DrainsStored(home, batchSize, s, h);
    } else {
      LeavesStored(home, batchSize, s, h);
    }
  }

  lemma DrainsStored(home: map<Id, nat>, batchSize: nat, s: State, h: nat)
    requires Inv(home, batchSize, s) && s.phase.Draining? && s.completed != [] && h == s.completed[0]
    ensures h in s.jobs && forall k :: 0 <= k < |s.jobs[h]| ==> s.jobs[h][k] in s.recorded
  {
    hide InFlight, Sound, Selecting, Unrecorded, Buffered, InHand, Awake;
    assert AllStored(s.objects, s.recorded, s.jobs[h]);
  }

  lemma LeavesStored(home: map<Id, nat>, batchSize: nat, s: State, h: nat)
    requires Inv(home, batchSize, s) && s.phase == Leaving(h)
    ensures h in s.jobs && forall k :: 0 <= k < |s.jobs[h]| ==> s.jobs[h][k] in s.recorded
  {
    hide InFlight, Sound, Selecting, Unrecorded, Buffered, Completed, Awake;
    assert Current(s.phase) == Some((h, []));
    assert s.jobs[h][..|s.jobs[h]|] == s.jobs[h];
  }

  /** What a write stores is new. */
  lemma BufferFresh(home: map<Id, nat>, batchSize: nat, s: State)
    requires Inv(home, batchSize, s) && Enabled(home, batchSize, s, Record)
    ensures Distinct(s.objects) && forall i :: 0 <= i < |s.objects| ==> s.objects[i] !in s.recorded
    ensures s.objects != [] && |s.objects| <= batchSize
  {
    hide Flow, Sound, Selecting, Unrecorded, InHand, InFlight;
  }

  ghost predicate Distinct(ids: seq<Id>) {
    forall i, k :: 0 <= i < k < |ids| ==> ids[i] != ids[k]
  }

  /** Only a write changes what is recorded. */
  lemma RecordedBy(home: map<Id, nat>, batchSize: nat, s: State, e: Event)
    requires Enabled(home, batchSize, s, e)
    ensures Next(home, batchSize, s, e).recorded == s.recorded + (if e.Record? then ToSet(s.objects) else {})
  {
  }

  /** The transactions a run writes, in order. */
  ghost function Writes(home: map<Id, nat>, batchSize: nat, s: State, events: seq<Event>): seq<Id>
    requires Runs(home, batchSize, s, events)
    decreases |events|
  {
    if events == [] then []
    else (if events[0].Record? then s.objects else []) + Writes(home, batchSize, Next(home, batchSize, s, events[0]), events[1..])
  }

  lemma {:induction false} WritesFresh(home: map<Id, nat>, batchSize: nat, s: State, events: seq<Event>)
    requires batchSize > 0 && Inv(home, batchSize, s) && Runs(home, batchSize, s, events)
    ensures Distinct(Writes(home, batchSize, s, events))
    ensures forall id :: id in Writes(home, batchSize, s, events) ==> id !in s.recorded
    ensures forall id :: id in Run(home, batchSize, s, events).recorded <==> id in s.recorded || id in Writes(home, batchSize, s, events)
    decreases |events|
  {
    hide Inv, Enabled, Next;
    if events != [] {
      var next := Next(home, batchSize, s, events[0]);
      StepKeeps(home, batchSize, s, events[0]);
      RecordedBy(home, batchSize, s, events[0]);
      WritesFresh(home, batchSize, next, events[1..]);
      if events[0].Record? {
        BufferFresh(home, batchSize, s);
        var tail := Writes(home, batchSize, next, events[1..]);
        forall i, k | 0 <= i < |s.objects| && 0 <= k < |tail|
          ensures s.objects[i] != tail[k]
        {
          assert s.objects[i] in next.recorded && tail[k] in tail;
        }
      }
    }
  }

  /** No run writes a transaction twice, and what it has written is what is recorded. */
  lemma RecordedOnce(home: map<Id, nat>, batchSize: nat, events: seq<Event>)
    requires batchSize > 0 && Runs(home, batchSize, Initial(), events)
    ensures Distinct(Writes(home, batchSize, Initial(), events))
    ensures Run(home, batchSize, Initial(), events).recorded == ToSet(Writes(home, batchSize, Initial(), events))
  {
    InitialInv(home, batchSize);
    WritesFresh(home, batchSize, Initial(), events);
  }

  /** The selection ends only when nothing is pending and nothing in flight. */
  lemma EndsWhenDone(home: map<Id, nat>, batchSize: nat, events: seq<Event>)
    requires batchSize > 0 && Runs(home, batchSize, Initial(), events)
    requires Run(home, batchSize, Initial(), events).selector.Ended?
    ensures var s := Run(home, batchSize, Initial(), events);
            && s.active == {} && s.queued == [] && Flow(s.pipe) == multiset{}
            && forall id :: id in home ==> id in s.recorded
  {
    InitialInv(home, batchSize);
    RunKeeps(home, batchSize, Initial(), events);
    var s := Run(home, batchSize, Initial(), events);
    hide Flow, Run, Runs, Initial;
    assert forall j :: j in Flow(s.pipe) ==> j.height in s.active;
  }

  // ----- no wake-up is lost -----

  ghost function Insert(home: map<Id, nat>, sorted: seq<Id>, id: Id): seq<Id>
    requires id in home && forall i :: 0 <= i < |sorted| ==> sorted[i] in home
  {
    if sorted == [] || home[id] <= home[sorted[0]] then [id] + sorted
    else [sorted[0]] + Insert(home, sorted[1..], id)
  }

  ghost predicate InOrder(home: map<Id, nat>, ids: seq<Id>) {
    && (forall i :: 0 <= i < |ids| ==> ids[i] in home)
    && (forall i, j :: 0 <= i < j < |ids| ==> ids[i] != ids[j] && home[ids[i]] <= home[ids[j]])
  }

  lemma {:induction false} InsertInOrder(home: map<Id, nat>, sorted: seq<Id>, id: Id)
    requires id in home && InOrder(home, sorted) && id !in sorted
    ensures InOrder(home, Insert(home, sorted, id))
    ensures ToSet(Insert(home, sorted, id)) == ToSet(sorted) + {id}
    decreases |sorted|
  {
    if sorted == [] || home[id] <= home[sorted[0]] {
      FrontInOrder(home, id, sorted);
    } else {
      InsertInOrder(home, sorted[1..], id);
      var rest := Insert(home, sorted[1..], id);
      forall i | 0 <= i < |rest|
        ensures rest[i] != sorted[0] && home[sorted[0]] <= home[rest[i]]
      {
        assert rest[i] in ToSet(rest);
      }
      FrontInOrder(home, sorted[0], rest);
      FrontInOrder(home, sorted[0], sorted[1..]);
      assert sorted == [sorted[0]] + sorted[1..];
    }
  }

  lemma FrontInOrder(home: map<Id, nat>, id: Id, rest: seq<Id>)
    requires id in home && InOrder(home, rest) && id !in rest
    requires rest == [] || forall i :: 0 <= i < |rest| ==> home[id] <= home[rest[i]] || home[id] <= home[rest[0]]
    ensures InOrder(home, [id] + rest)
    ensures ToSet([id] + rest) == ToSet(rest) + {id}
  {
  }

  lemma {:induction false} SortIds(home: map<Id, nat>, ids: set<Id>) returns (sorted: seq<Id>)
    requires ids <= home.Keys
    ensures InOrder(home, sorted) && ToSet(sorted) == ids
    decreases |ids|
  {
    if ids == {} {
      sorted := [];
    } else {
      var id :| id in ids;
      var rest := SortIds(home, ids - {id});
      assert id !in ToSet(rest);
      InsertInOrder(home, rest, id);
      sorted := Insert(home, rest, id);
    }
  }

  /** The database always has an answer. */
  lemma AnswerExists(home: map<Id, nat>, recorded: set<Id>, excluded: set<nat>) returns (pending: seq<Id>)
    ensures IsAnswer(home, recorded, excluded, pending)
  {
    var eligible := set id | id in home && Eligible(home, recorded, excluded, id);
    var sorted := SortIds(home, eligible);
    forall i | 0 <= i < |sorted|
      ensures sorted[i] in eligible
    {
      assert sorted[i] in ToSet(sorted);
    }
    pending := if |sorted| <= SELECTION then sorted else sorted[..SELECTION];
    forall id | Eligible(home, recorded, excluded, id) && id !in pending
      ensures |pending| == SELECTION && home[pending[|pending| - 1]] <= home[id]
    {
      assert id in ToSet(sorted);
      var k :| 0 <= k < |sorted| && sorted[k] == id;
      assert k >= |pending|;
    }
  }

  /** Before the selection has ended some step can always be taken: nobody waits for a wake-up that never comes. */
  lemma NeverStuck(home: map<Id, nat>, batchSize: nat, s: State) returns (e: Event)
    requires Inv(home, batchSize, s) && !s.selector.Ended?
    ensures Enabled(home, batchSize, s, e)
  {
    hide InFlight, Sound, Completed, Unrecorded, InHand, Buffered, IsJob, Flow;
    match s.phase
    case Recording(_) => e := Record;
    case Draining(_) => e := Drain;
    case Leaving(_) => e := Leave;
    case Notifying(_) => e := Notify;
    case At(BetweenJobs) => e := if s.pipe.batch == [] then EndBatch else NextJob;
    case At(OnJob(_, left)) => e := if left == [] then EndJob else Push;
    case At(Receiving) =>
      if s.pipe.channel != [] {
        e := Receive;
      } else if s.pipe.sending {
        e := Send;
      } else {
        e := SelectorMoves(home, batchSize, s);
      }
  }

  lemma SelectorMoves(home: map<Id, nat>, batchSize: nat, s: State) returns (e: Event)
    requires Inv(home, batchSize, s) && !s.selector.Ended?
    requires s.phase == At(Receiving) && s.pipe.channel == [] && !s.pipe.sending
    ensures Enabled(home, batchSize, s, e)
  {
    hide InFlight, Sound, Completed, Unrecorded, InHand, Buffered, IsJob, Flow;
    match s.selector
    case Top => e := CheckFull;
    case Room => e := if s.queued == [] then Snapshot else Pop;
    case Asking(excluded) =>
      var pending := AnswerExists(home, s.recorded, excluded);
      e := Query(pending);
    case Answered(_, _) => e := Digest;
    case Full => e := WaitingMoves(home, batchSize, s);
    case Idle(_) => e := WaitingMoves(home, batchSize, s);
  }

  lemma WaitingMoves(home: map<Id, nat>, batchSize: nat, s: State) returns (e: Event)
    requires Inv(home, batchSize, s) && (s.selector.Full? || s.selector.Idle?)
    requires s.phase == At(Receiving) && s.pipe.channel == [] && !s.pipe.sending
    ensures Enabled(home, batchSize, s, e)
  {
    hide InFlight, Sound, Completed, Unrecorded, InHand, Buffered, IsJob, Flow;
    if s.permit {
      e := Wake;
    } else {
      assert s.active != {};
      SomethingWaits(s, batchSize);
      e := if s.pipe.outbox != [] then Seal else Ready(0);
    }
  }

  lemma SomethingWaits(s: State, batchSize: nat)
    requires InFlight(Flow(s.pipe), s.active, s.jobs, s.completed, Height(Current(s.phase)))
    requires Writing(batchSize, s.objects, s.completed, s.phase, s.pipe.batch)
    requires s.phase == At(Receiving) && s.pipe.channel == [] && s.active != {}
    ensures s.pipe.outbox != [] || s.pipe.fetching != []
  {
    var h :| h in s.active;
    assert HasHeight(Flow(s.pipe), h);
    var j :| j in Flow(s.pipe) && j.height == h;
    assert multiset(Concat(s.pipe.channel)) == multiset{};
  }

  // ----- every run ends -----

  ghost function Load(jobs: seq<Job>, w: nat): nat {
    if jobs == [] then 0 else w + 10 * |jobs[0].ids| + Load(jobs[1..], w)
  }

  ghost function ChannelLoad(batches: seq<seq<Job>>): nat {
    if batches == [] then 0 else 11 + Load(batches[0], 20) + ChannelLoad(batches[1..])
  }

  ghost function PlaceLoad(place: Place): nat {
    match place
    case Receiving => 0
    case BetweenJobs => 10
    case OnJob(_, left) => 29 + 10 * |left|
  }

  ghost function PhaseLoad(phase: Phase): nat {
    match phase
    case At(place) => PlaceLoad(place)
    case Recording(place) => PlaceLoad(place) + 9
    case Draining(place) => PlaceLoad(place) + 8
    case Leaving(_) => 28
    case Notifying(place) => PlaceLoad(place) + 7
  }

  ghost function SelectorLoad(selector: Selector, active: set<nat>): nat {
    match selector
    case Top => 5
    case Room => 4
    case Asking(excluded) => 3 + (if active == excluded then 0 else 10)
    case Answered(excluded, _) => 2 + (if active == excluded then 0 else 10)
    case _ => 0
  }

  ghost function JobIds(jobs: map<nat, seq<Id>>): set<Id> {
    set h, k | h in jobs && 0 <= k < |jobs[h]| :: jobs[h][k]
  }

  /** Transactions that no job has taken up yet. */
  ghost function Untaken(home: map<Id, nat>, s: State): set<Id> {
    home.Keys - s.recorded - IdSet(s.queued) - JobIds(s.jobs)
  }

  /** What is left to do, counted so that every step does some of it. */
  ghost function Measure(home: map<Id, nat>, s: State): nat {
    50 * |Untaken(home, s)| + Load(s.queued, 36) + Load(s.pipe.fetching, 34) + Load(s.pipe.outbox, 33)
    + (if s.pipe.sending then 0 else 1) + ChannelLoad(s.pipe.channel) + Load(s.pipe.batch, 20)
    + PhaseLoad(s.phase) + 11 * |s.completed| + (if s.permit then 6 else 0) + SelectorLoad(s.selector, s.active)
  }

  lemma {:induction false} LoadAppend(a: seq<Job>, b: seq<Job>, w: nat)
    ensures Load(a + b, w) == Load(a, w) + Load(b, w)
  {
    if a == [] {
      assert a + b == b;
    } else {
      LoadAppend(a[1..], b, w);
      assert (a + b)[1..] == a[1..] + b;
    }
  }

  lemma LoadOne(job: Job, w: nat)
    ensures Load([job], w) == w + 10 * |job.ids|
  {
    assert [job][1..] == [];
  }

  lemma LoadWithout(jobs: seq<Job>, i: nat, w: nat)
    requires i < |jobs|
    ensures Load(jobs, w) == Load(Without(jobs, i), w) + w + 10 * |jobs[i].ids|
  {
    assert jobs == jobs[..i] + ([jobs[i]] + jobs[i + 1..]);
    LoadAppend(jobs[..i], [jobs[i]] + jobs[i + 1..], w);
    LoadAppend([jobs[i]], jobs[i + 1..], w);
    LoadAppend(jobs[..i], jobs[i + 1..], w);
    LoadOne(jobs[i], w);
  }

  lemma {:induction false} LoadLighter(jobs: seq<Job>, v: nat, w: nat)
    ensures Load(jobs, v + w) == Load(jobs, v) + w * |jobs|
  {
    if jobs != [] {
      LoadLighter(jobs[1..], v, w);
      assert w * |jobs| == w + w * (|jobs| - 1);
    }
  }

  lemma {:induction false} ChannelAppend(channel: seq<seq<Job>>, batch: seq<Job>)
    ensures ChannelLoad(channel + [batch]) == ChannelLoad(channel) + 11 + Load(batch, 20)
  {
    if channel == [] {
      assert channel + [batch] == [batch] && [batch][1..] == [];
    } else {
      ChannelAppend(channel[1..], batch);
      assert (channel + [batch])[1..] == channel[1..] + [batch];
    }
  }

  lemma {:induction false} AddToLoad(jobs: seq<Job>, height: nat, id: Id)
    ensures Load(AddTo(jobs, height, id), 36) <= Load(jobs, 36) + 46
    decreases |jobs|
  {
    if jobs == [] || height < jobs[0].height {
      assert ([Job(height, [id])] + jobs)[1..] == jobs;
    } else if jobs[0].height == height {
      assert AddTo(jobs, height, id)[1..] == jobs[1..];
    } else {
      AddToLoad(jobs[1..], height, id);
      assert AddTo(jobs, height, id)[1..] == AddTo(jobs[1..], height, id);
    }
  }

  lemma {:induction false} GroupsLoad(home: map<Id, nat>, pending: seq<Id>)
    requires forall i :: 0 <= i < |pending| ==> pending[i] in home
    ensures Load(Groups(home, pending), 36) <= 46 * |pending|
    decreases |pending|
  {
    if pending != [] {
      var n := |pending| - 1;
      GroupsLoad(home, pending[..n]);
      AddToLoad(Groups(home, pending[..n]), home[pending[n]], pending[n]);
    }
  }

  lemma SubsetSize<T>(a: set<T>, b: set<T>)
    requires a <= b
    ensures |b - a| == |b| - |a|
  {
    assert b == a + (b - a);
  }

  lemma {:induction false} DistinctSize(ids: seq<Id>)
    requires forall i, j :: 0 <= i < j < |ids| ==> ids[i] != ids[j]
    ensures |ToSet(ids)| == |ids|
    decreases |ids|
  {
    if ids != [] {
      var n := |ids| - 1;
      DistinctSize(ids[..n]);
      assert ids == ids[..n] + [ids[n]];
      assert ids[n] !in ToSet(ids[..n]);
      assert ToSet(ids) == ToSet(ids[..n]) + {ids[n]};
    }
  }

  lemma UntakenShrinks(home: map<Id, nat>, s: State, t: State)
    requires Untaken(home, t) <= Untaken(home, s)
    ensures |Untaken(home, t)| <= |Untaken(home, s)|
  {
    SubsetSize(Untaken(home, t), Untaken(home, s));
  }

  lemma PipeDecreases(home: map<Id, nat>, batchSize: nat, s: State, e: Event)
    requires Sealed(s.pipe) && Enabled(home, batchSize, s, e)
    requires e.Ready? || e.Seal? || e.Send? || e.NextJob? || (e.Receive? && s.pipe.batch == [])
    ensures Measure(home, Next(home, batchSize, s, e)) < Measure(home, s)
  {
    match e
    case Ready(i) => ReadyDecreases(home, batchSize, s, i);
    case Seal => SealDecreases(home, batchSize, s);
    case Send => SendDecreases(home, batchSize, s);
    case Receive => ReceiveDecreases(home, batchSize, s);
    case NextJob => ReceiveDecreases(home, batchSize, s);
  }

  lemma SealDecreases(home: map<Id, nat>, batchSize: nat, s: State)
    requires Enabled(home, batchSize, s, Seal)
    ensures Measure(home, Next(home, batchSize, s, Seal)) < Measure(home, s)
  {
    hide Untaken, SelectorLoad, ChannelLoad, PhaseLoad;
    UntakenBy(home, s, Next(home, batchSize, s, Seal));
  }

  lemma SendDecreases(home: map<Id, nat>, batchSize: nat, s: State)
    requires Sealed(s.pipe) && Enabled(home, batchSize, s, Send)
    ensures Measure(home, Next(home, batchSize, s, Send)) < Measure(home, s)
  {
    hide Untaken, SelectorLoad, PhaseLoad;
    UntakenBy(home, s, Next(home, batchSize, s, Send));
    ChannelAppend(s.pipe.channel, s.pipe.outbox);
    LoadLighter(s.pipe.outbox, 20, 13);
  }

  lemma ReceiveDecreases(home: map<Id, nat>, batchSize: nat, s: State)
    ensures Enabled(home, batchSize, s, Receive) && s.pipe.batch == [] ==>
              Measure(home, Next(home, batchSize, s, Receive)) < Measure(home, s)
    ensures Enabled(home, batchSize, s, NextJob) ==> Measure(home, Next(home, batchSize, s, NextJob)) < Measure(home, s)
  {
    hide Untaken, SelectorLoad;
    if Enabled(home, batchSize, s, Receive) {
      UntakenBy(home, s, Next(home, batchSize, s, Receive));
    }
    if Enabled(home, batchSize, s, NextJob) {
      UntakenBy(home, s, Next(home, batchSize, s, NextJob));
    }
  }

  lemma ReadyDecreases(home: map<Id, nat>, batchSize: nat, s: State, i: nat)
    requires Enabled(home, batchSize, s, Ready(i))
    ensures Measure(home, Next(home, batchSize, s, Ready(i))) < Measure(home, s)
  {
    hide Untaken, SelectorLoad, Load, ChannelLoad, PhaseLoad;
    UntakenBy(home, s, Next(home, batchSize, s, Ready(i)));
    LoadWithout(s.pipe.fetching, i, 34);
    LoadAppend(s.pipe.outbox, [s.pipe.fetching[i]], 33);
    LoadOne(s.pipe.fetching[i], 33);
  }

  lemma UntakenBy(home: map<Id, nat>, s: State, t: State)
    requires s.recorded == t.recorded && s.queued == t.queued && s.jobs == t.jobs
    ensures Untaken(home, s) == Untaken(home, t)
  {
  }

  lemma WriterDecreases(home: map<Id, nat>, batchSize: nat, s: State, e: Event)
    requires Inv(home, batchSize, s) && Enabled(home, batchSize, s, e)
    requires e.EndBatch? || e.Push? || e.EndJob? || e.Notify?
    ensures Measure(home, Next(home, batchSize, s, e)) < Measure(home, s)
  {
    hide Untaken, SelectorLoad, Inv, Load, ChannelLoad;
    UntakenBy(home, s, Next(home, batchSize, s, e));
  }

  lemma RecordUntaken(home: map<Id, nat>, s: State, t: State)
    requires s.recorded <= t.recorded && t.queued == s.queued && t.jobs == s.jobs
    ensures |Untaken(home, t)| <= |Untaken(home, s)|
  {
    hide IdSet, JobIds;
    UntakenShrinks(home, s, t);
  }

  lemma RecordDecreases(home: map<Id, nat>, batchSize: nat, s: State)
    requires Enabled(home, batchSize, s, Record)
    ensures Measure(home, Next(home, batchSize, s, Record)) < Measure(home, s)
  {
    hide SelectorLoad, Load, ChannelLoad, PlaceLoad, Untaken;
    RecordUntaken(home, s, Next(home, batchSize, s, Record));
  }

  /** Letting go of a height whose transactions are recorded leaves no more to do. */
  lemma LetGoUntaken(home: map<Id, nat>, s: State, t: State, h: nat)
    requires h in s.jobs && t.jobs == s.jobs - {h} && t.queued == s.queued && t.recorded == s.recorded
    requires forall k :: 0 <= k < |s.jobs[h]| ==> s.jobs[h][k] in s.recorded
    ensures |Untaken(home, t)| <= |Untaken(home, s)|
  {
    hide IdSet;
    forall id | id in JobIds(s.jobs) && id !in s.recorded
      ensures id in JobIds(t.jobs)
    {
      var g, k :| g in s.jobs && 0 <= k < |s.jobs[g]| && s.jobs[g][k] == id;
      assert g in t.jobs && t.jobs[g] == s.jobs[g];
    }
    UntakenShrinks(home, s, t);
  }

  lemma LetGoKeepsTaken(home: map<Id, nat>, batchSize: nat, s: State, e: Event)
    requires Inv(home, batchSize, s) && Enabled(home, batchSize, s, e) && (e.Drain? || e.Leave?)
    ensures |Untaken(home, Next(home, batchSize, s, e))| <= |Untaken(home, s)|
  {
    hide Untaken, Inv;
    var t := Next(home, batchSize, s, e);
    if e.Drain? && s.completed == [] {
      UntakenBy(home, s, t);
    } else {
      var h := if e.Drain? then s.completed[0] else s.phase.height;
      LetsGoActive(home, batchSize, s, e, h);
      LeavesRecorded(home, batchSize, s, e, h);
      LetGoUntaken(home, s, t, h);
    }
  }

  /** Only active heights are let go. */
  lemma LetsGoActive(home: map<Id, nat>, batchSize: nat, s: State, e: Event, h: nat)
    requires Inv(home, batchSize, s) && Enabled(home, batchSize, s, e)
    requires (e.Drain? && s.completed != [] && h == s.completed[0]) || (e.Leave? && h == s.phase.height)
    ensures h in s.active && h !in Next(home, batchSize, s, e).active
  {
    hide Sound, Unrecorded, InHand, Buffered, Selecting, Awake, Writing, Completed, HasHeight, Flow;
  }

  lemma LetGoDecreases(home: map<Id, nat>, batchSize: nat, s: State, e: Event)
    requires Inv(home, batchSize, s) && Enabled(home, batchSize, s, e) && (e.Drain? || e.Leave?)
    ensures Measure(home, Next(home, batchSize, s, e)) < Measure(home, s)
  {
    hide Untaken, Load, ChannelLoad, Inv;
    LetGoKeepsTaken(home, batchSize, s, e);
  }

  lemma PopKeepsTaken(home: map<Id, nat>, batchSize: nat, s: State)
    requires Inv(home, batchSize, s) && Enabled(home, batchSize, s, Pop)
    ensures |Untaken(home, Next(home, batchSize, s, Pop))| <= |Untaken(home, s)|
  {
    hide Untaken, Sound, Unrecorded, InHand, Buffered, Completed, Selecting, Awake, Writing;
    PopSelecting(home, s.queued, s.active, s.recorded);
    PopUntaken(home, s, Next(home, batchSize, s, Pop), s.queued[0]);
  }

  lemma PopDecreases(home: map<Id, nat>, batchSize: nat, s: State)
    requires Inv(home, batchSize, s) && Enabled(home, batchSize, s, Pop)
    ensures Measure(home, Next(home, batchSize, s, Pop)) < Measure(home, s)
  {
    hide Inv, Untaken, ChannelLoad, PhaseLoad;
    PopKeepsTaken(home, batchSize, s);
    LoadAppend(s.pipe.fetching, [s.queued[0]], 34);
    LoadOne(s.queued[0], 34);
  }

  lemma PopUntaken(home: map<Id, nat>, s: State, t: State, job: Job)
    requires s.queued != [] && job == s.queued[0] && t.queued == s.queued[1..] && t.recorded == s.recorded
    requires s.jobs.Keys == s.active && job.height !in s.active && t.jobs == s.jobs[job.height := job.ids]
    ensures |Untaken(home, t)| <= |Untaken(home, s)|
  {
    forall id | id in IdSet(s.queued) || id in JobIds(s.jobs)
      ensures id in IdSet(t.queued) || id in JobIds(t.jobs)
    {
      if id in JobIds(s.jobs) {
        var g, k :| g in s.jobs && 0 <= k < |s.jobs[g]| && s.jobs[g][k] == id;
        assert g in t.jobs && t.jobs[g][k] == id;
      } else if id in ToSet(job.ids) {
        var k :| 0 <= k < |job.ids| && job.ids[k] == id;
        assert t.jobs[job.height][k] == id;
      }
    }
    UntakenShrinks(home, s, t);
  }

  lemma AnswerUntaken(home: map<Id, nat>, s: State, excluded: set<nat>, pending: seq<Id>)
    requires Selecting(home, Answered(excluded, pending), s.queued, s.active, s.recorded)
    requires s.jobs.Keys == s.active && Sound(home, s.jobs)
    ensures ToSet(pending) <= Untaken(home, s)
  {
    forall id | id in ToSet(pending)
      ensures id in Untaken(home, s)
    {
      var i :| 0 <= i < |pending| && pending[i] == id;
      assert Eligible(home, s.recorded, excluded, pending[i]);
      forall g, k | g in s.jobs && 0 <= k < |s.jobs[g]|
        ensures s.jobs[g][k] != id
      {
        assert IsJob(home, {}, Job(g, s.jobs[g]));
      }
    }
  }

  /** What a query answers was not taken up before, and is once it is grouped. */
  lemma DigestUntaken(home: map<Id, nat>, s: State, t: State, pending: seq<Id>)
    requires s.queued == [] && IdSet(t.queued) == ToSet(pending) && t.jobs == s.jobs && t.recorded == s.recorded
    requires forall i, j :: 0 <= i < j < |pending| ==> pending[i] != pending[j]
    requires ToSet(pending) <= Untaken(home, s)
    ensures |Untaken(home, t)| == |Untaken(home, s)| - |pending|
  {
    DistinctSize(pending);
    hide ToSet, JobIds;
    assert Untaken(home, t) == Untaken(home, s) - ToSet(pending);
    SubsetSize(ToSet(pending), Untaken(home, s));
  }

  lemma DigestTakes(home: map<Id, nat>, batchSize: nat, s: State)
    requires Inv(home, batchSize, s) && Enabled(home, batchSize, s, Digest) && s.selector.pending != []
    ensures var t := Next(home, batchSize, s, Digest);
            && |Untaken(home, t)| == |Untaken(home, s)| - |s.selector.pending|
            && Load(t.queued, 36) <= 46 * |s.selector.pending| && s.queued == []
  {
    hide Untaken, Unrecorded, InHand, Buffered, Completed, Awake, Writing, Groups, Sound, IdSet, ToSet, Flow;
    var pending := s.selector.pending;
    AnswerUntaken(home, s, s.selector.excluded, pending);
    GroupsAre(home, pending);
    DigestUntaken(home, s, Next(home, batchSize, s, Digest), pending);
    GroupsLoad(home, pending);
  }

  lemma DigestDecreases(home: map<Id, nat>, batchSize: nat, s: State)
    requires Inv(home, batchSize, s) && Enabled(home, batchSize, s, Digest)
    ensures Measure(home, Next(home, batchSize, s, Digest)) < Measure(home, s)
  {
    hide Untaken, ChannelLoad, PhaseLoad, Inv, Groups, Load;
    if s.selector.pending == [] {
      UntakenBy(home, s, Next(home, batchSize, s, Digest));
    } else {
      DigestTakes(home, batchSize, s);
      EmptyLoad();
    }
  }

  lemma EmptyLoad()
    ensures Load([], 36) == 0
  {
  }

  lemma LookDecreases(home: map<Id, nat>, batchSize: nat, s: State, e: Event)
    requires Enabled(home, batchSize, s, e) && (e.CheckFull? || e.Wake? || e.Snapshot? || e.Query?)
    ensures Measure(home, Next(home, batchSize, s, e)) < Measure(home, s)
  {
    hide Untaken, ChannelLoad, PhaseLoad, Load;
    UntakenBy(home, s, Next(home, batchSize, s, e));
  }

  /** Every step leaves less to do. */
  lemma StepDecreases(home: map<Id, nat>, batchSize: nat, s: State, e: Event)
    requires Inv(home, batchSize, s) && Enabled(home, batchSize, s, e)
    ensures Measure(home, Next(home, batchSize, s, e)) < Measure(home, s)
  {
    hide Measure, Next, InFlight, Sound, Completed, Unrecorded, InHand, Buffered, Selecting, Awake;
    match e
    case CheckFull => LookDecreases(home, batchSize, s, e);
    case Wake => LookDecreases(home, batchSize, s, e);
    case Pop => PopDecreases(home, batchSize, s);
    case Snapshot => LookDecreases(home, batchSize, s, e);
    case Query(_) => LookDecreases(home, batchSize, s, e);
    case Digest => DigestDecreases(home, batchSize, s);
    case Ready(_) => PipeDecreases(home, batchSize, s, e);
    case Seal => PipeDecreases(home, batchSize, s, e);
    case Send => PipeDecreases(home, batchSize, s, e);
    case Receive => PipeDecreases(home, batchSize, s, e);
    case NextJob => PipeDecreases(home, batchSize, s, e);
    case EndBatch => WriterDecreases(home, batchSize, s, e);
    case Push => WriterDecreases(home, batchSize, s, e);
    case EndJob => WriterDecreases(home, batchSize, s, e);
    case Record => RecordDecreases(home, batchSize, s);
    case Drain => LetGoDecreases(home, batchSize, s, e);
    case Leave => LetGoDecreases(home, batchSize, s, e);
    case Notify => WriterDecreases(home, batchSize, s, e);
  }

  lemma {:induction false} RunShort(home: map<Id, nat>, batchSize: nat, s: State, events: seq<Event>)
    requires batchSize > 0 && Inv(home, batchSize, s) && Runs(home, batchSize, s, events)
    ensures |events| + Measure(home, Run(home, batchSize, s, events)) <= Measure(home, s)
    decreases |events|
  {
    hide Measure, Inv, Next, Enabled;
    if events != [] {
      StepKeeps(home, batchSize, s, events[0]);
      StepDecreases(home, batchSize, s, events[0]);
      RunShort(home, batchSize, Next(home, batchSize, s, events[0]), events[1..]);
    }
  }

  /** However the steps interleave, a run ends within a bound, and a run that cannot go on has recorded
      every transaction. */
  lemma EveryRunRecordsAll(home: map<Id, nat>, batchSize: nat, events: seq<Event>)
    requires batchSize > 0 && Runs(home, batchSize, Initial(), events)
    ensures |events| <= 50 * |home.Keys| + 6
    ensures var s := Run(home, batchSize, Initial(), events);
            (forall e :: !Enabled(home, batchSize, s, e)) ==>
              s.selector.Ended? && s.active == {} && forall id :: id in home ==> id in s.recorded
  {
    InitialInv(home, batchSize);
    RunShort(home, batchSize, Initial(), events);
    InitialMeasure(home);
    hide Measure;
    var s := Run(home, batchSize, Initial(), events);
    RunKeeps(home, batchSize, Initial(), events);
    if s.selector.Ended? {
      EndsWhenDone(home, batchSize, events);
    } else {
      var e := NeverStuck(home, batchSize, s);
    }
  }

  lemma InitialMeasure(home: map<Id, nat>)
    ensures Measure(home, Initial()) == 50 * |home.Keys| + 6
  {
    assert Untaken(home, Initial()) == home.Keys;
  }
}
