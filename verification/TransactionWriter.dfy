/** The writer's own loop: what it records, in which order, and when it lets heights go.
    Jobs come in batches of any size. Their transactions are buffered and written together
    whenever the buffer is full and at the end of each batch.
    The log lists the effects of the loop in the order in which they happen. */
module TransactionWriter {
  import opened Sequences
  import opened TransactionWindow

  datatype Effect = Recorded(ids: seq<Id>) | Left(height: nat) | Notified

  /** The transactions recorded, in order. */
  ghost function IdsIn(log: seq<Effect>): seq<Id> {
    if log == [] then []
    else IdsIn(log[..|log| - 1]) + (if log[|log| - 1].Recorded? then log[|log| - 1].ids else [])
  }

  ghost function IdsOf(jobs: seq<Job>): seq<Id> {
    if jobs == [] then [] else IdsOf(jobs[..|jobs| - 1]) + jobs[|jobs| - 1].ids
  }

  ghost function HeightsOf(jobs: seq<Job>): set<nat> {
    set i | 0 <= i < |jobs| :: jobs[i].height
  }

  /** A job's transactions were all recorded before its height left. */
  ghost predicate Covered(log: seq<Effect>, jobs: seq<Job>, h: nat) {
    exists i :: 0 <= i < |jobs| && jobs[i].height == h && forall k :: 0 <= k < |jobs[i].ids| ==> jobs[i].ids[k] in IdsIn(log)
  }

  ghost predicate LeavesAfterRecording(log: seq<Effect>, jobs: seq<Job>) {
    forall k :: 0 <= k < |log| && log[k].Left? ==> Covered(log[..k], jobs, log[k].height)
  }

  lemma IdsAppend(log: seq<Effect>, e: Effect)
    ensures IdsIn(log + [e]) == IdsIn(log) + (if e.Recorded? then e.ids else [])
  {
    assert (log + [e])[..|log|] == log;
  }

  lemma LogAppend(log: seq<Effect>, e: Effect, jobs: seq<Job>)
    requires LeavesAfterRecording(log, jobs) && (e.Left? ==> Covered(log, jobs, e.height))
    ensures LeavesAfterRecording(log + [e], jobs)
  {
    forall k | 0 <= k < |log + [e]| && (log + [e])[k].Left?
      ensures Covered((log + [e])[..k], jobs, (log + [e])[k].height)
    {
      assert (log + [e])[..k] == log[..k];
      assert k == |log| ==> log[..k] == log;
    }
  }

  lemma MoreJobs(log: seq<Effect>, jobs: seq<Job>, more: seq<Job>)
    requires LeavesAfterRecording(log, jobs)
    ensures LeavesAfterRecording(log, jobs + more)
  {
    forall k | 0 <= k < |log| && log[k].Left?
      ensures Covered(log[..k], jobs + more, log[k].height)
    {
      var h := log[k].height;
      var i :| 0 <= i < |jobs| && jobs[i].height == h && forall m :: 0 <= m < |jobs[i].ids| ==> jobs[i].ids[m] in IdsIn(log[..k]);
      assert (jobs + more)[i] == jobs[i];
    }
  }

  /** Jobs before `i` whose heights still wait for their transactions to be recorded. */
  ghost predicate Waiting(completed: seq<nat>, jobs: seq<Job>, i: nat)
    requires i <= |jobs|
  {
    forall c :: 0 <= c < |completed| ==> exists j :: 0 <= j < i && jobs[j].height == completed[c]
  }

  // ----- the writer's steps in the window -----

  /** The effect of a step of the window. */
  ghost function EffectOf(s: State, e: Event): seq<Effect> {
    match e
    case Record => [Recorded(s.objects)]
    case Drain => if s.completed == [] then [] else [Left(s.completed[0])]
    case Leave => if s.phase.Leaving? then [Left(s.phase.height)] else []
    case Notify => [Notified]
    case _ => []
  }

  ghost function Effects(home: map<Id, nat>, batchSize: nat, s: State, events: seq<Event>): seq<Effect>
    requires Runs(home, batchSize, s, events)
    decreases |events|
  {
    if events == [] then []
    else EffectOf(s, events[0]) + Effects(home, batchSize, Next(home, batchSize, s, events[0]), events[1..])
  }

  ghost predicate OfWriter(e: Event) {
    e.Receive? || e.NextJob? || e.EndBatch? || e.Push? || e.EndJob? || e.Record? || e.Drain? || e.Leave? || e.Notify?
  }

  /** One more step at the end of a run. */
  lemma {:induction false} RunAppend(home: map<Id, nat>, batchSize: nat, s: State, events: seq<Event>, e: Event)
    requires Runs(home, batchSize, s, events) && Enabled(home, batchSize, Run(home, batchSize, s, events), e)
    ensures Runs(home, batchSize, s, events + [e])
    ensures Run(home, batchSize, s, events + [e]) == Next(home, batchSize, Run(home, batchSize, s, events), e)
    ensures Effects(home, batchSize, s, events + [e])
         == Effects(home, batchSize, s, events) + EffectOf(Run(home, batchSize, s, events), e)
    decreases |events|
  {
    hide Enabled, Next, EffectOf;
    if events == [] {
      assert events + [e] == [e] && [e][1..] == [];
      assert Effects(home, batchSize, Next(home, batchSize, s, e), []) == [];
      assert EffectOf(s, e) + [] == [] + EffectOf(s, e);
    } else {
      var next := Next(home, batchSize, s, events[0]);
      RunAppend(home, batchSize, next, events[1..], e);
      assert (events + [e])[1..] == events[1..] + [e];
      assert EffectOf(s, events[0]) + (Effects(home, batchSize, next, events[1..]) + EffectOf(Run(home, batchSize, s, events), e))
          == (EffectOf(s, events[0]) + Effects(home, batchSize, next, events[1..])) + EffectOf(Run(home, batchSize, s, events), e);
    }
  }

  lemma {:induction false} IdsConcat(a: seq<Effect>, b: seq<Effect>)
    ensures IdsIn(a + b) == IdsIn(a) + IdsIn(b)
    decreases |b|
  {
    if b == [] {
      assert a + b == a && IdsIn(a) + [] == IdsIn(a);
    } else {
      hide IdsIn;
      var front, last := b[..|b| - 1], b[|b| - 1];
      IdsConcat(a, front);
      IdsAppend(front, last);
      IdsAppend(a + front, last);
      ConcatAssoc(a, front, [last]);
      assert front + [last] == b;
      ConcatAssoc(IdsIn(a), IdsIn(front), if last.Recorded? then last.ids else []);
    }
  }

  /** What a run records are the transactions of its effects. */
  lemma {:induction false} EffectsRecord(home: map<Id, nat>, batchSize: nat, s: State, events: seq<Event>)
    requires Runs(home, batchSize, s, events)
    ensures Run(home, batchSize, s, events).recorded == s.recorded + ToSet(IdsIn(Effects(home, batchSize, s, events)))
    decreases |events|
  {
    hide Enabled, Next;
    if events != [] {
      var e := events[0];
      var rest := Effects(home, batchSize, Next(home, batchSize, s, e), events[1..]);
      RecordedBy(home, batchSize, s, e);
      EffectsRecord(home, batchSize, Next(home, batchSize, s, e), events[1..]);
      IdsConcat(EffectOf(s, e), rest);
      OneEffect(s, e);
      hide EffectOf, IdsIn;
      ToSetConcat(IdsIn(EffectOf(s, e)), IdsIn(rest));
    }
  }

  lemma ToSetConcat(a: seq<Id>, b: seq<Id>)
    ensures ToSet(a + b) == ToSet(a) + ToSet(b)
    ensures ToSet([]) == {}
  {
  }

  lemma OneEffect(s: State, e: Event)
    ensures IdsIn(EffectOf(s, e)) == if e.Record? then s.objects else []
  {
    if EffectOf(s, e) != [] {
      var one := EffectOf(s, e)[0];
      assert EffectOf(s, e) == [] + [one];
      IdsAppend([], one);
    }
  }

  class MetadataWriter {
    const batchSize: nat
    var log: seq<Effect>
    var active: set<nat>
    var objects: seq<Id>
    var completed: seq<nat>
    /** The window the writer works in, from where it started, and the steps it has taken there. */
    ghost const home: map<Id, nat>
    ghost const origin: State
    ghost var state: State
    ghost var steps: seq<Event>

    constructor (batchSize: nat, active: set<nat>, ghost home: map<Id, nat>, ghost origin: State)
      requires origin.active == active && origin.objects == [] && origin.completed == []
      ensures this.batchSize == batchSize && this.active == active && log == [] && objects == [] && completed == []
      ensures this.home == home && this.origin == origin && state == origin && InWindow()
    {
      this.batchSize := batchSize;
      this.active := active;
      log, objects, completed := [], [], [];
      this.home, this.origin, state, steps := home, origin, origin, [];
    }

    /** The steps lead to the state, and the log is their effects. */
    ghost predicate Stepped()
      reads `log, `state, `steps
    {
      && Runs(home, batchSize, origin, steps) && Run(home, batchSize, origin, steps) == state
      && log == Effects(home, batchSize, origin, steps)
      && forall e :: e in steps ==> OfWriter(e)
    }

    /** The writer's fields are those of the window after its steps. */
    ghost predicate InWindow()
      reads this
    {
      Stepped() && state.objects == objects && state.completed == completed && state.active == active
    }

    /** Take a step in the window along with its effect. */
    ghost method Step(e: Event)
      requires Stepped() && Enabled(home, batchSize, state, e) && OfWriter(e)
      modifies this`state, this`steps
      ensures state == Next(home, batchSize, old(state), e)
      ensures log == Effects(home, batchSize, origin, old(steps))
      ensures Runs(home, batchSize, origin, steps) && Run(home, batchSize, origin, steps) == state
      ensures Effects(home, batchSize, origin, steps) == log + EffectOf(old(state), e)
      ensures forall f :: f in steps ==> OfWriter(f)
    {
      RunAppend(home, batchSize, origin, steps, e);
      state := Next(home, batchSize, state, e);
      steps := steps + [e];
    }

    /** A step without an effect. */
    ghost method Silent(e: Event)
      requires Stepped() && Enabled(home, batchSize, state, e) && OfWriter(e) && EffectOf(state, e) == []
      modifies this`state, this`steps
      ensures Stepped() && state == Next(home, batchSize, old(state), e)
    {
      hide Runs, Run, Effects, Enabled, Next;
      Step(e);
      assert log + [] == log;
    }

    /** What has been recorded or buffered is what the jobs so far held, in their order. */
    ghost predicate Valid(taken: seq<Job>, part: seq<Id>, start: set<nat>)
      reads `log, `active, `objects, `completed
    {
      && 0 < batchSize && |objects| < batchSize
      && IdsIn(log) + objects == IdsOf(taken) + part
      && LeavesAfterRecording(log, taken)
      && Waiting(completed, taken, |taken|)
      && (objects == [] ==> completed == [])
      && active + HeightsOf(taken) == start + HeightsOf(taken)
      && (forall h :: h in HeightsOf(taken) && h in active ==> h in completed)
    }

    method Record()
      requires InWindow() && state.phase.Recording?
      modifies this`log, this`objects, this`state, this`steps
      ensures objects == [] && log == old(log) + [Recorded(old(objects))]
      ensures IdsIn(log) == IdsIn(old(log)) + old(objects)
      ensures InWindow() && state.phase == Draining(old(state).phase.place) && state.pipe == old(state).pipe
    {
      IdsAppend(log, Recorded(objects));
      hide Runs, Run, Effects, IdsIn;
      Step(TransactionWindow.Record);
      log := log + [Recorded(objects)];
      objects := [];
    }

    /** Let the first completed height go. */
    method DrainOne()
      requires InWindow() && state.phase.Draining? && completed != []
      modifies this`log, this`active, this`completed, this`state, this`steps
      ensures active == old(active) - {old(completed)[0]} && log == old(log) + [Left(old(completed)[0])]
      ensures completed == old(completed)[1..] && IdsIn(log) == IdsIn(old(log))
      ensures InWindow() && state.phase == old(state).phase && state.pipe == old(state).pipe
    {
      var height := completed[0];
      IdsAppend(log, Left(height));
      hide Runs, Run, Effects, IdsIn;
      Step(Drain);
      active := active - {height};
      completed := completed[1..];
      log := log + [Left(height)];
    }

    /** Let the height of a job go that has nothing left to write. */
    method Leave(height: nat)
      requires InWindow() && state.phase == Leaving(height)
      modifies this`log, this`active, this`state, this`steps
      ensures active == old(active) - {height} && log == old(log) + [Left(height)]
      ensures IdsIn(log) == IdsIn(old(log))
      ensures InWindow() && state.phase == Notifying(BetweenJobs) && state.pipe == old(state).pipe
    {
      IdsAppend(log, Left(height));
      hide Runs, Run, Effects, IdsIn;
      Step(TransactionWindow.Leave);
      active := active - {height};
      log := log + [Left(height)];
    }

    method Notify()
      requires InWindow() && state.phase.Notifying?
      modifies this`log, this`state, this`steps
      ensures log == old(log) + [Notified]
      ensures IdsIn(log) == IdsIn(old(log))
      ensures InWindow() && state.phase == At(old(state).phase.place) && state.pipe == old(state).pipe
    {
      IdsAppend(log, Notified);
      hide Runs, Run, Effects, IdsIn;
      Step(TransactionWindow.Notify);
      log := log + [Notified];
    }

    /** Let the completed heights go; everything they hold is recorded. */
    method DrainCompleted(ghost taken: seq<Job>, ghost part: seq<Id>, ghost start: set<nat>)
      requires 0 < batchSize && objects == [] && IdsIn(log) == IdsOf(taken) + part
      requires LeavesAfterRecording(log, taken) && Waiting(completed, taken, |taken|)
      requires active + HeightsOf(taken) == start + HeightsOf(taken)
      requires forall h :: h in HeightsOf(taken) && h in active ==> h in completed
      requires InWindow() && state.phase.Draining?
      modifies this`log, this`active, this`completed, this`state, this`steps
      ensures Valid(taken, part, start) && completed == []
      ensures log != [] && log[|log| - 1] == Notified
      ensures InWindow() && state.phase == At(old(state).phase.place) && state.pipe == old(state).pipe
    {
      hide InWindow, Stepped;
      while completed != []
        invariant InWindow() && state.phase == old(state).phase && state.pipe == old(state).pipe
        invariant IdsIn(log) == IdsOf(taken) + part
        invariant LeavesAfterRecording(log, taken) && Waiting(completed, taken, |taken|)
        invariant active + HeightsOf(taken) == start + HeightsOf(taken)
        invariant forall h :: h in HeightsOf(taken) && h in active ==> h in completed
        decreases |completed|
      {
        var height := completed[0];
        WaitingCovered(log, taken, part, completed);
        LogAppend(log, Left(height), taken);
        DrainOne();
      }
      LogAppend(log, Notified, taken);
      NothingToDrain();
      Notify();
    }

    ghost method NothingToDrain()
      requires InWindow() && state.phase.Draining? && completed == []
      modifies this`state, this`steps
      ensures InWindow() && state.phase == Notifying(old(state).phase.place) && state.pipe == old(state).pipe
    {
      hide Stepped;
      Silent(Drain);
    }

    /** Buffer one transaction; a full buffer is written at once. */
    method Push(id: Id, ghost taken: seq<Job>, ghost part: seq<Id>, ghost start: set<nat>) returns (written: nat)
      requires Valid(taken, part, start) && InWindow()
      requires state.phase.At? && state.phase.place.OnJob? && state.phase.place.left != [] && state.phase.place.left[0] == id
      modifies this
      ensures Valid(taken, part + [id], start)
      ensures |IdsIn(log)| == |IdsIn(old(log))| + written
      ensures InWindow() && state.pipe == old(state).pipe
      ensures state.phase == At(OnJob(old(state).phase.place.height, old(state).phase.place.left[1..]))
    {
      hide InWindow, Stepped;
      written := 0;
      assert IdsIn(log) + (objects + [id]) == (IdsIn(log) + objects) + [id];
      assert (IdsOf(taken) + part) + [id] == IdsOf(taken) + (part + [id]);
      Buffer(id);
      if |objects| == batchSize {
        written := Flush(taken, part + [id], start);
      }
    }

    method Buffer(id: Id)
      requires InWindow() && state.phase.At?
      requires state.phase.place.OnJob? && state.phase.place.left != [] && state.phase.place.left[0] == id
      modifies this`objects, this`state, this`steps
      ensures objects == old(objects) + [id] && InWindow() && state.pipe == old(state).pipe
      ensures var place := OnJob(old(state).phase.place.height, old(state).phase.place.left[1..]);
              state.phase == if |objects| == batchSize then Recording(place) else At(place)
    {
      hide Stepped;
      Silent(TransactionWindow.Push);
      objects := objects + [id];
    }

    /** Write what is buffered, then let the completed heights go. */
    method Flush(ghost taken: seq<Job>, ghost part: seq<Id>, ghost start: set<nat>) returns (written: nat)
      requires 0 < batchSize && IdsIn(log) + objects == IdsOf(taken) + part
      requires LeavesAfterRecording(log, taken) && Waiting(completed, taken, |taken|)
      requires active + HeightsOf(taken) == start + HeightsOf(taken)
      requires forall h :: h in HeightsOf(taken) && h in active ==> h in completed
      requires InWindow() && if objects != [] then state.phase.Recording? else state.phase.Draining?
      modifies this
      ensures Valid(taken, part, start) && objects == [] && written == |old(objects)|
      ensures log != [] && log[|log| - 1] == Notified
      ensures IdsIn(log) == IdsIn(old(log)) + old(objects)
      ensures InWindow() && state.phase == At(old(state).phase.place) && state.pipe == old(state).pipe
    {
      hide InWindow, Stepped;
      hide LeavesAfterRecording, HeightsOf, IdsOf, IdsIn, Waiting;
      written := |objects|;
      if objects != [] {
        LogAppend(log, Recorded(objects), taken);
        Record();
      }
      assert IdsIn(log) == IdsIn(old(log)) + old(objects);
      DrainCompleted(taken, part, start);
      assert IdsIn(log) + [] == IdsIn(log);
    }

    /** Write batches of verified jobs as they come: everything is recorded once and in order, a height
        leaves only after its transactions, and the selection is woken after the last one has left. */
    method Persist(batches: seq<seq<Job>>) returns (imported: nat)
      requires 0 < batchSize && log == [] && objects == [] && completed == []
      requires InWindow() && state.phase == At(Receiving) && state.pipe.channel == batches
      modifies this
      ensures InWindow() && state.phase == At(Receiving) && state.pipe.channel == []
      ensures IdsIn(log) == IdsOf(Concat(batches)) && imported == |IdsIn(log)|
      ensures LeavesAfterRecording(log, Concat(batches))
      ensures active == old(active) - HeightsOf(Concat(batches))
      ensures batches != [] ==> log != [] && log[|log| - 1] == Notified
    {
      ghost var start := active;
      ghost var taken: seq<Job> := [];
      imported := 0;
      var b := 0;
      assert batches[..0] == [];
      hide LeavesAfterRecording, IdsOf, IdsIn, Waiting, InWindow;
      NothingYet();
      while b < |batches|
        invariant 0 <= b <= |batches| && taken == Concat(batches[..b])
        invariant Valid(taken, [], start) && objects == [] && imported == |IdsIn(log)|
        invariant b > 0 ==> log != [] && log[|log| - 1] == Notified
        invariant InWindow() && state.phase == At(Receiving) && state.pipe.channel == batches[b..]
      {
        hide Valid, HeightsOf, Concat;
        NextTaken(batches, b);
        var n := ReceiveBatch(batches, b, taken, start);
        imported := imported + n;
        taken := taken + batches[b];
        b := b + 1;
      }
      assert batches[..b] == batches;
      AllWritten(taken, start);
    }

    /** One batch from the channel. */
    method ReceiveBatch(batches: seq<seq<Job>>, b: nat, ghost taken: seq<Job>, ghost start: set<nat>) returns (imported: nat)
      requires b < |batches| && Valid(taken, [], start)
      requires InWindow() && state.phase == At(Receiving) && state.pipe.channel == batches[b..]
      modifies this
      ensures Valid(taken + batches[b], [], start) && objects == []
      ensures |IdsIn(log)| == |IdsIn(old(log))| + imported && log != [] && log[|log| - 1] == Notified
      ensures InWindow() && state.phase == At(Receiving) && state.pipe.channel == batches[b + 1..]
    {
      hide InWindow, Valid, IdsIn;
      TakeBatch();
      assert batches[b..][1..] == batches[b + 1..];
      imported := PersistBatch(batches[b], taken, start);
    }

    /** With an empty buffer everything taken is recorded and every height let go. */
    lemma AllWritten(taken: seq<Job>, start: set<nat>)
      requires Valid(taken, [], start) && objects == []
      ensures IdsIn(log) == IdsOf(taken) && LeavesAfterRecording(log, taken) && active == start - HeightsOf(taken)
    {
      hide LeavesAfterRecording, IdsOf, IdsIn, Waiting, HeightsOf;
      assert IdsIn(log) + [] == IdsIn(log) && IdsOf(taken) + [] == IdsOf(taken);
    }

    ghost method TakeBatch()
      requires InWindow() && state.phase == At(Receiving) && state.pipe.channel != []
      modifies this`state, this`steps
      ensures InWindow() && state.phase == At(BetweenJobs)
      ensures state.pipe.batch == old(state).pipe.channel[0] && state.pipe.channel == old(state).pipe.channel[1..]
    {
      hide Stepped;
      Silent(Receive);
    }

    ghost method TakeJob()
      requires InWindow() && state.phase == At(BetweenJobs) && state.pipe.batch != []
      modifies this`state, this`steps
      ensures InWindow() && state.pipe.batch == old(state).pipe.batch[1..] && state.pipe.channel == old(state).pipe.channel
      ensures var job := old(state).pipe.batch[0]; state.phase == At(OnJob(job.height, job.ids))
    {
      hide Stepped;
      Silent(NextJob);
    }

    ghost method FinishBatch()
      requires InWindow() && state.phase == At(BetweenJobs) && state.pipe.batch == []
      modifies this`state, this`steps
      ensures InWindow() && state.pipe == old(state).pipe
      ensures state.phase == if objects != [] then Recording(Receiving) else Draining(Receiving)
    {
      hide Stepped;
      Silent(EndBatch);
    }

    method PersistBatch(batch: seq<Job>, ghost taken: seq<Job>, ghost start: set<nat>) returns (imported: nat)
      requires Valid(taken, [], start)
      requires InWindow() && state.phase == At(BetweenJobs) && state.pipe.batch == batch
      modifies this
      ensures InWindow() && state.phase == At(Receiving) && state.pipe.channel == old(state).pipe.channel
      ensures Valid(taken + batch, [], start) && objects == []
      ensures |IdsIn(log)| == |IdsIn(old(log))| + imported
      ensures log != [] && log[|log| - 1] == Notified
    {
      hide LeavesAfterRecording, HeightsOf, IdsOf, IdsIn, Waiting, InWindow;
      imported := 0;
      var i := 0;
      assert taken + batch[..0] == taken;
      while i < |batch|
        invariant 0 <= i <= |batch|
        invariant Valid(taken + batch[..i], [], start)
        invariant |IdsIn(log)| == |IdsIn(old(log))| + imported
        invariant InWindow() && state.phase == At(BetweenJobs) && state.pipe.batch == batch[i..]
        invariant state.pipe.channel == old(state).pipe.channel
      {
        TakeJob();
        var n := PersistJob(batch[i], taken + batch[..i], start);
        imported := imported + n;
        assert taken + batch[..i] + [batch[i]] == taken + batch[..i + 1];
        i := i + 1;
      }
      assert batch[..i] == batch;
      FinishBatch();
      var n := Flush(taken + batch, [], start);
      imported := imported + n;
    }

    /** One job: buffer its transactions, writing whenever the buffer is full. */
    method PersistJob(job: Job, ghost taken: seq<Job>, ghost start: set<nat>) returns (imported: nat)
      requires Valid(taken, [], start)
      requires InWindow() && state.phase == At(OnJob(job.height, job.ids))
      modifies this
      ensures Valid(taken + [job], [], start)
      ensures |IdsIn(log)| == |IdsIn(old(log))| + imported
      ensures InWindow() && state.phase == At(BetweenJobs) && state.pipe == old(state).pipe
    {
      hide InWindow;
      imported := 0;
      var k := 0;
      assert job.ids[..0] == [];
      hide LeavesAfterRecording, HeightsOf, IdsOf, IdsIn;
      while k < |job.ids|
        invariant 0 <= k <= |job.ids|
        invariant Valid(taken, job.ids[..k], start)
        invariant InWindow() && state.phase == At(OnJob(job.height, job.ids[k..])) && state.pipe == old(state).pipe
        invariant |IdsIn(log)| == |IdsIn(old(log))| + imported
      {
        assert job.ids[..k + 1] == job.ids[..k] + [job.ids[k]];
        var n := Push(job.ids[k], taken, job.ids[..k], start);
        imported := imported + n;
        k := k + 1;
      }
      assert job.ids[..k] == job.ids && job.ids[k..] == [];
      EndJob(job, taken, start);
    }

    /** A job whose transactions are all written leaves at once; otherwise it waits for the next write. */
    method EndJob(job: Job, ghost taken: seq<Job>, ghost start: set<nat>)
      requires Valid(taken, job.ids, start) && InWindow() && state.phase == At(OnJob(job.height, []))
      modifies this
      ensures Valid(taken + [job], [], start)
      ensures IdsIn(log) == IdsIn(old(log))
      ensures InWindow() && state.phase == At(BetweenJobs) && state.pipe == old(state).pipe
    {
      hide InWindow;
      hide LeavesAfterRecording, HeightsOf, IdsOf, IdsIn;
      JobTaken(taken, job);
      MoreJobs(log, taken, [job]);
      WaitingMore(completed, taken, job);
      assert IdsOf(taken + [job]) + [] == IdsOf(taken + [job]);
      if objects == [] {
        assert IdsIn(log) + [] == IdsIn(log);
        JobCovered(log, taken, job);
        LogAppend(log, Left(job.height), taken + [job]);
        PassJob(job.height);
        Leave(job.height);
        LogAppend(log, Notified, taken + [job]);
        Notify();
      } else {
        Complete(job.height);
      }
    }

    ghost method PassJob(height: nat)
      requires InWindow() && state.phase == At(OnJob(height, [])) && objects == []
      modifies this`state, this`steps
      ensures InWindow() && state.phase == Leaving(height) && state.pipe == old(state).pipe
    {
      hide Stepped;
      Silent(TransactionWindow.EndJob);
    }

    method Complete(height: nat)
      requires InWindow() && state.phase == At(OnJob(height, [])) && objects != []
      modifies this`completed, this`state, this`steps
      ensures completed == old(completed) + [height]
      ensures InWindow() && state.phase == At(BetweenJobs) && state.pipe == old(state).pipe
    {
      hide Stepped;
      Silent(TransactionWindow.EndJob);
      completed := completed + [height];
    }

    /** What the loop did is a run of the window: its recorded transactions and active heights are those of the window
        after the writer's steps, and the window's invariant holds again if it did at the start. */
    lemma WritesInWindow()
      requires InWindow() && 0 < batchSize
      ensures Runs(home, batchSize, origin, steps) && forall e :: e in steps ==> OfWriter(e)
      ensures var t := Run(home, batchSize, origin, steps);
              && t.recorded == origin.recorded + ToSet(IdsIn(log)) && t.active == active
              && log == Effects(home, batchSize, origin, steps)
              && (Inv(home, batchSize, origin) ==> Inv(home, batchSize, t))
    {
      EffectsRecord(home, batchSize, origin, steps);
      if Inv(home, batchSize, origin) {
        RunKeeps(home, batchSize, origin, steps);
      }
    }
  }

  lemma NextTaken(batches: seq<seq<Job>>, b: nat)
    requires b < |batches|
    ensures Concat(batches[..b + 1]) == Concat(batches[..b]) + batches[b]
  {
    assert batches[..b + 1] == batches[..b] + [batches[b]];
    ConcatAppend(batches[..b], batches[b]);
  }

  lemma NothingYet()
    ensures IdsIn([]) == [] && IdsOf([]) == [] && LeavesAfterRecording([], []) && Waiting([], [], 0)
  {
  }

  lemma WaitingMore(completed: seq<nat>, taken: seq<Job>, job: Job)
    requires Waiting(completed, taken, |taken|)
    ensures Waiting(completed, taken + [job], |taken| + 1)
    ensures Waiting(completed + [job.height], taken + [job], |taken| + 1)
  {
    forall c | 0 <= c < |completed|
      ensures exists j :: 0 <= j < |taken| + 1 && (taken + [job])[j].height == completed[c]
    {
      var j :| 0 <= j < |taken| && taken[j].height == completed[c];
      assert (taken + [job])[j].height == completed[c];
    }
    assert (taken + [job])[|taken|].height == job.height;
  }

  lemma JobTaken(taken: seq<Job>, job: Job)
    ensures IdsOf(taken + [job]) == IdsOf(taken) + job.ids
    ensures HeightsOf(taken + [job]) == HeightsOf(taken) + {job.height}
  {
    assert (taken + [job])[..|taken|] == taken;
    assert (taken + [job])[|taken|] == job;
    forall h | h in HeightsOf(taken)
      ensures h in HeightsOf(taken + [job])
    {
      var i :| 0 <= i < |taken| && taken[i].height == h;
      assert (taken + [job])[i].height == h;
    }
  }

  lemma {:induction false} IdIn(jobs: seq<Job>, i: nat, k: nat)
    requires i < |jobs| && k < |jobs[i].ids|
    ensures jobs[i].ids[k] in IdsOf(jobs)
    decreases |jobs|
  {
    if i < |jobs| - 1 {
      IdIn(jobs[..|jobs| - 1], i, k);
    }
  }

  lemma WaitingCovered(log: seq<Effect>, taken: seq<Job>, part: seq<Id>, completed: seq<nat>)
    requires IdsIn(log) == IdsOf(taken) + part && completed != [] && Waiting(completed, taken, |taken|)
    ensures Covered(log, taken, completed[0])
  {
    var j :| 0 <= j < |taken| && taken[j].height == completed[0];
    forall k | 0 <= k < |taken[j].ids|
      ensures taken[j].ids[k] in IdsIn(log)
    {
      IdIn(taken, j, k);
    }
  }

  lemma JobCovered(log: seq<Effect>, taken: seq<Job>, job: Job)
    requires IdsIn(log) == IdsOf(taken) + job.ids
    ensures Covered(log, taken + [job], job.height)
  {
    assert (taken + [job])[|taken|] == job;
  }
}
