/** The unpaced outbound path as a step system: the submitter reserves counters for a batch,
    starts a job that seals it, and queues the job's receiver; jobs finish in any order; one
    sequential sender restores the order of submission. */
module Pipeline {
  import opened Words
  import opened Bytes
  import opened Results
  import opened Sessions
  import opened ReplayWindows

  /** Capacity of the order channel. */
  const SEND_PIPELINE_BATCHES: nat := 16

  /** A sealed packet, by the session and counter it was sealed under. */
  datatype Wire = Wire(session: nat, counter: nat, payload: bytes)

  datatype Status = Running | Sealed | Failed | Dropped

  datatype Job = Job(session: nat, base: nat, batch: seq<bytes>, status: Status)

  datatype Phase =
    | Receiving                     // at the top of the loop
    | Awaiting(job: nat)            // awaits one batch
    | Draining(wires: seq<Wire>)    // gathers whatever else is ready
    | Stopped

  /** The sequential sender. */
  datatype Sender = Sender(
    phase: Phase,
    stash: Option<nat>,             // taken off the channel before it was ready
    resolved: nat,                  // jobs whose result it has seen
    flushed: nat,                   // jobs whose result it has sent or passed over
    output: seq<Wire>)

  datatype State = State(
    counters: map<nat, u64>,        // the sending counter of every session
    jobs: seq<Job>,                 // all submissions, in order
    offered: Option<nat>,           // submitted, waiting for room in the channel
    channel: seq<nat>,
    closed: bool,
    sender: Sender)

  const INITIAL := State(map[], [], None, [], false, Sender(Receiving, None, 0, 0, []))

  datatype Step =
    | Submit(session: nat, batch: seq<bytes>)
    | Elsewhere(session: nat, n: u64)    // another task reserves on the session
    | Offer
    | Finish(job: nat, status: Status)
    | Close
    | Advance                            // the sequential sender moves

  // ── Steps ──

  function WiresOf(job: Job): seq<Wire> {
    if job.status == Sealed
    then seq(|job.batch|, i requires 0 <= i < |job.batch| => Wire(job.session, job.base + i, job.batch[i]))
    else []
  }

  function CounterOf(counters: map<nat, u64>, session: nat): u64 {
    if session in counters then counters[session] else 0
  }

  /** Whether a job's result is there to be taken. */
  predicate Done(jobs: seq<Job>, job: nat) {
    job < |jobs| && jobs[job].status != Running
  }

  function Resolved(w: Sender, wires: seq<Wire>): Sender {
    w.(phase := Draining(wires), resolved := w.resolved + 1)
  }

  function Flushed(w: Sender, wires: seq<Wire>, stash: Option<nat>): Sender {
    Sender(Receiving, stash, w.resolved, w.resolved, w.output + wires)
  }

  /** The sequential sender's next move, with what it leaves in the channel; None while it
      has to wait. */
  function Move(w: Sender, jobs: seq<Job>, channel: seq<nat>, closed: bool): Option<(Sender, seq<nat>)> {
    match w.phase
    case Receiving =>
      if w.stash != None then Some((w.(phase := Awaiting(w.stash.value), stash := None), channel))
      else if channel != [] then Some((w.(phase := Awaiting(channel[0])), channel[1..]))
      else if closed then Some((w.(phase := Stopped), channel))
      else None
    case Awaiting(job) =>
      if Done(jobs, job) then Some((Resolved(w, WiresOf(jobs[job])), channel)) else None
    case Draining(wires) =>
      if channel == [] then Some((Flushed(w, wires, None), channel))
      else if Done(jobs, channel[0]) then Some((Resolved(w, wires + WiresOf(jobs[channel[0]])), channel[1..]))
      else Some((Flushed(w, wires, Some(channel[0])), channel[1..]))
    case Stopped => None
  }

  predicate Enabled(s: State, step: Step) {
    match step
    case Submit(session, batch) =>
      !s.closed && s.offered == None && batch != [] && CounterOf(s.counters, session) + |batch| < TWO64
    case Elsewhere(session, n) => CounterOf(s.counters, session) + n < TWO64
    case Offer => s.offered != None && |s.channel| < SEND_PIPELINE_BATCHES
    case Finish(job, status) => job < |s.jobs| && s.jobs[job].status == Running && status != Running
    case Close => s.offered == None
    case Advance => Move(s.sender, s.jobs, s.channel, s.closed) != None
  }

  function Moved(s: State): State
    requires Enabled(s, Advance)
  {
    var (w, channel) := Move(s.sender, s.jobs, s.channel, s.closed).value;
    s.(sender := w, channel := channel)
  }

  function Apply(rekeyAt: u64, s: State, step: Step): State
    requires Enabled(s, step)
  {
    match step
    case Submit(session, batch) =>
      var (next, first) := Reserve(CounterOf(s.counters, session), |batch|, rekeyAt);
      var t := s.(counters := s.counters[session := next]);
      if first.Err? then t
      else t.(jobs := s.jobs + [Job(session, first.value, batch, Running)], offered := Some(|s.jobs|))
    case Elsewhere(session, n) =>
      s.(counters := s.counters[session := Reserve(CounterOf(s.counters, session), n, rekeyAt).0])
    case Offer => s.(channel := s.channel + [s.offered.value], offered := None)
    case Finish(job, status) => s.(jobs := s.jobs[job := s.jobs[job].(status := status)])
    case Close => s.(closed := true)
    case Advance => Moved(s)
  }

  predicate IsRun(rekeyAt: u64, run: seq<State>, steps: seq<Step>) {
    && |run| == |steps| + 1
    && run[0] == INITIAL
    && forall i | 0 <= i < |steps| :: Enabled(run[i], steps[i]) && run[i + 1] == Apply(rekeyAt, run[i], steps[i])
  }

  // ── The queue ──

  function Id(o: Option<nat>): seq<nat> {
    match o case None => [] case Some(id) => [id]
  }

  function Held(w: Sender): seq<nat> {
    if w.phase.Awaiting? then [w.phase.job] else Id(w.stash)
  }

  function Range(first: nat, end: nat): (r: seq<nat>)
    requires first <= end
    ensures |r| == end - first
    decreases end - first
  {
    if first == end then [] else [first] + Range(first + 1, end)
  }

  lemma {:induction false} RangeGrows(first: nat, end: nat)
    requires first <= end
    ensures Range(first, end + 1) == Range(first, end) + [end]
    decreases end - first
  {
    if first < end { RangeGrows(first + 1, end); }
  }

  lemma RangeStep(next: nat, rest: seq<nat>, first: nat, end: nat)
    requires first <= end && [next] + rest == Range(first, end)
    ensures first < end && next == first && rest == Range(first + 1, end)
  {
    assert |[next] + rest| > 0;
    assert ([next] + rest)[0] == next && ([next] + rest)[1..] == rest;
    assert ([first] + Range(first + 1, end))[1..] == Range(first + 1, end);
  }

  predicate FlagsOk(w: Sender, channel: seq<nat>, closed: bool) {
    && |channel| <= SEND_PIPELINE_BATCHES
    && (w.phase.Awaiting? || w.phase.Draining? ==> w.stash == None)
    && (w.phase.Stopped? ==> closed && w.stash == None && channel == [])
  }

  /** The sender, the channel and the submitter hold every unresolved job once, in order. */
  predicate Lined(w: Sender, channel: seq<nat>, offered: Option<nat>, jobs: nat) {
    w.resolved <= jobs && Held(w) + channel + Id(offered) == Range(w.resolved, jobs)
  }

  /** The job a move resolves, if it resolves one. */
  function Resolving(w: Sender, jobs: seq<Job>, channel: seq<nat>): Option<nat> {
    match w.phase
    case Awaiting(job) => if Done(jobs, job) then Some(job) else None
    case Draining(_) => if channel != [] && Done(jobs, channel[0]) then Some(channel[0]) else None
    case _ => None
  }

  /** What a move does to the sender and the channel, whatever the jobs are. */
  predicate Shaped(w: Sender, channel: seq<nat>, closed: bool, v: Sender, rest: seq<nat>, r: Option<nat>) {
    && FlagsOk(v, rest, closed)
    && Held(w) + channel == Id(r) + (Held(v) + rest)
    && v.resolved == w.resolved + |Id(r)|
  }

  lemma ReceivingShape(w: Sender, jobs: seq<Job>, channel: seq<nat>, closed: bool)
    requires FlagsOk(w, channel, closed) && w.phase.Receiving? && Move(w, jobs, channel, closed) != None
    ensures var (v, rest) := Move(w, jobs, channel, closed).value; Shaped(w, channel, closed, v, rest, None)
  {
    if channel != [] { assert channel == [channel[0]] + channel[1..]; }
  }

  lemma AwaitingShape(w: Sender, jobs: seq<Job>, channel: seq<nat>, closed: bool)
    requires FlagsOk(w, channel, closed) && w.phase.Awaiting? && Move(w, jobs, channel, closed) != None
    ensures var (v, rest) := Move(w, jobs, channel, closed).value; Shaped(w, channel, closed, v, rest, Some(w.phase.job))
  {}

  lemma DrainingShape(w: Sender, jobs: seq<Job>, channel: seq<nat>, closed: bool)
    requires FlagsOk(w, channel, closed) && w.phase.Draining? && Move(w, jobs, channel, closed) != None
    ensures var (v, rest) := Move(w, jobs, channel, closed).value;
            Shaped(w, channel, closed, v, rest, Resolving(w, jobs, channel))
  {
    if channel != [] { assert channel == [channel[0]] + channel[1..]; }
  }

  lemma MoveShape(w: Sender, jobs: seq<Job>, channel: seq<nat>, closed: bool)
    requires FlagsOk(w, channel, closed) && Move(w, jobs, channel, closed) != None
    ensures var (v, rest) := Move(w, jobs, channel, closed).value;
            Shaped(w, channel, closed, v, rest, Resolving(w, jobs, channel))
  {
    match w.phase
    case Receiving => ReceivingShape(w, jobs, channel, closed);
    case Awaiting(_) => AwaitingShape(w, jobs, channel, closed);
    case Draining(_) => DrainingShape(w, jobs, channel, closed);
    case Stopped =>
  }

  lemma MoveKeepsLined(w: Sender, jobs: seq<Job>, channel: seq<nat>, closed: bool, offered: Option<nat>)
    requires FlagsOk(w, channel, closed) && Lined(w, channel, offered, |jobs|)
    requires Move(w, jobs, channel, closed) != None
    ensures var (v, rest) := Move(w, jobs, channel, closed).value;
            FlagsOk(v, rest, closed) && Lined(v, rest, offered, |jobs|)
    ensures var r := Resolving(w, jobs, channel); r != None ==> r.value == w.resolved < |jobs|
  {
    MoveShape(w, jobs, channel, closed);
    var r := Resolving(w, jobs, channel);
    var (v, rest) := Move(w, jobs, channel, closed).value;
    var after := Held(v) + rest + Id(offered);
    assert (Id(r) + (Held(v) + rest)) + Id(offered) == Id(r) + after;
    if r != None {
      RangeStep(r.value, after, w.resolved, |jobs|);
    } else {
      assert Id(r) + after == after;
    }
  }

  // ── The output ──

  /** The sealed packets of the first n jobs, in order. */
  function AllWires(jobs: seq<Job>, n: nat): seq<Wire>
    requires n <= |jobs|
  {
    if n == 0 then [] else AllWires(jobs, n - 1) + WiresOf(jobs[n - 1])
  }

  lemma {:induction false} AllWiresFramed(jobs: seq<Job>, more: seq<Job>, n: nat)
    requires n <= |jobs| && n <= |more| && forall i | 0 <= i < n :: more[i] == jobs[i]
    ensures AllWires(more, n) == AllWires(jobs, n)
  {
    if n > 0 { AllWiresFramed(jobs, more, n - 1); }
  }

  function InHand(phase: Phase): seq<Wire> {
    match phase case Draining(wires) => wires case _ => []
  }

  /** What is out, and what is in hand, is the resolved jobs' packets. */
  predicate OutputOk(w: Sender, jobs: seq<Job>) {
    && w.flushed <= w.resolved <= |jobs|
    && w.output == AllWires(jobs, w.flushed)
    && w.output + InHand(w.phase) == AllWires(jobs, w.resolved)
    && (!w.phase.Draining? ==> w.flushed == w.resolved)
  }

  predicate AllDone(jobs: seq<Job>, n: nat) {
    n <= |jobs| && forall i | 0 <= i < n :: jobs[i].status != Running
  }

  lemma ResolveKeepsOutput(w: Sender, jobs: seq<Job>)
    requires OutputOk(w, jobs) && w.resolved < |jobs|
    ensures OutputOk(Resolved(w, InHand(w.phase) + WiresOf(jobs[w.resolved])), jobs)
  {
    var next := WiresOf(jobs[w.resolved]);
    assert (w.output + InHand(w.phase)) + next == w.output + (InHand(w.phase) + next);
  }

  lemma FlushKeepsOutput(w: Sender, jobs: seq<Job>, stash: Option<nat>)
    requires OutputOk(w, jobs) && w.phase.Draining?
    ensures OutputOk(Flushed(w, w.phase.wires, stash), jobs)
  {
    assert (w.output + w.phase.wires) + [] == w.output + w.phase.wires;
  }

  lemma MoveKeepsOutput(w: Sender, jobs: seq<Job>, channel: seq<nat>, closed: bool)
    requires OutputOk(w, jobs) && Move(w, jobs, channel, closed) != None
    requires var r := Resolving(w, jobs, channel); r != None ==> r.value == w.resolved < |jobs|
    ensures OutputOk(Move(w, jobs, channel, closed).value.0, jobs)
  {
    if Resolving(w, jobs, channel) != None {
      ResolveKeepsOutput(w, jobs);
      assert [] + WiresOf(jobs[w.resolved]) == WiresOf(jobs[w.resolved]);
    } else if w.phase.Draining? {
      FlushKeepsOutput(w, jobs, if channel == [] then None else Some(channel[0]));
    }
  }

  /** New jobs, and a running job's end, leave what is resolved alone. */
  lemma OutputFramed(w: Sender, jobs: seq<Job>, more: seq<Job>)
    requires OutputOk(w, jobs) && |jobs| <= |more|
    requires forall i | 0 <= i < w.resolved :: more[i] == jobs[i]
    ensures OutputOk(w, more)
  {
    AllWiresFramed(jobs, more, w.flushed);
    AllWiresFramed(jobs, more, w.resolved);
  }

  // ── The counters ──

  /** Ranges of one session follow each other in the order of submission. */
  predicate RangesOk(jobs: seq<Job>) {
    forall i, j | 0 <= i < j < |jobs| && jobs[i].session == jobs[j].session ::
      jobs[i].base + |jobs[i].batch| <= jobs[j].base
  }

  predicate ReservedOk(jobs: seq<Job>, counters: map<nat, u64>) {
    forall i | 0 <= i < |jobs| :: jobs[i].base + |jobs[i].batch| <= CounterOf(counters, jobs[i].session)
  }

  // ── Every reachable state ──

  predicate QueueOk(s: State) {
    && FlagsOk(s.sender, s.channel, s.closed)
    && (s.closed ==> s.offered == None)
    && Lined(s.sender, s.channel, s.offered, |s.jobs|)
  }

  predicate Inv(s: State) {
    && QueueOk(s)
    && OutputOk(s.sender, s.jobs) && AllDone(s.jobs, s.sender.resolved)
    && RangesOk(s.jobs) && ReservedOk(s.jobs, s.counters)
  }

  lemma AdvanceKeepsInv(s: State)
    requires Inv(s) && Enabled(s, Advance)
    ensures Inv(Moved(s))
  {
    MoveKeepsLined(s.sender, s.jobs, s.channel, s.closed, s.offered);
    MoveKeepsOutput(s.sender, s.jobs, s.channel, s.closed);
    MoveShape(s.sender, s.jobs, s.channel, s.closed);
  }

  lemma ReserveAdds(counter: u64, n: u64, rekeyAt: u64)
    requires counter + n < TWO64
    ensures var (next, first) := Reserve(counter, n, rekeyAt);
            next == counter + n && (first == Ok(counter) || first == Err(RekeyRequired))
  {}

  lemma CounterGrows(jobs: seq<Job>, counters: map<nat, u64>, session: nat, next: u64)
    requires ReservedOk(jobs, counters) && CounterOf(counters, session) <= next
    ensures ReservedOk(jobs, counters[session := next])
  {
    forall i | 0 <= i < |jobs|
      ensures jobs[i].base + |jobs[i].batch| <= CounterOf(counters[session := next], jobs[i].session)
    {
      assert jobs[i].base + |jobs[i].batch| <= CounterOf(counters, jobs[i].session);
    }
  }

  lemma NewRange(jobs: seq<Job>, counters: map<nat, u64>, job: Job, next: u64)
    requires RangesOk(jobs) && ReservedOk(jobs, counters)
    requires job.base == CounterOf(counters, job.session) && job.base + |job.batch| == next
    ensures RangesOk(jobs + [job]) && ReservedOk(jobs + [job], counters[job.session := next])
  {
    CounterGrows(jobs, counters, job.session, next);
  }

  lemma NewJobIsQueued(w: Sender, channel: seq<nat>, jobs: nat)
    requires Lined(w, channel, None, jobs)
    ensures Lined(w, channel, Some(jobs), jobs + 1)
  {
    RangeGrows(w.resolved, jobs);
    assert Held(w) + channel + [] == Held(w) + channel;
  }

  lemma RefusedKeepsInv(s: State, session: nat, next: u64)
    requires Inv(s) && CounterOf(s.counters, session) <= next
    ensures Inv(s.(counters := s.counters[session := next]))
  {
    CounterGrows(s.jobs, s.counters, session, next);
  }

  lemma GrantedKeepsInv(s: State, session: nat, batch: seq<bytes>, next: u64)
    requires Inv(s) && !s.closed && s.offered == None && next == CounterOf(s.counters, session) + |batch|
    ensures var job := Job(session, CounterOf(s.counters, session), batch, Running);
            Inv(s.(counters := s.counters[session := next], jobs := s.jobs + [job], offered := Some(|s.jobs|)))
  {
    var job := Job(session, CounterOf(s.counters, session), batch, Running);
    NewJobIsQueued(s.sender, s.channel, |s.jobs|);
    OutputFramed(s.sender, s.jobs, s.jobs + [job]);
    NewRange(s.jobs, s.counters, job, next);
  }

  lemma SubmitKeepsInv(rekeyAt: u64, s: State, step: Step)
    requires Inv(s) && Enabled(s, step) && step.Submit?
    ensures Inv(Apply(rekeyAt, s, step))
  {
    var counter := CounterOf(s.counters, step.session);
    ReserveAdds(counter, |step.batch|, rekeyAt);
    var (next, first) := Reserve(counter, |step.batch|, rekeyAt);
    if first.Err? {
      RefusedKeepsInv(s, step.session, next);
    } else {
      GrantedKeepsInv(s, step.session, step.batch, next);
    }
  }

  lemma ElsewhereKeepsInv(rekeyAt: u64, s: State, step: Step)
    requires Inv(s) && Enabled(s, step) && step.Elsewhere?
    ensures Inv(Apply(rekeyAt, s, step))
  {
    ReserveAdds(CounterOf(s.counters, step.session), step.n, rekeyAt);
    CounterGrows(s.jobs, s.counters, step.session, Apply(rekeyAt, s, step).counters[step.session]);
  }

  lemma FinishKeepsInv(rekeyAt: u64, s: State, step: Step)
    requires Inv(s) && Enabled(s, step) && step.Finish?
    ensures Inv(Apply(rekeyAt, s, step))
  {
    assert AllDone(s.jobs, s.sender.resolved) ==> step.job >= s.sender.resolved;
    OutputFramed(s.sender, s.jobs, Apply(rekeyAt, s, step).jobs);
  }

  lemma OfferKeepsInv(rekeyAt: u64, s: State)
    requires Inv(s) && Enabled(s, Offer)
    ensures Inv(Apply(rekeyAt, s, Offer))
  {
    var t := Apply(rekeyAt, s, Offer);
    assert Held(t.sender) + t.channel + Id(t.offered) == Held(s.sender) + s.channel + Id(s.offered);
  }

  lemma StepKeepsInv(rekeyAt: u64, s: State, step: Step)
    requires Inv(s) && Enabled(s, step)
    ensures Inv(Apply(rekeyAt, s, step))
  {
    match step
    case Submit(_, _) => SubmitKeepsInv(rekeyAt, s, step);
    case Finish(_, _) => FinishKeepsInv(rekeyAt, s, step);
    case Offer => OfferKeepsInv(rekeyAt, s);
    case Advance => AdvanceKeepsInv(s);
    case Elsewhere(_, _) => ElsewhereKeepsInv(rekeyAt, s, step);
    case Close =>
  }

  lemma {:induction false} RunKeepsInv(rekeyAt: u64, run: seq<State>, steps: seq<Step>)
    requires IsRun(rekeyAt, run, steps)
    ensures Inv(run[|steps|])
  {
    if steps == [] {
      assert run[0] == INITIAL;
    } else {
      var n := |steps| - 1;
      assert IsRun(rekeyAt, run[..|steps|], steps[..n]);
      RunKeepsInv(rekeyAt, run[..|steps|], steps[..n]);
      StepKeepsInv(rekeyAt, run[n], steps[n]);
    }
  }

  // ── In order, nothing skipped ──

  /** In every reachable state the output is the packets of the successful batches among
      the first `flushed` submissions, in order, none skipped or repeated. */
  lemma OutputIsInOrder(rekeyAt: u64, run: seq<State>, steps: seq<Step>)
    requires IsRun(rekeyAt, run, steps)
    ensures var s := run[|steps|];
            && AllDone(s.jobs, s.sender.flushed)
            && s.sender.output == AllWires(s.jobs, s.sender.flushed)
  {
    RunKeepsInv(rekeyAt, run, steps);
  }

  lemma {:induction false} WireComesFrom(jobs: seq<Job>, n: nat, k: nat) returns (i: nat)
    requires n <= |jobs| && k < |AllWires(jobs, n)|
    ensures i < n && AllWires(jobs, n)[k] in WiresOf(jobs[i])
  {
    if k < |AllWires(jobs, n - 1)| {
      i := WireComesFrom(jobs, n - 1, k);
    } else {
      i := n - 1;
    }
  }

  /** A later packet of the same session has a higher counter. */
  predicate Increasing(wires: seq<Wire>) {
    forall k, l | 0 <= k < l < |wires| && wires[k].session == wires[l].session :: wires[k].counter < wires[l].counter
  }

  lemma LaterJobIsHigher(jobs: seq<Job>, n: nat, k: nat, l: nat)
    requires n < |jobs| && RangesOk(jobs) && k < |AllWires(jobs, n)| && l < |WiresOf(jobs[n])|
    requires AllWires(jobs, n)[k].session == WiresOf(jobs[n])[l].session
    ensures AllWires(jobs, n)[k].counter < WiresOf(jobs[n])[l].counter
  {
    var i := WireComesFrom(jobs, n, k);
    assert jobs[i].base + |jobs[i].batch| <= jobs[n].base;
  }

  lemma IncreasingAppend(front: seq<Wire>, last: seq<Wire>)
    requires Increasing(front) && Increasing(last)
    requires forall k, l | 0 <= k < |front| && 0 <= l < |last| && front[k].session == last[l].session ::
               front[k].counter < last[l].counter
    ensures Increasing(front + last)
  {}

  lemma {:induction false} JobsIncrease(jobs: seq<Job>, n: nat)
    requires n <= |jobs| && RangesOk(jobs)
    ensures Increasing(AllWires(jobs, n))
  {
    if n > 0 {
      JobsIncrease(jobs, n - 1);
      var front, last := AllWires(jobs, n - 1), WiresOf(jobs[n - 1]);
      forall k, l | 0 <= k < |front| && 0 <= l < |last| && front[k].session == last[l].session
        ensures front[k].counter < last[l].counter
      {
        LaterJobIsHigher(jobs, n - 1, k, l);
      }
      IncreasingAppend(front, last);
    }
  }

  /** On the wire every session's counters strictly increase. */
  lemma CountersIncreaseOnWire(rekeyAt: u64, run: seq<State>, steps: seq<Step>)
    requires IsRun(rekeyAt, run, steps)
    ensures Increasing(run[|steps|].sender.output)
  {
    RunKeepsInv(rekeyAt, run, steps);
    var s := run[|steps|];
    JobsIncrease(s.jobs, s.sender.flushed);
  }

  // ── What is on the wire, packet by packet ──

  /** The packets of the sealed batches among the first n jobs, in order. */
  function SealedPackets(jobs: seq<Job>, n: nat): seq<bytes>
    requires n <= |jobs|
  {
    if n == 0 then []
    else SealedPackets(jobs, n - 1) + if jobs[n - 1].status == Sealed then jobs[n - 1].batch else []
  }

  function PayloadsOf(wires: seq<Wire>): seq<bytes> {
    seq(|wires|, i requires 0 <= i < |wires| => wires[i].payload)
  }

  /** The wires of the first n jobs: packet j of a sealed job i, under its session and its
      j-th counter, after all packets of the sealed jobs before; and nothing else. */
  predicate CarriesJobs(wires: seq<Wire>, jobs: seq<Job>, n: nat)
    requires n <= |jobs|
  {
    && PayloadsOf(wires) == SealedPackets(jobs, n)
    && forall i, j | 0 <= i < n && jobs[i].status == Sealed && 0 <= j < |jobs[i].batch| :: PacketOnWire(wires, jobs, i, j)
  }

  predicate PacketOnWire(wires: seq<Wire>, jobs: seq<Job>, i: nat, j: nat)
    requires i < |jobs| && j < |jobs[i].batch|
  {
    var at := |SealedPackets(jobs, i)| + j;
    at < |wires| && wires[at] == Wire(jobs[i].session, jobs[i].base + j, jobs[i].batch[j])
  }

  lemma CarriesOneMore(wires: seq<Wire>, jobs: seq<Job>, n: nat)
    requires n < |jobs| && CarriesJobs(wires, jobs, n)
    ensures CarriesJobs(wires + WiresOf(jobs[n]), jobs, n + 1)
  {
    var more := wires + WiresOf(jobs[n]);
    PayloadsOneMore(wires, jobs, n);
    assert |wires| == |PayloadsOf(wires)|;
    forall i, j | 0 <= i < n + 1 && jobs[i].status == Sealed && 0 <= j < |jobs[i].batch|
      ensures PacketOnWire(more, jobs, i, j)
    {
      if i < n { assert PacketOnWire(wires, jobs, i, j); }
    }
  }

  lemma PayloadsOneMore(wires: seq<Wire>, jobs: seq<Job>, n: nat)
    requires n < |jobs| && PayloadsOf(wires) == SealedPackets(jobs, n)
    ensures PayloadsOf(wires + WiresOf(jobs[n])) == SealedPackets(jobs, n + 1)
  {
    assert PayloadsOf(wires + WiresOf(jobs[n])) == PayloadsOf(wires) + PayloadsOf(WiresOf(jobs[n]));
    if jobs[n].status == Sealed { assert PayloadsOf(WiresOf(jobs[n])) == jobs[n].batch; }
  }

  lemma {:induction false} AllWiresCarry(jobs: seq<Job>, n: nat)
    requires n <= |jobs|
    ensures CarriesJobs(AllWires(jobs, n), jobs, n)
  {
    if n > 0 {
      AllWiresCarry(jobs, n - 1);
      CarriesOneMore(AllWires(jobs, n - 1), jobs, n - 1);
    }
  }

  /** In every reachable state the wire carries, packet by packet, the sealed batches among
      the first `flushed` submissions, each packet under its own counter. */
  lemma WireCarriesPackets(rekeyAt: u64, run: seq<State>, steps: seq<Step>)
    requires IsRun(rekeyAt, run, steps)
    ensures var s := run[|steps|];
            s.sender.flushed <= |s.jobs| && CarriesJobs(s.sender.output, s.jobs, s.sender.flushed)
    ensures var s := run[|steps|];
            s.sender.phase.Stopped? ==> s.sender.flushed == |s.jobs|
  {
    RunKeepsInv(rekeyAt, run, steps);
    AllWiresCarry(run[|steps|].jobs, run[|steps|].sender.flushed);
  }

  /** A granted submission: its session, its first counter and its packets. */
  datatype Grant = Grant(session: nat, base: nat, batch: seq<bytes>)

  function GrantOf(rekeyAt: u64, s: State, step: Step): seq<Grant>
    requires Enabled(s, step)
  {
    match step
    case Submit(session, batch) =>
      (match Reserve(CounterOf(s.counters, session), |batch|, rekeyAt).1
       case Ok(first) => [Grant(session, first, batch)]
       case Err(_) => [])
    case _ => []
  }

  function Grants(rekeyAt: u64, run: seq<State>, steps: seq<Step>): seq<Grant>
    requires IsRun(rekeyAt, run, steps)
  {
    if steps == [] then []
    else
      var n := |steps| - 1;
      FrontIsRun(rekeyAt, run, steps);
      Grants(rekeyAt, run[..n + 1], steps[..n]) + GrantOf(rekeyAt, run[n], steps[n])
  }

  /** The jobs are the granted submissions, in order, and each has the end it came to. */
  ghost predicate JobsMatch(jobs: seq<Job>, grants: seq<Grant>, steps: seq<Step>) {
    && |jobs| == |grants|
    && (forall i | 0 <= i < |jobs| :: Grant(jobs[i].session, jobs[i].base, jobs[i].batch) == grants[i])
    && (forall i: nat, status | i < |jobs| && status != Running :: jobs[i].status == status <==> Finish(i, status) in steps)
    && (forall i: nat, status | Finish(i, status) in steps :: i < |jobs|)
  }

  lemma FinishMatches(jobs: seq<Job>, grants: seq<Grant>, steps: seq<Step>, job: nat, end: Status)
    requires JobsMatch(jobs, grants, steps) && job < |jobs| && jobs[job].status == Running && end != Running
    ensures JobsMatch(jobs[job := jobs[job].(status := end)], grants, steps + [Finish(job, end)])
  {
    forall status | status != Running ensures Finish(job, status) !in steps {
      assert jobs[job].status != status;
    }
  }

  lemma OtherMatches(jobs: seq<Job>, grants: seq<Grant>, steps: seq<Step>, step: Step)
    requires JobsMatch(jobs, grants, steps) && !step.Finish?
    ensures JobsMatch(jobs, grants, steps + [step])
  {}

  lemma GrantMatches(jobs: seq<Job>, grants: seq<Grant>, steps: seq<Step>, g: Grant, step: Step)
    requires JobsMatch(jobs, grants, steps) && !step.Finish?
    ensures JobsMatch(jobs + [Job(g.session, g.base, g.batch, Running)], grants + [g], steps + [step])
  {
    forall status ensures Finish(|jobs|, status) !in steps {}
  }

  lemma StepMatches(rekeyAt: u64, s: State, step: Step, grants: seq<Grant>, steps: seq<Step>)
    requires Enabled(s, step) && JobsMatch(s.jobs, grants, steps)
    ensures JobsMatch(Apply(rekeyAt, s, step).jobs, grants + GrantOf(rekeyAt, s, step), steps + [step])
  {
    var g := GrantOf(rekeyAt, s, step);
    assert grants + [] == grants;
    match step
    case Finish(job, status) => FinishMatches(s.jobs, grants, steps, job, status);
    case Submit(_, _) => if g == [] { OtherMatches(s.jobs, grants, steps, step); } else { GrantMatches(s.jobs, grants, steps, g[0], step); }
    case _ => OtherMatches(s.jobs, grants, steps, step);
  }

  lemma FrontIsRun(rekeyAt: u64, run: seq<State>, steps: seq<Step>)
    requires IsRun(rekeyAt, run, steps) && steps != []
    ensures var n := |steps| - 1;
            && IsRun(rekeyAt, run[..n + 1], steps[..n]) && run[..n + 1][n] == run[n]
            && Enabled(run[n], steps[n]) && run[n + 1] == Apply(rekeyAt, run[n], steps[n])
            && steps == steps[..n] + [steps[n]]
  {}

  /** Nothing but the granted submissions is ever a job: none lost, none made up, each with
      the packets and the first counter it was submitted with. */
  lemma {:induction false} JobsAreSubmissions(rekeyAt: u64, run: seq<State>, steps: seq<Step>)
    requires IsRun(rekeyAt, run, steps)
    ensures JobsMatch(run[|steps|].jobs, Grants(rekeyAt, run, steps), steps)
  {
    if steps == [] {
      assert run[0] == INITIAL;
    } else {
      var n := |steps| - 1;
      FrontIsRun(rekeyAt, run, steps);
      JobsAreSubmissions(rekeyAt, run[..n + 1], steps[..n]);
      StepMatches(rekeyAt, run[n], steps[n], Grants(rekeyAt, run[..n + 1], steps[..n]), steps[..n]);
    }
  }

  // ── Complete at the end ──

  function Rank(phase: Phase): nat {
    match phase
    case Draining(_) => 3
    case Receiving => 2
    case Awaiting(_) => 1
    case Stopped => 0
  }

  lemma MoveMakesProgress(s: State)
    requires Inv(s) && Enabled(s, Advance)
    ensures s.sender.resolved <= |s.jobs|
    ensures var t := Moved(s);
            && Inv(t) && t.jobs == s.jobs && t.closed == s.closed
            && t.sender.resolved <= |t.jobs|
            && (t.sender.resolved > s.sender.resolved
                || (t.sender.resolved == s.sender.resolved && Rank(t.sender.phase) < Rank(s.sender.phase)))
  {
    AdvanceKeepsInv(s);
  }

  /** The sender left alone, until it cannot move. */
  ghost function Rest(s: State): State
    requires Inv(s)
    decreases |s.jobs| - s.sender.resolved, Rank(s.sender.phase)
  {
    if !Enabled(s, Advance) then s
    else
      MoveMakesProgress(s);
      Rest(Moved(s))
  }

  /** Once the channel is closed and every job has finished, in whatever way, the sender
      runs to its end and everything sealed is on the wire. */
  lemma {:induction false} SenderCompletes(s: State)
    requires Inv(s) && s.closed && AllDone(s.jobs, |s.jobs|)
    ensures Rest(s).sender.phase.Stopped? && Rest(s).jobs == s.jobs
    ensures Rest(s).sender.output == AllWires(s.jobs, |s.jobs|) && CarriesJobs(Rest(s).sender.output, s.jobs, |s.jobs|)
    decreases |s.jobs| - s.sender.resolved, Rank(s.sender.phase)
  {
    AllWiresCarry(s.jobs, |s.jobs|);
    if !s.sender.phase.Stopped? {
      if s.sender.phase.Awaiting? {
        RangeStep(s.sender.phase.job, s.channel, s.sender.resolved, |s.jobs|);
      }
      MoveMakesProgress(s);
      SenderCompletes(Moved(s));
    }
  }

  /** Completeness needs the end: a sender that has stopped has resolved every job. */
  lemma StoppedIsComplete(rekeyAt: u64, run: seq<State>, steps: seq<Step>)
    requires IsRun(rekeyAt, run, steps) && run[|steps|].sender.phase.Stopped?
    ensures var s := run[|steps|];
            AllDone(s.jobs, |s.jobs|) && s.sender.output == AllWires(s.jobs, |s.jobs|)
  {
    RunKeepsInv(rekeyAt, run, steps);
  }

  lemma {:induction false} ClosedIff(rekeyAt: u64, run: seq<State>, steps: seq<Step>)
    requires IsRun(rekeyAt, run, steps)
    ensures run[|steps|].closed <==> Close in steps
  {
    if steps != [] {
      var n := |steps| - 1;
      FrontIsRun(rekeyAt, run, steps);
      ClosedIff(rekeyAt, run[..n + 1], steps[..n]);
    }
  }

  /** A run in which the channel is closed and every granted submission finishes ends, the
      sender left alone, with the packets of exactly the sealed ones on the wire. */
  lemma ClosedRunCompletes(rekeyAt: u64, run: seq<State>, steps: seq<Step>)
    requires IsRun(rekeyAt, run, steps) && Close in steps
    requires AllDone(run[|steps|].jobs, |run[|steps|].jobs|)
    ensures Inv(run[|steps|])
    ensures var s, rest := run[|steps|], Rest(run[|steps|]);
            && rest.sender.phase.Stopped? && CarriesJobs(rest.sender.output, s.jobs, |s.jobs|)
            && JobsMatch(s.jobs, Grants(rekeyAt, run, steps), steps)
  {
    RunKeepsInv(rekeyAt, run, steps);
    ClosedIff(rekeyAt, run, steps);
    JobsAreSubmissions(rekeyAt, run, steps);
    SenderCompletes(run[|steps|]);
  }

  // ── Why the order matters ──

  predicate Picked(wires: seq<Wire>, session: nat, picks: seq<nat>) {
    && (forall i | 0 <= i < |picks| :: picks[i] < |wires| && wires[picks[i]].session == session)
    && (forall i, j | 0 <= i < j < |picks| :: picks[i] < picks[j])
  }

  predicate InRange(wires: seq<Wire>) {
    forall k | 0 <= k < |wires| :: wires[k].counter < TWO64
  }

  function CountersAt(wires: seq<Wire>, session: nat, picks: seq<nat>): seq<u64>
    requires Picked(wires, session, picks) && InRange(wires)
  {
    seq(|picks|, i requires 0 <= i < |picks| => wires[picks[i]].counter)
  }

  lemma RisingIsAccepted(history: seq<u64>, n: nat)
    requires n < |history| && forall i, j | 0 <= i < j < |history| :: history[i] < history[j]
    ensures After(history[..n]).Accepts(history[n])
  {
    AcceptsIff(history[..n], history[n]);
  }

  lemma OutputInRange(s: State)
    requires Inv(s)
    ensures InRange(s.sender.output)
  {
    forall k | 0 <= k < |s.sender.output| ensures s.sender.output[k].counter < TWO64 {
      var i := WireComesFrom(s.jobs, s.sender.flushed, k);
      assert s.jobs[i].base + |s.jobs[i].batch| <= CounterOf(s.counters, s.jobs[i].session);
    }
  }

  /** However far the seals ran ahead of each other, and whatever is lost on the way, a
      peer that gets a session's packets in wire order has none refused by its window. */
  lemma WireOrderIsNeverRefused(rekeyAt: u64, run: seq<State>, steps: seq<Step>, session: nat, picks: seq<nat>, n: nat)
    requires IsRun(rekeyAt, run, steps)
    requires Picked(run[|steps|].sender.output, session, picks) && n < |picks|
    ensures InRange(run[|steps|].sender.output)
    ensures var history := CountersAt(run[|steps|].sender.output, session, picks);
            After(history[..n]).Accepts(history[n])
  {
    RunKeepsInv(rekeyAt, run, steps);
    OutputInRange(run[|steps|]);
    CountersIncreaseOnWire(rekeyAt, run, steps);
    RisingIsAccepted(CountersAt(run[|steps|].sender.output, session, picks), n);
  }
}
