/**
 The workers of miner::MinerEngine around the job queue: a step system in which a
 network thread publishes jobs and difficulties, workers fetch and hash in batches
 of 2048, and stop() lets the batches in progress end.

 `history`, `difficulties` and `log` record the run; no step reads them.
 */
module Workers {
  import opened Powers
  import opened Wrappers
  import opened Shares
  import opened Stratum
  import opened Hex
  import opened Nonces
  import opened ClassicWork
  import opened Blob
  import opened Divisibility
  import opened ShareTest
  import opened ByteNumbers
  import opened JobQueue

  const STANDBY := "synthetic-standby"

  /** What is handed to the hash algorithm. */
  datatype Attempt = HeaderAttempt(header: string, nonce: nat) | BlobAttempt(raw: seq<nat>)

  type Digest = d: seq<bv8> | |d| == 32 witness seq(32, i => 0)

  /** The number of workers, the capacity of their vector, and the hash algorithm. */
  datatype Setup = Setup(workers: nat, step: nat, digest: Attempt -> Digest)

  predicate Proper(u: Setup) {
    u.workers < MODULUS && 0 < u.step < MODULUS
  }

  datatype Pc =
    | Looking                                                        // about to test running_
    | Fetching                                                       // about to copy the current job
    | Aiming(at: int, job: MiningJob)                                // about to load the difficulty
    | Hashing(at: int, job: MiningJob, aim: nat, threshold: nat, made: nat)  // in a batch
    | Exited

  datatype Worker = Worker(pc: Pc, nonce: nat, turns: nat)

  /**
   One hash: who, on which published job, against which of the difficulties set, and its
   place in the worker's walk.
   */
  datatype Tried = Tried(worker: nat, at: int, job: MiningJob, aim: nat, threshold: nat, made: nat, nonce: nat,
                         turn: nat)

  datatype Engine = Engine(
    slot: Slot, difficulty: real, running: bool, hashesTotal: nat, shares: seq<Share>, workers: seq<Worker>,
    history: seq<MiningJob>, difficulties: seq<real>, log: seq<Tried>)

  datatype Step =
    | Publish(job: MiningJob)
    | Retarget(difficulty: real)
    | Stop
    | Look(w: nat)
    | Fetch(w: nat)
    | Aim(w: nat)
    | Hash(w: nat)
    | Rest(w: nat)

  function Initial(u: Setup): Engine {
    Engine(AfterPublishing([]), 1.0, true, 0, [],
           seq(u.workers, i requires 0 <= i < u.workers => Worker(Looking, StartNonce(i), 0)), [], [1.0], [])
  }

  // --------------------------------------------------------------- one hash

  /** Jobs no worker trips over: a usable width, and a blob that is hexadecimal and not 4 to 7 long. */
  predicate Minable(job: MiningJob) {
    0 <= job.extranonce2Size < 0x4000_0000 && (|job.blob| >= 4 ==> |job.blob| >= 8 && AllHex(job.blob))
  }

  /** A blob of one to three characters is skipped. */
  predicate Hashable(job: MiningJob) {
    Minable(job) && (job.blob != "" ==> |job.blob| >= 8)
  }

  function TemplateOf(job: MiningJob): Template
    requires Minable(job)
  {
    JobTemplate(job.prevHash, job.coinbase1, job.extranonce1, job.coinbase2, job.version, job.bits, job.time,
                job.extranonce2Size)
  }

  predicate Placed(x: Tried) {
    Hashable(x.job) && x.nonce < MODULUS
  }

  function BlobNonce(u: Setup, x: Tried): nat {
    NonceAt(x.nonce, u.step, x.made)
  }

  function AttemptOf(u: Setup, x: Tried): Attempt
    requires Placed(x)
  {
    if x.job.blob != "" then
      PatchIsLocal(x.job.blob, BlobNonce(u, x));
      BlobAttempt(RawBytes(Patched(x.job.blob, BlobNonce(u, x))))
    else HeaderAttempt(Header(TemplateOf(x.job), x.worker), x.nonce)
  }

  function ShareOf(u: Setup, x: Tried): Share
    requires Placed(x)
  {
    if x.job.blob != "" then BlobShare(x.job.jobId, Patched(x.job.blob, BlobNonce(u, x)))
    else ClassicShare(x.job.jobId, Extranonce2(TemplateOf(x.job), x.worker), x.job.time, ToHex(x.nonce, 8))
  }

  function Leading(u: Setup, a: Attempt): nat {
    BigEndianValue(u.digest(a)[..8])
  }

  predicate Wins(u: Setup, x: Tried)
    requires Placed(x)
  {
    Leading(u, AttemptOf(u, x)) < x.threshold && x.job.jobId != STANDBY
  }

  // ------------------------------------------------------------------- steps

  predicate Enabled(u: Setup, e: Engine, step: Step) {
    match step
    case Publish(job) => Minable(job)
    case Retarget(_) => true
    case Stop => e.running
    case Look(w) => w < |e.workers| && e.workers[w].pc.Looking?
    case Fetch(w) => w < |e.workers| && e.workers[w].pc.Fetching?
    case Aim(w) => w < |e.workers| && e.workers[w].pc.Aiming?
    case Hash(w) => w < |e.workers| && e.workers[w].pc.Hashing? && e.workers[w].pc.made < BATCH
                    && Placed(Trying(e, w))
    case Rest(w) => w < |e.workers| && e.workers[w].pc.Hashing? && e.workers[w].pc.made == BATCH
  }

  function Trying(e: Engine, w: nat): Tried
    requires w < |e.workers| && e.workers[w].pc.Hashing?
  {
    var me := e.workers[w];
    Tried(w, me.pc.at, me.pc.job, me.pc.aim, me.pc.threshold, me.pc.made, me.nonce, me.turns)
  }

  function Put(e: Engine, w: nat, me: Worker): Engine
    requires w < |e.workers|
  {
    e.(workers := e.workers[w := me])
  }

  function Go(e: Engine, w: nat, pc: Pc): Engine
    requires w < |e.workers|
  {
    Put(e, w, e.workers[w].(pc := pc))
  }

  /** Only the header branch advances the nonce. */
  function Advanced(u: Setup, me: Worker): Worker
    requires me.pc.Hashing?
  {
    var next := me.(pc := me.pc.(made := me.pc.made + 1));
    if me.pc.job.blob != "" then next
    else next.(nonce := (me.nonce + u.step) % MODULUS, turns := me.turns + 1)
  }

  /** The place of the difficulty in force among all that were set. */
  function NewestAim(e: Engine): nat {
    if e.difficulties == [] then 0 else |e.difficulties| - 1
  }

  function Next(u: Setup, e: Engine, step: Step): Engine
    requires Enabled(u, e, step)
  {
    match step
    case Publish(job) => e.(slot := e.slot.Publish(job), history := e.history + [job])
    case Retarget(d) => e.(difficulty := d, difficulties := e.difficulties + [d])
    case Stop => e.(running := false)
    case Look(w) => Go(e, w, if e.running then Fetching else Exited)
    case Fetch(w) =>
      (match e.slot.current
       case None => Go(e, w, Looking)
       case Some(job) => Go(e, w, Aiming(e.slot.version - 1, job)))
    case Aim(w) =>
      var pc := e.workers[w].pc;
      if 0 < |pc.job.blob| < 4 then Go(e, w, Looking)
      else Go(e, w, Hashing(pc.at, pc.job, NewestAim(e), Threshold(e.difficulty), 0))
    case Hash(w) =>
      var x := Trying(e, w);
      Put(e, w, Advanced(u, e.workers[w])).(
        hashesTotal := e.hashesTotal + 1,
        shares := e.shares + (if Wins(u, x) then [ShareOf(u, x)] else []),
        log := e.log + [x])
    case Rest(w) => Go(e, w, if e.running then Looking else Exited)
  }

  // -------------------------------------------------------------- invariants

  /** The threshold is that of the difficulty at this place. */
  predicate Aimed(e: Engine, aim: nat, threshold: nat) {
    aim < |e.difficulties| && threshold == Threshold(e.difficulties[aim])
  }

  predicate Names(e: Engine, at: int, job: MiningJob) {
    0 <= at < |e.history| && e.history[at] == job && Minable(job)
  }

  ghost predicate QueueHolds(e: Engine) {
    && e.slot == AfterPublishing(e.history)
    && (forall k :: 0 <= k < |e.history| ==> Minable(e.history[k]))
    && |e.difficulties| > 0 && e.difficulty == e.difficulties[|e.difficulties| - 1]
  }

  ghost predicate WorkerHolds(u: Setup, e: Engine, w: nat, me: Worker) {
    && me.nonce == NonceAt(StartNonce(w), u.step, me.turns)
    && (me.pc.Aiming? ==> Names(e, me.pc.at, me.pc.job))
    && (me.pc.Hashing? ==>
          Names(e, me.pc.at, me.pc.job) && Hashable(me.pc.job) && me.pc.made <= BATCH
          && Aimed(e, me.pc.aim, me.pc.threshold))
    && (me.pc.Exited? ==> !e.running)
  }

  ghost predicate WorkersHold(u: Setup, e: Engine) {
    |e.workers| == u.workers && forall i :: 0 <= i < u.workers ==> WorkerHolds(u, e, i, e.workers[i])
  }

  /** What every hash of the run was spent on. */
  ghost predicate TriedHolds(u: Setup, e: Engine, x: Tried) {
    && x.worker < u.workers && Names(e, x.at, x.job) && Hashable(x.job) && Aimed(e, x.aim, x.threshold)
    && x.nonce == NonceAt(StartNonce(x.worker), u.step, x.turn)
  }

  ghost predicate LogHolds(u: Setup, e: Engine) {
    e.hashesTotal == |e.log| && forall k :: 0 <= k < |e.log| ==> TriedHolds(u, e, e.log[k])
  }

  predicate Classic(job: MiningJob) {
    job.blob == ""
  }

  /** Hashes of one worker on headers use up its walk, and its jobs and difficulties only get newer. */
  predicate Precedes(x: Tried, y: Tried) {
    x.worker == y.worker ==>
      x.at <= y.at && x.aim <= y.aim && x.turn <= y.turn && (Classic(x.job) ==> x.turn < y.turn)
  }

  predicate Behind(x: Tried, me: Worker) {
    && x.turn <= me.turns && (Classic(x.job) ==> x.turn < me.turns)
    && (me.pc.Aiming? || me.pc.Hashing? ==> x.at <= me.pc.at)
    && (me.pc.Hashing? ==> x.aim <= me.pc.aim)
  }

  ghost predicate OrderHolds(e: Engine) {
    && (forall j, k :: 0 <= j < k < |e.log| ==> Precedes(e.log[j], e.log[k]))
    && (forall k :: 0 <= k < |e.log| && e.log[k].worker < |e.workers| ==> Behind(e.log[k], e.workers[e.log[k].worker]))
  }

  /** Hashes a worker has made, counted from the log. */
  function Made(log: seq<Tried>, w: nat): nat {
    if log == [] then 0
    else Made(log[..|log| - 1], w) + if log[|log| - 1].worker == w then 1 else 0
  }

  predicate InBatch(pc: Pc, count: nat) {
    (count - if pc.Hashing? then pc.made else 0) % BATCH == 0
  }

  ghost predicate BatchesHold(e: Engine) {
    forall i :: 0 <= i < |e.workers| ==> InBatch(e.workers[i].pc, Made(e.log, i))
  }

  predicate AllPlaced(log: seq<Tried>) {
    forall k :: 0 <= k < |log| ==> Placed(log[k])
  }

  /** The shares the winning hashes of a log deserve, in order. */
  function Deserved(u: Setup, log: seq<Tried>): seq<Share>
    requires AllPlaced(log)
  {
    if log == [] then []
    else
      Deserved(u, log[..|log| - 1]) + Earned(u, log[|log| - 1])
  }

  ghost predicate SharesHold(u: Setup, e: Engine) {
    AllPlaced(e.log) && e.shares == Deserved(u, e.log)
  }

  ghost predicate Inv(u: Setup, e: Engine) {
    QueueHolds(e) && WorkersHold(u, e) && LogHolds(u, e) && OrderHolds(e) && BatchesHold(e) && SharesHold(u, e)
  }

  // ---------------------------------------------------- every step keeps them

  lemma QueueKept(u: Setup, e: Engine, step: Step)
    requires QueueHolds(e) && Enabled(u, e, step)
    ensures QueueHolds(Next(u, e, step))
  {
    if step.Publish? {
      assert (e.history + [step.job])[..|e.history|] == e.history;
    }
  }

  lemma AdvancedHolds(u: Setup, e: Engine, w: nat, me: Worker)
    requires WorkerHolds(u, e, w, me) && me.pc.Hashing? && me.pc.made < BATCH
    ensures WorkerHolds(u, e, w, Advanced(u, me))
  {
    AdvanceOnce(StartNonce(w), u.step, me.turns);
    hide NonceAt, StartNonce, Minable, Threshold;
  }

  /** History and difficulties only grow. */
  predicate Extends(e: Engine, n: Engine) {
    e.history <= n.history && e.difficulties <= n.difficulties && (n.running ==> e.running)
  }

  lemma StepExtends(u: Setup, e: Engine, step: Step)
    requires Enabled(u, e, step)
    ensures Extends(e, Next(u, e, step))
  {
  }

  lemma StillAimed(e: Engine, n: Engine, aim: nat, threshold: nat)
    requires Extends(e, n) && Aimed(e, aim, threshold)
    ensures Aimed(n, aim, threshold)
  {
    assert n.difficulties[aim] == e.difficulties[aim];
  }

  lemma StillHolds(u: Setup, e: Engine, n: Engine, w: nat, me: Worker)
    requires Extends(e, n) && WorkerHolds(u, e, w, me)
    ensures WorkerHolds(u, n, w, me)
  {
    hide Aimed, NonceAt, StartNonce, Minable;
    if me.pc.Hashing? {
      StillAimed(e, n, me.pc.aim, me.pc.threshold);
    }
  }

  /** The worker a step moves, as the step leaves it. */
  lemma MoverHolds(u: Setup, e: Engine, step: Step, w: nat)
    requires QueueHolds(e) && WorkersHold(u, e) && Enabled(u, e, step) && w < u.workers
    requires Next(u, e, step).workers[w] != e.workers[w]
    ensures WorkerHolds(u, Next(u, e, step), w, Next(u, e, step).workers[w])
  {
    var n := Next(u, e, step);
    assert WorkerHolds(u, e, w, e.workers[w]);
    SlotIsLatest(e.history);
    match step
    case Hash(_) =>
      AdvancedHolds(u, e, w, e.workers[w]);
      StepExtends(u, e, step);
      StillHolds(u, e, n, w, n.workers[w]);
    case Aim(_) =>
      assert Aimed(e, NewestAim(e), Threshold(e.difficulty));
    case _ =>
  }

  lemma WorkersKept(u: Setup, e: Engine, step: Step)
    requires QueueHolds(e) && WorkersHold(u, e) && Enabled(u, e, step)
    ensures WorkersHold(u, Next(u, e, step))
  {
    var n := Next(u, e, step);
    assert |n.workers| == |e.workers|;
    StepExtends(u, e, step);
    forall i | 0 <= i < u.workers ensures WorkerHolds(u, n, i, n.workers[i]) {
      hide Next, Enabled, QueueHolds, WorkerHolds, Extends;
      if n.workers[i] != e.workers[i] {
        MoverHolds(u, e, step, i);
      } else {
        StillHolds(u, e, n, i, e.workers[i]);
      }
    }
  }

  lemma LogKept(u: Setup, e: Engine, step: Step)
    requires WorkersHold(u, e) && LogHolds(u, e) && Enabled(u, e, step)
    ensures LogHolds(u, Next(u, e, step))
  {
    var n := Next(u, e, step);
    StepExtends(u, e, step);
    assert n.log == e.log || (step.Hash? && n.log == e.log + [Trying(e, step.w)]);
    assert n.hashesTotal - e.hashesTotal == |n.log| - |e.log|;
    if step.Hash? {
      assert WorkerHolds(u, e, step.w, e.workers[step.w]);
      assert TriedHolds(u, e, Trying(e, step.w));
    }
    hide Next, Enabled, TriedHolds, Trying, Extends, WorkersHold;
    forall k | 0 <= k < |n.log| ensures TriedHolds(u, n, n.log[k]) {
      assert TriedHolds(u, e, n.log[k]);
      StillTried(u, e, n, n.log[k]);
    }
  }

  lemma StillTried(u: Setup, e: Engine, n: Engine, x: Tried)
    requires Extends(e, n) && TriedHolds(u, e, x)
    ensures TriedHolds(u, n, x)
  {
    hide Aimed, NonceAt, StartNonce, Minable;
    StillAimed(e, n, x.aim, x.threshold);
  }

  /** A worker never falls behind what it hashed before. */
  lemma BehindKept(u: Setup, e: Engine, step: Step, x: Tried)
    requires QueueHolds(e) && Enabled(u, e, step) && x.worker < |e.workers|
    requires 0 <= x.at < |e.history| && x.aim < |e.difficulties| && Behind(x, e.workers[x.worker])
    ensures Behind(x, Next(u, e, step).workers[x.worker])
  {
    SlotIsLatest(e.history);
    hide NonceAt, StartNonce, Minable, Threshold, Wins, ShareOf;
  }

  lemma OrderKept(u: Setup, e: Engine, step: Step)
    requires QueueHolds(e) && WorkersHold(u, e) && LogHolds(u, e) && OrderHolds(e) && Enabled(u, e, step)
    ensures OrderHolds(Next(u, e, step))
  {
    var n := Next(u, e, step);
    assert |n.workers| == |e.workers|;
    assert n.log == e.log || (step.Hash? && n.log == e.log + [Trying(e, step.w)]);
    forall k | 0 <= k < |n.log| ensures Behind(n.log[k], n.workers[n.log[k].worker]) && n.log[k].worker < |n.workers| {
      hide Next;
      if k < |e.log| {
        assert n.log[k] == e.log[k] && TriedHolds(u, e, e.log[k]);
        hide Enabled, Behind;
        BehindKept(u, e, step, e.log[k]);
      } else {
        TriedIsBehind(u, e, step.w);
      }
    }
    hide Next, Enabled, QueueHolds, WorkersHold, Behind, Precedes;
    forall j, k | 0 <= j < k < |n.log| ensures Precedes(n.log[j], n.log[k]) {
      assert n.log[j] == e.log[j];
      if k == |e.log| {
        assert TriedHolds(u, e, e.log[j]);
        BehindPrecedes(e.log[j], e, step.w);
      } else {
        assert n.log[k] == e.log[k];
      }
    }
  }

  lemma TriedIsBehind(u: Setup, e: Engine, w: nat)
    requires Enabled(u, e, Hash(w))
    ensures Behind(Trying(e, w), Next(u, e, Hash(w)).workers[w])
  {
    hide NonceAt, Minable, Threshold, Wins, ShareOf;
  }

  lemma BehindPrecedes(x: Tried, e: Engine, w: nat)
    requires w < |e.workers| && e.workers[w].pc.Hashing? && x.worker < |e.workers|
    requires Behind(x, e.workers[x.worker])
    ensures Precedes(x, Trying(e, w))
  {
  }

  /** A hash adds its own attempt to the log; the other steps leave it alone. */
  lemma StepLogs(u: Setup, e: Engine, step: Step)
    requires Enabled(u, e, step)
    ensures var n := Next(u, e, step);
            if step.Hash? then n.log == e.log + [Trying(e, step.w)] && n.log[..|e.log|] == e.log
                               && n.shares == e.shares + Earned(u, Trying(e, step.w))
            else n.log == e.log && n.shares == e.shares
  {
  }

  function Earned(u: Setup, x: Tried): seq<Share>
    requires Placed(x)
  {
    if Wins(u, x) then [ShareOf(u, x)] else []
  }

  lemma BatchesKept(u: Setup, e: Engine, step: Step)
    requires BatchesHold(e) && Enabled(u, e, step)
    ensures BatchesHold(Next(u, e, step))
  {
    var n := Next(u, e, step);
    assert |n.workers| == |e.workers|;
    StepLogs(u, e, step);
    hide Enabled, Next, Made, InBatch;
    forall i | 0 <= i < |n.workers| ensures InBatch(n.workers[i].pc, Made(n.log, i)) {
      assert InBatch(e.workers[i].pc, Made(e.log, i));
      MoveCounts(u, e, step, i);
      MadeMore(e.log, step, n.log, i);
      StillInBatch(e.workers[i].pc, n.workers[i].pc, Made(e.log, i), step == Hash(i));
    }
  }

  /** How one step may change a worker's place in its batch. */
  predicate Moves(was: Pc, now: Pc, hashed: bool) {
    if hashed then was.Hashing? && now.Hashing? && now.made == was.made + 1
    else now == was || ((was.Hashing? ==> was.made == BATCH) && (now.Hashing? ==> now.made == 0))
  }

  lemma StillInBatch(was: Pc, now: Pc, count: nat, hashed: bool)
    requires InBatch(was, count) && Moves(was, now, hashed)
    ensures InBatch(now, count + if hashed then 1 else 0)
  {
  }

  lemma MadeMore(log: seq<Tried>, step: Step, after: seq<Tried>, i: nat)
    requires if step.Hash? then after != [] && after[..|after| - 1] == log && after[|after| - 1].worker == step.w
             else after == log
    ensures Made(after, i) == Made(log, i) + if step == Hash(i) then 1 else 0
  {
  }

  /** A hash is one more of the batch, and only a full batch ends. */
  lemma MoveCounts(u: Setup, e: Engine, step: Step, i: nat)
    requires Enabled(u, e, step) && i < |e.workers|
    ensures Moves(e.workers[i].pc, Next(u, e, step).workers[i].pc, step == Hash(i))
  {
    hide NonceAt, Minable, Threshold, Wins, ShareOf, Placed;
  }

  lemma SharesKept(u: Setup, e: Engine, step: Step)
    requires SharesHold(u, e) && Enabled(u, e, step)
    ensures SharesHold(u, Next(u, e, step))
  {
    StepLogs(u, e, step);
    assert step.Hash? ==> Placed(Trying(e, step.w));
    hide Next, Enabled, Wins, ShareOf, Placed;
    if step.Hash? {
      DeservedMore(u, e.log, Trying(e, step.w));
    }
  }

  lemma DeservedMore(u: Setup, log: seq<Tried>, x: Tried)
    requires AllPlaced(log) && Placed(x)
    ensures AllPlaced(log + [x]) && Deserved(u, log + [x]) == Deserved(u, log) + Earned(u, x)
  {
    assert (log + [x])[..|log|] == log;
  }

  // ------------------------------------------------------------------ all runs

  function After(u: Setup, steps: seq<Step>): Option<Engine>
    decreases steps
  {
    if steps == [] then Some(Initial(u))
    else
      var last := steps[|steps| - 1];
      match After(u, steps[..|steps| - 1])
      case None => None
      case Some(p) => if Enabled(u, p, last) then Some(Next(u, p, last)) else None
  }

  lemma InitialHolds(u: Setup)
    requires Proper(u)
    ensures Inv(u, Initial(u))
  {
  }

  lemma StepKeeps(u: Setup, e: Engine, step: Step)
    requires Inv(u, e) && Enabled(u, e, step)
    ensures Inv(u, Next(u, e, step))
  {
    hide Enabled, Next, QueueHolds, WorkersHold, LogHolds, OrderHolds, BatchesHold, SharesHold;
    QueueKept(u, e, step);
    WorkersKept(u, e, step);
    LogKept(u, e, step);
    OrderKept(u, e, step);
    BatchesKept(u, e, step);
    SharesKept(u, e, step);
  }

  lemma {:induction false} ReachableHolds(u: Setup, steps: seq<Step>, e: Engine)
    requires Proper(u) && After(u, steps) == Some(e)
    ensures Inv(u, e)
    decreases steps
  {
    hide Inv, Enabled, Next, Initial;
    if steps == [] {
      InitialHolds(u);
    } else {
      var init := steps[..|steps| - 1];
      var p := After(u, init).value;
      ReachableHolds(u, init, p);
      StepKeeps(u, p, steps[|steps| - 1]);
    }
  }

  /** The jobs a schedule publishes, in order. */
  function JobsOf(steps: seq<Step>): seq<MiningJob> {
    if steps == [] then []
    else
      var last := steps[|steps| - 1];
      JobsOf(steps[..|steps| - 1]) + if last.Publish? then [last.job] else []
  }

  lemma {:induction false} HistoryIsPublished(u: Setup, steps: seq<Step>, e: Engine)
    requires After(u, steps) == Some(e)
    ensures e.history == JobsOf(steps)
    decreases steps
  {
    if steps != [] {
      var init := steps[..|steps| - 1];
      var p := After(u, init).value;
      HistoryIsPublished(u, init, p);
      hide Enabled, After, AttemptOf, ShareOf, Wins, Advanced;
    }
  }

  /** The version is the number of publishes so far, and the newest job is on offer. */
  lemma VersionCountsPublishes(u: Setup, steps: seq<Step>, e: Engine)
    requires Proper(u) && After(u, steps) == Some(e)
    ensures e.slot.version == |JobsOf(steps)|
    ensures e.slot.current == if JobsOf(steps) == [] then None else Some(JobsOf(steps)[|JobsOf(steps)| - 1])
  {
    ReachableHolds(u, steps, e);
    HistoryIsPublished(u, steps, e);
    SlotIsLatest(e.history);
  }

  /** A worker that has not left its loop can always take its next step. */
  lemma WorkersNeverStick(u: Setup, steps: seq<Step>, e: Engine, w: nat)
    requires Proper(u) && After(u, steps) == Some(e) && w < u.workers
    ensures |e.workers| == u.workers
    ensures !e.workers[w].pc.Exited? <==>
              Enabled(u, e, Look(w)) || Enabled(u, e, Fetch(w)) || Enabled(u, e, Aim(w))
              || Enabled(u, e, Hash(w)) || Enabled(u, e, Rest(w))
  {
    hide After, Minable, Threshold, QueueHolds, LogHolds, OrderHolds, BatchesHold, SharesHold;
    ReachableHolds(u, steps, e);
    assert WorkerHolds(u, e, w, e.workers[w]);
    hide Aimed, Names;
  }

  // --------------------------------------------------- staleness and stopping

  /** Hashes of a worker, after the first `from` of the log, on jobs below `bound`. */
  function HashesOn(log: seq<Tried>, from: nat, w: nat, bound: int): nat {
    if |log| <= from then 0
    else
      var x := log[|log| - 1];
      HashesOn(log[..|log| - 1], from, w, bound) + if x.worker == w && x.at < bound then 1 else 0
  }

  /** How many more hashes a worker can make on jobs below the bound. */
  function Left(pc: Pc, bound: int): nat {
    match pc
    case Aiming(at, _) => if at < bound then BATCH else 0
    case Hashing(at, _, _, _, made) => if at < bound && made <= BATCH then BATCH - made else 0
    case _ => 0
  }

  lemma StepSpends(u: Setup, e: Engine, step: Step, from: nat, w: nat, bound: int)
    requires QueueHolds(e) && Enabled(u, e, step) && w < |e.workers|
    requires bound < |e.history| && from <= |e.log|
    ensures var n := Next(u, e, step);
            && |n.workers| == |e.workers| && |n.log| >= |e.log| && |n.history| >= |e.history|
            && HashesOn(n.log, from, w, bound) + Left(n.workers[w].pc, bound)
               <= HashesOn(e.log, from, w, bound) + Left(e.workers[w].pc, bound)
  {
    StepLogs(u, e, step);
    SlotIsLatest(e.history);
    hide NonceAt, Minable, Threshold, Wins, ShareOf, Placed, AttemptOf;
  }

  /** From any moment on, a worker hashes at most what it has left on jobs older than the newest. */
  lemma {:induction false} RunSpends(u: Setup, base: seq<Step>, more: seq<Step>, w: nat, p: Engine, e: Engine)
    requires Proper(u) && w < u.workers
    requires After(u, base) == Some(p) && After(u, base + more) == Some(e)
    ensures |p.workers| == |e.workers| == u.workers
    ensures |e.history| >= |p.history| && |e.log| >= |p.log|
    ensures HashesOn(e.log, |p.log|, w, |p.history| - 1) + Left(e.workers[w].pc, |p.history| - 1)
         <= Left(p.workers[w].pc, |p.history| - 1)
  {
    hide Enabled, Next, Inv, After, Proper, QueueHolds, WorkersHold;
    ReachableHolds(u, base, p);
    if more == [] {
      assert base + more == base;
      ReachableSize(u, base, p);
    } else {
      var shorter := more[..|more| - 1];
      var q := LastStep(u, base, more, e);
      RunSpends(u, base, shorter, w, p, q);
      ReachableSize(u, base + shorter, q);
      StepSpends(u, q, more[|more| - 1], |p.log|, w, |p.history| - 1);
    }
  }

  lemma ReachableSize(u: Setup, steps: seq<Step>, e: Engine)
    requires Proper(u) && After(u, steps) == Some(e)
    ensures |e.workers| == u.workers && QueueHolds(e)
  {
    ReachableHolds(u, steps, e);
  }

  /** The state before the last step of a run. */
  lemma LastStep(u: Setup, base: seq<Step>, more: seq<Step>, e: Engine) returns (q: Engine)
    requires more != [] && After(u, base + more) == Some(e)
    ensures After(u, base + more[..|more| - 1]) == Some(q)
    ensures Enabled(u, q, more[|more| - 1]) && e == Next(u, q, more[|more| - 1])
  {
    hide Enabled, Next;
    var steps := base + more;
    assert steps[..|steps| - 1] == base + more[..|more| - 1];
    q := After(u, base + more[..|more| - 1]).value;
  }

  lemma BatchBounded(u: Setup, steps: seq<Step>, e: Engine, w: nat)
    requires Proper(u) && After(u, steps) == Some(e) && w < u.workers && |e.workers| == u.workers
    ensures var pc := e.workers[w].pc;
            && (pc.Hashing? ==> pc.made <= BATCH && pc.at < |e.history|)
            && (pc.Aiming? ==> pc.at < |e.history|)
  {
    hide After;
    ReachableHolds(u, steps, e);
    assert WorkerHolds(u, e, w, e.workers[w]);
  }

  /**
   Bounded staleness: once a job is published, a worker makes at most one batch of
   2048 more hashes on jobs older than it, whatever happens next; and what it had
   left of the batch in progress if it was in one.
   */
  lemma StalenessIsBounded(u: Setup, base: seq<Step>, job: MiningJob, more: seq<Step>, w: nat, p: Engine, e: Engine)
    requires Proper(u) && w < u.workers && After(u, base) == Some(p) && Minable(job)
    requires After(u, base + [Publish(job)] + more) == Some(e)
    ensures |p.workers| == u.workers
    ensures HashesOn(e.log, |p.log|, w, |p.history|) <= 2048
    ensures p.workers[w].pc.Hashing? ==> HashesOn(e.log, |p.log|, w, |p.history|) <= 2048 - p.workers[w].pc.made
    ensures p.workers[w].pc.Looking? || p.workers[w].pc.Fetching? || p.workers[w].pc.Exited? ==>
              HashesOn(e.log, |p.log|, w, |p.history|) == 0
  {
    var steps := base + [Publish(job)];
    assert steps[..|steps| - 1] == base;
    var q := Next(u, p, Publish(job));
    assert After(u, steps) == Some(q);
    hide After, Inv, Minable, NonceAt, Threshold, Proper, HashesOn, QueueHolds;
    RunSpends(u, steps, more, w, q, e);
    ReachableSize(u, base, p);
    BatchBounded(u, base, p, w);
  }

  // ------------------------------------------------------ changes of difficulty

  /** The difficulties a schedule sets, in order. */
  function DifficultiesOf(steps: seq<Step>): seq<real> {
    if steps == [] then []
    else
      var last := steps[|steps| - 1];
      DifficultiesOf(steps[..|steps| - 1]) + if last.Retarget? then [last.difficulty] else []
  }

  /** The difficulties of a run are 1.0 and then those that were set. */
  lemma {:induction false} DifficultiesAreSet(u: Setup, steps: seq<Step>, e: Engine)
    requires After(u, steps) == Some(e)
    ensures e.difficulties == [1.0] + DifficultiesOf(steps)
    decreases steps
  {
    if steps != [] {
      var init := steps[..|steps| - 1];
      var p := After(u, init).value;
      DifficultiesAreSet(u, init, p);
      hide Enabled, After, AttemptOf, ShareOf, Wins, Advanced;
    }
  }

  /** Hashes of a worker, after the first `from` of the log, against difficulties placed below `bound`. */
  function HashesAgainst(log: seq<Tried>, from: nat, w: nat, bound: nat): nat {
    if |log| <= from then 0
    else
      var x := log[|log| - 1];
      HashesAgainst(log[..|log| - 1], from, w, bound) + if x.worker == w && x.aim < bound then 1 else 0
  }

  /** Only a batch in progress goes on against an older difficulty. */
  function LeftAgainst(pc: Pc, bound: nat): nat {
    match pc
    case Hashing(_, _, aim, _, made) => if aim < bound && made <= BATCH then BATCH - made else 0
    case _ => 0
  }

  lemma StepAims(u: Setup, e: Engine, step: Step, from: nat, w: nat, bound: nat)
    requires QueueHolds(e) && Enabled(u, e, step) && w < |e.workers|
    requires bound < |e.difficulties| && from <= |e.log|
    ensures var n := Next(u, e, step);
            && |n.workers| == |e.workers| && |n.log| >= |e.log| && |n.difficulties| >= |e.difficulties|
            && HashesAgainst(n.log, from, w, bound) + LeftAgainst(n.workers[w].pc, bound)
               <= HashesAgainst(e.log, from, w, bound) + LeftAgainst(e.workers[w].pc, bound)
  {
    StepLogs(u, e, step);
    hide NonceAt, Minable, Threshold, Wins, ShareOf, Placed, AttemptOf;
  }

  lemma {:induction false} RunAims(u: Setup, base: seq<Step>, more: seq<Step>, w: nat, p: Engine, e: Engine)
    requires Proper(u) && w < u.workers
    requires After(u, base) == Some(p) && After(u, base + more) == Some(e)
    ensures |p.workers| == |e.workers| == u.workers && |p.difficulties| > 0
    ensures |e.difficulties| >= |p.difficulties| && |e.log| >= |p.log|
    ensures HashesAgainst(e.log, |p.log|, w, |p.difficulties| - 1)
            + LeftAgainst(e.workers[w].pc, |p.difficulties| - 1)
         <= LeftAgainst(p.workers[w].pc, |p.difficulties| - 1)
  {
    hide Enabled, Next, Inv, After, Proper, WorkersHold, LeftAgainst;
    ReachableSize(u, base, p);
    if more == [] {
      assert base + more == base;
    } else {
      var shorter := more[..|more| - 1];
      var q := LastStep(u, base, more, e);
      RunAims(u, base, shorter, w, p, q);
      ReachableSize(u, base + shorter, q);
      StepAims(u, q, more[|more| - 1], |p.log|, w, |p.difficulties| - 1);
    }
  }

  /**
   Once a difficulty is set, a worker hashes against older ones only what is left of the
   batch it is in, and not at all if it has not loaded a difficulty yet, whatever follows.
   */
  lemma NewDifficultyIsPrompt(u: Setup, base: seq<Step>, d: real, more: seq<Step>, w: nat, p: Engine, e: Engine)
    requires Proper(u) && w < u.workers && After(u, base) == Some(p)
    requires After(u, base + [Retarget(d)] + more) == Some(e)
    ensures |p.workers| == u.workers
    ensures HashesAgainst(e.log, |p.log|, w, |p.difficulties|) <= 2048
    ensures p.workers[w].pc.Hashing? ==>
              HashesAgainst(e.log, |p.log|, w, |p.difficulties|) <= 2048 - p.workers[w].pc.made
    ensures !p.workers[w].pc.Hashing? ==> HashesAgainst(e.log, |p.log|, w, |p.difficulties|) == 0
  {
    var steps := base + [Retarget(d)];
    assert steps[..|steps| - 1] == base;
    var q := Next(u, p, Retarget(d));
    assert After(u, steps) == Some(q);
    hide After, Inv, Minable, NonceAt, Threshold, Proper, HashesAgainst, QueueHolds;
    RunAims(u, steps, more, w, q, e);
    ReachableSize(u, base, p);
    BatchBounded(u, base, p, w);
  }

  lemma LoggedHolds(u: Setup, steps: seq<Step>, e: Engine, j: nat, k: nat)
    requires Proper(u) && After(u, steps) == Some(e) && j <= k < |e.log|
    ensures TriedHolds(u, e, e.log[k]) && (j < k ==> Precedes(e.log[j], e.log[k]))
  {
    hide After, Proper, Precedes, TriedHolds, QueueHolds, WorkersHold, BatchesHold, SharesHold;
    ReachableHolds(u, steps, e);
  }

  /**
   Every hash is made against the threshold of one of the difficulties set, and those of
   one worker in the order they were set.
   */
  lemma HashesFollowDifficulties(u: Setup, steps: seq<Step>, e: Engine, j: nat, k: nat)
    requires Proper(u) && After(u, steps) == Some(e) && j <= k < |e.log|
    ensures e.log[k].aim <= |DifficultiesOf(steps)|
    ensures e.log[k].threshold == Threshold(([1.0] + DifficultiesOf(steps))[e.log[k].aim])
    ensures e.log[j].worker == e.log[k].worker ==> e.log[j].aim <= e.log[k].aim
  {
    hide After, DifficultiesOf, Threshold, Proper;
    DifficultiesAreSet(u, steps, e);
    LoggedHolds(u, steps, e, j, k);
    hide Names, Hashable, NonceAt, StartNonce;
  }

  // ---------------------------------------------------------------- stopping

  /** How many more hashes a worker can make once running_ is false. */
  function LeftStopped(pc: Pc): nat {
    match pc
    case Fetching => BATCH
    case Aiming(_, _) => BATCH
    case Hashing(_, _, _, _, made) => if made <= BATCH then BATCH - made else 0
    case _ => 0
  }

  lemma StepWindsDown(u: Setup, e: Engine, step: Step, w: nat)
    requires Enabled(u, e, step) && w < |e.workers| && !e.running
    ensures var n := Next(u, e, step);
            && |n.workers| == |e.workers| && !n.running
            && Made(n.log, w) + LeftStopped(n.workers[w].pc) <= Made(e.log, w) + LeftStopped(e.workers[w].pc)
  {
    StepLogs(u, e, step);
    hide NonceAt, Minable, Threshold, Wins, ShareOf, Placed, AttemptOf;
  }

  /** After stop() clears running_, each worker makes at most one batch of hashes more. */
  lemma {:induction false} StopIsPrompt(u: Setup, base: seq<Step>, more: seq<Step>, w: nat, p: Engine, e: Engine)
    requires Proper(u) && w < u.workers
    requires After(u, base) == Some(p) && After(u, base + more) == Some(e) && !p.running
    ensures |p.workers| == |e.workers| == u.workers && !e.running
    ensures Made(e.log, w) + LeftStopped(e.workers[w].pc) <= Made(p.log, w) + LeftStopped(p.workers[w].pc)
    ensures Made(e.log, w) <= Made(p.log, w) + 2048
  {
    hide Enabled, Next, Inv, After, Proper, QueueHolds, WorkersHold, Made;
    ReachableSize(u, base, p);
    if more == [] {
      assert base + more == base;
    } else {
      var q := LastStep(u, base, more, e);
      StopIsPrompt(u, base, more[..|more| - 1], w, p, q);
      StepWindsDown(u, q, more[|more| - 1], w);
    }
  }

  /** All workers have been joined. */
  predicate Joined(e: Engine) {
    forall i :: 0 <= i < |e.workers| ==> e.workers[i].pc.Exited?
  }

  function SumMade(log: seq<Tried>, n: nat): nat {
    if n == 0 then 0 else SumMade(log, n - 1) + Made(log, n - 1)
  }

  lemma {:induction false} SumMore(log: seq<Tried>, n: nat)
    requires log != []
    ensures SumMade(log, n) == SumMade(log[..|log| - 1], n) + if log[|log| - 1].worker < n then 1 else 0
  {
    if n > 0 {
      SumMore(log, n - 1);
    }
  }

  lemma {:induction false} SumIsAll(log: seq<Tried>, n: nat)
    requires forall k :: 0 <= k < |log| ==> log[k].worker < n
    ensures SumMade(log, n) == |log|
  {
    if log == [] {
      SumOfNone(n);
    } else {
      SumMore(log, n);
      SumIsAll(log[..|log| - 1], n);
    }
  }

  lemma {:induction false} SumOfNone(n: nat)
    ensures SumMade([], n) == 0
  {
    if n > 0 {
      SumOfNone(n - 1);
    }
  }

  lemma {:induction false} SumOfBatches(log: seq<Tried>, n: nat)
    requires forall i :: 0 <= i < n ==> Made(log, i) % BATCH == 0
    ensures SumMade(log, n) % BATCH == 0
  {
    if n > 0 {
      SumOfBatches(log, n - 1);
    }
  }

  /** hashesTotal is the sum of what the workers made, and whole batches once all are joined. */
  lemma TotalsAgree(u: Setup, steps: seq<Step>, e: Engine)
    requires Proper(u) && After(u, steps) == Some(e)
    ensures e.hashesTotal == SumMade(e.log, u.workers)
    ensures Joined(e) ==> e.hashesTotal % 2048 == 0 && forall i :: 0 <= i < u.workers ==> Made(e.log, i) % 2048 == 0
  {
    ReachableHolds(u, steps, e);
    forall k | 0 <= k < |e.log| ensures e.log[k].worker < u.workers {
      assert TriedHolds(u, e, e.log[k]);
    }
    SumIsAll(e.log, u.workers);
    if Joined(e) {
      forall i | 0 <= i < u.workers ensures Made(e.log, i) % BATCH == 0 {
        assert InBatch(e.workers[i].pc, Made(e.log, i));
      }
      SumOfBatches(e.log, u.workers);
    }
  }

  // ------------------------------------------------------------- honest shares

  /** At most the first 200 characters. */
  function First200(s: string): string {
    if |s| <= 200 then s else s[..200]
  }

  /**
   What a pool that uses the digest of the setup can recompute from a share alone: with
   a job it published and a difficulty it set, the input rebuilt from the job's fields and
   the share's own hashes below the target, as 256-bit numbers. PoolCheck.dfy tells the
   digest of the code from that of the standard.
   */
  ghost predicate Verifies(u: Setup, job: MiningJob, difficulty: real, share: Share)
  {
    match share
    case ClassicShare(id, extranonce2, time, nonceHex) =>
      && id == job.jobId && time == job.time && job.blob == "" && AllHex(nonceHex) && |nonceHex| == 8
      && Meets(u, HeaderAttempt(First200(job.prevHash + job.coinbase1 + job.extranonce1 + extranonce2 + job.coinbase2
                                         + job.version + job.bits + time), HexValue(nonceHex)), difficulty)
    case BlobShare(id, blob) =>
      && id == job.jobId && |job.blob| >= 8 && AllHex(blob) && SameOutside(blob, job.blob, 2 * Blob.Slot(job.blob))
      && Meets(u, BlobAttempt(RawBytes(blob)), difficulty)
  }

  ghost predicate Meets(u: Setup, a: Attempt, difficulty: real) {
    BigEndianValue(u.digest(a)) < Threshold(difficulty) * Power(256, 24)
  }

  /** A hash wins exactly when it meets its difficulty, as 256-bit numbers, on any but the standby job. */
  lemma WinsIffMeets(u: Setup, x: Tried, difficulty: real)
    requires Placed(x) && x.threshold == Threshold(difficulty)
    ensures Wins(u, x) <==> x.job.jobId != "synthetic-standby" && Meets(u, AttemptOf(u, x), difficulty)
  {
    hide Power, BigEndianValue, Threshold, Placed, AttemptOf;
    LeadingDecides(u.digest(AttemptOf(u, x)), x.threshold);
  }

  /** What is hashed of a header, put together from the job's fields and the worker's extranonce2. */
  lemma HeaderOfJob(job: MiningJob, worker: nat)
    requires Minable(job)
    ensures Header(TemplateOf(job), worker)
         == First200(job.prevHash + job.coinbase1 + job.extranonce1 + ToHex(worker, 2 * job.extranonce2Size)
                     + job.coinbase2 + job.version + job.bits + job.time)
  {
    Eight(job.prevHash, job.coinbase1, job.extranonce1, ToHex(worker, 2 * job.extranonce2Size), job.coinbase2,
          job.version, job.bits, job.time);
    hide ToHex;
  }

  lemma Eight(a: string, b: string, c: string, d: string, e: string, f: string, g: string, h: string)
    ensures (a + b + c) + d + (e + f + g + h) == a + b + c + d + e + f + g + h
  {
  }

  lemma WinnerVerifies(u: Setup, x: Tried, difficulty: real)
    requires Placed(x) && Wins(u, x) && x.threshold == Threshold(difficulty)
    ensures Verifies(u, x.job, difficulty, ShareOf(u, x))
  {
    WinsIffMeets(u, x, difficulty);
    hide Wins, Meets;
    if x.job.blob != "" {
      PatchIsLocal(x.job.blob, BlobNonce(u, x));
      hide ToHex, HexValue, RawBytes, Patched, NonceAt, Blob.Slot;
    } else {
      FitsEight(x.nonce);
      ToHexValue(x.nonce, 8);
      HeaderOfJob(x.job, x.worker);
      hide ToHex, HexValue, Header, First200;
    }
  }

  /**
   The share answers the job and the difficulty one hash was made on: at the places the
   hash records, whichever others were published or set.
   */
  ghost predicate EarnedBy(u: Setup, e: Engine, x: Tried, share: Share) {
    && 0 <= x.at < |e.history| && x.aim < |e.difficulties| && e.history[x.at].jobId != STANDBY
    && Verifies(u, e.history[x.at], e.difficulties[x.aim], share)
  }

  ghost predicate Justified(u: Setup, e: Engine, share: Share) {
    exists k :: 0 <= k < |e.log| && EarnedBy(u, e, e.log[k], share)
  }

  lemma WinnerEarns(u: Setup, e: Engine, x: Tried)
    requires TriedHolds(u, e, x) && Placed(x) && Wins(u, x)
    ensures EarnedBy(u, e, x, ShareOf(u, x))
  {
    WinnerVerifies(u, x, e.difficulties[x.aim]);
    hide ShareOf, Verifies, Threshold, Minable;
  }

  lemma {:induction false} DeservedIsJustified(u: Setup, e: Engine, log: seq<Tried>)
    requires AllPlaced(log) && log <= e.log && forall k :: 0 <= k < |log| ==> TriedHolds(u, e, log[k])
    ensures forall k :: 0 <= k < |Deserved(u, log)| ==> Justified(u, e, Deserved(u, log)[k])
  {
    if log != [] {
      var x := log[|log| - 1];
      DeservedIsJustified(u, e, log[..|log| - 1]);
      assert TriedHolds(u, e, x) && e.log[|log| - 1] == x;
      hide Wins, ShareOf, TriedHolds, EarnedBy;
      if Wins(u, x) {
        WinnerEarns(u, e, x);
        assert Justified(u, e, ShareOf(u, x));
      }
    }
  }

  /**
   Honest submissions, and none withheld: the shares of any run are those of its
   winning hashes, in order; each verifies, by the engine's own digest, against the job
   its hash was made on, which is not the standby one, and against the difficulty that was
   in force when the batch of that hash began.
   */
  lemma SharesAreHonest(u: Setup, steps: seq<Step>, e: Engine)
    requires Proper(u) && After(u, steps) == Some(e)
    ensures AllPlaced(e.log) && e.shares == Deserved(u, e.log)
    ensures forall k :: 0 <= k < |e.log| && Wins(u, e.log[k]) ==> EarnedBy(u, e, e.log[k], ShareOf(u, e.log[k]))
    ensures forall k :: 0 <= k < |e.shares| ==> Justified(u, e, e.shares[k])
  {
    ReachableHolds(u, steps, e);
    DeservedIsJustified(u, e, e.log);
    forall k | 0 <= k < |e.log| && Wins(u, e.log[k]) ensures EarnedBy(u, e, e.log[k], ShareOf(u, e.log[k])) {
      assert TriedHolds(u, e, e.log[k]);
      WinnerEarns(u, e, e.log[k]);
    }
  }

  // -------------------------------------------------------- no work done twice

  /** Both were spent on headers of one template, of which the whole extranonce2 survives. */
  predicate SameTemplate(x: Tried, y: Tried) {
    && Hashable(x.job) && Hashable(y.job) && Classic(x.job) && Classic(y.job)
    && TemplateOf(x.job) == TemplateOf(y.job) && Fits(TemplateOf(x.job), HEADER_LIMIT)
    && ClassicWork.Holds(TemplateOf(x.job), x.worker) && ClassicWork.Holds(TemplateOf(x.job), y.worker)
  }

  /**
   The header branch, over any run: of two hashes of a template, the later tries an input
   again exactly when the same worker has gone a whole number of periods of its walk since,
   so never within a period; and one worker never returns to an older job.
   */
  lemma WorkIsNeverRepeated(u: Setup, steps: seq<Step>, e: Engine, j: nat, k: nat)
    requires Proper(u) && After(u, steps) == Some(e) && j < k < |e.log|
    ensures Placed(e.log[j]) && Placed(e.log[k])
    ensures e.log[j].worker == e.log[k].worker ==> e.log[j].at <= e.log[k].at
    ensures e.log[j].worker == e.log[k].worker && Classic(e.log[j].job) ==> e.log[j].turn < e.log[k].turn
    ensures SameTemplate(e.log[j], e.log[k]) ==>
              (AttemptOf(u, e.log[j]) == AttemptOf(u, e.log[k])
               <==> e.log[j].worker == e.log[k].worker && Divides(Period(u.step), e.log[k].turn - e.log[j].turn))
  {
    ReachableHolds(u, steps, e);
    var x, y := e.log[j], e.log[k];
    assert Precedes(x, y) && TriedHolds(u, e, x) && TriedHolds(u, e, y);
    if SameTemplate(x, y) {
      HeadersInjective(TemplateOf(x.job), x.worker, y.worker, HEADER_LIMIT);
      WalkRepeats(StartNonce(x.worker), u.step, y.turn, x.turn);
      hide After, Period, NonceAt, StartNonce, Header, Minable;
    }
  }
}
