/**
 run_jobs and the loops below it, over an array of jobs changed in place, proved against Pipeline.
 */
module PipelineCode {
  import opened Basics
  import opened Sessions
  import opened Pipeline
  import opened Vectors
  import opened Operations
  import opened DevicePasses
  import opened SessionCode

  const MAX_JOBS_BURST_SIZE: nat := 64

  /** A device queue pair.  It takes every operation offered and returns them in order, some at a time. */
  class Device {
    var queue: seq<Op>
    /** How many polls may still come back empty before the next operation is ready. */
    var patience: nat

    constructor ()
      ensures queue == []
    {
      queue, patience := [], 0;
    }

    method Enqueue(ops: seq<Op>)
      modifies this`queue
      ensures queue == old(queue) + ops
    {
      queue := queue + ops;
    }

    /** How many operations the next poll returns. */
    method Poll(max: nat) returns (n: nat)
      requires 0 < max && queue != []
      modifies this`patience
      ensures n <= max && n <= |queue|
      ensures n == 0 ==> patience < old(patience)
    {
      n :| 0 <= n <= max && n <= |queue| && (patience == 0 ==> n > 0);
      if n == 0 {
        patience := patience - 1;
      } else {
        var p: nat :| p >= 0;
        patience := p;
      }
    }

    /** The device works on the job's own buffer. */
    method Work(f: Cipher, jobs: array<Job>, op: Op) returns (op': Op)
      requires op.src < jobs.Length
      modifies jobs
      ensures op' == Judged(f, old(jobs[..])[op.src], op)
      ensures jobs[..] == old(jobs[..])[op.src := Worked(f, old(jobs[..])[op.src], op)]
    {
      op' := Judged(f, jobs[op.src], op);
      jobs[op.src] := Worked(f, jobs[op.src], op);
    }

    method Dequeue(f: Cipher, jobs: array<Job>, max: nat) returns (done: seq<Op>)
      requires 0 < max && queue != [] && Apart(queue)
      requires InRange(queue, jobs.Length)
      modifies this, jobs
      ensures |done| <= max && |done| <= |old(queue)| && queue == old(queue)[|done|..]
      ensures done == [] ==> patience < old(patience)
      ensures Returned(f, old(jobs[..]), jobs[..], old(queue), done)
    {
      var n := Poll(max);
      done := [];
      for i := 0 to n
        invariant |done| == i && queue == old(queue)
        invariant n == 0 ==> patience < old(patience)
        invariant Returned(f, old(jobs[..]), jobs[..], queue, done)
      {
        ReturnedNext(f, old(jobs[..]), jobs[..], queue, done);
        var op := Work(f, jobs, queue[i]);
        done := done + [op];
      }
      queue := queue[n..];
    }
  }

  class Client {
    const store: SessionStore
    const maxBurst: nat
    /** The operations in the pool. */
    var ops: set<nat>
    /** The vector areas of all operations, in the pool or not. */
    var areas: map<nat, Area>

    constructor (store: SessionStore, maxBurst: nat, areas: map<nat, Area>)
      ensures this.store == store && this.maxBurst == maxBurst && this.areas == areas && ops == areas.Keys
    {
      this.store, this.maxBurst, this.areas, ops := store, maxBurst, areas, areas.Keys;
    }

    /** rte_mempool_get_bulk: all or nothing. */
    method GetBulk(n: nat) returns (ok: bool, ids: seq<nat>)
      modifies this`ops
      ensures ok <==> n <= |old(ops)|
      ensures !ok ==> ops == old(ops)
      ensures ok ==> |ids| == n && ops + Elements(ids) == old(ops) && ops !! Elements(ids)
      ensures ok ==> Distinct(ids)
    {
      ids := [];
      ok := n <= |ops|;
      if ok {
        assert ops + Elements(ids) == ops;
        for i := 0 to n
          invariant |ids| == i && |ops| == |old(ops)| - i
          invariant ops + Elements(ids) == old(ops) && ops !! Elements(ids)
          invariant Distinct(ids)
        {
          var x :| x in ops;
          assert x !in Elements(ids) && Elements(ids + [x]) == Elements(ids) + {x};
          ops := ops - {x};
          ids := ids + [x];
        }
      }
    }

    /** One pass of set_ops_cipher: the vector goes over the front of the operation's area. */
    method SetOpCipher(ch: nat, j: Job, i: nat, id: nat) returns (op: Op)
      requires store.Valid() && ch < MAX_CHANNEL_NUM && id in areas
      requires Lookup(store.setup, store.State(), ch, j.sessId).Some?
      modifies this`areas
      ensures areas == old(areas)[id := Loaded(old(areas)[id], j.iv)]
      ensures op == OpFor(store.setup, store.State(), ch, j, i, id, old(areas)[id])
    {
      var h := store.GetSession(ch, j.sessId);
      if h.None? {
        assert false;
      }
      areas := areas[id := Loaded(areas[id], j.iv)];
      var c := store.Read(h.value);
      op := Op(id, c, i, areas[id], OpNotProcessed);
    }

    /** set_ops_cipher. */
    method SetOpsCipher(ch: nat, jobs: array<Job>, ix: seq<nat>, ids: seq<nat>) returns (ready: seq<Op>)
      requires store.Valid() && ch < MAX_CHANNEL_NUM && Fillable(areas, jobs[..], ix, ids) && Distinct(ids)
      requires AllResolve(store.setup, store.State(), ch, jobs[..], ix)
      modifies this`areas
      ensures |ready| == |ix| && Filled(store.setup, store.State(), ch, jobs[..], ix, ids, old(areas), ready)
      ensures Renewed(old(areas), jobs[..], ix, ids, areas)
    {
      ready := [];
      ghost var was := areas;
      for i := 0 to |ix|
        invariant |ready| == i && Filling(store.setup, store.State(), ch, jobs[..], ix, ids, was, areas, ready)
      {
        FillingNext(store.setup, store.State(), ch, jobs[..], ix, ids, was, areas, ready);
        var op := SetOpCipher(ch, jobs[ix[i]], ix[i], ids[i]);
        ready := ready + [op];
      }
    }

    /** set_ops_cipher_result. */
    method SetOpsCipherResult(jobs: array<Job>, done: seq<Op>, ix: seq<nat>, before: nat, ghost ready: seq<Op>)
      requires |ready| == |ix| && before + |done| <= |ix| && Apart(ready)
      requires forall k :: 0 <= k < |ix| ==> ix[k] == ready[k].src < jobs.Length
      modifies jobs
      ensures Settled(old(jobs[..]), jobs[..], ready[before..], done, |done|)
    {
      for i := 0 to |done|
        invariant Settled(old(jobs[..]), jobs[..], ready[before..], done, i)
      {
        var j := ix[i + before];
        SettledNext(old(jobs[..]), jobs[..], ready[before..], done, i);
        jobs[j] := Result(jobs[j], done[i]);
      }
    }

    /** Results of the dequeued operations, and the operations back to the pool. */
    method Settle(f: Cipher, jobs: array<Job>, ix: seq<nat>, deqd: nat, done: seq<Op>,
                  ghost js: seq<Job>, ghost now: seq<Job>, ghost ready: seq<Op>)
      requires Prepared(js, ix, ready) && Progress(f, js, now, ready, deqd)
      requires Returned(f, now, jobs[..], ready[deqd..], done)
      modifies this`ops, jobs
      ensures Progress(f, js, jobs[..], ready, deqd + |done|)
      ensures ops == old(ops) + Ids(ready[deqd..][..|done|])
    {
      ghost var mid := jobs[..];
      SetOpsCipherResult(jobs, done, ix, deqd, ready);
      ChunkProgress(f, js, now, mid, jobs[..], ready, deqd, done);
      IdsReturned(f, now, mid, ready[deqd..], done);
      ops := ops + Ids(done);
    }

    /** t operations are finished; the rest are in the device and missing from the pool. */
    ghost predicate Draining(f: Cipher, js: seq<Job>, now: seq<Job>, ready: seq<Op>, t: nat, queue: seq<Op>, pool: set<nat>)
      reads this`ops
    {
      Progress(f, js, now, ready, t) && queue == ready[t..] && ops + Ids(ready[t..]) == pool
    }

    /** One dequeue with everything that follows it. */
    method Collect(f: Cipher, device: Device, jobs: array<Job>, ix: seq<nat>, max: nat, deqd: nat,
                   ghost js: seq<Job>, ghost ready: seq<Op>, ghost pool: set<nat>) returns (total: nat)
      requires Prepared(js, ix, ready) && 0 < max && deqd < |ix|
      requires Draining(f, js, jobs[..], ready, deqd, device.queue, pool)
      modifies this`ops, device, jobs
      ensures deqd <= total <= |ix| && (total == deqd ==> device.patience < old(device.patience))
      ensures Draining(f, js, jobs[..], ready, total, device.queue, pool)
    {
      ghost var now := jobs[..];
      RestApart(ready, deqd, jobs.Length);
      var done := device.Dequeue(f, jobs, max);
      total := deqd + |done|;
      PoolBack(ops, ready, deqd, |done|);
      if |done| > 0 {
        Settle(f, jobs, ix, deqd, done, js, now, ready);
      } else {
        NoneReturned(f, now, jobs[..], ready[deqd..]);
      }
    }

    /** One pass of the enqueue loop: get operations, fill them, hand them to the device. */
    method Submit(device: Device, ch: nat, jobs: array<Job>, ix: seq<nat>) returns (ok: bool, ghost ready: seq<Op>, ghost ids: seq<nat>)
      requires store.Valid() && ch < MAX_CHANNEL_NUM && device.queue == [] && ops <= areas.Keys
      requires Increasing(ix) && AllResolve(store.setup, store.State(), ch, jobs[..], ix)
      modifies this`ops, this`areas, device`queue
      ensures ok <==> |ix| <= |old(ops)|
      ensures !ok ==> ops == old(ops) && areas == old(areas) && device.queue == []
      ensures ok ==>
                && device.queue == ready && ops + Ids(ready) == old(ops)
                && Renewed(old(areas), jobs[..], ix, ids, areas)
                && Readied(store.setup, store.State(), ch, jobs[..], ix, ids, old(areas), ready)
    {
      var taken;
      ready, ids := [], [];
      ok, taken := GetBulk(|ix|);
      if ok {
        ids := taken;
        TakenFillable(areas, old(ops), jobs[..], ix, ids);
        var filled := Prepare(ch, jobs, ix, taken);
        device.Enqueue(filled);
        ready := filled;
      }
    }

    /** The operations taken are filled. */
    method Prepare(ch: nat, jobs: array<Job>, ix: seq<nat>, ids: seq<nat>) returns (ready: seq<Op>)
      requires store.Valid() && ch < MAX_CHANNEL_NUM && Fillable(areas, jobs[..], ix, ids) && Distinct(ids)
      requires Increasing(ix) && AllResolve(store.setup, store.State(), ch, jobs[..], ix)
      modifies this`areas
      ensures Renewed(old(areas), jobs[..], ix, ids, areas)
      ensures Readied(store.setup, store.State(), ch, jobs[..], ix, ids, old(areas), ready) && Ids(ready) == Elements(ids)
    {
      ready := SetOpsCipher(ch, jobs, ix, ids);
      FilledPrepared(store.setup, store.State(), ch, jobs[..], ix, ids, old(areas), ready);
    }

    /**
     run_jobs_inner, for a burst no longer than maxBurst.  The device may return the operations in
     chunks of any sizes.
     */
    method RunJobsInner(f: Cipher, device: Device, ch: nat, jobs: array<Job>, ix: seq<nat>) returns (err: bool, ghost ids: seq<nat>)
      requires store.Valid() && ch < MAX_CHANNEL_NUM && device.queue == [] && 0 < |ix| <= maxBurst && ops <= areas.Keys
      requires Increasing(ix) && AllResolve(store.setup, store.State(), ch, jobs[..], ix)
      modifies this`ops, this`areas, device, jobs
      ensures device.queue == [] && ops == old(ops)
      ensures err <==> |ix| > |old(ops)|
      ensures err ==> jobs[..] == old(jobs[..]) && areas == old(areas) && ids == []
      ensures !err ==> Renewed(old(areas), old(jobs[..]), ix, ids, areas)
      ensures !err ==> CipheredAt(f, store.setup, store.State(), ch, old(jobs[..]), jobs[..], ix, ids, old(areas))
    {
      ghost var js, ready := jobs[..], [];
      var ok;
      ok, ready, ids := Submit(device, ch, jobs, ix);
      if !ok {
        return true, [];
      }
      Drain(f, device, jobs, ix, js, ready, old(ops));
      CipheredAll(f, store.setup, store.State(), ch, js, jobs[..], ix, ids, old(areas), ready);
      err := false;
    }

    /** The dequeue of the enqueue loop's only pass, and the loop that collects the rest. */
    method Drain(f: Cipher, device: Device, jobs: array<Job>, ix: seq<nat>, ghost js: seq<Job>, ghost ready: seq<Op>, ghost pool: set<nat>)
      requires 0 < |ix| <= maxBurst && Prepared(js, ix, ready) && jobs[..] == js && device.queue == ready && ops + Ids(ready) == pool
      modifies this`ops, device, jobs
      ensures Progress(f, js, jobs[..], ready, |ready|) && device.queue == [] && ops == pool
    {
      assert ready[0..] == ready;
      var deqd := Collect(f, device, jobs, ix, |ix|, 0, js, ready, pool);
      while deqd < |ix|
        invariant 0 <= deqd <= |ix| && Draining(f, js, jobs[..], ready, deqd, device.queue, pool)
        decreases |ix| - deqd, device.patience
      {
        deqd := Collect(f, device, jobs, ix, maxBurst, deqd, js, ready, pool);
      }
      assert Ids(ready[deqd..]) == {};
    }

    /** The body of the loop of preprocess_jobs; initOk is the device's answer to a create. */
    method PreprocessJob(ch: nat, j: Job, initOk: bool) returns (out: Job, dev: Option<nat>, ghost a: Answer)
      requires store.Valid() && ch < MAX_CHANNEL_NUM
      modifies store`free, store`live, store`contents, store.table
      ensures store.Valid() && (store.State(), out) == PreJob(store.setup, old(store.State()), ch, j, a)
      ensures a.initOk == initOk
      ensures IsCreate(j) ==> Enabled(old(store.State()), Open(ch, Wanted(j), a.pick, a.initOk))
      ensures dev == if j.status != Failed && j.kind.Ciphering? && Lookup(store.setup, old(store.State()), ch, j.sessId).Some?
                     then Some(DeviceOf(j.sessId)) else None
    {
      out, dev, a := j, None, Answer(None, initOk);
      if j.status.Failed? {
        out := j.(buffers := 0);
        return;
      }
      match j.kind {
        case Creating =>
          var id, pick := store.Create(ch, Wanted(j), initOk);
          a := Answer(pick, initOk);
          out := if id.Some? then j.(status := Succ, sessId := id.value) else j.(status := Failed, sessId := NO_SESSION);
        case Closing =>
        case Ciphering =>
          var h := store.GetSession(ch, j.sessId);
          if h.None? {
            out := j.(status := Failed, buffers := 0);
          } else {
            dev := Some(j.sessId / 65536);
            out := j.(status := Succ, buffers := 1);
          }
        case Unknown => out := j.(status := Failed, buffers := 0);
      }
    }

    /** One pass of the loop of preprocess_jobs, with its stores. */
    method PrepareNext(ch: nat, jobs: array<Job>, i: nat, initOk: bool, lists: seq<seq<nat>>, ghost b: Burst)
      returns (lists': seq<seq<nat>>, ghost b': Burst)
      requires store.Valid() && ch < MAX_CHANNEL_NUM && i < jobs.Length && b.channel == ch && b.setup == store.setup
      requires PreparedUpTo(b, store.State(), jobs[..], lists, i)
      modifies store`free, store`live, store`contents, store.table, jobs
      ensures store.Valid() && PreparedUpTo(b', store.State(), jobs[..], lists', i + 1)
      ensures AnswersOnward(b, b', i) && b'.answers == b.answers[i := b'.answers[i]] && b'.answers[i].initOk == initOk
    {
      ghost var now := jobs[..];
      assert now[i] == b.jobs[i];
      var out, dev, a := PreprocessJob(ch, jobs[i], initOk);
      b' := b.(answers := b.answers[i := a]);
      PreparedNext(b, b', store.State(), now, lists, i, out, dev);
      jobs[i] := out;
      assert jobs[..] == now[i := out];
      lists' := lists;
      if dev.Some? {
        lists' := lists[dev.value := lists[dev.value] + [i]];
      }
    }

    /** The loop of preprocess_jobs has reached job i of the burst b. */
    ghost predicate Preparing(b: Burst, s: Registry, ch: nat, js: seq<Job>, inits: seq<bool>, now: seq<Job>, lists: seq<seq<nat>>, i: nat)
      reads this, store, store.table
    {
      && store.Valid()
      && IsBurst(b, store.setup, s, ch, js, inits, |ops|)
      && PreparedUpTo(b, store.State(), now, lists, i)
    }

    /** preprocess_jobs. */
    method PreprocessJobs(ch: nat, jobs: array<Job>, inits: seq<bool>) returns (lists: seq<seq<nat>>, ghost b: Burst)
      requires store.Valid() && ch < MAX_CHANNEL_NUM && |inits| == jobs.Length
      modifies store`free, store`live, store`contents, store.table, jobs
      ensures Preparing(b, old(store.State()), ch, old(jobs[..]), inits, jobs[..], lists, jobs.Length)
    {
      ghost var js, s := jobs[..], store.State();
      b := Burst(store.setup, s, ch, js, AnyAnswers(inits), |ops|);
      lists := seq(store.setup.devices, _ => []);
      NonePrepared(b, lists);
      for i := 0 to jobs.Length
        invariant Preparing(b, s, ch, js, inits, jobs[..], lists, i)
      {
        ghost var b0 := b;
        lists, b := PrepareNext(ch, jobs, i, inits[i], lists, b);
        StillBurst(b0, b, i, inits);
      }
    }

    /** The loop of postprocess_jobs has reached job i. */
    ghost predicate CarryingOut(b: Burst, e: Engine, now: seq<Job>, i: nat)
      reads store, store.table
    {
      store.Valid() && ClosedUpTo(b, e, store.State(), now, i)
    }

    /** postprocess_jobs. */
    method PostprocessJobs(ch: nat, jobs: array<Job>, ghost b: Burst, ghost e: Engine)
      requires store.Valid() && ch < MAX_CHANNEL_NUM && b.Sized() && |b.jobs| == jobs.Length
      requires b.channel == ch && b.setup == store.setup
      requires ClosedUpTo(b, e, store.State(), jobs[..], 0)
      modifies store`free, store`live, store`contents, store.table, jobs
      ensures CarryingOut(b, e, jobs[..], jobs.Length)
    {
      for i := 0 to jobs.Length
        invariant CarryingOut(b, e, jobs[..], i)
      {
        ghost var now := jobs[..];
        jobs[i] := PostprocessJob(ch, jobs[i]);
        ClosedNext(b, e, now, i);
        assert jobs[..] == now[i := jobs[i]];
      }
    }

    /** The body of the loop of postprocess_jobs. */
    method PostprocessJob(ch: nat, j: Job) returns (out: Job)
      requires store.Valid() && ch < MAX_CHANNEL_NUM
      modifies store`free, store`live, store`contents, store.table
      ensures store.Valid() && (store.State(), out) == PostJob(store.setup, old(store.State()), ch, j)
    {
      out := j;
      if j.kind.Closing? {
        var ok := store.RemoveSession(ch, j.sessId);
        out := j.(status := if ok then Succ else Failed);
      }
    }

    /** One pass of the loop of run_jobs over the devices. */
    method RunDevice(f: Cipher, device: Device, ch: nat, jobs: array<Job>, ix: seq<nat>, ghost b: Burst, ghost at: Serving)
      returns (ghost at': Serving)
      requires store.Valid() && ch < MAX_CHANNEL_NUM && device.queue == [] && jobs.Length <= maxBurst && ops <= areas.Keys
      requires b.Sized() && b.setup == store.setup && b.channel == ch && b.ops == |ops| && store.State() == PreState(b, |b.jobs|)
      requires at.Reached(b, f, areas, jobs[..]) && ix == IndexList(b, at.Device(), |b.jobs|)
      modifies this`ops, this`areas, device, jobs
      ensures ops == old(ops) && device.queue == [] && areas.Keys == old(areas.Keys)
      ensures at'.Reached(b, f, areas, jobs[..]) && at'.Device() == at.Device() + 1 && at'.start == at.start
    {
      ghost var js, was := jobs[..], areas;
      ListReady(b, Engine(f, at.held), js, at.Device());
      ghost var ids: seq<nat> := [];
      if |ix| > 0 {
        var err;
        err, ids := RunJobsInner(f, device, ch, jobs, ix);
      }
      at' := ServedNext(b, f, at, was, areas, js, jobs[..], ids);
    }

    /** The loop of run_jobs over the devices. */
    method RunDevices(f: Cipher, devices: seq<Device>, ch: nat, jobs: array<Job>, lists: seq<seq<nat>>, ghost b: Burst)
      returns (ghost at: Serving)
      requires store.Valid() && ch < MAX_CHANNEL_NUM && |devices| == store.setup.devices && jobs.Length <= maxBurst
      requires ops <= areas.Keys && forall d :: d in devices ==> d.queue == []
      requires b.Sized() && b.setup == store.setup && b.channel == ch && b.ops == |ops|
      requires PreparedUpTo(b, store.State(), jobs[..], lists, |b.jobs|)
      modifies this`ops, this`areas, devices, jobs
      ensures ops == old(ops) && areas.Keys == old(areas.Keys) && forall d :: d in devices ==> d.queue == []
      ensures at.start == old(areas) && at.Device() == store.setup.devices && at.Reached(b, f, areas, jobs[..])
    {
      at := Serving(areas, seq(|b.jobs|, _ => BLANK_AREA), []);
      NoneServed(b, f, at, jobs[..]);
      for dev := 0 to store.setup.devices
        invariant ops == old(ops) && areas.Keys == old(areas.Keys) && forall d :: d in devices ==> d.queue == []
        invariant at.start == old(areas) && at.Device() == dev && at.Reached(b, f, areas, jobs[..])
      {
        assert devices[dev] in devices;
        at := RunDevice(f, devices[dev], ch, jobs, lists[dev], b, at);
      }
    }

    /**
     run_jobs: every job ends as its outcome says, with the vector areas the operations drawn for
     the burst held; afterwards both pools are whole again, and the areas are those the burst left.
     */
    method RunJobs(f: Cipher, devices: seq<Device>, ch: nat, jobs: array<Job>, inits: seq<bool>)
      returns (ghost b: Burst, ghost e: Engine, ghost draws: seq<seq<nat>>)
      requires store.Valid() && ch < MAX_CHANNEL_NUM && |inits| == jobs.Length && ops <= areas.Keys
      requires jobs.Length <= MAX_JOBS_BURST_SIZE <= maxBurst
      requires |devices| == store.setup.devices && forall d :: d in devices ==> d.queue == []
      modifies this`ops, this`areas, store`free, store`live, store`contents, store.table, jobs, devices
      ensures IsBurst(b, store.setup, old(store.State()), ch, old(jobs[..]), inits, |ops|) && AnswersFit(b, |b.jobs|)
      ensures store.Valid() && store.State() == PostState(b, |b.jobs|)
      ensures e.cipher == f && |draws| == store.setup.devices && HeldIn(b, e, old(areas), draws)
      ensures areas == AreasBefore(b, old(areas), draws, |draws|)
      ensures |b.jobs| == jobs.Length && forall i :: 0 <= i < jobs.Length ==> jobs[i] == Outcome(b, e, i)
      ensures ops == old(ops) && forall d :: d in devices ==> d.queue == []
    {
      var lists;
      lists, b := PreprocessJobs(ch, jobs, inits);
      ghost var at := RunDevices(f, devices, ch, jobs, lists, b);
      e, draws := Engine(f, at.held), at.draws;
      AllServed(b, f, at, areas, jobs[..]);
      PostprocessJobs(ch, jobs, b, e);
    }
  }

  /** The burst that was handed in, with answers pool and devices could give. */
  ghost predicate IsBurst(b: Burst, u: Setup, s: Registry, ch: nat, js: seq<Job>, inits: seq<bool>, ops: nat) {
    && b == Burst(u, s, ch, js, b.answers, ops) && |b.answers| == |js| == |inits|
    && (forall i :: 0 <= i < |js| ==> b.answers[i].initOk == inits[i])
  }

  function AnyAnswers(inits: seq<bool>): (answers: seq<Answer>)
    ensures |answers| == |inits| && forall i :: 0 <= i < |inits| ==> answers[i].initOk == inits[i]
  {
    seq(|inits|, i requires 0 <= i < |inits| => Answer(None, inits[i]))
  }

  /** The first n jobs have been prepared. */
  ghost predicate PreparedUpTo(b: Burst, s: Registry, now: seq<Job>, lists: seq<seq<nat>>, n: nat) {
    && b.Sized() && n <= |b.jobs| == |now| && s == PreState(b, n) && AnswersFit(b, n)
    && (forall k :: 0 <= k < n ==> now[k] == PreOut(b, k))
    && (forall k :: n <= k < |b.jobs| ==> now[k] == b.jobs[k])
    && |lists| == b.setup.devices && (forall d :: 0 <= d < |lists| ==> lists[d] == IndexList(b, d, n))
  }

  lemma NonePrepared(b: Burst, lists: seq<seq<nat>>)
    requires b.Sized() && |lists| == b.setup.devices && forall d :: 0 <= d < |lists| ==> lists[d] == []
    ensures PreparedUpTo(b, b.start, b.jobs, lists, 0)
  {
  }

  lemma StillBurst(b: Burst, b': Burst, i: nat, inits: seq<bool>)
    requires IsBurst(b, b.setup, b.start, b.channel, b.jobs, inits, b.ops) && AnswersOnward(b, b', i)
    requires b'.answers == b.answers[i := b'.answers[i]] && b'.answers[i].initOk == inits[i]
    ensures IsBurst(b', b.setup, b.start, b.channel, b.jobs, inits, b.ops)
  {
  }

  /** Answers to later jobs do not show in what has been prepared. */
  lemma {:induction false} LaterAnswers(b: Burst, b': Burst, n: nat, m: nat)
    requires b.Sized() && m <= n < |b.jobs| && b' == b.(answers := b'.answers) && b'.Sized()
    requires forall k :: 0 <= k < n ==> b'.answers[k] == b.answers[k]
    ensures PreState(b', m) == PreState(b, m)
    ensures forall d :: IndexList(b', d, m) == IndexList(b, d, m)
  {
    if m > 0 {
      LaterAnswers(b, b', n, m - 1);
    }
  }

  ghost predicate AnswersOnward(b: Burst, b': Burst, n: nat) {
    && b.Sized() && n < |b.jobs| && b' == b.(answers := b'.answers) && b'.Sized()
    && forall k :: 0 <= k < n ==> b'.answers[k] == b.answers[k]
  }

  lemma SameOuts(b: Burst, b': Burst, n: nat)
    requires AnswersOnward(b, b', n)
    ensures forall k :: 0 <= k < n ==> PreOut(b', k) == PreOut(b, k)
  {
    forall k | 0 <= k < n ensures PreOut(b', k) == PreOut(b, k) {
      LaterAnswers(b, b', n, k);
    }
  }

  lemma SameFit(b: Burst, b': Burst, n: nat)
    requires AnswersOnward(b, b', n) && AnswersFit(b, n)
    requires IsCreate(b.jobs[n]) ==>
               Enabled(PreState(b, n), Open(b.channel, Wanted(b.jobs[n]), b'.answers[n].pick, b'.answers[n].initOk))
    ensures AnswersFit(b', n + 1)
  {
    forall k | 0 <= k <= n ensures PreState(b', k) == PreState(b, k) {
      LaterAnswers(b, b', n, k);
    }
  }

  function Listed(lists: seq<seq<nat>>, dev: Option<nat>, i: nat): seq<seq<nat>>
    requires dev.Some? ==> dev.value < |lists|
  {
    if dev.Some? then lists[dev.value := lists[dev.value] + [i]] else lists
  }

  lemma ListsNext(b: Burst, b': Burst, lists: seq<seq<nat>>, n: nat, dev: Option<nat>)
    requires AnswersOnward(b, b', n)
    requires |lists| == b.setup.devices && forall d :: 0 <= d < |lists| ==> lists[d] == IndexList(b, d, n)
    requires dev == if Accepted(b, n) then Some(DeviceOf(b.jobs[n].sessId)) else None
    ensures dev.Some? ==> dev.value < |lists|
    ensures forall d :: 0 <= d < |lists| ==> Listed(lists, dev, n)[d] == IndexList(b', d, n + 1)
  {
    LaterAnswers(b, b', n, n);
    assert Accepted(b', n) <==> Accepted(b, n);
    forall d | 0 <= d < |lists| ensures dev.Some? ==> dev.value < |lists| && Listed(lists, dev, n)[d] == IndexList(b', d, n + 1) {
      assert IndexList(b', d, n) == IndexList(b, d, n);
    }
  }

  lemma PreparedNext(b: Burst, b': Burst, s: Registry, now: seq<Job>, lists: seq<seq<nat>>, n: nat, out: Job, dev: Option<nat>)
    requires AnswersOnward(b, b', n) && PreparedUpTo(b, PreState(b, n), now, lists, n)
    requires (s, out) == PreJob(b.setup, PreState(b, n), b.channel, b.jobs[n], b'.answers[n])
    requires dev == if Accepted(b, n) then Some(DeviceOf(b.jobs[n].sessId)) else None
    requires IsCreate(b.jobs[n]) ==>
               Enabled(PreState(b, n), Open(b.channel, Wanted(b.jobs[n]), b'.answers[n].pick, b'.answers[n].initOk))
    ensures dev.Some? ==> dev.value < |lists|
    ensures PreparedUpTo(b', s, now[n := out], Listed(lists, dev, n), n + 1)
  {
    SameOuts(b, b', n);
    SameFit(b, b', n);
    ListsNext(b, b', lists, n, dev);
    LaterAnswers(b, b', n, n);
    assert PreState(b', n + 1) == s;
    assert PreOut(b', n) == out;
  }
}
