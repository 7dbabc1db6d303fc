/**
 Crypto operations on their way: filled for a list of jobs, handed to a device, returned in chunks,
 their results taken over, given back to the pool.
 */
module Operations {
  import opened Basics
  import opened Sessions
  import opened Pipeline
  import opened Vectors

  /** A crypto operation: its place in the pool, what its session holds, the job whose buffer it works on, the vector. */
  datatype Op = Op(id: nat, session: Config, src: nat, iv: Area, status: OpStatus)

  /** No two operations work on the same job. */
  ghost predicate Apart(ops: seq<Op>) { forall k, k' :: 0 <= k < k' < |ops| ==> ops[k].src != ops[k'].src }

  /** Job i belongs to one of the first n operations. */
  ghost predicate Touched(ops: seq<Op>, n: nat, i: nat)
    requires n <= |ops|
  {
    exists k :: 0 <= k < n && ops[k].src == i
  }

  /** What the device does to the job and the operation. */
  function Worked(f: Cipher, j: Job, op: Op): Job { j.(data := f(op.session, j.data, op.iv).1) }
  function Judged(f: Cipher, j: Job, op: Op): Op { op.(status := f(op.session, j.data, op.iv).0) }

  /** set_ops_cipher_result for one operation. */
  function Result(j: Job, op: Op): Job {
    match op.status
    case OpNotProcessed => j
    case OpSuccess => j.(status := Succ)
    case OpError => j.(status := Failed)
  }

  lemma ResultIsCiphered(f: Cipher, j: Job, op: Op)
    ensures Result(Worked(f, j, op), Judged(f, j, op)) == CipheredWith(f, op.session, op.iv, j)
  {
  }

  /** The operations in `done` are the first ones of the queue, each worked on alone. */
  ghost predicate Returned(f: Cipher, js: seq<Job>, now: seq<Job>, queue: seq<Op>, done: seq<Op>) {
    && |now| == |js| && |done| <= |queue| && InRange(queue, |js|)
    && (forall k :: 0 <= k < |done| ==>
          done[k] == Judged(f, js[queue[k].src], queue[k]) && now[queue[k].src] == Worked(f, js[queue[k].src], queue[k]))
    && OthersKept(js, now, queue, |done|)
  }

  lemma ReturnedNext(f: Cipher, js: seq<Job>, now: seq<Job>, queue: seq<Op>, done: seq<Op>)
    requires |done| < |queue| && Apart(queue) && Returned(f, js, now, queue, done)
    ensures var op := queue[|done|];
            && now[op.src] == js[op.src]
            && Returned(f, js, now[op.src := Worked(f, js[op.src], op)], queue, done + [Judged(f, js[op.src], op)])
  {
    var n, op := |done|, queue[|done|];
    assert !Touched(queue, n, op.src);
    var next := now[op.src := Worked(f, js[op.src], op)];
    forall i | 0 <= i < |js| && !Touched(queue, n + 1, i) ensures next[i] == js[i] {
      assert queue[n].src != i;
      assert !Touched(queue, n, i);
    }
  }

  /** The first t operations are finished, each job with the result of its own. */
  ghost predicate Progress(f: Cipher, js: seq<Job>, now: seq<Job>, ops: seq<Op>, t: nat) {
    |now| == |js| && t <= |ops| && InRange(ops, |js|) && Finished(f, js, now, ops, t) && OthersKept(js, now, ops, t)
  }

  ghost predicate InRange(ops: seq<Op>, n: nat) { forall k :: 0 <= k < |ops| ==> ops[k].src < n }

  ghost predicate Finished(f: Cipher, js: seq<Job>, now: seq<Job>, ops: seq<Op>, t: nat)
    requires |now| == |js| && t <= |ops| && InRange(ops, |js|)
  {
    forall k :: 0 <= k < t ==> now[ops[k].src] == CipheredWith(f, ops[k].session, ops[k].iv, js[ops[k].src])
  }

  ghost predicate OthersKept(js: seq<Job>, now: seq<Job>, ops: seq<Op>, t: nat)
    requires |now| == |js| && t <= |ops|
  {
    forall i :: 0 <= i < |js| && !Touched(ops, t, i) ==> now[i] == js[i]
  }

  /** The jobs of the first operations have taken over the status returned for them. */
  ghost predicate Settled(js: seq<Job>, now: seq<Job>, ops: seq<Op>, done: seq<Op>, n: nat) {
    && |now| == |js| && n <= |done| <= |ops| && InRange(ops, |js|)
    && (forall k :: 0 <= k < n ==> now[ops[k].src] == Result(js[ops[k].src], done[k]))
    && OthersKept(js, now, ops, n)
  }

  lemma SettledNext(js: seq<Job>, now: seq<Job>, ops: seq<Op>, done: seq<Op>, n: nat)
    requires n < |done| && Apart(ops) && Settled(js, now, ops, done, n)
    ensures var i := ops[n].src;
            now[i] == js[i] && Settled(js, now[i := Result(js[i], done[n])], ops, done, n + 1)
  {
    var src := ops[n].src;
    assert !Touched(ops, n, src);
    var next := now[src := Result(js[src], done[n])];
    forall i | 0 <= i < |js| && !Touched(ops, n + 1, i) ensures next[i] == js[i] {
      assert ops[n].src != i;
      assert !Touched(ops, n, i);
    }
  }

  /** One chunk of dequeued operations, whatever its size, moves the progress on by that much. */
  lemma ChunkProgress(f: Cipher, js: seq<Job>, now: seq<Job>, mid: seq<Job>, end: seq<Job>, ops: seq<Op>, t: nat, done: seq<Op>)
    requires Progress(f, js, now, ops, t) && Apart(ops)
    requires Returned(f, now, mid, ops[t..], done) && Settled(mid, end, ops[t..], done, |done|)
    ensures Progress(f, js, end, ops, t + |done|)
  {
    var n := |done|;
    forall k | t <= k < t + n ensures end[ops[k].src] == CipheredWith(f, ops[k].session, ops[k].iv, js[ops[k].src]) {
      FreshJob(f, js, now, ops, t, k);
      assert ops[t..][k - t] == ops[k];
      ResultIsCiphered(f, js[ops[k].src], ops[k]);
    }
    forall i | 0 <= i < |js| && !Touched(ops[t..], n, i) ensures end[i] == now[i] {
    }
    forall k | 0 <= k < t ensures !Touched(ops[t..], n, ops[k].src) {
      NotLater(ops, t, n, k);
    }
    forall i | 0 <= i < |js| && !Touched(ops, t + n, i) ensures end[i] == js[i] {
      TouchedSplit(ops, t, n, i);
    }
  }

  lemma FreshJob(f: Cipher, js: seq<Job>, now: seq<Job>, ops: seq<Op>, t: nat, k: nat)
    requires Progress(f, js, now, ops, t) && Apart(ops) && t <= k < |ops|
    ensures now[ops[k].src] == js[ops[k].src]
  {
    assert !Touched(ops, t, ops[k].src);
  }

  lemma NotLater(ops: seq<Op>, t: nat, n: nat, k: nat)
    requires Apart(ops) && k < t <= t + n <= |ops|
    ensures !Touched(ops[t..], n, ops[k].src)
  {
    forall m | 0 <= m < n ensures ops[t..][m].src != ops[k].src {
      assert ops[t..][m] == ops[t + m];
    }
  }

  lemma TouchedSplit(ops: seq<Op>, t: nat, n: nat, i: nat)
    requires t + n <= |ops| && !Touched(ops, t + n, i)
    ensures !Touched(ops, t, i) && !Touched(ops[t..], n, i)
  {
    forall m | 0 <= m < n ensures ops[t..][m].src != i {
      assert ops[t..][m] == ops[t + m];
    }
  }

  function Elements(ids: seq<nat>): set<nat> { set x | x in ids }

  function Ids(ops: seq<Op>): set<nat> { set op | op in ops :: op.id }

  lemma IdsSplit(ops: seq<Op>, n: nat)
    requires n <= |ops|
    ensures Ids(ops) == Ids(ops[..n]) + Ids(ops[n..])
  {
    assert ops == ops[..n] + ops[n..];
  }

  lemma IdsAre(ops: seq<Op>, ids: seq<nat>)
    requires |ops| == |ids| && forall k :: 0 <= k < |ids| ==> ops[k].id == ids[k]
    ensures Ids(ops) == Elements(ids)
  {
    forall x | x in ids ensures x in Ids(ops) {
      var k :| 0 <= k < |ids| && ids[k] == x;
      assert ops[k] in ops;
    }
  }

  lemma RestApart(ops: seq<Op>, t: nat, n: nat)
    requires Apart(ops) && t <= |ops| && InRange(ops, n)
    ensures Apart(ops[t..]) && InRange(ops[t..], n)
  {
  }

  /** Giving back the operations of a chunk leaves exactly those of the rest to be given back. */
  lemma PoolBack(pool: set<nat>, ops: seq<Op>, t: nat, n: nat)
    requires t + n <= |ops|
    ensures ops[t..][n..] == ops[t + n..]
    ensures pool + Ids(ops[t..][..n]) + Ids(ops[t + n..]) == pool + Ids(ops[t..])
  {
    assert ops[t..][n..] == ops[t + n..];
    IdsSplit(ops[t..], n);
    Regroup(pool, Ids(ops[t..][..n]), Ids(ops[t + n..]));
  }

  lemma NoneReturned(f: Cipher, js: seq<Job>, now: seq<Job>, queue: seq<Op>)
    requires Returned(f, js, now, queue, [])
    ensures now == js
  {
    forall i | 0 <= i < |js| ensures now[i] == js[i] {
      assert !Touched(queue, 0, i);
    }
  }

  /** Judging an operation leaves its place in the pool. */
  lemma IdsReturned(f: Cipher, js: seq<Job>, now: seq<Job>, queue: seq<Op>, done: seq<Op>)
    requires Returned(f, js, now, queue, done)
    ensures Ids(done) == Ids(queue[..|done|])
  {
    var ids := seq(|done|, k requires 0 <= k < |done| => queue[k].id);
    IdsAre(done, ids);
    IdsAre(queue[..|done|], ids);
  }

  /** One operation per listed job, in order. */
  ghost predicate Prepared(js: seq<Job>, ix: seq<nat>, ready: seq<Op>) { ForJobs(js, ix, ready) && Apart(ready) }

  ghost predicate ForJobs(js: seq<Job>, ix: seq<nat>, ready: seq<Op>) {
    && |ready| == |ix|
    && forall k :: 0 <= k < |ix| ==> ix[k] == ready[k].src < |js|
  }

  /** The operations filled so far: pool object, session, job and vector belong together. */
  ghost predicate Filled(u: Setup, s: Registry, ch: nat, js: seq<Job>, ix: seq<nat>, ids: seq<nat>, areas: map<nat, Area>, ready: seq<Op>)
    requires |ready| <= |ix| && Fillable(areas, js, ix, ids) && AllResolve(u, s, ch, js, ix)
  {
    forall k :: 0 <= k < |ready| ==> ready[k] == OpFor(u, s, ch, js[ix[k]], ix[k], ids[k], areas[ids[k]])
  }

  /** The loop of set_ops_cipher has filled these operations. */
  ghost predicate Filling(u: Setup, s: Registry, ch: nat, js: seq<Job>, ix: seq<nat>, ids: seq<nat>,
                          was: map<nat, Area>, areas: map<nat, Area>, ready: seq<Op>) {
    && |ready| <= |ix| && Fillable(was, js, ix, ids) && AllResolve(u, s, ch, js, ix)
    && Filled(u, s, ch, js, ix, ids, was, ready) && SameAreas(areas, Refilled(was, js, ix, ids, |ready|))
  }

  lemma FillingNext(u: Setup, s: Registry, ch: nat, js: seq<Job>, ix: seq<nat>, ids: seq<nat>,
                    was: map<nat, Area>, areas: map<nat, Area>, ready: seq<Op>)
    requires Filling(u, s, ch, js, ix, ids, was, areas, ready) && Distinct(ids) && |ready| < |ix|
    ensures var i := |ready|;
            var j, id := js[ix[i]], ids[i];
            && id in areas
            && Filling(u, s, ch, js, ix, ids, was, areas[id := Loaded(areas[id], j.iv)], ready + [OpFor(u, s, ch, j, ix[i], id, areas[id])])
  {
    UntouchedArea(was, js, ix, ids, |ready|, ids[|ready|]);
  }

  /** The operation for job i, which held `area`. */
  function OpFor(u: Setup, s: Registry, ch: nat, j: Job, i: nat, id: nat, area: Area): Op
    requires Lookup(u, s, ch, j.sessId).Some?
  {
    Op(id, s.Contents(Lookup(u, s, ch, j.sessId).value), i, Loaded(area, j.iv), OpNotProcessed)
  }

  /** The areas have been renewed by the vectors of these jobs, no operation twice. */
  ghost predicate Renewed(was: map<nat, Area>, js: seq<Job>, ix: seq<nat>, ids: seq<nat>, now: map<nat, Area>) {
    Fillable(was, js, ix, ids) && Distinct(ids) && IsRefilled(was, js, ix, ids, now)
  }

  ghost predicate IsRefilled(was: map<nat, Area>, js: seq<Job>, ix: seq<nat>, ids: seq<nat>, now: map<nat, Area>)
    requires Fillable(was, js, ix, ids)
  {
    now == Refilled(was, js, ix, ids, |ids|)
  }

  lemma TakenFillable(areas: map<nat, Area>, pool: set<nat>, js: seq<Job>, ix: seq<nat>, ids: seq<nat>)
    requires Elements(ids) <= pool <= areas.Keys && |ids| == |ix| && forall k :: 0 <= k < |ix| ==> ix[k] < |js|
    ensures Fillable(areas, js, ix, ids)
  {
    assert forall k :: 0 <= k < |ids| ==> ids[k] in Elements(ids);
  }

  /** The operations of the listed jobs are ready for the device. */
  ghost predicate Readied(u: Setup, s: Registry, ch: nat, js: seq<Job>, ix: seq<nat>, ids: seq<nat>, areas: map<nat, Area>, ready: seq<Op>) {
    && Prepared(js, ix, ready) && |ready| == |ix| && Fillable(areas, js, ix, ids) && AllResolve(u, s, ch, js, ix)
    && Filled(u, s, ch, js, ix, ids, areas, ready)
  }

  lemma FilledPrepared(u: Setup, s: Registry, ch: nat, js: seq<Job>, ix: seq<nat>, ids: seq<nat>, areas: map<nat, Area>, ready: seq<Op>)
    requires |ready| == |ix| && Fillable(areas, js, ix, ids) && Increasing(ix) && AllResolve(u, s, ch, js, ix)
    requires Filled(u, s, ch, js, ix, ids, areas, ready)
    ensures Readied(u, s, ch, js, ix, ids, areas, ready) && Ids(ready) == Elements(ids)
  {
    IdsAre(ready, ids);
  }

  lemma Regroup(o: set<nat>, a: set<nat>, b: set<nat>)
    ensures o + a + b == o + (a + b)
  {
  }

  /** Every listed job has a session. */
  ghost predicate AllResolve(u: Setup, s: Registry, ch: nat, js: seq<Job>, ix: seq<nat>) {
    forall k :: 0 <= k < |ix| ==> ix[k] < |js| && Lookup(u, s, ch, js[ix[k]].sessId).Some?
  }

  ghost predicate Increasing(ix: seq<nat>) { forall k, k' :: 0 <= k < k' < |ix| ==> ix[k] < ix[k'] }

  /** Filling other operations leaves an area. */
  lemma {:induction false} UntouchedArea(areas: map<nat, Area>, jobs: seq<Job>, ix: seq<nat>, ids: seq<nat>, n: nat, x: nat)
    requires Fillable(areas, jobs, ix, ids) && n <= |ids| && x in areas && forall k :: 0 <= k < n ==> ids[k] != x
    ensures Refilled(areas, jobs, ix, ids, n)[x] == areas[x]
  {
    if n > 0 {
      UntouchedArea(areas, jobs, ix, ids, n - 1, x);
    }
  }

  /** Exactly the listed jobs have been ciphered, each with its own session and the area its operation held. */
  ghost predicate CipheredAt(f: Cipher, u: Setup, s: Registry, ch: nat, js: seq<Job>, now: seq<Job>, ix: seq<nat>, ids: seq<nat>, areas: map<nat, Area>) {
    && |now| == |js| && Fillable(areas, js, ix, ids)
    && (forall k :: 0 <= k < |ix| ==>
          && ix[k] < |js| && Lookup(u, s, ch, js[ix[k]].sessId).Some?
          && now[ix[k]] == Ciphered(f, s.Contents(Lookup(u, s, ch, js[ix[k]].sessId).value), areas[ids[k]], js[ix[k]]))
    && (forall i :: 0 <= i < |js| && i !in ix ==> now[i] == js[i])
  }

  lemma CipheredAll(f: Cipher, u: Setup, s: Registry, ch: nat, js: seq<Job>, now: seq<Job>, ix: seq<nat>, ids: seq<nat>,
                    areas: map<nat, Area>, ready: seq<Op>)
    requires Progress(f, js, now, ready, |ready|) && Readied(u, s, ch, js, ix, ids, areas, ready)
    ensures CipheredAt(f, u, s, ch, js, now, ix, ids, areas)
  {
    forall i | 0 <= i < |js| && i !in ix ensures now[i] == js[i] {
      assert !Touched(ready, |ready|, i);
    }
    forall k | 0 <= k < |ix| ensures now[ix[k]] == CipheredWith(f, ready[k].session, ready[k].iv, js[ix[k]]) {
      assert ready[k].src == ix[k];
    }
  }
}
