/**
 A burst of jobs through the server: creates and checks in order, then the ciphering, then the
 closes in order.
 */
module Pipeline {
  import opened Basics
  import opened Sessions
  import opened SessionTheorems

  const IV_SIZE: nat := 16

  datatype Kind = Ciphering | Creating | Closing | Unknown
  datatype Status = NotProcessed | Succ | Failed
  datatype Job = Job(
    kind: Kind, status: Status, sessId: nat, algo: nat, cipherOp: nat, buffers: nat,
    data: seq<Byte>, key: seq<Byte>, iv: seq<Byte>)

  /** What a create asks its session to be initialised with. */
  function Wanted(j: Job): Config { Config(j.algo, j.cipherOp, j.key) }

  /** The bytes of an operation the device takes the vector from. */
  type Area = a: seq<Byte> | |a| == IV_SIZE witness seq(IV_SIZE, _ => 0)

  /** A vector is copied over the front of the area; the rest of the area stays as it was. */
  function Loaded(area: Area, iv: seq<Byte>): Area {
    if |iv| >= IV_SIZE then iv[..IV_SIZE] else iv + area[|iv|..]
  }

  /** What a device makes of one operation, given what its session holds, the data and the vector area. */
  datatype OpStatus = OpNotProcessed | OpSuccess | OpError
  type Cipher = (Config, seq<Byte>, Area) -> (OpStatus, seq<Byte>)

  /** The ciphering stage: the devices, and what the operation drawn for each job held before it was filled. */
  datatype Engine = Engine(cipher: Cipher, held: seq<Area>)

  /** What pool and device answer while one job is prepared. */
  datatype Answer = Answer(pick: Option<Handle>, initOk: bool)

  /** A burst on a channel, with the answers its creates get and the number of operations in the pool. */
  datatype Burst = Burst(setup: Setup, start: Registry, channel: nat, jobs: seq<Job>, answers: seq<Answer>, ops: nat) {
    ghost predicate Sized() { |answers| == |jobs| }
    ghost predicate Served(e: Engine) { Sized() && |e.held| == |jobs| }
  }

  predicate IsCreate(j: Job) { j.status != Failed && j.kind.Creating? }

  /** One pass of preprocess_jobs. */
  function PreJob(u: Setup, s: Registry, ch: nat, j: Job, a: Answer): (Registry, Job) {
    if j.status.Failed? then (s, j.(buffers := 0))
    else match j.kind
      case Creating =>
        var (t, id) := CreateSession(u, s, ch, Wanted(j), a.pick, a.initOk);
        (t, if id.Some? then j.(status := Succ, sessId := id.value) else j.(status := Failed, sessId := NO_SESSION))
      case Closing => (s, j)
      case Ciphering =>
        (s, if Lookup(u, s, ch, j.sessId).None? then j.(status := Failed, buffers := 0) else j.(status := Succ, buffers := 1))
      case Unknown => (s, j.(status := Failed, buffers := 0))
  }

  /** The registry before job n is prepared. */
  function PreState(b: Burst, n: nat): Registry
    requires b.Sized() && n <= |b.jobs|
  {
    if n == 0 then b.start else PreJob(b.setup, PreState(b, n - 1), b.channel, b.jobs[n - 1], b.answers[n - 1]).0
  }

  function PreOut(b: Burst, i: nat): Job
    requires b.Sized() && i < |b.jobs|
  {
    PreJob(b.setup, PreState(b, i), b.channel, b.jobs[i], b.answers[i]).1
  }

  /** Job i is a cipher job that preprocess_jobs lets through. */
  predicate Accepted(b: Burst, i: nat)
    requires b.Sized() && i < |b.jobs|
  {
    b.jobs[i].status != Failed && b.jobs[i].kind.Ciphering? &&
    Lookup(b.setup, PreState(b, i), b.channel, b.jobs[i].sessId).Some?
  }

  /** The index list preprocess_jobs builds for a device out of the first n jobs. */
  function IndexList(b: Burst, dev: nat, n: nat): (ix: seq<nat>)
    requires b.Sized() && n <= |b.jobs|
    ensures |ix| <= n
    ensures forall k :: 0 <= k < |ix| ==> ix[k] < n && Accepted(b, ix[k]) && DeviceOf(b.jobs[ix[k]].sessId) == dev
    ensures forall k, k' :: 0 <= k < k' < |ix| ==> ix[k] < ix[k']
  {
    if n == 0 then []
    else if Accepted(b, n - 1) && DeviceOf(b.jobs[n - 1].sessId) == dev then IndexList(b, dev, n - 1) + [n - 1]
    else IndexList(b, dev, n - 1)
  }

  /** The lists cover the accepted jobs, each in the list of the device its id names and in no other. */
  lemma {:induction false} ListsCover(b: Burst, n: nat, i: nat)
    requires b.Sized() && i < n <= |b.jobs| && Accepted(b, i)
    ensures DeviceOf(b.jobs[i].sessId) < b.setup.devices
    ensures forall dev :: i in IndexList(b, dev, n) <==> dev == DeviceOf(b.jobs[i].sessId)
  {
    if i < n - 1 {
      ListsCover(b, n - 1, i);
    }
    var dev := DeviceOf(b.jobs[i].sessId);
    var ix := IndexList(b, dev, n);
    if i == n - 1 {
      assert ix[|ix| - 1] == i;
    } else {
      var k :| 0 <= k < |IndexList(b, dev, n - 1)| && IndexList(b, dev, n - 1)[k] == i;
      assert ix[k] == i;
    }
  }

  /** Preparing more jobs only fills empty slots: a session that resolved goes on resolving. */
  lemma {:induction false} StillResolves(b: Burst, i: nat, n: nat, id: nat)
    requires b.Sized() && i <= n <= |b.jobs|
    requires Lookup(b.setup, PreState(b, i), b.channel, id).Some?
    ensures Lookup(b.setup, PreState(b, n), b.channel, id) == Lookup(b.setup, PreState(b, i), b.channel, id)
  {
    if i < n {
      StillResolves(b, i, n - 1, id);
      var j, a := b.jobs[n - 1], b.answers[n - 1];
      if IsCreate(j) {
        ResolvesOn(b.setup, PreState(b, n - 1), Open(b.channel, Wanted(j), a.pick, a.initOk), b.channel, id);
      }
    }
  }

  /** set_ops_cipher, the device and set_ops_cipher_result, for one operation. */
  function Ciphered(f: Cipher, c: Config, area: Area, j: Job): Job { CipheredWith(f, c, Loaded(area, j.iv), j) }

  /** The device and set_ops_cipher_result, once the vector is in its area. */
  function CipheredWith(f: Cipher, c: Config, v: Area, j: Job): Job {
    var (st, out) := f(c, j.data, v);
    match st
    case OpNotProcessed => j.(data := out)
    case OpSuccess => j.(data := out, status := Succ)
    case OpError => j.(data := out, status := Failed)
  }

  /** The session set_ops_cipher attaches to job i. */
  function SessionOf(b: Burst, i: nat): (h: Option<Handle>)
    requires b.Sized() && i < |b.jobs|
  {
    Lookup(b.setup, PreState(b, |b.jobs|), b.channel, PreOut(b, i).sessId)
  }

  /**
   The branch for a missing session in set_ops_cipher is unreachable: the session found when the
   job was accepted is the one attached to its operation.
   */
  lemma AcceptedHasSession(b: Burst, i: nat)
    requires b.Sized() && i < |b.jobs| && Accepted(b, i)
    ensures SessionOf(b, i).Some?
    ensures SessionOf(b, i) == Lookup(b.setup, PreState(b, i), b.channel, b.jobs[i].sessId)
  {
    StillResolves(b, i, |b.jobs|, b.jobs[i].sessId);
  }

  /** What job i's session holds while the burst is ciphered. */
  function SessionConfig(b: Burst, i: nat): Config
    requires b.Sized() && i < |b.jobs|
  {
    if SessionOf(b, i).Some? then PreState(b, |b.jobs|).Contents(SessionOf(b, i).value) else BLANK
  }

  /** The pool has an operation for every job on job i's device; otherwise run_jobs_inner gives up. */
  predicate OpsSuffice(b: Burst, i: nat)
    requires b.Sized() && i < |b.jobs|
  {
    |IndexList(b, DeviceOf(b.jobs[i].sessId), |b.jobs|)| <= b.ops
  }

  /** Job i between ciphering and postprocess_jobs. */
  function MidOut(b: Burst, e: Engine, i: nat): Job
    requires b.Served(e) && i < |b.jobs|
  {
    if Accepted(b, i) && OpsSuffice(b, i) && SessionOf(b, i).Some?
    then Ciphered(e.cipher, SessionConfig(b, i), e.held[i], PreOut(b, i)) else PreOut(b, i)
  }

  /** One pass of postprocess_jobs. */
  function PostJob(u: Setup, s: Registry, ch: nat, j: Job): (Registry, Job) {
    if j.kind.Closing? then
      var (t, ok) := Remove(u, s, ch, j.sessId);
      (t, j.(status := if ok then Succ else Failed))
    else (s, j)
  }

  /** The registry before job n is taken through postprocess_jobs; ciphering changes neither kind nor id. */
  function PostState(b: Burst, n: nat): Registry
    requires b.Sized() && n <= |b.jobs|
  {
    if n == 0 then PreState(b, |b.jobs|)
    else PostJob(b.setup, PostState(b, n - 1), b.channel, PreOut(b, n - 1)).0
  }

  /** Job i as run_jobs leaves it. */
  function Outcome(b: Burst, e: Engine, i: nat): Job
    requires b.Served(e) && i < |b.jobs|
  {
    PostJob(b.setup, PostState(b, i), b.channel, MidOut(b, e, i)).1
  }

  /** What a job is and names does not change before its turn in postprocess_jobs. */
  lemma MidKind(b: Burst, e: Engine, i: nat)
    requires b.Served(e) && i < |b.jobs|
    ensures MidOut(b, e, i).kind == PreOut(b, i).kind == b.jobs[i].kind
    ensures b.jobs[i].kind.Closing? ==> MidOut(b, e, i) == PreOut(b, i) && PreOut(b, i).sessId == b.jobs[i].sessId
    ensures PostState(b, i + 1) == PostJob(b.setup, PostState(b, i), b.channel, MidOut(b, e, i)).0
  {
  }

  /**
   An accepted job carries what the device made of its own data under its own session when the
   pool has operations for the whole list of its device, and otherwise its own data, as a success.
   */
  lemma OwnResult(b: Burst, e: Engine, i: nat)
    requires b.Served(e) && i < |b.jobs| && Accepted(b, i)
    ensures var j := b.jobs[i].(status := Succ, buffers := 1);
            Outcome(b, e, i) == if OpsSuffice(b, i) then Ciphered(e.cipher, SessionConfig(b, i), e.held[i], j) else j
  {
    AcceptedHasSession(b, i);
  }

  /** What the device answers for an accepted job. */
  function DeviceAnswer(b: Burst, e: Engine, i: nat): (OpStatus, seq<Byte>)
    requires b.Served(e) && i < |b.jobs| && Accepted(b, i)
  {
    e.cipher(SessionConfig(b, i), b.jobs[i].data, Loaded(e.held[i], b.jobs[i].iv))
  }

  /** The device was asked about job i and answered success. */
  predicate DeviceSucceeded(b: Burst, e: Engine, i: nat)
    requires b.Served(e) && i < |b.jobs| && Accepted(b, i)
  {
    OpsSuffice(b, i) && DeviceAnswer(b, e, i).0.OpSuccess?
  }

  /**
   An accepted job is reported as successful without a success of the device if and only if the
   pool is too small for its device's list or the device leaves its operation unprocessed.
   */
  lemma FalseSuccessIff(b: Burst, e: Engine, i: nat)
    requires b.Served(e) && i < |b.jobs| && Accepted(b, i)
    ensures Outcome(b, e, i).status.Succ? && !DeviceSucceeded(b, e, i) <==>
            !OpsSuffice(b, i) || DeviceAnswer(b, e, i).0.OpNotProcessed?
  {
    OwnResult(b, e, i);
  }

  /** A burst of one cipher job. */
  function Single(u: Setup, s: Registry, ch: nat, id: nat, data: seq<Byte>, iv: seq<Byte>, ops: nat): Burst {
    Burst(u, s, ch, [Job(Ciphering, NotProcessed, id, 0, 0, 1, data, [], iv)], [Answer(None, false)], ops)
  }

  lemma SingleAccepted(u: Setup, s: Registry, ch: nat, id: nat, data: seq<Byte>, iv: seq<Byte>, ops: nat)
    requires Lookup(u, s, ch, id).Some?
    ensures var b := Single(u, s, ch, id, data, iv, ops);
            && Accepted(b, 0) && IndexList(b, DeviceOf(id), 1) == [0] && PreState(b, 1) == s
            && SessionConfig(b, 0) == s.Contents(Lookup(u, s, ch, id).value)
  {
    var b := Single(u, s, ch, id, data, iv, ops);
    assert PreState(b, 0) == s;
    assert IndexList(b, DeviceOf(id), 0) == [];
  }

  /** First way to a false success: no operation in the pool. */
  lemma EmptyPoolReportsSuccess(u: Setup, s: Registry, ch: nat, id: nat, data: seq<Byte>, iv: seq<Byte>, e: Engine)
    requires Lookup(u, s, ch, id).Some? && |e.held| == 1
    ensures var b := Single(u, s, ch, id, data, iv, 0);
            Outcome(b, e, 0) == b.jobs[0].(status := Succ, buffers := 1)
  {
    SingleAccepted(u, s, ch, id, data, iv, 0);
    OwnResult(Single(u, s, ch, id, data, iv, 0), e, 0);
  }

  /** Second way: the device hands the operation back unprocessed. */
  lemma UnprocessedReportsSuccess(u: Setup, s: Registry, ch: nat, id: nat, data: seq<Byte>, iv: seq<Byte>, e: Engine)
    requires Lookup(u, s, ch, id).Some? && |e.held| == 1
    requires e.cipher(s.Contents(Lookup(u, s, ch, id).value), data, Loaded(e.held[0], iv)) == (OpNotProcessed, data)
    ensures var b := Single(u, s, ch, id, data, iv, 1);
            OpsSuffice(b, 0) && Outcome(b, e, 0) == b.jobs[0].(status := Succ, buffers := 1)
  {
    SingleAccepted(u, s, ch, id, data, iv, 1);
    OwnResult(Single(u, s, ch, id, data, iv, 1), e, 0);
  }

  // ----- what each kind of job is answered

  /** A cipher job whose session does not resolve is refused. */
  lemma RefusedOutcome(b: Burst, e: Engine, i: nat)
    requires b.Served(e) && i < |b.jobs| && b.jobs[i].kind.Ciphering? && b.jobs[i].status != Failed
    requires Lookup(b.setup, PreState(b, i), b.channel, b.jobs[i].sessId).None?
    ensures Outcome(b, e, i) == b.jobs[i].(status := Failed, buffers := 0)
  {
  }

  /** So is a job of an unknown kind. */
  lemma UnknownOutcome(b: Burst, e: Engine, i: nat)
    requires b.Served(e) && i < |b.jobs| && b.jobs[i].kind.Unknown?
    ensures Outcome(b, e, i) == b.jobs[i].(status := Failed, buffers := 0)
  {
  }

  /**
   A create is answered with success and the id of its session, or with FAILED and the id -1; it
   fails exactly for an unknown algorithm, without an object, when the device refuses, or without a slot.
   */
  lemma CreateOutcome(b: Burst, e: Engine, i: nat)
    requires b.Served(e) && i < |b.jobs| && IsCreate(b.jobs[i])
    ensures var j, a, s, o := b.jobs[i], b.answers[i], PreState(b, i), Outcome(b, e, i);
            if o.status.Succ? then
              && o == j.(status := Succ, sessId := o.sessId) && Serves(b.setup, o.sessId, j.algo)
              && j.algo < 2 && a.pick.Some? && a.initOk && Key(b.channel, o.sessId / 65536, o.sessId % 65536) !in s.live
            else
              && o == j.(status := Failed, sessId := 0xFFFF_FFFF)
              && (|| j.algo >= 2 || a.pick.None? || !a.initOk
                  || forall k :: 0 <= k < MAX_SESS_NUM ==> Key(b.channel, b.setup.Device(j.algo), k) in s.live)
  {
    var j, a, s := b.jobs[i], b.answers[i], PreState(b, i);
    MidKind(b, e, i);
    CreateFailsIff(b.setup, s, b.channel, Wanted(j), a.pick, a.initOk);
    if CreateSession(b.setup, s, b.channel, Wanted(j), a.pick, a.initOk).1.Some? {
      DeviceChosen(b.setup, s, b.channel, Wanted(j), a.pick, a.initOk);
    }
  }

  /** A close is answered with success exactly when its id still resolves at its turn; afterwards it does not. */
  lemma CloseOutcome(b: Burst, e: Engine, i: nat)
    requires b.Served(e) && i < |b.jobs| && b.jobs[i].kind.Closing?
    ensures var o := Outcome(b, e, i);
            && o.status == (if Lookup(b.setup, PostState(b, i), b.channel, b.jobs[i].sessId).Some? then Succ else Failed)
            && o == b.jobs[i].(status := o.status, buffers := o.buffers)
    ensures Lookup(b.setup, PostState(b, i + 1), b.channel, b.jobs[i].sessId) == None
  {
    MidKind(b, e, i);
    CloseEnds(b.setup, PostState(b, i), b.channel, b.jobs[i].sessId);
  }

  /** One of the first n jobs is a close of this id. */
  ghost predicate ClosedBy(b: Burst, n: nat, id: nat)
    requires n <= |b.jobs|
  {
    exists m :: 0 <= m < n && b.jobs[m].kind.Closing? && b.jobs[m].sessId == id
  }

  /** At the turn of job n an id resolves exactly when it did before the closes and no close of it came earlier in the burst. */
  lemma {:induction false} ResolvesAtTurn(b: Burst, n: nat, id: nat)
    requires b.Sized() && n <= |b.jobs|
    ensures Lookup(b.setup, PostState(b, n), b.channel, id) ==
            if ClosedBy(b, n, id) then None else Lookup(b.setup, PreState(b, |b.jobs|), b.channel, id)
  {
    if n > 0 {
      ResolvesAtTurn(b, n - 1, id);
      var j := PreOut(b, n - 1);
      assert j.kind == b.jobs[n - 1].kind;
      if j.kind.Closing? {
        assert j.sessId == b.jobs[n - 1].sessId;
        CloseEnds(b.setup, PostState(b, n - 1), b.channel, j.sessId);
        if j.sessId != id && Lookup(b.setup, PostState(b, n - 1), b.channel, id).Some? {
          ResolvesOn(b.setup, PostState(b, n - 1), Close(b.channel, j.sessId), b.channel, id);
        }
      }
    }
  }

  /** Every job leaves run_jobs decided, and what was marked FAILED on the way in stays FAILED and empty, closes excepted. */
  lemma EveryJobDecided(b: Burst, e: Engine, i: nat)
    requires b.Served(e) && i < |b.jobs|
    ensures Outcome(b, e, i).status != NotProcessed
    ensures b.jobs[i].status.Failed? && !b.jobs[i].kind.Closing? ==> Outcome(b, e, i) == b.jobs[i].(buffers := 0)
    ensures Outcome(b, e, i).kind == b.jobs[i].kind
  {
    if Accepted(b, i) {
      AcceptedHasSession(b, i);
    }
  }

  /** The pool handed out only objects it had. */
  ghost predicate AnswersFit(b: Burst, n: nat)
    requires b.Sized() && n <= |b.jobs|
  {
    forall i :: 0 <= i < n && IsCreate(b.jobs[i]) ==>
      Enabled(PreState(b, i), Open(b.channel, Wanted(b.jobs[i]), b.answers[i].pick, b.answers[i].initOk))
  }

  /** A burst that can happen: it starts with a sound registry and gets answers the session pool can give. */
  ghost predicate Intact(b: Burst, pool: set<Handle>) {
    b.Sized() && SoundStart(b, pool) && AnswersFit(b, |b.jobs|)
  }

  ghost predicate SoundStart(b: Burst, pool: set<Handle>) {
    b.setup.Valid() && Conserved(b.start, pool) && KeysValid(b.start)
  }

  lemma {:induction false} PreparingConserves(b: Burst, pool: set<Handle>, n: nat)
    requires Intact(b, pool) && n <= |b.jobs|
    ensures Conserved(PreState(b, n), pool) && KeysValid(PreState(b, n))
  {
    if n > 0 {
      PreparingConserves(b, pool, n - 1);
      var j, a := b.jobs[n - 1], b.answers[n - 1];
      if IsCreate(j) {
        ConservedCreate(b.setup, PreState(b, n - 1), pool, Open(b.channel, Wanted(j), a.pick, a.initOk));
      }
    }
  }

  /** A burst, whatever is in it and however its creates fare, leaks no session object and uses none twice. */
  lemma {:induction false} BurstConserves(b: Burst, pool: set<Handle>, n: nat)
    requires Intact(b, pool) && n <= |b.jobs|
    ensures Conserved(PostState(b, n), pool) && KeysValid(PostState(b, n))
  {
    if n == 0 {
      PreparingConserves(b, pool, |b.jobs|);
    } else {
      BurstConserves(b, pool, n - 1);
      var j := PreOut(b, n - 1);
      if j.kind.Closing? {
        ConservedClose(b.setup, PostState(b, n - 1), pool, Close(b.channel, j.sessId));
      }
    }
  }
}
