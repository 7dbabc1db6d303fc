/**
 The devices served one after the other: which operations each draws, what those held, and what
 that makes of the jobs.
 */
module DevicePasses {
  import opened Basics
  import opened Sessions
  import opened Pipeline
  import opened Vectors
  import opened Operations

  const BLANK_AREA: Area := seq(IV_SIZE, _ => 0)

  /** What the operations held. */
  ghost function HeldBy(areas: map<nat, Area>, ids: seq<nat>): (held: seq<Area>)
    requires forall k :: 0 <= k < |ids| ==> ids[k] in areas
    ensures |held| == |ids| && forall k :: 0 <= k < |ids| ==> held[k] == areas[ids[k]]
  {
    seq(|ids|, k requires 0 <= k < |ids| => areas[ids[k]])
  }

  /** Only the vectors of the jobs matter. */
  lemma {:induction false} SameRefill(areas: map<nat, Area>, jobs: seq<Job>, jobs': seq<Job>, ix: seq<nat>, ids: seq<nat>, n: nat)
    requires Fillable(areas, jobs, ix, ids) && Fillable(areas, jobs', ix, ids) && n <= |ids|
    requires forall k :: 0 <= k < |ix| ==> jobs[ix[k]].iv == jobs'[ix[k]].iv
    ensures Refilled(areas, jobs, ix, ids, n) == Refilled(areas, jobs', ix, ids, n)
  {
    if n > 0 {
      SameRefill(areas, jobs, jobs', ix, ids, n - 1);
    }
  }

  /** Job i after the first devices have been served. */
  function MidUpTo(b: Burst, e: Engine, devices: nat, i: nat): Job
    requires b.Served(e) && i < |b.jobs|
  {
    if DeviceOf(b.jobs[i].sessId) < devices then MidOut(b, e, i) else PreOut(b, i)
  }

  /** How far the loop over the devices has come: areas at its start, what operations held, which were drawn. */
  datatype Serving = Serving(start: map<nat, Area>, held: seq<Area>, draws: seq<seq<nat>>) {
    function Device(): nat { |draws| }

    ghost predicate Reached(b: Burst, f: Cipher, areas: map<nat, Area>, now: seq<Job>) {
      && b.Served(Engine(f, held)) && |now| == |b.jobs|
      && HeldIn(b, Engine(f, held), start, draws) && areas == AreasBefore(b, start, draws, |draws|)
      && JobsReached(b, Engine(f, held), |draws|, now)
    }
  }

  ghost predicate JobsReached(b: Burst, e: Engine, dev: nat, now: seq<Job>)
    requires b.Served(e) && |now| == |b.jobs|
  {
    forall i :: 0 <= i < |now| ==> JobReached(b, e, dev, now[i], i)
  }

  ghost predicate JobReached(b: Burst, e: Engine, dev: nat, j: Job, i: nat)
    requires b.Served(e) && i < |b.jobs|
  {
    j == MidUpTo(b, e, dev, i)
  }

  lemma NoneServed(b: Burst, f: Cipher, at: Serving, now: seq<Job>)
    requires b.Served(Engine(f, at.held)) && |now| == |b.jobs| && at.draws == []
    requires forall i :: 0 <= i < |now| ==> now[i] == PreOut(b, i)
    ensures at.Reached(b, f, at.start, now)
  {
  }

  lemma AllServed(b: Burst, f: Cipher, at: Serving, areas: map<nat, Area>, now: seq<Job>)
    requires b.Sized() && at.Reached(b, f, areas, now) && at.Device() == b.setup.devices
    ensures ClosedUpTo(b, Engine(f, at.held), PreState(b, |b.jobs|), now, 0)
  {
    forall i | 0 <= i < |b.jobs| ensures now[i] == MidOut(b, Engine(f, at.held), i) {
      if Accepted(b, i) {
        ListsCover(b, |b.jobs|, i);
      }
    }
  }

  /** Before its device is served, every listed job is as prepared and its session is there. */
  lemma ListReady(b: Burst, e: Engine, js: seq<Job>, dev: nat)
    requires b.Served(e) && |js| == |b.jobs| && JobsReached(b, e, dev, js)
    ensures var ix := IndexList(b, dev, |b.jobs|);
            && |ix| <= |b.jobs| && Increasing(ix)
            && AllResolve(b.setup, PreState(b, |b.jobs|), b.channel, js, ix)
            && forall k :: 0 <= k < |ix| ==> js[ix[k]] == PreOut(b, ix[k]) && js[ix[k]].iv == b.jobs[ix[k]].iv
  {
    var ix := IndexList(b, dev, |b.jobs|);
    forall k | 0 <= k < |ix|
      ensures js[ix[k]] == PreOut(b, ix[k])
      ensures Lookup(b.setup, PreState(b, |b.jobs|), b.channel, js[ix[k]].sessId).Some?
    {
      AcceptedHasSession(b, ix[k]);
    }
  }

  /** What the operations of one more device held. */
  function Noted(held: seq<Area>, ix: seq<nat>, areas: seq<Area>, n: nat): (r: seq<Area>)
    requires n <= |ix| == |areas| && forall k :: 0 <= k < |ix| ==> ix[k] < |held|
    ensures |r| == |held|
  {
    if n == 0 then held else Noted(held, ix, areas, n - 1)[ix[n - 1] := areas[n - 1]]
  }

  lemma {:induction false} NotedAt(held: seq<Area>, ix: seq<nat>, areas: seq<Area>, n: nat)
    requires n <= |ix| == |areas| && (forall k :: 0 <= k < |ix| ==> ix[k] < |held|) && Increasing(ix)
    ensures forall k :: 0 <= k < n ==> Noted(held, ix, areas, n)[ix[k]] == areas[k]
    ensures forall i :: 0 <= i < |held| && i !in ix[..n] ==> Noted(held, ix, areas, n)[i] == held[i]
  {
    if n > 0 {
      NotedAt(held, ix, areas, n - 1);
      assert ix[..n] == ix[..n - 1] + [ix[n - 1]];
    }
  }

  /** Drawing for another device does not show before it. */
  lemma AreasStay(b: Burst, start: map<nat, Area>, draws: seq<seq<nat>>, ids: seq<nat>, d: nat)
    requires Drawn(b, start, draws) && Drawn(b, start, draws + [ids]) && d <= |draws|
    ensures SameAreas(AreasBefore(b, start, draws + [ids], d), AreasBefore(b, start, draws, d))
  {
    AreasPrefix(start, b.jobs, Fills(b, draws + [ids]), Fills(b, draws), d);
  }

  lemma DrawnNext(b: Burst, start: map<nat, Area>, draws: seq<seq<nat>>, ids: seq<nat>)
    requires Drawn(b, start, draws) && Fillable(start, b.jobs, Fed(b, |draws|), ids) && Distinct(ids)
    ensures Drawn(b, start, draws + [ids])
  {
    var fills := Fills(b, draws + [ids]);
    forall d | 0 <= d < |fills| ensures Fillable(start, b.jobs, fills[d].ix, fills[d].ids) {
      if d < |draws| {
        DrawnAt(b, start, draws, d);
      }
    }
  }

  /** What run_jobs_inner has done for a device's list: all of it, or nothing. */
  ghost predicate Ran(b: Burst, f: Cipher, dev: nat, was: map<nat, Area>, areas: map<nat, Area>, js: seq<Job>, now: seq<Job>, ids: seq<nat>)
    requires b.Sized()
  {
    var ix := IndexList(b, dev, |b.jobs|);
    if 0 < |ix| <= b.ops
    then Renewed(was, js, ix, ids, areas) && CipheredAt(f, b.setup, PreState(b, |b.jobs|), b.channel, js, now, ix, ids, was)
    else ids == [] && areas == was && now == js
  }

  lemma ServedNext(b: Burst, f: Cipher, at: Serving, was: map<nat, Area>, areas: map<nat, Area>, js: seq<Job>, now: seq<Job>, ids: seq<nat>)
    returns (at': Serving)
    requires b.Sized() && at.Reached(b, f, was, js) && Ran(b, f, at.Device(), was, areas, js, now, ids)
    ensures at'.Reached(b, f, areas, now) && at'.Device() == at.Device() + 1 && at'.start == at.start
  {
    var dev := at.Device();
    var ix := Fed(b, dev);
    RanForBurst(b, f, at, was, areas, js, now, ids);
    var held := Noted(at.held, ix, HeldBy(was, ids), |ix|);
    at' := Serving(at.start, held, at.draws + [ids]);
    NotedLearns(b, f, at.held, dev, was, ids);
    HeldNext(b, f, at, was, ids, held);
    JobsNext(b, Engine(f, at.held), Engine(f, held), dev, was, areas, js, now, ids);
  }

  /** The same in terms of the burst's own jobs. */
  lemma RanForBurst(b: Burst, f: Cipher, at: Serving, was: map<nat, Area>, areas: map<nat, Area>, js: seq<Job>, now: seq<Job>, ids: seq<nat>)
    requires b.Sized() && at.Reached(b, f, was, js) && Ran(b, f, at.Device(), was, areas, js, now, ids)
    ensures Renewed(was, b.jobs, Fed(b, at.Device()), ids, areas)
  {
    ListReady(b, Engine(f, at.held), js, at.Device());
    if Fed(b, at.Device()) != [] {
      SameRefill(was, js, b.jobs, Fed(b, at.Device()), ids, |ids|);
    }
  }

  /** The areas the new operations held are noted, and the older notes stay. */
  lemma HeldNext(b: Burst, f: Cipher, at: Serving, was: map<nat, Area>, ids: seq<nat>, held: seq<Area>)
    requires b.Sized() && |at.held| == |b.jobs| && HeldIn(b, Engine(f, at.held), at.start, at.draws)
    requires SameAreas(was, AreasBefore(b, at.start, at.draws, |at.draws|))
    requires Fillable(was, b.jobs, Fed(b, at.Device()), ids) && Distinct(ids)
    requires |held| == |b.jobs| && Learns(b, Engine(f, at.held), Engine(f, held), at.Device(), was, ids)
    ensures HeldIn(b, Engine(f, held), at.start, at.draws + [ids])
    ensures SameAreas(AreasBefore(b, at.start, at.draws + [ids], |at.draws|), was)
  {
    var dev := at.Device();
    var ix, draws := Fed(b, dev), at.draws + [ids];
    DrawnNext(b, at.start, at.draws, ids);
    forall d | 0 <= d < |draws| ensures HeldBefore(Engine(f, held), AreasBefore(b, at.start, draws, d), Fed(b, d), draws[d]) {
      AreasStay(b, at.start, at.draws, ids, d);
      if d < dev {
        assert HeldBefore(Engine(f, at.held), AreasBefore(b, at.start, at.draws, d), Fed(b, d), at.draws[d]);
        HeldOn(b, Engine(f, at.held), Engine(f, held), AreasBefore(b, at.start, at.draws, d), was, d, dev, at.draws[d], ids);
      }
    }
    AreasStay(b, at.start, at.draws, ids, dev);
  }

  /** What is learnt about one device leaves what is known about another. */
  lemma HeldOn(b: Burst, e: Engine, e': Engine, areas: map<nat, Area>, was: map<nat, Area>, d: nat, dev: nat, ids: seq<nat>, ids': seq<nat>)
    requires b.Served(e) && b.Served(e') && d != dev && HeldBefore(e, areas, Fed(b, d), ids)
    requires Fillable(was, b.jobs, Fed(b, dev), ids') && Learns(b, e, e', dev, was, ids')
    ensures HeldBefore(e', areas, Fed(b, d), ids)
  {
    forall k | 0 <= k < |ids| ensures e'.held[Fed(b, d)[k]] == areas[ids[k]] {
      OtherList(b, d, dev, k);
    }
  }

  /** No job is on two devices' lists. */
  lemma OtherList(b: Burst, d: nat, dev: nat, k: nat)
    requires b.Sized() && d != dev && k < |Fed(b, d)|
    ensures Fed(b, d)[k] !in Fed(b, dev)
  {
    ListsCover(b, |b.jobs|, Fed(b, d)[k]);
  }

  /** A job of the device is ciphered with what its operation held. */
  lemma FedJob(b: Burst, e: Engine, e': Engine, dev: nat, was: map<nat, Area>, js: seq<Job>, now: seq<Job>, ids: seq<nat>, k: nat)
    requires b.Served(e) && b.Served(e') && e.cipher == e'.cipher && |js| == |b.jobs| && JobsReached(b, e, dev, js) && k < |Fed(b, dev)|
    requires CipheredAt(e.cipher, b.setup, PreState(b, |b.jobs|), b.channel, js, now, Fed(b, dev), ids, was)
    requires e'.held[Fed(b, dev)[k]] == was[ids[k]]
    ensures JobReached(b, e', dev + 1, now[Fed(b, dev)[k]], Fed(b, dev)[k])
  {
    var i := Fed(b, dev)[k];
    assert Accepted(b, i) && js[i] == PreOut(b, i);
    AcceptedHasSession(b, i);
  }

  /** Every other job stays as it is, and so does its outcome. */
  lemma OtherJob(b: Burst, e: Engine, e': Engine, dev: nat, j: Job, i: nat)
    requires b.Served(e) && b.Served(e') && e.cipher == e'.cipher && i < |b.jobs| && i !in Fed(b, dev) && e'.held[i] == e.held[i]
    requires JobReached(b, e, dev, j, i)
    ensures JobReached(b, e', dev + 1, j, i)
  {
    if Accepted(b, i) {
      ListsCover(b, |b.jobs|, i);
    }
  }

  lemma NotedAll(held: seq<Area>, ix: seq<nat>, areas: seq<Area>)
    requires |ix| == |areas| && (forall k :: 0 <= k < |ix| ==> ix[k] < |held|) && Increasing(ix)
    ensures forall k :: 0 <= k < |ix| ==> Noted(held, ix, areas, |ix|)[ix[k]] == areas[k]
    ensures forall i :: 0 <= i < |held| && i !in ix ==> Noted(held, ix, areas, |ix|)[i] == held[i]
  {
    NotedAt(held, ix, areas, |ix|);
    assert ix[..|ix|] == ix;
  }

  /** The engine knows what the operations drawn for the device held, and nothing else is new in it. */
  ghost predicate Learns(b: Burst, e: Engine, e': Engine, dev: nat, was: map<nat, Area>, ids: seq<nat>)
    requires b.Served(e) && b.Served(e') && Fillable(was, b.jobs, Fed(b, dev), ids)
  {
    && e.cipher == e'.cipher
    && (forall k :: 0 <= k < |ids| ==> e'.held[Fed(b, dev)[k]] == was[ids[k]])
    && (forall i :: 0 <= i < |b.jobs| && i !in Fed(b, dev) ==> e'.held[i] == e.held[i])
  }

  lemma NotedLearns(b: Burst, f: Cipher, held: seq<Area>, dev: nat, was: map<nat, Area>, ids: seq<nat>)
    requires b.Sized() && |held| == |b.jobs| && Fillable(was, b.jobs, Fed(b, dev), ids)
    ensures var held' := Noted(held, Fed(b, dev), HeldBy(was, ids), |ids|);
            |held'| == |held| && Learns(b, Engine(f, held), Engine(f, held'), dev, was, ids)
  {
    NotedAll(held, Fed(b, dev), HeldBy(was, ids));
  }

  lemma JobsNext(b: Burst, e: Engine, e': Engine, dev: nat, was: map<nat, Area>, areas: map<nat, Area>, js: seq<Job>, now: seq<Job>, ids: seq<nat>)
    requires b.Served(e) && b.Served(e') && |js| == |b.jobs| && JobsReached(b, e, dev, js)
    requires Ran(b, e.cipher, dev, was, areas, js, now, ids) && Fillable(was, b.jobs, Fed(b, dev), ids) && Learns(b, e, e', dev, was, ids)
    ensures |now| == |b.jobs| && JobsReached(b, e', dev + 1, now)
  {
    var ix := Fed(b, dev);
    forall i | 0 <= i < |now| ensures JobReached(b, e', dev + 1, now[i], i) {
      assert JobReached(b, e, dev, js[i], i);
      if i in ix {
        var k :| 0 <= k < |ix| && ix[k] == i;
        FedJob(b, e, e', dev, was, js, now, ids, k);
      } else {
        OtherJob(b, e, e', dev, js[i], i);
      }
    }
  }

  /** The closes among the first n jobs have been carried out. */
  ghost predicate ClosedUpTo(b: Burst, e: Engine, s: Registry, now: seq<Job>, n: nat) {
    && b.Served(e) && n <= |b.jobs| == |now| && s == PostState(b, n)
    && (forall k :: 0 <= k < n ==> now[k] == Outcome(b, e, k))
    && (forall k :: n <= k < |b.jobs| ==> now[k] == MidOut(b, e, k))
  }

  lemma ClosedNext(b: Burst, e: Engine, now: seq<Job>, n: nat)
    requires b.Served(e) && n < |b.jobs| == |now| && ClosedUpTo(b, e, PostState(b, n), now, n)
    ensures var (s, out) := PostJob(b.setup, PostState(b, n), b.channel, now[n]);
            ClosedUpTo(b, e, s, now[n := out], n + 1)
  {
    assert now[n] == MidOut(b, e, n);
    MidKind(b, e, n);
  }
}
