/**
 The vector a job is ciphered with.  Operations come from a pool and go back without being cleared;
 a vector is copied over the front of the operation's area, and the device reads the whole area.
 */
module Vectors {
  import opened Basics
  import opened Sessions
  import opened Pipeline

  /** Whatever the operations held before, every device gives job i the same result. */
  ghost predicate IgnoresHistory(b: Burst, i: nat)
    requires b.Sized() && i < |b.jobs|
  {
    forall e, e' :: b.Served(e) && b.Served(e') && e.cipher == e'.cipher ==> Outcome(b, e, i) == Outcome(b, e', i)
  }

  /** A device that answers success for this vector and no other. */
  function Choosy(v: Area): Cipher { (c, d, w) => (if w == v then OpSuccess else OpError, d) }

  /** An engine whose operations all held the same. */
  function Uniform(f: Cipher, area: Area, n: nat): Engine { Engine(f, seq(n, _ => area)) }

  lemma ShortVectorShows(area: Area, area': Area, iv: seq<Byte>)
    requires |iv| < IV_SIZE && area[IV_SIZE - 1] != area'[IV_SIZE - 1]
    ensures Loaded(area, iv) != Loaded(area', iv)
  {
    assert Loaded(area, iv)[IV_SIZE - 1] == area[IV_SIZE - 1];
    assert Loaded(area', iv)[IV_SIZE - 1] == area'[IV_SIZE - 1];
  }

  /**
   The result of an accepted job does not depend on the jobs its operation served before if and
   only if its vector fills the area.
   */
  lemma VectorIff(b: Burst, i: nat)
    requires b.Sized() && i < |b.jobs| && Accepted(b, i) && OpsSuffice(b, i) && |b.jobs[i].iv| <= IV_SIZE
    ensures IgnoresHistory(b, i) <==> |b.jobs[i].iv| == IV_SIZE
  {
    if |b.jobs[i].iv| == IV_SIZE {
      forall e, e' | b.Served(e) && b.Served(e') && e.cipher == e'.cipher ensures Outcome(b, e, i) == Outcome(b, e', i) {
        OwnResult(b, e, i);
        OwnResult(b, e', i);
      }
    } else {
      var iv, n := b.jobs[i].iv, |b.jobs|;
      var zeros: Area, ones: Area := seq(IV_SIZE, _ => 0), seq(IV_SIZE, _ => 1);
      ShortVectorShows(zeros, ones, iv);
      var f := Choosy(Loaded(zeros, iv));
      OwnResult(b, Uniform(f, zeros, n), i);
      OwnResult(b, Uniform(f, ones, n), i);
      assert b.Served(Uniform(f, zeros, n)) && b.Served(Uniform(f, ones, n));
      assert Outcome(b, Uniform(f, zeros, n), i).status != Outcome(b, Uniform(f, ones, n), i).status;
    }
  }

  /** With a vector that fills the area the device works on the job's own vector. */
  lemma FullVector(b: Burst, e: Engine, i: nat)
    requires b.Served(e) && i < |b.jobs| && Accepted(b, i) && |b.jobs[i].iv| == IV_SIZE
    ensures DeviceAnswer(b, e, i) == e.cipher(SessionConfig(b, i), b.jobs[i].data, b.jobs[i].iv)
  {
    assert b.jobs[i].iv[..IV_SIZE] == b.jobs[i].iv;
  }

  // ----- the operation pool

  /** The jobs of a device's list that are given an operation: all of them or none. */
  function Fed(b: Burst, dev: nat): (ix: seq<nat>)
    requires b.Sized()
    ensures |ix| <= |b.jobs| && forall k :: 0 <= k < |ix| ==> ix[k] < |b.jobs|
  {
    var ix := IndexList(b, dev, |b.jobs|);
    if |ix| <= b.ops then ix else []
  }

  /** An operation of the pool for each of these jobs. */
  ghost predicate Fillable(areas: map<nat, Area>, jobs: seq<Job>, ix: seq<nat>, ids: seq<nat>) {
    |ids| == |ix| && forall k :: 0 <= k < |ix| ==> ix[k] < |jobs| && ids[k] in areas
  }

  /** The vector areas after the first n of these operations have been filled for these jobs. */
  function Refilled(areas: map<nat, Area>, jobs: seq<Job>, ix: seq<nat>, ids: seq<nat>, n: nat): (r: map<nat, Area>)
    requires Fillable(areas, jobs, ix, ids) && n <= |ids|
    ensures r.Keys == areas.Keys
  {
    if n == 0 then areas
    else
      var r := Refilled(areas, jobs, ix, ids, n - 1);
      r[ids[n - 1] := Loaded(r[ids[n - 1]], jobs[ix[n - 1]].iv)]
  }

  ghost predicate Distinct(ids: seq<nat>) { forall k, k' :: 0 <= k < k' < |ids| ==> ids[k] != ids[k'] }

  ghost predicate SameAreas(a: map<nat, Area>, a': map<nat, Area>) { a == a' }

  /** The jobs fed to one device and the operations drawn for them. */
  datatype Fill = Fill(ix: seq<nat>, ids: seq<nat>)

  ghost predicate AllFillable(areas: map<nat, Area>, jobs: seq<Job>, fills: seq<Fill>) {
    forall d :: 0 <= d < |fills| ==> Fillable(areas, jobs, fills[d].ix, fills[d].ids)
  }

  /** The areas after the first d of these fills; the operations of one are back before the next one draws. */
  ghost function AreasAfter(areas: map<nat, Area>, jobs: seq<Job>, fills: seq<Fill>, d: nat): (r: map<nat, Area>)
    requires AllFillable(areas, jobs, fills) && d <= |fills|
    ensures r.Keys == areas.Keys
  {
    if d == 0 then areas
    else Refilled(AreasAfter(areas, jobs, fills, d - 1), jobs, fills[d - 1].ix, fills[d - 1].ids, |fills[d - 1].ids|)
  }

  /** Device by device: the jobs fed to it and the operations drawn. */
  ghost function Fills(b: Burst, draws: seq<seq<nat>>): (fills: seq<Fill>)
    requires b.Sized()
    ensures |fills| == |draws| && forall d :: 0 <= d < |draws| ==> fills[d] == Fill(Fed(b, d), draws[d])
  {
    seq(|draws|, d requires 0 <= d < |draws| => Fill(Fed(b, d), draws[d]))
  }

  /** For each device, operations of the pool for the jobs fed to it, no operation twice. */
  ghost predicate Drawn(b: Burst, areas: map<nat, Area>, draws: seq<seq<nat>>) {
    && b.Sized() && AllFillable(areas, b.jobs, Fills(b, draws))
    && forall d :: 0 <= d < |draws| ==> Distinct(draws[d])
  }

  /** The areas before device d is served. */
  ghost function AreasBefore(b: Burst, areas: map<nat, Area>, draws: seq<seq<nat>>, d: nat): (r: map<nat, Area>)
    requires Drawn(b, areas, draws) && d <= |draws|
    ensures r.Keys == areas.Keys
  {
    AreasAfter(areas, b.jobs, Fills(b, draws), d)
  }

  /** Device d has as many operations as jobs. */
  lemma DrawnAt(b: Burst, areas: map<nat, Area>, draws: seq<seq<nat>>, d: nat)
    requires Drawn(b, areas, draws) && d < |draws|
    ensures Fillable(areas, b.jobs, Fed(b, d), draws[d])
  {
    assert Fillable(areas, b.jobs, Fills(b, draws)[d].ix, Fills(b, draws)[d].ids);
  }

  /** Later fills do not show. */
  lemma {:induction false} AreasPrefix(areas: map<nat, Area>, jobs: seq<Job>, fills: seq<Fill>, more: seq<Fill>, d: nat)
    requires AllFillable(areas, jobs, fills) && AllFillable(areas, jobs, more) && d <= |fills| && d <= |more|
    requires forall m :: 0 <= m < d ==> fills[m] == more[m]
    ensures AreasAfter(areas, jobs, fills, d) == AreasAfter(areas, jobs, more, d)
  {
    if d > 0 {
      AreasPrefix(areas, jobs, fills, more, d - 1);
    }
  }

  /** Devices that are given nothing leave the areas. */
  lemma {:induction false} IdleFills(areas: map<nat, Area>, jobs: seq<Job>, fills: seq<Fill>, from: nat, d: nat)
    requires AllFillable(areas, jobs, fills) && from <= d <= |fills| && forall m :: from <= m < d ==> fills[m].ids == []
    ensures AreasAfter(areas, jobs, fills, d) == AreasAfter(areas, jobs, fills, from)
  {
    if from < d {
      IdleFills(areas, jobs, fills, from, d - 1);
    }
  }

  /** What the engine says the operations held is what the pool says. */
  ghost predicate HeldIn(b: Burst, e: Engine, areas: map<nat, Area>, draws: seq<seq<nat>>) {
    && b.Served(e) && Drawn(b, areas, draws)
    && forall d :: 0 <= d < |draws| ==> HeldBefore(e, AreasBefore(b, areas, draws, d), Fed(b, d), draws[d])
  }

  /** What the operations of one device held. */
  ghost predicate HeldBefore(e: Engine, areas: map<nat, Area>, ix: seq<nat>, ids: seq<nat>) {
    && |ix| == |ids|
    && forall k :: 0 <= k < |ids| ==> ix[k] < |e.held| && ids[k] in areas && e.held[ix[k]] == areas[ids[k]]
  }

  // ----- what an operation carries over

  /** An operation's area after it has served jobs with these vectors. */
  function AfterJobs(area: Area, ivs: seq<seq<Byte>>): Area {
    if ivs == [] then area else Loaded(AfterJobs(area, ivs[..|ivs| - 1]), ivs[|ivs| - 1])
  }

  /** The last of these vectors that reaches byte p. */
  function LastReaching(ivs: seq<seq<Byte>>, p: nat): (k: Option<nat>)
    ensures k.Some? ==> k.value < |ivs| && |ivs[k.value]| > p && forall m :: k.value < m < |ivs| ==> |ivs[m]| <= p
    ensures k.None? ==> forall m :: 0 <= m < |ivs| ==> |ivs[m]| <= p
  {
    if ivs == [] then None
    else
      var n := |ivs| - 1;
      if |ivs[n]| > p then Some(n) else LastReaching(ivs[..n], p)
  }

  /** Each byte of the area is that of the last job whose vector was long enough to reach it. */
  lemma {:induction false} ByteOfLastReaching(area: Area, ivs: seq<seq<Byte>>, p: nat)
    requires p < IV_SIZE
    ensures AfterJobs(area, ivs)[p] == match LastReaching(ivs, p) case Some(k) => ivs[k][p] case None => area[p]
    decreases |ivs|
  {
    if ivs != [] {
      ByteOfLastReaching(area, ivs[..|ivs| - 1], p);
    }
  }

  lemma {:induction false} AfterMoreJobs(area: Area, ivs: seq<seq<Byte>>, more: seq<seq<Byte>>)
    ensures AfterJobs(area, ivs + more) == AfterJobs(AfterJobs(area, ivs), more)
    decreases |more|
  {
    var n := |more| - 1;
    if more == [] {
      assert ivs + more == ivs;
    } else {
      AfterMoreJobs(area, ivs, more[..n]);
      assert (ivs + more)[..|ivs| + n] == ivs + more[..n];
    }
  }

  /** The vectors operation x is given among the first n fills. */
  function GivenTo(jobs: seq<Job>, ix: seq<nat>, ids: seq<nat>, n: nat, x: nat): seq<seq<Byte>>
    requires n <= |ids| == |ix| && forall k :: 0 <= k < n ==> ix[k] < |jobs|
  {
    if n == 0 then []
    else GivenTo(jobs, ix, ids, n - 1, x) + if ids[n - 1] == x then [jobs[ix[n - 1]].iv] else []
  }

  lemma {:induction false} RefilledArea(areas: map<nat, Area>, jobs: seq<Job>, ix: seq<nat>, ids: seq<nat>, n: nat, x: nat)
    requires Fillable(areas, jobs, ix, ids) && n <= |ids| && x in areas
    ensures Refilled(areas, jobs, ix, ids, n)[x] == AfterJobs(areas[x], GivenTo(jobs, ix, ids, n, x))
  {
    if n > 0 {
      RefilledArea(areas, jobs, ix, ids, n - 1, x);
      if ids[n - 1] == x {
        var ivs, iv := GivenTo(jobs, ix, ids, n - 1, x), jobs[ix[n - 1]].iv;
        assert (ivs + [iv])[..|ivs|] == ivs;
      } else {
        assert GivenTo(jobs, ix, ids, n - 1, x) + [] == GivenTo(jobs, ix, ids, n - 1, x);
      }
    }
  }

  /** The vectors operation x has been given in the first d fills. */
  ghost function GivenAfter(areas: map<nat, Area>, jobs: seq<Job>, fills: seq<Fill>, d: nat, x: nat): seq<seq<Byte>>
    requires AllFillable(areas, jobs, fills) && d <= |fills|
  {
    if d == 0 then []
    else GivenAfter(areas, jobs, fills, d - 1, x) + GivenTo(jobs, fills[d - 1].ix, fills[d - 1].ids, |fills[d - 1].ids|, x)
  }

  /** The vectors operation x has been given before device d is served. */
  ghost function GivenBefore(b: Burst, areas: map<nat, Area>, draws: seq<seq<nat>>, d: nat, x: nat): seq<seq<Byte>>
    requires Drawn(b, areas, draws) && d <= |draws|
  {
    GivenAfter(areas, b.jobs, Fills(b, draws), d, x)
  }

  /** Operation x's area is what these vectors have made of `area`. */
  ghost predicate Made(areas: map<nat, Area>, x: nat, area: Area, ivs: seq<seq<Byte>>) {
    x in areas && IsAfter(areas[x], area, ivs)
  }

  ghost predicate IsAfter(now: Area, area: Area, ivs: seq<seq<Byte>>) { now == AfterJobs(area, ivs) }

  lemma MadeOn(was: map<nat, Area>, x: nat, area: Area, ivs: seq<seq<Byte>>, jobs: seq<Job>, ix: seq<nat>, ids: seq<nat>)
    requires Fillable(was, jobs, ix, ids) && Made(was, x, area, ivs)
    ensures Made(Refilled(was, jobs, ix, ids, |ids|), x, area, ivs + GivenTo(jobs, ix, ids, |ids|, x))
  {
    RefilledArea(was, jobs, ix, ids, |ids|, x);
    AfterMoreJobs(area, ivs, GivenTo(jobs, ix, ids, |ids|, x));
  }

  lemma {:induction false} AreaHistory(areas: map<nat, Area>, jobs: seq<Job>, fills: seq<Fill>, d: nat, x: nat)
    requires AllFillable(areas, jobs, fills) && d <= |fills| && x in areas
    ensures Made(AreasAfter(areas, jobs, fills, d), x, areas[x], GivenAfter(areas, jobs, fills, d, x))
  {
    if d > 0 {
      AreaHistory(areas, jobs, fills, d - 1, x);
      MadeOn(AreasAfter(areas, jobs, fills, d - 1), x, areas[x], GivenAfter(areas, jobs, fills, d - 1, x),
             jobs, fills[d - 1].ix, fills[d - 1].ids);
    }
  }

  /**
   Byte by byte, the vector a job is ciphered with: its own as far as it reaches, behind that the
   last one of the burst's earlier jobs on the same operation that reaches further, and where none
   does, what the operation held when the burst began.
   */
  lemma VectorByte(b: Burst, e: Engine, areas: map<nat, Area>, draws: seq<seq<nat>>, d: nat, k: nat, p: nat)
    requires HeldIn(b, e, areas, draws) && d < |draws| && k < |draws[d]| && p < IV_SIZE
    ensures var i, x := Fed(b, d)[k], draws[d][k];
            var ivs := GivenBefore(b, areas, draws, d, x) + [b.jobs[i].iv];
            Loaded(e.held[i], b.jobs[i].iv)[p] == match LastReaching(ivs, p) case Some(m) => ivs[m][p] case None => areas[x][p]
  {
    var i, x := Fed(b, d)[k], draws[d][k];
    var before := GivenBefore(b, areas, draws, d, x);
    var ivs := before + [b.jobs[i].iv];
    AreaHistory(areas, b.jobs, Fills(b, draws), d, x);
    assert HeldBefore(e, AreasBefore(b, areas, draws, d), Fed(b, d), draws[d]);
    assert ivs[..|before|] == before;
    assert AfterJobs(areas[x], ivs) == Loaded(AfterJobs(areas[x], before), b.jobs[i].iv);
    ByteOfLastReaching(areas[x], ivs, p);
  }

  // ----- examples

  /** Only the device of its session is fed a single job. */
  lemma SingleFed(u: Setup, s: Registry, ch: nat, id: nat, data: seq<Byte>, iv: seq<Byte>, d: nat)
    requires Lookup(u, s, ch, id).Some?
    ensures Fed(Single(u, s, ch, id, data, iv, 1), d) == if d == DeviceOf(id) then [0] else []
  {
    var b := Single(u, s, ch, id, data, iv, 1);
    SingleAccepted(u, s, ch, id, data, iv, 1);
    assert IndexList(b, d, 0) == [];
  }

  lemma LoadedFull(area: Area, v: Area)
    ensures Loaded(area, v) == v
  {
    assert v[..IV_SIZE] == v;
  }

  lemma FilledOnce(areas: map<nat, Area>, jobs: seq<Job>, ix: seq<nat>, ids: seq<nat>, x: nat, v: Area)
    requires areas.Keys == {x} && |jobs| == 1 && jobs[0].iv == v && |ids| == |ix| == 1 && ix[0] == 0 && ids[0] in areas
    ensures Refilled(areas, jobs, ix, ids, |ids|)[x] == v
  {
    LoadedFull(areas[x], v);
    assert Refilled(areas, jobs, ix, ids, |ids| - 1) == areas;
  }

  /** A pool of one operation holds the vector of a single job once its device has been served. */
  lemma LastVector(b: Burst, areas: map<nat, Area>, draws: seq<seq<nat>>, x: nat, v: Area, dev: nat)
    requires Drawn(b, areas, draws) && areas.Keys == {x} && dev < |draws| && |b.jobs| == 1 && b.jobs[0].iv == v
    requires forall m :: 0 <= m < |draws| ==> Fed(b, m) == if m == dev then [0] else []
    ensures AreasBefore(b, areas, draws, |draws|)[x] == v
  {
    var fills := Fills(b, draws);
    DrawnAt(b, areas, draws, dev);
    FilledOnce(AreasAfter(areas, b.jobs, fills, dev), b.jobs, fills[dev].ix, fills[dev].ids, x, v);
    forall m | dev < m < |fills| ensures fills[m].ids == [] {
      DrawnAt(b, areas, draws, m);
    }
    IdleFills(areas, b.jobs, fills, dev + 1, |fills|);
  }

  /**
   A job without a vector is ciphered with the one the previous job left in the operation, here a
   job of another burst and possibly of another channel.
   */
  lemma VectorOfAnother(u: Setup, s: Registry, ch: nat, id: nat, v: Area, s': Registry, ch': nat, id': nat, data: seq<Byte>,
                        areas: map<nat, Area>, x: nat, draws: seq<seq<nat>>, e: Engine, draws': seq<seq<nat>>)
    requires Lookup(u, s, ch, id).Some? && Lookup(u, s', ch', id').Some? && areas.Keys == {x}
    requires |draws| == |draws'| == u.devices && Drawn(Single(u, s, ch, id, [], v, 1), areas, draws)
    requires HeldIn(Single(u, s', ch', id', data, [], 1), e,
                    AreasBefore(Single(u, s, ch, id, [], v, 1), areas, draws, u.devices), draws')
    ensures var b := Single(u, s', ch', id', data, [], 1);
            Accepted(b, 0) && DeviceAnswer(b, e, 0) == e.cipher(SessionConfig(b, 0), data, v)
  {
    var first, b := Single(u, s, ch, id, [], v, 1), Single(u, s', ch', id', data, [], 1);
    SingleAccepted(u, s', ch', id', data, [], 1);
    forall d ensures Fed(first, d) == if d == DeviceOf(id) then [0] else [] {
      SingleFed(u, s, ch, id, [], v, d);
    }
    LastVector(first, areas, draws, x, v, DeviceOf(id));
    HeldAlone(b, e, AreasBefore(first, areas, draws, u.devices), draws', x, u, s', ch', id', data);
    assert Loaded(v, []) == v;
  }

  /** A single job draws the pool's only operation as it is. */
  lemma HeldAlone(b: Burst, e: Engine, areas: map<nat, Area>, draws: seq<seq<nat>>, x: nat,
                  u: Setup, s: Registry, ch: nat, id: nat, data: seq<Byte>)
    requires b == Single(u, s, ch, id, data, [], 1) && Lookup(u, s, ch, id).Some? && areas.Keys == {x}
    requires |draws| == u.devices && HeldIn(b, e, areas, draws)
    ensures e.held[0] == areas[x]
  {
    var d := DeviceOf(id);
    forall m ensures Fed(b, m) == if m == d then [0] else [] {
      SingleFed(u, s, ch, id, data, [], m);
    }
    forall m | 0 <= m < d ensures Fills(b, draws)[m].ids == [] {
      DrawnAt(b, areas, draws, m);
    }
    IdleFills(areas, b.jobs, Fills(b, draws), 0, d);
    DrawnAt(b, areas, draws, d);
    assert HeldBefore(e, AreasBefore(b, areas, draws, d), Fed(b, d), draws[d]);
    assert draws[d][0] in areas;
  }

  /** Two equal jobs without a vector get different results when their operations held different areas. */
  lemma EqualJobsDiffer(u: Setup, s: Registry, ch: nat, id: nat, data: seq<Byte>, area: Area, area': Area)
    requires Lookup(u, s, ch, id).Some? && area != area'
    ensures var j := Job(Ciphering, NotProcessed, id, 0, 0, 1, data, [], []);
            var b := Burst(u, s, ch, [j, j], [Answer(None, false), Answer(None, false)], 2);
            var e := Engine(Choosy(area), [area, area']);
            Outcome(b, e, 0).status == Succ && Outcome(b, e, 1).status == Failed
  {
    var j := Job(Ciphering, NotProcessed, id, 0, 0, 1, data, [], []);
    var b := Burst(u, s, ch, [j, j], [Answer(None, false), Answer(None, false)], 2);
    var e := Engine(Choosy(area), [area, area']);
    assert PreState(b, 0) == s && PreState(b, 1) == s;
    assert Accepted(b, 0) && Accepted(b, 1);
    OwnResult(b, e, 0);
    OwnResult(b, e, 1);
    assert Loaded(area, []) == area && Loaded(area', []) == area';
  }
}
