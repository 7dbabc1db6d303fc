/**
 When a burst gives the results of running its jobs one by one, and when deferring the closes shows.

 The one-by-one run has answers of its own: which session object a create gets, and whether there
 is one, depends on what the jobs before it have taken and given back.  Only the device's answer to
 a create is taken to be the same in both orders.
 */
module BurstOrder {
  import opened Basics
  import opened Sessions
  import opened SessionTheorems
  import opened Pipeline
  import SessionKeys
  import opened Vectors

  /** One job taken through preparing and closing before the next one starts. */
  function Alone(u: Setup, s: Registry, ch: nat, j: Job, a: Answer): Registry {
    var (t, p) := PreJob(u, s, ch, j, a);
    PostJob(u, t, ch, p).0
  }

  function AloneState(b: Burst, o: seq<Answer>, n: nat): Registry
    requires |o| == |b.jobs| && n <= |b.jobs|
  {
    if n == 0 then b.start else Alone(b.setup, AloneState(b, o, n - 1), b.channel, b.jobs[n - 1], o[n - 1])
  }

  /** Job i as it comes out when it is ciphered before the next one starts. */
  function AloneOut(b: Burst, o: seq<Answer>, e: Engine, i: nat): Job
    requires |o| == |e.held| == |b.jobs| && i < |b.jobs|
  {
    var s, j := AloneState(b, o, i), b.jobs[i];
    var (t, p) := PreJob(b.setup, s, b.channel, j, o[i]);
    var h := Lookup(b.setup, s, b.channel, j.sessId);
    var m := if j.status != Failed && j.kind.Ciphering? && h.Some? then Ciphered(e.cipher, s.Contents(h.value), e.held[i], p) else p;
    PostJob(b.setup, t, b.channel, m).1
  }

  /** The first n jobs, one by one: the pool gives what it has, the device answers as in the burst. */
  ghost predicate OneByOne(b: Burst, o: seq<Answer>, n: nat) {
    && b.Sized() && |o| == |b.jobs| && n <= |b.jobs|
    && forall i :: 0 <= i < n ==> AnswerAlone(b, o, i)
  }

  ghost predicate AnswerAlone(b: Burst, o: seq<Answer>, i: nat)
    requires b.Sized() && |o| == |b.jobs| && i < |b.jobs|
  {
    && o[i].initOk == b.answers[i].initOk
    && (IsCreate(b.jobs[i]) ==> Enabled(AloneState(b, o, i), Open(b.channel, Wanted(b.jobs[i]), o[i].pick, o[i].initOk)))
  }

  lemma {:induction false} SameAlone(b: Burst, o: seq<Answer>, o': seq<Answer>, n: nat)
    requires |o| == |o'| == |b.jobs| && n <= |b.jobs| && o[..n] == o'[..n]
    ensures AloneState(b, o, n) == AloneState(b, o', n)
  {
    if n > 0 {
      assert o[..n][n - 1] == o'[..n][n - 1];
      assert o[..n - 1] == o[..n][..n - 1] && o'[..n - 1] == o'[..n][..n - 1];
      SameAlone(b, o, o', n - 1);
    }
  }

  /** The jobs of every burst can be run one by one. */
  lemma {:induction false} RunsOneByOne(b: Burst, n: nat) returns (o: seq<Answer>)
    requires b.Sized() && b.channel < MAX_CHANNEL_NUM && n <= |b.jobs|
    ensures OneByOne(b, o, n)
  {
    if n == 0 {
      o := b.answers;
    } else {
      var before := RunsOneByOne(b, n - 1);
      var s := AloneState(b, before, n - 1);
      var pick := if s.free == {} then None else var h :| h in s.free; Some(h);
      o := before[n - 1 := Answer(pick, b.answers[n - 1].initOk)];
      forall i | 0 <= i < n ensures AnswerAlone(b, o, i) {
        SameAlone(b, o, before, i);
        if i < n - 1 {
          assert AnswerAlone(b, before, i);
        }
      }
    }
  }

  // ----- conflicts

  /** The slot job i names. */
  function Named(b: Burst, i: nat): Option<Key>
    requires i < |b.jobs|
  {
    KeyOf(b.setup, b.channel, b.jobs[i].sessId)
  }

  /** Sessions closed by the jobs before i when jobs run one by one: those a close names while they are live. */
  function Gone(b: Burst, i: nat): (ks: set<Key>)
    requires b.Sized() && i <= |b.jobs|
    ensures forall k :: k in ks ==> k.channel == b.channel
  {
    if i == 0 then {}
    else if b.jobs[i - 1].kind.Closing? && Named(b, i - 1).Some? && Named(b, i - 1).value in PreState(b, i - 1).live
    then Gone(b, i - 1) + {Named(b, i - 1).value}
    else Gone(b, i - 1)
  }

  /** Sessions closed by the jobs before i when the closes come last: all the slots they name. */
  function Closed(b: Burst, i: nat): set<Key>
    requires i <= |b.jobs|
  {
    if i == 0 then {}
    else if b.jobs[i - 1].kind.Closing? && Named(b, i - 1).Some? then Closed(b, i - 1) + {Named(b, i - 1).value}
    else Closed(b, i - 1)
  }

  /** Job i is a create with a known algorithm and a willing device. */
  predicate Creates(b: Burst, i: nat)
    requires b.Sized() && i < |b.jobs|
  {
    IsCreate(b.jobs[i]) && b.jobs[i].algo < ALGO_LAST && b.answers[i].initOk
  }

  /**
   Job i comes out differently because of a deferred close:
   a cipher job behind the close of its session,
   a create behind a close that frees a lower slot of its device,
   a create that finds the session pool empty behind a close that refills it, and then a slot,
   a close in front of the create whose session it names.
   */
  ghost predicate Conflict(b: Burst, i: nat)
    requires b.Sized() && i < |b.jobs|
  {
    var j := b.jobs[i];
    || (Accepted(b, i) && Named(b, i).Some? && Named(b, i).value in Gone(b, i))
    || (Creates(b, i) && b.answers[i].pick.Some? && FreesLower(b, i))
    || (Creates(b, i) && b.answers[i].pick.None? && FreesObject(b, i))
    || (j.kind.Closing? && Named(b, i).Some?
        && Named(b, i).value !in PreState(b, i).live && Named(b, i).value in PreState(b, |b.jobs|).live)
  }

  ghost predicate FreesLower(b: Burst, i: nat)
    requires b.Sized() && i < |b.jobs|
  {
    var dev := b.setup.Device(b.jobs[i].algo);
    exists k :: k in Gone(b, i) && k.device == dev && k.slot < FirstFree(PreState(b, i).live, b.channel, dev, 0)
  }

  ghost predicate FreesObject(b: Burst, i: nat)
    requires b.Sized() && i < |b.jobs|
  {
    Gone(b, i) != {} &&
    FirstFree(PreState(b, i).live - Gone(b, i), b.channel, b.setup.Device(b.jobs[i].algo), 0) < MAX_SESS_NUM
  }

  ghost predicate NoConflict(b: Burst, n: nat)
    requires b.Sized() && n <= |b.jobs|
  {
    forall i :: 0 <= i < n ==> !Conflict(b, i)
  }

  // ----- what the pool has

  lemma {:induction false} CountObjects(s: Registry, ks: set<Key>)
    requires ks <= s.live.Keys && forall k, k' :: k in s.live && k' in s.live && k != k' ==> s.live[k] != s.live[k']
    ensures |Objects(s, ks)| == |ks|
  {
    if ks == {} {
      assert Objects(s, ks) == {};
    } else {
      var k :| k in ks;
      CountObjects(s, ks - {k});
      assert Objects(s, ks) == Objects(s, ks - {k}) + {s.live[k]};
    }
  }

  /** The pool has as many objects as slots are not occupied by its objects. */
  lemma PoolCount(s: Registry, pool: set<Handle>)
    requires Conserved(s, pool)
    ensures |s.free| + |s.live.Keys| == |pool|
  {
    CountObjects(s, s.live.Keys);
    forall h | h in pool && h !in s.free ensures h in Objects(s, s.live.Keys) {
      var k :| k in s.live && s.live[k] == h;
    }
    assert pool == s.free + Objects(s, s.live.Keys);
  }

  /** t has the sessions of s without those gone, in the same slots and initialised alike; the objects may be others. */
  ghost predicate Mirrors(s: Registry, t: Registry, gone: set<Key>) {
    && t.live.Keys == s.live.Keys - gone
    && forall k :: k in t.live && k in s.live ==> t.Contents(t.live[k]) == s.Contents(s.live[k])
  }

  lemma PoolAlone(s: Registry, t: Registry, gone: set<Key>, pool: set<Handle>)
    requires Conserved(s, pool) && Conserved(t, pool) && Mirrors(s, t, gone) && gone <= s.live.Keys
    ensures t.free == {} <==> s.free == {} && gone == {}
  {
    PoolCount(s, pool);
    PoolCount(t, pool);
    assert s.live.Keys == t.live.Keys + gone;
    assert |s.live.Keys| == |t.live.Keys| + |gone|;
  }

  lemma {:induction false} AloneConserves(b: Burst, o: seq<Answer>, pool: set<Handle>, n: nat)
    requires Intact(b, pool) && OneByOne(b, o, n)
    ensures Conserved(AloneState(b, o, n), pool) && KeysValid(AloneState(b, o, n))
  {
    if n > 0 {
      AloneConserves(b, o, pool, n - 1);
      assert AnswerAlone(b, o, n - 1);
      AloneStepConserves(b.setup, AloneState(b, o, n - 1), b.channel, b.jobs[n - 1], o[n - 1], pool);
    }
  }

  lemma AloneStepConserves(u: Setup, s: Registry, ch: nat, j: Job, a: Answer, pool: set<Handle>)
    requires u.Valid() && Conserved(s, pool) && KeysValid(s)
    requires IsCreate(j) ==> Enabled(s, Open(ch, Wanted(j), a.pick, a.initOk))
    ensures Conserved(Alone(u, s, ch, j, a), pool) && KeysValid(Alone(u, s, ch, j, a))
  {
    if IsCreate(j) {
      ConservedCreate(u, s, pool, Open(ch, Wanted(j), a.pick, a.initOk));
    } else if j.kind.Closing? {
      ConservedClose(u, s, pool, Close(ch, j.sessId));
    }
  }

  // ----- the three registries

  lemma {:induction false} PreGrows(b: Burst, i: nat, n: nat, k: Key)
    requires b.Sized() && i <= n <= |b.jobs| && k in PreState(b, i).live
    ensures k in PreState(b, n).live
  {
    if i < n {
      PreGrows(b, i, n - 1, k);
    }
  }

  /** What is gone one by one is still there while the burst is prepared. */
  lemma {:induction false} GoneWasLive(b: Burst, i: nat)
    requires b.Sized() && i <= |b.jobs|
    ensures Gone(b, i) <= PreState(b, i).live.Keys && Gone(b, i) <= Closed(b, i)
  {
    if i > 0 {
      GoneWasLive(b, i - 1);
      forall k | k in Gone(b, i) ensures k in PreState(b, i).live {
        PreGrows(b, i - 1, i, k);
      }
    }
  }

  lemma {:induction false} PostLive(b: Burst, n: nat)
    requires b.Sized() && n <= |b.jobs|
    ensures PostState(b, n).live == PreState(b, |b.jobs|).live - Closed(b, n)
  {
    if n > 0 {
      PostLive(b, n - 1);
      assert PreOut(b, n - 1).kind == b.jobs[n - 1].kind;
    }
  }

  /** Taking sessions away changes the first empty slot exactly when one of them lies below it. */
  lemma FirstFreeWithout(live: map<Key, Handle>, gone: set<Key>, ch: nat, dev: nat)
    requires forall k :: k in gone ==> k in live && k.channel == ch
    ensures FirstFree(live - gone, ch, dev, 0) == FirstFree(live, ch, dev, 0) <==>
            !exists k :: k in gone && k.device == dev && k.slot < FirstFree(live, ch, dev, 0)
  {
    var x, y := FirstFree(live, ch, dev, 0), FirstFree(live - gone, ch, dev, 0);
    if y < x {
      assert Key(ch, dev, y) in live && Key(ch, dev, y) in gone;
    }
    forall k | k in gone && k.device == dev && k.slot < x ensures y < x {
      assert k == Key(ch, dev, k.slot);
    }
  }

  /** The first empty slot depends on which slots are taken, not on the objects in them. */
  lemma FirstFreeKeys(live: map<Key, Handle>, live': map<Key, Handle>, ch: nat, dev: nat)
    requires live.Keys == live'.Keys
    ensures FirstFree(live, ch, dev, 0) == FirstFree(live', ch, dev, 0)
  {
    var x, y := FirstFree(live, ch, dev, 0), FirstFree(live', ch, dev, 0);
    assert x < MAX_SESS_NUM ==> Key(ch, dev, x) !in live'.Keys;
    assert y < MAX_SESS_NUM ==> Key(ch, dev, y) !in live.Keys;
  }

  /** Both runs register the session in the same slot. */
  lemma MirrorsRegistered(s: Registry, t: Registry, gone: set<Key>, k: Key, h: Handle, h': Handle, c: Config)
    requires Mirrors(s, t, gone) && k !in gone && k !in s.live
    requires (forall m :: m in s.live ==> s.live[m] != h) && (forall m :: m in t.live ==> t.live[m] != h')
    ensures Mirrors(Registered(s, k, h, c), Registered(t, k, h', c), gone)
  {
  }

  /** A failed create clears an object that is in no slot. */
  lemma MirrorsCleared(s: Registry, t: Registry, gone: set<Key>, hs: set<Handle>, hs': set<Handle>)
    requires Mirrors(s, t, gone)
    requires (forall m :: m in s.live ==> s.live[m] !in hs) && (forall m :: m in t.live ==> t.live[m] !in hs')
    ensures Mirrors(s.(contents := s.contents - hs), t.(contents := t.contents - hs'), gone)
  {
  }

  /** What a create clears or takes. */
  function Picked(a: Answer): set<Handle> { if a.pick.Some? then {a.pick.value} else {} }

  /** Everything known about the two runs before job i. */
  ghost predicate Abreast(b: Burst, o: seq<Answer>, pool: set<Handle>, i: nat)
    requires b.Sized() && |o| == |b.jobs| && i <= |b.jobs|
  {
    && Mirrors(PreState(b, i), AloneState(b, o, i), Gone(b, i))
    && Gone(b, i) <= PreState(b, i).live.Keys
    && Conserved(PreState(b, i), pool) && Conserved(AloneState(b, o, i), pool)
  }

  /** The slots both runs find. */
  lemma SlotAlone(b: Burst, o: seq<Answer>, pool: set<Handle>, i: nat)
    requires b.Sized() && |o| == |b.jobs| && i < |b.jobs| && Abreast(b, o, pool, i)
    ensures var dev := b.setup.Device(b.jobs[i].algo);
            var x, y := FirstFree(PreState(b, i).live, b.channel, dev, 0), FirstFree(AloneState(b, o, i).live, b.channel, dev, 0);
            && y == FirstFree(PreState(b, i).live - Gone(b, i), b.channel, dev, 0)
            && (x == y <==> !FreesLower(b, i))
  {
    var s, t, dev := PreState(b, i), AloneState(b, o, i), b.setup.Device(b.jobs[i].algo);
    FirstFreeWithout(s.live, Gone(b, i), b.channel, dev);
    assert (s.live - Gone(b, i)).Keys == t.live.Keys;
    FirstFreeKeys(s.live - Gone(b, i), t.live, b.channel, dev);
  }

  /** The session object of a create is in no slot. */
  lemma PickedUnused(s: Registry, pool: set<Handle>, a: Answer)
    requires Conserved(s, pool) && (a.pick.Some? ==> a.pick.value in s.free)
    ensures forall m :: m in s.live ==> s.live[m] !in Picked(a)
  {
  }

  /** A create that is answered alike in both runs does the same in both. */
  lemma CreatePair(u: Setup, s: Registry, t: Registry, gone: set<Key>, pool: set<Handle>, ch: nat, c: Config, a: Answer, a': Answer)
    requires Mirrors(s, t, gone) && gone <= s.live.Keys && Conserved(s, pool) && Conserved(t, pool)
    requires (a.pick.Some? ==> a.pick.value in s.free) && (a'.pick.Some? ==> a'.pick.value in t.free)
    requires CreateSession(u, s, ch, c, a.pick, a.initOk).1 == CreateSession(u, t, ch, c, a'.pick, a'.initOk).1
    ensures Mirrors(CreateSession(u, s, ch, c, a.pick, a.initOk).0, CreateSession(u, t, ch, c, a'.pick, a'.initOk).0, gone)
  {
    PickedUnused(s, pool, a);
    PickedUnused(t, pool, a');
    if CreateSession(u, s, ch, c, a.pick, a.initOk).1.Some? {
      var dev := u.Device(c.algo);
      MirrorsRegistered(s, t, gone, Key(ch, dev, FirstFree(s.live, ch, dev, 0)), a.pick.value, a'.pick.value, c);
    } else {
      RefusedPair(s, t, gone, a, a');
    }
  }

  lemma RefusedPair(s: Registry, t: Registry, gone: set<Key>, a: Answer, a': Answer)
    requires Mirrors(s, t, gone)
    requires (forall m :: m in s.live ==> s.live[m] !in Picked(a)) && (forall m :: m in t.live ==> t.live[m] !in Picked(a'))
    ensures var s', t' := s.(contents := s.contents - Picked(a)), t.(contents := t.contents - Picked(a'));
            Mirrors(s, t', gone) && Mirrors(s', t, gone) && Mirrors(s', t', gone)
  {
    assert s.contents - {} == s.contents && t.contents - {} == t.contents;
    MirrorsCleared(s, t, gone, Picked(a), Picked(a'));
    MirrorsCleared(s, t, gone, {}, Picked(a'));
    MirrorsCleared(s, t, gone, Picked(a), {});
  }

  /** Without a conflict a create is answered alike in both runs. */
  lemma CreateAnswer(b: Burst, o: seq<Answer>, pool: set<Handle>, i: nat)
    requires b.Sized() && AnswersFit(b, |b.jobs|) && OneByOne(b, o, i + 1) && i < |b.jobs| && Abreast(b, o, pool, i)
    requires IsCreate(b.jobs[i]) && !Conflict(b, i)
    ensures CreateSession(b.setup, PreState(b, i), b.channel, Wanted(b.jobs[i]), b.answers[i].pick, b.answers[i].initOk).1 ==
            CreateSession(b.setup, AloneState(b, o, i), b.channel, Wanted(b.jobs[i]), o[i].pick, o[i].initOk).1
  {
    assert AnswerAlone(b, o, i);
    PoolAlone(PreState(b, i), AloneState(b, o, i), Gone(b, i), pool);
    SlotAlone(b, o, pool, i);
  }

  lemma CloseStep(b: Burst, o: seq<Answer>, pool: set<Handle>, i: nat)
    requires b.Sized() && |o| == |b.jobs| && i < |b.jobs| && Abreast(b, o, pool, i) && b.jobs[i].kind.Closing?
    ensures Mirrors(PreState(b, i + 1), AloneState(b, o, i + 1), Gone(b, i + 1))
  {
    var s, t := PreState(b, i), AloneState(b, o, i);
    if Named(b, i).Some? {
      var k := Named(b, i).value;
      if k in t.live {
        MirrorsClosed(s, t, Gone(b, i), k, pool);
      }
    }
  }

  lemma MirrorsClosed(s: Registry, t: Registry, gone: set<Key>, k: Key, pool: set<Handle>)
    requires Mirrors(s, t, gone) && k in t.live && Conserved(t, pool)
    ensures Mirrors(s, Without(t, {k}), gone + {k})
  {
    var t' := Without(t, {k});
    assert Objects(t, {k}) == {t.live[k]};
    forall m | m in t'.live && m in s.live ensures t'.Contents(t'.live[m]) == s.Contents(s.live[m]) {
      assert t.live[m] != t.live[k];
    }
  }

  lemma CreateStep(b: Burst, o: seq<Answer>, pool: set<Handle>, i: nat)
    requires b.Sized() && AnswersFit(b, |b.jobs|) && OneByOne(b, o, i + 1) && i < |b.jobs| && Abreast(b, o, pool, i)
    requires b.jobs[i].kind.Creating? && !Conflict(b, i)
    ensures Mirrors(PreState(b, i + 1), AloneState(b, o, i + 1), Gone(b, i + 1))
    ensures PreJob(b.setup, AloneState(b, o, i), b.channel, b.jobs[i], o[i]).1 == PreOut(b, i)
  {
    if IsCreate(b.jobs[i]) {
      assert AnswerAlone(b, o, i);
      CreateAnswer(b, o, pool, i);
      CreatePair(b.setup, PreState(b, i), AloneState(b, o, i), Gone(b, i), pool, b.channel, Wanted(b.jobs[i]), b.answers[i], o[i]);
    }
  }

  lemma MirrorsOn(b: Burst, o: seq<Answer>, pool: set<Handle>, i: nat)
    requires b.Sized() && AnswersFit(b, |b.jobs|) && OneByOne(b, o, i + 1) && i < |b.jobs| && Abreast(b, o, pool, i)
    requires !Conflict(b, i)
    ensures Mirrors(PreState(b, i + 1), AloneState(b, o, i + 1), Gone(b, i + 1))
  {
    if b.jobs[i].kind.Creating? {
      CreateStep(b, o, pool, i);
    } else if b.jobs[i].kind.Closing? {
      CloseStep(b, o, pool, i);
    }
  }

  /** As long as nothing came out differently, running one by one has only removed what is gone. */
  lemma {:induction false} AloneMirrors(b: Burst, o: seq<Answer>, pool: set<Handle>, i: nat)
    requires Intact(b, pool) && OneByOne(b, o, i) && NoConflict(b, i)
    ensures Abreast(b, o, pool, i)
  {
    PreparingConserves(b, pool, i);
    AloneConserves(b, o, pool, i);
    GoneWasLive(b, i);
    if i > 0 {
      AloneMirrors(b, o, pool, i - 1);
      MirrorsOn(b, o, pool, i - 1);
    }
  }

  /** Of the sessions live in the end, the burst has closed the same as running one by one. */
  lemma {:induction false} ClosedIsGone(b: Burst, i: nat, k: Key)
    requires b.Sized() && i <= |b.jobs| && NoConflict(b, i) && k in PreState(b, |b.jobs|).live
    ensures k in Closed(b, i) <==> k in Gone(b, i)
  {
    GoneWasLive(b, i);
    if i > 0 {
      ClosedIsGone(b, i - 1, k);
      assert !Conflict(b, i - 1);
    }
  }

  // ----- job by job

  ghost predicate SameAt(b: Burst, e: Engine, o: seq<Answer>, e': Engine, i: nat)
    requires b.Served(e) && b.Served(e') && |o| == |b.jobs| && i < |b.jobs|
  {
    Outcome(b, e, i) == AloneOut(b, o, e', i)
  }

  lemma CloseAt(b: Burst, e: Engine, o: seq<Answer>, e': Engine, pool: set<Handle>, i: nat)
    requires b.Served(e) && b.Served(e') && |o| == |b.jobs| && i < |b.jobs|
    requires b.jobs[i].kind.Closing? && NoConflict(b, i) && Abreast(b, o, pool, i)
    ensures SameAt(b, e, o, e', i) <==> !Conflict(b, i)
  {
    PostLive(b, i);
    MidKind(b, e, i);
    if Named(b, i).Some? {
      var k := Named(b, i).value;
      if k in PreState(b, |b.jobs|).live {
        ClosedIsGone(b, i, k);
      } else if k in PreState(b, i).live {
        PreGrows(b, i, |b.jobs|, k);
      }
    }
  }

  lemma CreateAt(b: Burst, e: Engine, o: seq<Answer>, e': Engine, pool: set<Handle>, i: nat)
    requires b.Served(e) && b.Served(e') && Intact(b, pool) && OneByOne(b, o, i + 1) && i < |b.jobs|
    requires b.jobs[i].kind.Creating? && NoConflict(b, i) && Abreast(b, o, pool, i)
    ensures SameAt(b, e, o, e', i) <==> !Conflict(b, i)
  {
    MidKind(b, e, i);
    assert AnswerAlone(b, o, i);
    if !Conflict(b, i) {
      CreateStep(b, o, pool, i);
    } else if b.answers[i].pick.Some? {
      LowerDiffers(b, o, pool, i);
    } else {
      ObjectDiffers(b, o, pool, i);
    }
  }

  lemma LowerDiffers(b: Burst, o: seq<Answer>, pool: set<Handle>, i: nat)
    requires Intact(b, pool) && OneByOne(b, o, i + 1) && i < |b.jobs| && Abreast(b, o, pool, i)
    requires Creates(b, i) && b.answers[i].pick.Some? && FreesLower(b, i)
    ensures PreJob(b.setup, AloneState(b, o, i), b.channel, b.jobs[i], o[i]).1.sessId != PreOut(b, i).sessId
  {
    var dev := b.setup.Device(b.jobs[i].algo);
    assert AnswerAlone(b, o, i);
    PoolAlone(PreState(b, i), AloneState(b, o, i), Gone(b, i), pool);
    SlotAlone(b, o, pool, i);
    var x, y := FirstFree(PreState(b, i).live, b.channel, dev, 0), FirstFree(AloneState(b, o, i).live, b.channel, dev, 0);
    IdsDiffer(dev, x, y);
  }

  lemma IdsDiffer(dev: nat, x: nat, y: nat)
    requires x <= MAX_SESS_NUM && y <= MAX_SESS_NUM && x != y
    ensures SessionId(dev, x) != SessionId(dev, y)
    ensures x < MAX_SESS_NUM ==> SessionId(dev, x) % 65536 == x && SessionId(dev, x) != NO_SESSION
    ensures y < MAX_SESS_NUM ==> SessionId(dev, y) % 65536 == y && SessionId(dev, y) != NO_SESSION
  {
  }

  lemma ObjectDiffers(b: Burst, o: seq<Answer>, pool: set<Handle>, i: nat)
    requires Intact(b, pool) && OneByOne(b, o, i + 1) && i < |b.jobs| && Abreast(b, o, pool, i)
    requires Creates(b, i) && b.answers[i].pick.None? && FreesObject(b, i)
    ensures PreOut(b, i).status.Failed?
    ensures PreJob(b.setup, AloneState(b, o, i), b.channel, b.jobs[i], o[i]).1.status.Succ?
  {
    assert AnswerAlone(b, o, i);
    PoolAlone(PreState(b, i), AloneState(b, o, i), Gone(b, i), pool);
    SlotAlone(b, o, pool, i);
  }

  /** Both engines have the same devices and load the same vector for job i. */
  ghost predicate SameVector(b: Burst, e: Engine, e': Engine, i: nat)
    requires b.Served(e) && b.Served(e') && i < |b.jobs|
  {
    e.cipher == e'.cipher && (Accepted(b, i) ==> Loaded(e.held[i], b.jobs[i].iv) == Loaded(e'.held[i], b.jobs[i].iv))
  }

  /** A cipher job that is not behind the close of its session has the same session in both runs. */
  lemma SessionAlone(b: Burst, o: seq<Answer>, pool: set<Handle>, i: nat)
    requires Intact(b, pool) && |o| == |b.jobs| && i < |b.jobs| && Abreast(b, o, pool, i) && Accepted(b, i)
    ensures var h := Lookup(b.setup, AloneState(b, o, i), b.channel, b.jobs[i].sessId);
            && (h.Some? <==> !(Named(b, i).Some? && Named(b, i).value in Gone(b, i)))
            && (h.Some? ==> AloneState(b, o, i).Contents(h.value) == SessionConfig(b, i))
  {
    SessionKeys.OwnKey(b, pool, i);
  }

  lemma CipherAt(b: Burst, e: Engine, o: seq<Answer>, e': Engine, pool: set<Handle>, i: nat)
    requires b.Served(e) && b.Served(e') && Intact(b, pool) && |o| == |b.jobs| && i < |b.jobs| <= b.ops
    requires SameVector(b, e, e', i) && Abreast(b, o, pool, i)
    requires !b.jobs[i].kind.Creating? && !b.jobs[i].kind.Closing?
    ensures SameAt(b, e, o, e', i) <==> !Conflict(b, i)
  {
    if Accepted(b, i) {
      SessionAlone(b, o, pool, i);
      OwnResult(b, e, i);
    }
  }

  lemma JobAt(b: Burst, e: Engine, o: seq<Answer>, e': Engine, pool: set<Handle>, i: nat)
    requires Comparable(b, e, o, e', pool) && i < |b.jobs| && NoConflict(b, i)
    ensures SameAt(b, e, o, e', i) <==> !Conflict(b, i)
  {
    AloneMirrors(b, o, pool, i);
    if b.jobs[i].kind.Closing? {
      CloseAt(b, e, o, e', pool, i);
    } else if b.jobs[i].kind.Creating? {
      CreateAt(b, e, o, e', pool, i);
    } else {
      CipherAt(b, e, o, e', pool, i);
    }
  }

  ghost predicate SameFirst(b: Burst, e: Engine, o: seq<Answer>, e': Engine, n: nat)
    requires b.Served(e) && b.Served(e') && |o| == |b.jobs| && n <= |b.jobs|
  {
    forall i :: 0 <= i < n ==> SameAt(b, e, o, e', i)
  }

  ghost predicate SameVectors(b: Burst, e: Engine, e': Engine) {
    b.Served(e) && b.Served(e') && forall i :: 0 <= i < |b.jobs| ==> SameVector(b, e, e', i)
  }

  /** A burst with an operation for every job, and a one-by-one run of its jobs that loads the same vectors. */
  ghost predicate Comparable(b: Burst, e: Engine, o: seq<Answer>, e': Engine, pool: set<Handle>) {
    SameVectors(b, e, e') && Intact(b, pool) && OneByOne(b, o, |b.jobs|) && |b.jobs| <= b.ops
  }

  lemma OneMoreConflict(b: Burst, n: nat)
    requires b.Sized() && n < |b.jobs|
    ensures NoConflict(b, n + 1) <==> NoConflict(b, n) && !Conflict(b, n)
  {
  }

  lemma OneMoreJob(b: Burst, e: Engine, o: seq<Answer>, e': Engine, n: nat)
    requires b.Served(e) && b.Served(e') && |o| == |b.jobs| && n < |b.jobs|
    ensures SameFirst(b, e, o, e', n + 1) <==> SameFirst(b, e, o, e', n) && SameAt(b, e, o, e', n)
  {
  }

  /** If the first n jobs come out as one by one, none of them is in conflict, and the other way round. */
  lemma {:induction false} FirstJobs(b: Burst, e: Engine, o: seq<Answer>, e': Engine, pool: set<Handle>, n: nat)
    requires Comparable(b, e, o, e', pool) && n <= |b.jobs|
    ensures NoConflict(b, n) <==> SameFirst(b, e, o, e', n)
  {
    if n > 0 {
      FirstJobs(b, e, o, e', pool, n - 1);
      OneMoreConflict(b, n - 1);
      OneMoreJob(b, e, o, e', n - 1);
      if NoConflict(b, n - 1) {
        JobAt(b, e, o, e', pool, n - 1);
      }
    }
  }

  /** Both runs leave the same sessions in the same slots, initialised alike. */
  ghost predicate SameSessions(s: Registry, t: Registry) { Mirrors(s, t, {}) }

  /** What t has in slot k, s has there, too. */
  ghost predicate HadAt(s: Registry, t: Registry, k: Key) {
    k in t.live ==> k in s.live && t.live[k] == s.live[k] && t.Contents(t.live[k]) == s.Contents(s.live[k])
  }

  lemma PostStepHad(u: Setup, s: Registry, ch: nat, j: Job, pool: set<Handle>, k: Key)
    requires Conserved(s, pool)
    ensures HadAt(s, PostJob(u, s, ch, j).0, k)
  {
    if j.kind.Closing? && KeyOf(u, ch, j.sessId).Some? && k in s.live {
      var m := KeyOf(u, ch, j.sessId).value;
      assert k != m ==> s.live[k] !in Objects(s, {m});
    }
  }

  lemma {:induction false} PostedHad(b: Burst, pool: set<Handle>, n: nat, k: Key)
    requires Intact(b, pool) && n <= |b.jobs|
    ensures HadAt(PreState(b, |b.jobs|), PostState(b, n), k)
  {
    if n > 0 {
      BurstConserves(b, pool, n - 1);
      PostedHad(b, pool, n - 1, k);
      PostStepHad(b.setup, PostState(b, n - 1), b.channel, PreOut(b, n - 1), pool, k);
    }
  }

  lemma SameRegistries(b: Burst, o: seq<Answer>, pool: set<Handle>)
    requires Intact(b, pool) && OneByOne(b, o, |b.jobs|) && NoConflict(b, |b.jobs|)
    ensures SameSessions(PostState(b, |b.jobs|), AloneState(b, o, |b.jobs|))
  {
    var n := |b.jobs|;
    AloneMirrors(b, o, pool, n);
    PostLive(b, n);
    var s, t := PostState(b, n), AloneState(b, o, n);
    forall k ensures k in s.live <==> k in t.live {
      if k in PreState(b, n).live {
        ClosedIsGone(b, n, k);
      }
    }
    forall k | k in s.live && k in t.live ensures t.Contents(t.live[k]) == s.Contents(s.live[k]) {
      PostedHad(b, pool, n, k);
    }
  }

  /**
   With an operation for every job, and as long as both runs load the same vectors, a burst gives
   the results of running its jobs one by one if and only if no job is in conflict with a deferred
   close; the sessions then are the same, too.
   */
  lemma SameResultsIff(b: Burst, e: Engine, o: seq<Answer>, e': Engine, pool: set<Handle>)
    requires Comparable(b, e, o, e', pool)
    ensures SameFirst(b, e, o, e', |b.jobs|) <==> NoConflict(b, |b.jobs|)
    ensures NoConflict(b, |b.jobs|) ==> SameSessions(PostState(b, |b.jobs|), AloneState(b, o, |b.jobs|))
  {
    FirstJobs(b, e, o, e', pool, |b.jobs|);
    if NoConflict(b, |b.jobs|) {
      SameRegistries(b, o, pool);
    }
  }

  /** Whatever the devices are and whatever the operations drawn in either run held before, the results are the same. */
  ghost predicate SameAlways(b: Burst, o: seq<Answer>)
    requires b.Sized() && |o| == |b.jobs|
  {
    forall e, e' :: b.Served(e) && b.Served(e') && e.cipher == e'.cipher ==> SameFirst(b, e, o, e', |b.jobs|)
  }

  /** Every accepted job has a vector that fills the area. */
  ghost predicate FullVectors(b: Burst)
    requires b.Sized()
  {
    forall i :: 0 <= i < |b.jobs| && Accepted(b, i) ==> |b.jobs[i].iv| == IV_SIZE
  }

  /**
   The two runs draw their operations differently.  A burst gives the results of running its jobs
   one by one, whatever those held, if and only if no job is in conflict with a deferred close and
   every accepted job brings a whole vector.
   */
  lemma SameAlwaysIff(b: Burst, o: seq<Answer>, pool: set<Handle>)
    requires Intact(b, pool) && OneByOne(b, o, |b.jobs|) && |b.jobs| <= b.ops
    requires forall i :: 0 <= i < |b.jobs| ==> |b.jobs[i].iv| <= IV_SIZE
    ensures SameAlways(b, o) <==> NoConflict(b, |b.jobs|) && FullVectors(b)
  {
    var n := |b.jobs|;
    var zeros: Area := seq(IV_SIZE, _ => 0);
    if SameAlways(b, o) {
      var e := Uniform(Choosy(zeros), zeros, n);
      assert b.Served(e) && SameVectors(b, e, e);
      SameResultsIff(b, e, o, e, pool);
      forall i | 0 <= i < n && Accepted(b, i) ensures |b.jobs[i].iv| == IV_SIZE {
        if |b.jobs[i].iv| < IV_SIZE {
          ShortDiffers(b, o, pool, i);
        }
      }
    }
    if NoConflict(b, n) && FullVectors(b) {
      forall e, e' | b.Served(e) && b.Served(e') && e.cipher == e'.cipher ensures SameFirst(b, e, o, e', n) {
        assert SameVectors(b, e, e');
        SameResultsIff(b, e, o, e', pool);
      }
    }
  }

  /** With a short vector some device tells the two runs apart. */
  lemma ShortDiffers(b: Burst, o: seq<Answer>, pool: set<Handle>, i: nat)
    requires Intact(b, pool) && OneByOne(b, o, |b.jobs|) && i < |b.jobs| <= b.ops
    requires NoConflict(b, |b.jobs|) && Accepted(b, i) && |b.jobs[i].iv| < IV_SIZE
    ensures !SameAlways(b, o)
  {
    var iv, n := b.jobs[i].iv, |b.jobs|;
    var zeros: Area, ones: Area := seq(IV_SIZE, _ => 0), seq(IV_SIZE, _ => 1);
    ShortVectorShows(zeros, ones, iv);
    var f := Choosy(Loaded(zeros, iv));
    var e, e' := Uniform(f, zeros, n), Uniform(f, ones, n);
    assert !Conflict(b, i);
    AloneMirrors(b, o, pool, i);
    SessionAlone(b, o, pool, i);
    OwnResult(b, e, i);
    assert Outcome(b, e, i).status != AloneOut(b, o, e', i).status;
    assert b.Served(e) && b.Served(e') && !SameAt(b, e, o, e', i);
    assert !SameFirst(b, e, o, e', n);
  }

  // ----- special cases

  /** Job i is a close of the session that id names. */
  predicate Closes(b: Burst, i: nat, id: nat)
    requires i < |b.jobs|
  {
    b.jobs[i].kind.Closing? && b.jobs[i].sessId == id
  }

  lemma {:induction false} GoneWithoutCreates(b: Burst, i: nat, id: nat)
    requires b.Sized() && i <= |b.jobs| && forall m :: 0 <= m < |b.jobs| ==> !b.jobs[m].kind.Creating?
    requires Lookup(b.setup, b.start, b.channel, id).Some?
    ensures PreState(b, i) == b.start
    ensures KeyOf(b.setup, b.channel, id).value in Gone(b, i) <==> exists m :: 0 <= m < i && Closes(b, m, id)
  {
    if i > 0 {
      GoneWithoutCreates(b, i - 1, id);
      if Named(b, i - 1) == KeyOf(b.setup, b.channel, id) {
        KeyInjective(b.setup, b.channel, b.jobs[i - 1].sessId, b.channel, id);
      }
      if Closes(b, i - 1, id) {
        assert KeyOf(b.setup, b.channel, id).value in Gone(b, i);
      }
    }
  }

  lemma {:induction false} NothingPrepared(b: Burst, i: nat)
    requires b.Sized() && i <= |b.jobs| && forall m :: 0 <= m < |b.jobs| ==> !b.jobs[m].kind.Creating?
    ensures PreState(b, i) == b.start
  {
    if i > 0 {
      NothingPrepared(b, i - 1);
    }
  }

  /** A cipher job, not marked FAILED, whose session resolves at the start and is closed by a job in front of it. */
  ghost predicate BehindItsClose(b: Burst, i: nat)
    requires i < |b.jobs|
  {
    && b.jobs[i].kind.Ciphering? && b.jobs[i].status != Failed
    && Lookup(b.setup, b.start, b.channel, b.jobs[i].sessId).Some?
    && exists m :: 0 <= m < i && Closes(b, m, b.jobs[i].sessId)
  }

  /** Without creates: a job is in conflict if and only if it is a live cipher job behind a close of its own id. */
  lemma WithoutCreatesIff(b: Burst)
    requires b.Sized() && forall m :: 0 <= m < |b.jobs| ==> !b.jobs[m].kind.Creating?
    ensures NoConflict(b, |b.jobs|) <==> forall i :: 0 <= i < |b.jobs| ==> !BehindItsClose(b, i)
  {
    forall i | 0 <= i < |b.jobs| ensures Conflict(b, i) <==> BehindItsClose(b, i) {
      NothingPrepared(b, i);
      NothingPrepared(b, |b.jobs|);
      if Accepted(b, i) {
        GoneWithoutCreates(b, i, b.jobs[i].sessId);
      }
    }
  }

  /** The closes of the burst are its jobs from m on. */
  ghost predicate ClosesFrom(b: Burst, m: nat) {
    m <= |b.jobs| && forall i :: 0 <= i < |b.jobs| ==> (b.jobs[i].kind.Closing? <==> i >= m)
  }

  lemma {:induction false} NothingGone(b: Burst, m: nat, n: nat)
    requires b.Sized() && ClosesFrom(b, m) && n <= m
    ensures Gone(b, n) == {}
  {
    if n > 0 {
      NothingGone(b, m, n - 1);
    }
  }

  lemma {:induction false} ClosesPrepareNothing(b: Burst, m: nat, n: nat)
    requires b.Sized() && ClosesFrom(b, m) && m <= n <= |b.jobs|
    ensures PreState(b, n) == PreState(b, m)
  {
    if n > m {
      ClosesPrepareNothing(b, m, n - 1);
    }
  }

  /** A burst that ends with its closes has no conflict, so it is the same as running its jobs one by one. */
  lemma BurstIsSequential(b: Burst, m: nat)
    requires b.Sized() && ClosesFrom(b, m)
    ensures NoConflict(b, |b.jobs|)
  {
    forall i | 0 <= i < |b.jobs| ensures !Conflict(b, i) {
      if i < m {
        NothingGone(b, m, i);
      } else {
        ClosesPrepareNothing(b, m, i);
        ClosesPrepareNothing(b, m, |b.jobs|);
      }
    }
  }

  // ----- examples

  /** A close and then another job. */
  function CloseThen(u: Setup, s: Registry, ch: nat, id: nat, j: Job, a: Answer): Burst {
    Burst(u, s, ch, [Job(Closing, NotProcessed, id, 0, 0, 1, [], [], []), j], [Answer(None, false), a], 2)
  }

  /** Deferring the closes shows: a cipher job behind the close of its session still succeeds in a burst, and fails one by one. */
  lemma DeferredCloseShows(u: Setup, s: Registry, ch: nat, id: nat, data: seq<Byte>, iv: seq<Byte>, e: Engine)
    requires Lookup(u, s, ch, id).Some? && |e.held| == 2
    requires e.cipher(s.Contents(Lookup(u, s, ch, id).value), data, Loaded(e.held[1], iv)).0.OpSuccess?
    ensures var b := CloseThen(u, s, ch, id, Job(Ciphering, NotProcessed, id, 0, 0, 1, data, [], iv), Answer(None, false));
            Outcome(b, e, 1).status == Succ && AloneOut(b, b.answers, e, 1).status == Failed
  {
    var b := CloseThen(u, s, ch, id, Job(Ciphering, NotProcessed, id, 0, 0, 1, data, [], iv), Answer(None, false));
    assert PreState(b, 0) == s && PreState(b, 1) == s;
    assert Accepted(b, 1);
    OwnResult(b, e, 1);
    CloseEnds(u, s, ch, id);
    assert AloneState(b, b.answers, 0) == s;
    assert AloneState(b, b.answers, 1) == Remove(u, s, ch, id).0;
  }

  /**
   The session pool shows, too: with no object left, a create behind a close fails in a burst.  One
   by one the close has given an object back, and the create succeeds with it.
   */
  lemma EmptyPoolShows(u: Setup, s: Registry, pool: set<Handle>, ch: nat, id: nat, algo: nat, key: seq<Byte>, e: Engine)
    requires u.Valid() && Conserved(s, pool) && KeysValid(s) && ch < MAX_CHANNEL_NUM && s.free == {}
    requires Lookup(u, s, ch, id).Some? && algo < ALGO_LAST && DeviceOf(id) == u.Device(algo) && |e.held| == 2
    ensures var b := CloseThen(u, s, ch, id, Job(Creating, NotProcessed, 0, algo, 0, 0, [], key, []), Answer(None, true));
            var o := [Answer(None, false), Answer(Lookup(u, s, ch, id), true)];
            && Intact(b, pool) && OneByOne(b, o, 2)
            && Outcome(b, e, 1).status == Failed && AloneOut(b, o, e, 1).status == Succ
  {
    var b := CloseThen(u, s, ch, id, Job(Creating, NotProcessed, 0, algo, 0, 0, [], key, []), Answer(None, true));
    var o := [Answer(None, false), Answer(Lookup(u, s, ch, id), true)];
    var k := KeyOf(u, ch, id).value;
    assert PreState(b, 0) == s && PreState(b, 1) == s;
    assert AloneState(b, o, 0) == s;
    assert AloneState(b, o, 1) == Remove(u, s, ch, id).0;
    assert s.live[k] in Objects(s, {k});
    assert AnswerAlone(b, o, 0) && AnswerAlone(b, o, 1);
    var i := FirstFree(AloneState(b, o, 1).live, ch, u.Device(algo), 0);
    assert k == Key(ch, u.Device(algo), k.slot) && k !in AloneState(b, o, 1).live;
    assert i <= k.slot;
  }
}
