/**
 Under which key a job is ciphered: sessions keep what their create initialised them with, through
 every burst and every channel's clean-up, until they are closed.
 */
module SessionKeys {
  import opened Basics
  import opened Sessions
  import opened SessionTheorems
  import opened Pipeline

  lemma PrepareStep(b: Burst, pool: set<Handle>, n: nat, ch: nat, id: nat, h: Option<Handle>, c: Config)
    requires Intact(b, pool) && n < |b.jobs| && Names(b.setup, PreState(b, n), ch, id, h, c)
    ensures Names(b.setup, PreState(b, n + 1), ch, id, h, c)
  {
    var j, a := b.jobs[n], b.answers[n];
    if IsCreate(j) {
      PreparingConserves(b, pool, n);
      NamesOn(b.setup, PreState(b, n), PreState(b, n + 1), pool, Open(b.channel, Wanted(j), a.pick, a.initOk), ch, id, h, c);
    }
  }

  /** Preparing jobs ends no session and initialises none again. */
  lemma {:induction false} NamesPrepared(b: Burst, pool: set<Handle>, i: nat, n: nat, ch: nat, id: nat, h: Option<Handle>, c: Config)
    requires Intact(b, pool) && i <= n <= |b.jobs| && Names(b.setup, PreState(b, i), ch, id, h, c)
    ensures Names(b.setup, PreState(b, n), ch, id, h, c)
  {
    if i < n {
      NamesPrepared(b, pool, i, n - 1, ch, id, h, c);
      PrepareStep(b, pool, n - 1, ch, id, h, c);
    }
  }

  /** An accepted job is ciphered under what its session held when the job was accepted. */
  lemma OwnKey(b: Burst, pool: set<Handle>, i: nat)
    requires Intact(b, pool) && i < |b.jobs| && Accepted(b, i)
    ensures SessionConfig(b, i) == PreState(b, i).Contents(Lookup(b.setup, PreState(b, i), b.channel, b.jobs[i].sessId).value)
  {
    AcceptedHasSession(b, i);
    var h := SessionOf(b, i);
    NamesPrepared(b, pool, i, |b.jobs|, b.channel, b.jobs[i].sessId, h, PreState(b, i).Contents(h.value));
  }

  /** The burst has no close of this id on this channel. */
  ghost predicate Spares(b: Burst, ch: nat, id: nat) {
    b.channel == ch ==> forall i :: 0 <= i < |b.jobs| ==> !(b.jobs[i].kind.Closing? && b.jobs[i].sessId == id)
  }

  lemma CloseStep(b: Burst, pool: set<Handle>, n: nat, ch: nat, id: nat, h: Option<Handle>, c: Config)
    requires Intact(b, pool) && n < |b.jobs| && Spares(b, ch, id) && Names(b.setup, PostState(b, n), ch, id, h, c)
    requires b.channel < MAX_CHANNEL_NUM
    ensures Names(b.setup, PostState(b, n + 1), ch, id, h, c)
  {
    var j := PreOut(b, n);
    assert j.kind == b.jobs[n].kind;
    if j.kind.Closing? {
      assert j.sessId == b.jobs[n].sessId;
      BurstConserves(b, pool, n);
      NamesOn(b.setup, PostState(b, n), PostState(b, n + 1), pool, Close(b.channel, j.sessId), ch, id, h, c);
    }
  }

  lemma {:induction false} NamesPosted(b: Burst, pool: set<Handle>, n: nat, ch: nat, id: nat, h: Option<Handle>, c: Config)
    requires Intact(b, pool) && n <= |b.jobs| && Spares(b, ch, id) && Names(b.setup, PreState(b, |b.jobs|), ch, id, h, c)
    requires b.channel < MAX_CHANNEL_NUM
    ensures Names(b.setup, PostState(b, n), ch, id, h, c)
  {
    if n > 0 {
      NamesPosted(b, pool, n - 1, ch, id, h, c);
      CloseStep(b, pool, n - 1, ch, id, h, c);
    }
  }

  // ----- runs of the server

  /** What happens to the registry: a burst on some channel, or a channel's clean-up. */
  datatype Event = Run(burst: Burst) | Drop(channel: nat)

  ghost predicate Happens(u: Setup, s: Registry, t: Registry, v: Event) {
    match v
    case Run(b) =>
      && b.Sized() && b.setup == u && b.start == s && b.channel < MAX_CHANNEL_NUM && AnswersFit(b, |b.jobs|)
      && t == PostState(b, |b.jobs|)
    case Drop(ch) => ch < MAX_CHANNEL_NUM && t == RemoveAll(u, s, ch)
  }

  ghost predicate IsHistory(u: Setup, pool: set<Handle>, states: seq<Registry>, events: seq<Event>) {
    && |states| == |events| + 1 && states[0] == Registry(map[], pool, map[])
    && forall i :: 0 <= i < |events| ==> Happens(u, states[i], states[i + 1], events[i])
  }

  lemma HistoryStep(u: Setup, pool: set<Handle>, states: seq<Registry>, events: seq<Event>, n: nat)
    requires IsHistory(u, pool, states, events) && n < |events|
    ensures Happens(u, states[n], states[n + 1], events[n])
  {
  }

  /** Over any history of bursts and clean-ups no session object is lost or used twice. */
  lemma {:induction false} HistoryConserves(u: Setup, pool: set<Handle>, states: seq<Registry>, events: seq<Event>, n: nat)
    requires u.Valid() && IsHistory(u, pool, states, events) && n <= |events|
    ensures Conserved(states[n], pool) && KeysValid(states[n])
  {
    if n > 0 {
      HistoryConserves(u, pool, states, events, n - 1);
      HistoryStep(u, pool, states, events, n - 1);
      match events[n - 1]
      case Run(b) => BurstConserves(b, pool, |b.jobs|);
      case Drop(ch) => ConservedCleanup(u, states[n - 1], pool, Cleanup(ch));
    }
  }

  /** The event neither closes the id on the channel nor cleans the channel up. */
  ghost predicate Leaves(v: Event, ch: nat, id: nat) {
    match v
    case Run(b) => Spares(b, ch, id)
    case Drop(ch') => ch' != ch
  }

  lemma EventStep(u: Setup, pool: set<Handle>, s: Registry, t: Registry, v: Event, ch: nat, id: nat, h: Option<Handle>, c: Config)
    requires u.Valid() && Conserved(s, pool) && KeysValid(s) && Happens(u, s, t, v) && Leaves(v, ch, id)
    requires Names(u, s, ch, id, h, c)
    ensures Names(u, t, ch, id, h, c)
  {
    match v
    case Run(b) =>
      NamesPrepared(b, pool, 0, |b.jobs|, ch, id, h, c);
      NamesPosted(b, pool, |b.jobs|, ch, id, h, c);
    case Drop(ch') => NamesOn(u, s, t, pool, Cleanup(ch'), ch, id, h, c);
  }

  ghost predicate AllLeave(events: seq<Event>, m: nat, n: nat, ch: nat, id: nat)
    requires m <= n <= |events|
  {
    forall i :: m <= i < n ==> Leaves(events[i], ch, id)
  }

  lemma {:induction false} NamesThrough(u: Setup, pool: set<Handle>, states: seq<Registry>, events: seq<Event>, m: nat, n: nat,
                                        ch: nat, id: nat, h: Option<Handle>, c: Config)
    requires u.Valid() && IsHistory(u, pool, states, events) && m <= n <= |events| && AllLeave(events, m, n, ch, id)
    requires Names(u, states[m], ch, id, h, c)
    ensures Names(u, states[n], ch, id, h, c)
  {
    if m < n {
      NamesThrough(u, pool, states, events, m, n - 1, ch, id, h, c);
      HistoryConserves(u, pool, states, events, n - 1);
      HistoryStep(u, pool, states, events, n - 1);
      EventStep(u, pool, states[n - 1], states[n], events[n - 1], ch, id, h, c);
    }
  }

  /** Job i is a create that succeeds in its burst. */
  ghost predicate Granted(b: Burst, i: nat)
    requires b.Sized() && i < |b.jobs|
  {
    IsCreate(b.jobs[i]) && PreOut(b, i).status.Succ?
  }

  /** The id a create answers with names its own session, with the key it asked for. */
  lemma JustGranted(b: Burst, i: nat)
    requires b.Sized() && b.setup.Valid() && i < |b.jobs| && Granted(b, i)
    ensures Names(b.setup, PreState(b, i + 1), b.channel, PreOut(b, i).sessId, b.answers[i].pick, Wanted(b.jobs[i]))
  {
    CreatedResolves(b.setup, PreState(b, i), b.channel, Wanted(b.jobs[i]), b.answers[i].pick, b.answers[i].initOk);
  }

  /** Job j of burst b is accepted and ciphered with this key. */
  ghost predicate CipheredUnder(b: Burst, j: nat, c: Config)
    requires b.Sized() && j < |b.jobs|
  {
    Accepted(b, j) && SessionConfig(b, j) == c
  }

  lemma NamedIsCiphered(b: Burst, pool: set<Handle>, j: nat, h: Option<Handle>, c: Config)
    requires Intact(b, pool) && j < |b.jobs| && b.jobs[j].kind.Ciphering? && b.jobs[j].status != Failed
    requires Names(b.setup, PreState(b, j), b.channel, b.jobs[j].sessId, h, c)
    ensures CipheredUnder(b, j, c)
  {
    OwnKey(b, pool, j);
  }

  /** In its own burst: a job behind the create whose id it carries is ciphered with that create's key, closes or not. */
  lemma OwnBurstKey(b: Burst, pool: set<Handle>, i: nat, j: nat)
    requires Intact(b, pool) && i < j < |b.jobs| && Granted(b, i)
    requires b.jobs[j].kind.Ciphering? && b.jobs[j].status != Failed && b.jobs[j].sessId == PreOut(b, i).sessId
    ensures CipheredUnder(b, j, Wanted(b.jobs[i]))
  {
    var id, h, c := b.jobs[j].sessId, b.answers[i].pick, Wanted(b.jobs[i]);
    JustGranted(b, i);
    NamesPrepared(b, pool, i + 1, j, b.channel, id, h, c);
    NamedIsCiphered(b, pool, j, h, c);
  }

  /**
   Over any history: a cipher job that carries the id a create of an earlier burst on its channel
   answered with is accepted, and ciphered with the algorithm, direction and key of that create,
   unless the id was closed or the channel cleaned up in between.
   */
  lemma UnderOwnKey(u: Setup, pool: set<Handle>, states: seq<Registry>, events: seq<Event>, m: nat, n: nat, i: nat, j: nat)
    requires u.Valid() && IsHistory(u, pool, states, events) && m < n < |events| && events[m].Run? && events[n].Run?
    requires events[m].burst.Sized() && i < |events[m].burst.jobs| && Granted(events[m].burst, i)
    requires var b, id := events[n].burst, PreOut(events[m].burst, i).sessId;
             && b.Sized() && b.channel == events[m].burst.channel && j < |b.jobs|
             && b.jobs[j].kind.Ciphering? && b.jobs[j].status != Failed && b.jobs[j].sessId == id
             && AllLeave(events, m, n, b.channel, id)
    ensures CipheredUnder(events[n].burst, j, Wanted(events[m].burst.jobs[i]))
  {
    var b0, b := events[m].burst, events[n].burst;
    var ch, id, h, c := b.channel, b.jobs[j].sessId, b0.answers[i].pick, Wanted(b0.jobs[i]);
    HistoryStep(u, pool, states, events, m);
    HistoryStep(u, pool, states, events, n);
    HistoryConserves(u, pool, states, events, m);
    HistoryConserves(u, pool, states, events, n);
    JustGranted(b0, i);
    NamesPrepared(b0, pool, i + 1, |b0.jobs|, ch, id, h, c);
    assert Leaves(events[m], ch, id);
    NamesPosted(b0, pool, |b0.jobs|, ch, id, h, c);
    NamesThrough(u, pool, states, events, m + 1, n, ch, id, h, c);
    NamesPrepared(b, pool, 0, j, ch, id, h, c);
    NamedIsCiphered(b, pool, j, h, c);
  }

  /** A create is answered with an id on the device that serves its algorithm. */
  lemma GrantedDevice(b: Burst, i: nat)
    requires b.Sized() && i < |b.jobs| && Granted(b, i)
    ensures b.jobs[i].algo < 2 && Serves(b.setup, PreOut(b, i).sessId, b.jobs[i].algo)
  {
    DeviceChosen(b.setup, PreState(b, i), b.channel, Wanted(b.jobs[i]), b.answers[i].pick, b.answers[i].initOk);
  }

  /** Job j is in the list of this device and in no other. */
  ghost predicate Listed(b: Burst, j: nat, device: nat)
    requires b.Sized()
  {
    forall dev :: j in IndexList(b, dev, |b.jobs|) <==> dev == device
  }

  /** Over any history: a job that carries the id of an earlier create goes to the device that serves the create's algorithm. */
  lemma OnItsDevice(u: Setup, pool: set<Handle>, states: seq<Registry>, events: seq<Event>, m: nat, n: nat, i: nat, j: nat)
    requires u.Valid() && IsHistory(u, pool, states, events) && m < n < |events| && events[m].Run? && events[n].Run?
    requires events[m].burst.Sized() && i < |events[m].burst.jobs| && Granted(events[m].burst, i)
    requires var b, id := events[n].burst, PreOut(events[m].burst, i).sessId;
             && b.Sized() && b.channel == events[m].burst.channel && j < |b.jobs|
             && b.jobs[j].kind.Ciphering? && b.jobs[j].status != Failed && b.jobs[j].sessId == id
             && AllLeave(events, m, n, b.channel, id)
    ensures events[m].burst.jobs[i].algo == 0 ==> Listed(events[n].burst, j, u.aesCtr)
    ensures events[m].burst.jobs[i].algo == 1 ==> Listed(events[n].burst, j, u.snow3g)
  {
    UnderOwnKey(u, pool, states, events, m, n, i, j);
    HistoryStep(u, pool, states, events, m);
    GrantedDevice(events[m].burst, i);
    ListsCover(events[n].burst, |events[n].burst.jobs|, j);
  }

  /** The same within one burst. */
  lemma OnItsDeviceInBurst(b: Burst, pool: set<Handle>, i: nat, j: nat)
    requires Intact(b, pool) && i < j < |b.jobs| && Granted(b, i)
    requires b.jobs[j].kind.Ciphering? && b.jobs[j].status != Failed && b.jobs[j].sessId == PreOut(b, i).sessId
    ensures b.jobs[i].algo == 0 ==> Listed(b, j, b.setup.aesCtr)
    ensures b.jobs[i].algo == 1 ==> Listed(b, j, b.setup.snow3g)
  {
    OwnBurstKey(b, pool, i, j);
    GrantedDevice(b, i);
    ListsCover(b, |b.jobs|, j);
  }
}
