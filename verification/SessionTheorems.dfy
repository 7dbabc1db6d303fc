/**
 The registry over every run of creates, closes, lookups and channel clean-ups.
 */
module SessionTheorems {
  import opened Basics
  import opened Sessions

  lemma IdRoundTrip(u: Setup, ch: nat, dev: nat, slot: nat)
    requires dev < u.devices && slot < MAX_SESS_NUM
    ensures KeyOf(u, ch, SessionId(dev, slot)) == Some(Key(ch, dev, slot))
  {
  }

  /** Different ids of one channel never name the same slot. */
  lemma KeyInjective(u: Setup, ch: nat, id: nat, ch': nat, id': nat)
    requires KeyOf(u, ch, id).Some? && KeyOf(u, ch, id) == KeyOf(u, ch', id')
    ensures ch == ch' && id == id'
  {
    assert id == DeviceOf(id) * 65536 + SlotOf(id);
    assert id' == DeviceOf(id') * 65536 + SlotOf(id');
  }

  /** A failed create answers with an id that resolves on no channel in any state. */
  lemma FailedIdNeverResolves(u: Setup, s: Registry, ch: nat)
    requires u.Valid()
    ensures Lookup(u, s, ch, NO_SESSION) == None
    ensures !Remove(u, s, ch, NO_SESSION).1
  {
    assert SlotOf(NO_SESSION) == 65535;
  }

  /** A successful create answers with an id that resolved to nothing before and to the new session now. */
  lemma CreatedResolves(u: Setup, s: Registry, ch: nat, c: Config, pick: Option<Handle>, initOk: bool)
    requires u.Valid() && CreateSession(u, s, ch, c, pick, initOk).1.Some?
    ensures var (t, id) := CreateSession(u, s, ch, c, pick, initOk);
            Lookup(u, s, ch, id.value) == None && Lookup(u, t, ch, id.value) == pick && t.Contents(pick.value) == c
  {
    var dev := u.Device(c.algo);
    IdRoundTrip(u, ch, dev, FirstFree(s.live, ch, dev, 0));
  }

  lemma ConservedCreate(u: Setup, s: Registry, pool: set<Handle>, a: Action)
    requires u.Valid() && Enabled(s, a) && a.Open? && Conserved(s, pool) && KeysValid(s)
    ensures Conserved(Apply(u, s, a), pool) && KeysValid(Apply(u, s, a))
  {
    var t := Apply(u, s, a);
    if t.live != s.live {
      var dev := u.Device(a.config.algo);
      var added := Key(a.channel, dev, FirstFree(s.live, a.channel, dev, 0));
      forall h | h in pool && h !in t.free ensures exists k :: k in t.live && t.live[k] == h {
        if h == a.pick.value {
          assert t.live[added] == h;
        } else {
          var k :| k in s.live && s.live[k] == h;
          assert t.live[k] == h;
        }
      }
    }
  }

  lemma ConservedClose(u: Setup, s: Registry, pool: set<Handle>, a: Action)
    requires u.Valid() && a.Close? && Conserved(s, pool) && KeysValid(s)
    ensures Conserved(Apply(u, s, a), pool) && KeysValid(Apply(u, s, a))
  {
    var t := Apply(u, s, a);
    forall h | h in pool && h !in t.free ensures exists k :: k in t.live && t.live[k] == h {
      var k :| k in s.live && s.live[k] == h;
      assert k in t.live;
    }
  }

  lemma ConservedCleanup(u: Setup, s: Registry, pool: set<Handle>, a: Action)
    requires u.Valid() && a.Cleanup? && Conserved(s, pool) && KeysValid(s)
    ensures Conserved(Apply(u, s, a), pool) && KeysValid(Apply(u, s, a))
  {
    var t := Apply(u, s, a);
    forall h | h in pool && h !in t.free ensures exists k :: k in t.live && t.live[k] == h {
      var k :| k in s.live && s.live[k] == h;
      assert k in t.live;
    }
  }

  ghost predicate IsRun(u: Setup, pool: set<Handle>, states: seq<Registry>, actions: seq<Action>) {
    && |states| == |actions| + 1 && states[0] == Registry(map[], pool, map[])
    && (forall i :: 0 <= i < |actions| ==>
          Enabled(states[i], actions[i]) && states[i + 1] == Apply(u, states[i], actions[i]))
  }

  lemma RunStep(u: Setup, pool: set<Handle>, states: seq<Registry>, actions: seq<Action>, n: nat)
    requires IsRun(u, pool, states, actions) && n < |actions|
    ensures Enabled(states[n], actions[n]) && states[n + 1] == Apply(u, states[n], actions[n])
  {
  }

  /** In every run, on every path, the objects taken from the pool are exactly those in occupied slots, each in one slot. */
  lemma {:induction false} PoolConserved(u: Setup, pool: set<Handle>, states: seq<Registry>, actions: seq<Action>, n: nat)
    requires u.Valid() && IsRun(u, pool, states, actions) && n <= |actions|
    ensures Conserved(states[n], pool) && KeysValid(states[n])
  {
    if n > 0 {
      PoolConserved(u, pool, states, actions, n - 1);
      var s, a := states[n - 1], actions[n - 1];
      assert states[n - 1 + 1] == Apply(u, s, a);
      match a
      case Open(_, _, _, _) => ConservedCreate(u, s, pool, a);
      case Close(_, _) => ConservedClose(u, s, pool, a);
      case Cipher(_, _) =>
      case Cleanup(_) => ConservedCleanup(u, s, pool, a);
    }
  }

  /** What happens on one channel changes no lookup on another. */
  lemma ChannelsIsolated(u: Setup, s: Registry, a: Action, ch: nat, id: nat)
    requires a.channel != ch
    ensures Lookup(u, Apply(u, s, a), ch, id) == Lookup(u, s, ch, id)
  {
  }

  /** A resolving id goes on resolving to the same session through every step but its own close and the channel's clean-up. */
  lemma ResolvesOn(u: Setup, s: Registry, a: Action, ch: nat, id: nat)
    requires Lookup(u, s, ch, id).Some?
    requires a != Close(ch, id) && a != Cleanup(ch)
    ensures Lookup(u, Apply(u, s, a), ch, id) == Lookup(u, s, ch, id)
  {
    if a.Close? && KeyOf(u, a.channel, a.id) == KeyOf(u, ch, id) {
      KeyInjective(u, a.channel, a.id, ch, id);
    }
  }

  /** Its session object is not initialised again meanwhile: objects in use are not in the pool. */
  lemma ContentsKept(u: Setup, s: Registry, pool: set<Handle>, a: Action, ch: nat, id: nat)
    requires Lookup(u, s, ch, id).Some? && Conserved(s, pool) && Enabled(s, a)
    requires a != Close(ch, id) && a != Cleanup(ch)
    ensures Apply(u, s, a).Contents(Lookup(u, s, ch, id).value) == s.Contents(Lookup(u, s, ch, id).value)
  {
    if a.Close? && KeyOf(u, a.channel, a.id) == KeyOf(u, ch, id) {
      KeyInjective(u, a.channel, a.id, ch, id);
    }
  }

  /** The id the i-th action was answered with. */
  ghost function Answer(u: Setup, s: Registry, a: Action): Option<nat>
    requires a.Open?
  {
    CreateSession(u, s, a.channel, a.config, a.pick, a.initOk).1
  }

  /** Neither closed nor cleaned up after step i and before step j. */
  ghost predicate Untouched(actions: seq<Action>, i: nat, j: nat, ch: nat, id: nat)
    requires i < j <= |actions|
  {
    forall m :: i < m < j ==> actions[m] != Close(ch, id) && actions[m] != Cleanup(ch)
  }

  /** The id names this object, initialised like this. */
  ghost predicate Names(u: Setup, s: Registry, ch: nat, id: nat, h: Option<Handle>, c: Config) {
    h.Some? && Resolves(u, s, ch, id, h.value) && Holds(s, h.value, c)
  }

  ghost predicate Resolves(u: Setup, s: Registry, ch: nat, id: nat, h: Handle) { Lookup(u, s, ch, id) == Some(h) }

  ghost predicate Holds(s: Registry, h: Handle, c: Config) { s.Contents(h) == c }

  lemma NamesOn(u: Setup, s: Registry, t: Registry, pool: set<Handle>, a: Action, ch: nat, id: nat, h: Option<Handle>, c: Config)
    requires Names(u, s, ch, id, h, c) && Conserved(s, pool) && Enabled(s, a) && t == Apply(u, s, a)
    requires a != Close(ch, id) && a != Cleanup(ch)
    ensures Names(u, t, ch, id, h, c)
  {
    ResolvesOn(u, s, a, ch, id);
    ContentsKept(u, s, pool, a, ch, id);
  }

  lemma {:induction false} NamesUntilClosed(u: Setup, pool: set<Handle>, states: seq<Registry>, actions: seq<Action>, i: nat, j: nat,
                                            ch: nat, id: nat, h: Option<Handle>, c: Config)
    requires u.Valid() && IsRun(u, pool, states, actions) && i < j <= |actions|
    requires Names(u, states[i + 1], ch, id, h, c) && Untouched(actions, i, j, ch, id)
    ensures Names(u, states[j], ch, id, h, c)
  {
    if j > i + 1 {
      NamesUntilClosed(u, pool, states, actions, i, j - 1, ch, id, h, c);
      PoolConserved(u, pool, states, actions, j - 1);
      RunStep(u, pool, states, actions, j - 1);
      NamesOn(u, states[j - 1], states[j], pool, actions[j - 1], ch, id, h, c);
    }
  }

  /**
   Every id answered as successful resolves to its own session on its own channel, with the
   algorithm, direction and key of its create, until it is closed or the channel cleaned up.
   */
  lemma ResolvesUntilClosed(u: Setup, pool: set<Handle>, states: seq<Registry>, actions: seq<Action>, i: nat, j: nat)
    requires u.Valid() && IsRun(u, pool, states, actions) && i < j <= |actions|
    requires actions[i].Open? && Answer(u, states[i], actions[i]).Some?
    requires Untouched(actions, i, j, actions[i].channel, Answer(u, states[i], actions[i]).value)
    ensures Names(u, states[j], actions[i].channel, Answer(u, states[i], actions[i]).value, actions[i].pick, actions[i].config)
  {
    var a := actions[i];
    RunStep(u, pool, states, actions, i);
    CreatedResolves(u, states[i], a.channel, a.config, a.pick, a.initOk);
    NamesUntilClosed(u, pool, states, actions, i, j, a.channel, Answer(u, states[i], a).value, a.pick, a.config);
  }

  /** Ids that are live at the same time on one channel differ. */
  lemma LiveIdsDistinct(u: Setup, pool: set<Handle>, states: seq<Registry>, actions: seq<Action>, i: nat, j: nat)
    requires u.Valid() && IsRun(u, pool, states, actions) && i < j < |actions|
    requires actions[i].Open? && Answer(u, states[i], actions[i]).Some?
    requires actions[j].Open? && Answer(u, states[j], actions[j]).Some? && actions[j].channel == actions[i].channel
    requires Untouched(actions, i, j, actions[i].channel, Answer(u, states[i], actions[i]).value)
    ensures Answer(u, states[i], actions[i]) != Answer(u, states[j], actions[j])
  {
    var a, b := actions[i], actions[j];
    CreatedResolves(u, states[i], a.channel, a.config, a.pick, a.initOk);
    ResolvesUntilClosed(u, pool, states, actions, i, j);
    CreatedResolves(u, states[j], b.channel, b.config, b.pick, b.initOk);
  }

  /** A close answers success exactly when the id resolved, and afterwards it does not. */
  lemma CloseEnds(u: Setup, s: Registry, ch: nat, id: nat)
    ensures Remove(u, s, ch, id).1 <==> Lookup(u, s, ch, id).Some?
    ensures Lookup(u, Remove(u, s, ch, id).0, ch, id) == None
  {
  }

  /** After the clean-up no id resolves on the channel. */
  lemma CleanupEnds(u: Setup, s: Registry, ch: nat, id: nat)
    ensures Lookup(u, RemoveAll(u, s, ch), ch, id) == None
  {
  }

  /** A create fails exactly for an unknown algorithm, without an object, when the device refuses, or when all slots of its device are taken. */
  lemma CreateFailsIff(u: Setup, s: Registry, ch: nat, c: Config, pick: Option<Handle>, initOk: bool)
    ensures CreateSession(u, s, ch, c, pick, initOk).1.None? <==>
            || c.algo >= ALGO_LAST || pick.None? || !initOk
            || forall i :: 0 <= i < MAX_SESS_NUM ==> Key(ch, u.Device(c.algo), i) in s.live
  {
    var i := FirstFree(s.live, ch, u.Device(c.algo), 0);
    if i < MAX_SESS_NUM {
      assert Key(ch, u.Device(c.algo), i) !in s.live;
    }
  }

  /** The device an id names serves the algorithm of the create it answered: AES-CTR is algorithm 0, SNOW3G algorithm 1. */
  ghost predicate Serves(u: Setup, id: nat, algo: nat) {
    (algo == 0 ==> id / 65536 == u.aesCtr) && (algo == 1 ==> id / 65536 == u.snow3g)
  }

  /** A successful create answers with the first empty slot of the device that serves its algorithm. */
  lemma DeviceChosen(u: Setup, s: Registry, ch: nat, c: Config, pick: Option<Handle>, initOk: bool)
    requires CreateSession(u, s, ch, c, pick, initOk).1.Some?
    ensures var id := CreateSession(u, s, ch, c, pick, initOk).1.value;
            && c.algo < 2 && Serves(u, id, c.algo) && id % 65536 < MAX_SESS_NUM
            && Key(ch, id / 65536, id % 65536) !in s.live
            && forall j :: 0 <= j < id % 65536 ==> Key(ch, id / 65536, j) in s.live
  {
    var dev := u.Device(c.algo);
    var i := FirstFree(s.live, ch, dev, 0);
    assert SessionId(dev, i) / 65536 == dev && SessionId(dev, i) % 65536 == i;
  }

  /** With one device for each algorithm and no session yet, the first create of each gets slot 0 of its own device. */
  lemma FirstIds(ch: nat, h: Handle, key: seq<Byte>)
    ensures var u, s := Setup(2, 0, 1), Registry(map[], {h}, map[]);
            && CreateSession(u, s, ch, Config(0, 0, key), Some(h), true).1 == Some(0)
            && CreateSession(u, s, ch, Config(1, 0, key), Some(h), true).1 == Some(65536)
  {
  }

  /** The objects in the pool hold nothing. */
  ghost predicate PoolBlank(s: Registry) { forall h :: h in s.free ==> s.Contents(h) == BLANK }

  lemma StepBlank(u: Setup, s: Registry, pool: set<Handle>, a: Action)
    requires PoolBlank(s) && UsedOnce(s, pool) && Enabled(s, a)
    ensures PoolBlank(Apply(u, s, a))
  {
  }

  /** In every run, what a session was initialised with is gone from its object once the object is back in the pool. */
  lemma {:induction false} FreedAreBlank(u: Setup, pool: set<Handle>, states: seq<Registry>, actions: seq<Action>, n: nat)
    requires u.Valid() && IsRun(u, pool, states, actions) && n <= |actions|
    ensures PoolBlank(states[n])
  {
    if n > 0 {
      FreedAreBlank(u, pool, states, actions, n - 1);
      PoolConserved(u, pool, states, actions, n - 1);
      RunStep(u, pool, states, actions, n - 1);
      StepBlank(u, states[n - 1], pool, actions[n - 1]);
    }
  }
}
