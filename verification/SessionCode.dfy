/**
 The registry table, updated in place, proved against the functions of Sessions.
 */
module SessionCode {
  import opened Basics
  import opened Sessions

  class SessionStore {
    const setup: Setup
    /** _active_sessions_registry; None is a null pointer. */
    const table: array3<Option<Handle>>
    /** The objects left in the session pool. */
    var free: set<Handle>
    /** What the session objects hold. */
    var contents: map<Handle, Config>
    ghost var live: map<Key, Handle>

    ghost predicate Valid()
      reads this, table
    {
      && setup.Valid()
      && table.Length0 == MAX_CHANNEL_NUM && table.Length1 == MAX_DEV_NUM && table.Length2 == MAX_SESS_NUM
      && (forall k :: k in live ==> k.Valid())
      && (forall c, d, i :: 0 <= c < MAX_CHANNEL_NUM && 0 <= d < MAX_DEV_NUM && 0 <= i < MAX_SESS_NUM ==>
            table[c, d, i] == if Key(c, d, i) in live then Some(live[Key(c, d, i)]) else None)
    }

    ghost function State(): Registry
      reads this
    {
      Registry(live, free, contents)
    }

    constructor (setup: Setup, pool: set<Handle>)
      requires setup.Valid()
      ensures Valid() && this.setup == setup && State() == Registry(map[], pool, map[]) && fresh(table)
    {
      this.setup, free, contents, live := setup, pool, map[], map[];
      table := new Option<Handle>[MAX_CHANNEL_NUM, MAX_DEV_NUM, MAX_SESS_NUM]((c, d, i) => None);
    }

    /** get_session. */
    method GetSession(ch: nat, id: nat) returns (h: Option<Handle>)
      requires Valid() && ch < MAX_CHANNEL_NUM
      ensures h == Lookup(setup, State(), ch, id)
    {
      var dev, i := id / 65536, id % 65536;
      if !(dev < setup.devices && i < MAX_SESS_NUM) {
        return None;
      }
      h := table[ch, dev, i];
    }

    /** What the device reads in a session object. */
    method Read(h: Handle) returns (c: Config)
      ensures c == State().Contents(h)
    {
      c := if h in contents then contents[h] else BLANK;
    }

    /** The pool hands out some object, or none when it is empty. */
    method Take() returns (h: Option<Handle>)
      ensures if h.Some? then h.value in free else free == {}
    {
      if free == {} {
        return None;
      }
      var x :| x in free;
      h := Some(x);
    }

    /** The search for an empty slot in create_session. */
    method FindSlot(ch: nat, dev: nat) returns (i: nat)
      requires Valid() && ch < MAX_CHANNEL_NUM && dev < MAX_DEV_NUM
      ensures i == FirstFree(live, ch, dev, 0)
    {
      i := 0;
      while i < MAX_SESS_NUM && table[ch, dev, i].Some?
        invariant 0 <= i <= MAX_SESS_NUM
        invariant FirstFree(live, ch, dev, 0) == FirstFree(live, ch, dev, i)
      {
        i := i + 1;
      }
    }

    method Occupy(ch: nat, dev: nat, i: nat, h: Handle)
      requires Valid() && Key(ch, dev, i).Valid()
      modifies this`live, table
      ensures Valid() && live == old(live)[Key(ch, dev, i) := h]
    {
      table[ch, dev, i] := Some(h);
      live := live[Key(ch, dev, i) := h];
    }

    /** The first empty slot, if there is one, gets the session. */
    method Register(ch: nat, dev: nat, h: Handle) returns (id: Option<nat>)
      requires Valid() && ch < MAX_CHANNEL_NUM && dev < MAX_DEV_NUM
      modifies this`live, table
      ensures Valid()
      ensures var i := FirstFree(old(live), ch, dev, 0);
              if i == MAX_SESS_NUM then id == None && live == old(live)
              else id == Some(SessionId(dev, i)) && live == old(live)[Key(ch, dev, i) := h]
    {
      var i := FindSlot(ch, dev);
      if i == MAX_SESS_NUM {
        return None;
      }
      Occupy(ch, dev, i, h);
      id := Some(SessionId(dev, i));
    }

    /** rte_cryptodev_sym_session_clear and _free. */
    method GiveBack(h: Handle)
      requires Valid()
      modifies this`free, this`contents
      ensures Valid() && free == old(free) + {h} && contents == old(contents) - {h}
    {
      contents := contents - {h};
      free := free + {h};
    }

    /** The object leaves the pool, and comes back when it finds no slot. */
    method RegisterTaken(ch: nat, c: Config, h: Handle, initOk: bool) returns (id: Option<nat>)
      requires Valid() && ch < MAX_CHANNEL_NUM && h in free
      modifies this`free, this`live, this`contents, table
      ensures Valid()
      ensures var i := FirstFree(old(live), ch, setup.Device(c.algo), 0);
              if !initOk || i == MAX_SESS_NUM
              then id == None && State() == old(State()).(contents := old(contents) - {h})
              else id == Some(SessionId(setup.Device(c.algo), i))
                   && State() == Registered(old(State()), Key(ch, setup.Device(c.algo), i), h, c)
    {
      free := free - {h};
      id := None;
      if initOk {
        contents := contents[h := c];
        id := Register(ch, setup.Device(c.algo), h);
      }
      if id.None? {
        GiveBack(h);
        assert free == old(free) && contents == old(contents) - {h};
      }
    }

    /** create_session; initOk is the device's answer to the session's initialisation. */
    method Create(ch: nat, c: Config, initOk: bool) returns (id: Option<nat>, ghost pick: Option<Handle>)
      requires Valid() && ch < MAX_CHANNEL_NUM
      modifies this`free, this`live, this`contents, table
      ensures Valid()
      ensures Enabled(old(State()), Open(ch, c, pick, initOk))
      ensures (State(), id) == CreateSession(setup, old(State()), ch, c, pick, initOk)
    {
      if c.algo >= ALGO_LAST {
        pick := if free == {} then None else var x :| x in free; Some(x);
        return None, pick;
      }
      var s := Take();
      pick := s;
      if s.None? {
        return None, pick;
      }
      id := RegisterTaken(ch, c, s.value, initOk);
    }

    /** remove_session. */
    method RemoveSession(ch: nat, id: nat) returns (ok: bool)
      requires Valid() && ch < MAX_CHANNEL_NUM
      modifies this`free, this`live, this`contents, table
      ensures Valid()
      ensures (State(), ok) == Remove(setup, old(State()), ch, id)
    {
      var dev, i := id / 65536, id % 65536;
      if !(dev < setup.devices && i < MAX_SESS_NUM) {
        return false;
      }
      if table[ch, dev, i].None? {
        return false;
      }
      CleanSlot(ch, dev, i);
      ok := true;
    }

    /** One pass of remove_all_sessions. */
    method CleanSlot(ch: nat, dev: nat, i: nat)
      requires Valid() && Key(ch, dev, i).Valid()
      modifies this`free, this`live, this`contents, table
      ensures Valid() && State() == Without(old(State()), {Key(ch, dev, i)})
    {
      var s := table[ch, dev, i];
      ghost var k, was := Key(ch, dev, i), State();
      assert Objects(was, {k}) == if k in live then {live[k]} else {};
      if s.Some? {
        GiveBack(s.value);
        table[ch, dev, i] := None;
        live := live - {k};
      }
    }

    /** The first n slots of a device have been cleaned. */
    ghost predicate CleanedUpTo(was: Registry, ch: nat, dev: nat, n: nat)
      reads this, table
    {
      Valid() && IsWithout(State(), was, SlotsBelow(ch, dev, n))
    }

    method CleanNext(ch: nat, dev: nat, i: nat, ghost was: Registry)
      requires Key(ch, dev, i).Valid() && CleanedUpTo(was, ch, dev, i)
      modifies this`free, this`live, this`contents, table
      ensures Valid() && CleanedUpTo(was, ch, dev, i + 1)
    {
      WithoutBoth(was, SlotsBelow(ch, dev, i), {Key(ch, dev, i)});
      CleanSlot(ch, dev, i);
    }

    method CleanDevice(ch: nat, dev: nat)
      requires Valid() && ch < MAX_CHANNEL_NUM && dev < setup.devices
      modifies this`free, this`live, this`contents, table
      ensures CleanedUpTo(old(State()), ch, dev, MAX_SESS_NUM)
    {
      WithoutNone(State(), SlotsBelow(ch, dev, 0));
      ghost var was := State();
      var i := 0;
      while i < MAX_SESS_NUM
        invariant i <= MAX_SESS_NUM && CleanedUpTo(was, ch, dev, i)
      {
        CleanNext(ch, dev, i, was);
        i := i + 1;
      }
    }

    /** remove_all_sessions. */
    method RemoveAllSessions(ch: nat)
      requires Valid() && ch < MAX_CHANNEL_NUM
      modifies this`free, this`live, this`contents, table
      ensures Valid() && State() == RemoveAll(setup, old(State()), ch)
    {
      WithoutNone(State(), DevicesBelow(ch, 0));
      for dev := 0 to setup.devices
        invariant Valid() && State() == Without(old(State()), DevicesBelow(ch, dev))
      {
        WithoutBoth(old(State()), DevicesBelow(ch, dev), SlotsBelow(ch, dev, MAX_SESS_NUM));
        CleanDevice(ch, dev);
      }
      OnlyOccupied(setup, old(State()), ch);
    }
  }

  ghost predicate IsWithout(t: Registry, s: Registry, ks: set<Key>) { t == Without(s, ks) }

  /** The first n slots of a device on a channel. */
  function SlotsBelow(ch: nat, dev: nat, n: nat): set<Key>
    decreases ch, n
  {
    if n == 0 then {} else SlotsBelow(ch, dev, n - 1) + {Key(ch, dev, n - 1)}
  }

  lemma {:induction false} InSlotsBelow(ch: nat, dev: nat, n: nat, k: Key)
    ensures k in SlotsBelow(ch, dev, n) <==> k.channel == ch && k.device == dev && k.slot < n
  {
    if n > 0 {
      InSlotsBelow(ch, dev, n - 1, k);
    }
  }

  /** All slots of a channel on the first devices. */
  function DevicesBelow(ch: nat, n: nat): set<Key> {
    if n == 0 then {} else DevicesBelow(ch, n - 1) + SlotsBelow(ch, n - 1, MAX_SESS_NUM)
  }

  lemma {:induction false} InDevicesBelow(ch: nat, n: nat, k: Key)
    ensures k in DevicesBelow(ch, n) <==> k.channel == ch && k.device < n && k.slot < MAX_SESS_NUM
  {
    if n > 0 {
      InDevicesBelow(ch, n - 1, k);
      InSlotsBelow(ch, n - 1, MAX_SESS_NUM, k);
    }
  }

  lemma WithoutNone(s: Registry, none: set<Key>)
    requires none == {}
    ensures Without(s, none) == s
  {
    assert Objects(s, none) == {};
  }

  lemma WithoutBoth(s: Registry, a: set<Key>, b: set<Key>)
    ensures Without(Without(s, a), b) == Without(s, a + b)
  {
    assert s.live - a - b == s.live - (a + b);
    var x, y, z := Objects(s, a), Objects(Without(s, a), b), Objects(s, a + b);
    forall h | h in z ensures h in x + y {
      var k :| k in a + b && k in s.live && s.live[k] == h;
      assert k in a || k in Without(s, a).live;
    }
    assert x + y == z;
    assert s.free + x + y == s.free + z && s.contents - x - y == s.contents - z;
  }

  /** Cleaning all slots of the channel is cleaning the occupied ones. */
  lemma OnlyOccupied(u: Setup, s: Registry, ch: nat)
    requires KeysValid(s)
    ensures Without(s, DevicesBelow(ch, u.devices)) == RemoveAll(u, s, ch)
  {
    var all, used := DevicesBelow(ch, u.devices), set k | k in s.live && Cleaned(u, ch, k);
    forall k | k in s.live ensures k in all <==> k in used {
      InDevicesBelow(ch, u.devices, k);
    }
    assert s.live - all == s.live - used;
    assert Objects(s, all) == Objects(s, used);
  }
}
