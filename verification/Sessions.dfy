/**
 The session registry: a slot per (channel, device, number), ids that encode device and number,
 and a pool the session objects come from.
 */
module Sessions {
  import opened Basics

  const MAX_SESS_NUM: nat := 16000
  const MAX_CHANNEL_NUM: nat := 32
  const MAX_DEV_NUM: nat := 2
  const ALGO_LAST: nat := 2 // AES-CTR and SNOW3G-UEA2
  const NO_SESSION: nat := 0xFFFF_FFFF

  /** A session object of the pool. */
  type Handle = nat

  datatype Key = Key(channel: nat, device: nat, slot: nat) {
    predicate Valid() { channel < MAX_CHANNEL_NUM && device < MAX_DEV_NUM && slot < MAX_SESS_NUM }
  }

  /** What initialisation found: how many devices, and which one serves which algorithm. */
  datatype Setup = Setup(devices: nat, aesCtr: nat, snow3g: nat) {
    ghost predicate Valid() { devices <= MAX_DEV_NUM && aesCtr < devices && snow3g < devices }
    function Device(algo: nat): nat { if algo == 0 then aesCtr else snow3g }
  }

  /** What a create initialises a session object with. */
  datatype Config = Config(algo: nat, cipherOp: nat, key: seq<Byte>)

  const BLANK: Config := Config(0, 0, [])

  /** Occupied slots, the pool, and what the session objects have been initialised with. */
  datatype Registry = Registry(live: map<Key, Handle>, free: set<Handle>, contents: map<Handle, Config>) {
    function Contents(h: Handle): Config { if h in contents then contents[h] else BLANK }
  }

  function SessionId(device: nat, slot: nat): nat { device * 65536 + slot }
  function DeviceOf(id: nat): nat { id / 65536 }
  function SlotOf(id: nat): nat { id % 65536 }

  /** The key an id names on a channel, if it can name one at all. */
  function KeyOf(u: Setup, ch: nat, id: nat): Option<Key> {
    if DeviceOf(id) < u.devices && SlotOf(id) < MAX_SESS_NUM then Some(Key(ch, DeviceOf(id), SlotOf(id))) else None
  }

  /** get_session. */
  function Lookup(u: Setup, s: Registry, ch: nat, id: nat): Option<Handle> {
    match KeyOf(u, ch, id)
    case None => None
    case Some(k) => if k in s.live then Some(s.live[k]) else None
  }

  /** The first empty slot at or above `from`, or MAX_SESS_NUM. */
  function FirstFree(live: map<Key, Handle>, ch: nat, dev: nat, from: nat): (i: nat)
    requires from <= MAX_SESS_NUM
    ensures from <= i <= MAX_SESS_NUM
    ensures i < MAX_SESS_NUM ==> Key(ch, dev, i) !in live
    ensures forall j :: from <= j < i ==> Key(ch, dev, j) in live
    decreases ch, MAX_SESS_NUM - from
  {
    if from == MAX_SESS_NUM || Key(ch, dev, from) !in live then from else FirstFree(live, ch, dev, from + 1)
  }

  /**
   create_session, given the object the pool hands out (if it has one) and whether the device
   accepts it.  Every failure leaves slots and pool as they were: the object goes back, cleared.
   */
  function CreateSession(u: Setup, s: Registry, ch: nat, c: Config, pick: Option<Handle>, initOk: bool): (Registry, Option<nat>) {
    if c.algo >= ALGO_LAST || pick.None? then (s, None)
    else
      var dev := u.Device(c.algo);
      var i := FirstFree(s.live, ch, dev, 0);
      if !initOk || i == MAX_SESS_NUM then (s.(contents := s.contents - {pick.value}), None)
      else (Registered(s, Key(ch, dev, i), pick.value, c), Some(SessionId(dev, i)))
  }

  function Registered(s: Registry, k: Key, h: Handle, c: Config): Registry {
    Registry(s.live[k := h], s.free - {h}, s.contents[h := c])
  }

  /** The session objects in these slots. */
  function Objects(s: Registry, ks: set<Key>): set<Handle> { set k | k in ks && k in s.live :: s.live[k] }

  /** The slots are emptied, their objects cleared and given back. */
  function Without(s: Registry, ks: set<Key>): Registry {
    Registry(s.live - ks, s.free + Objects(s, ks), s.contents - Objects(s, ks))
  }

  /** remove_session. */
  function Remove(u: Setup, s: Registry, ch: nat, id: nat): (Registry, bool) {
    match KeyOf(u, ch, id)
    case None => (s, false)
    case Some(k) => if k in s.live then (Without(s, {k}), true) else (s, false)
  }

  /** remove_all_sessions. */
  function RemoveAll(u: Setup, s: Registry, ch: nat): Registry {
    Without(s, set k | k in s.live && Cleaned(u, ch, k))
  }

  predicate Cleaned(u: Setup, ch: nat, k: Key) { k.channel == ch && k.device < u.devices }

  /** Nothing is lost and nothing is used twice: the pool's objects are the free ones and the registered ones. */
  ghost predicate Conserved(s: Registry, pool: set<Handle>) { UsedOnce(s, pool) && NoneLost(s, pool) }

  ghost predicate UsedOnce(s: Registry, pool: set<Handle>) {
    && (forall k :: k in s.live ==> s.live[k] in pool && s.live[k] !in s.free)
    && (forall k, k' :: k in s.live && k' in s.live && k != k' ==> s.live[k] != s.live[k'])
    && s.free <= pool
  }

  ghost predicate NoneLost(s: Registry, pool: set<Handle>) {
    forall h :: h in pool && h !in s.free ==> exists k :: k in s.live && s.live[k] == h
  }

  ghost predicate KeysValid(s: Registry) { forall k :: k in s.live ==> k.Valid() }

  datatype Action =
    | Open(channel: nat, config: Config, pick: Option<Handle>, initOk: bool)
    | Close(channel: nat, id: nat)
    | Cipher(channel: nat, id: nat)
    | Cleanup(channel: nat)

  ghost predicate Enabled(s: Registry, a: Action) {
    && a.channel < MAX_CHANNEL_NUM
    && (a.Open? ==> if a.pick.Some? then a.pick.value in s.free else s.free == {})
  }

  function Apply(u: Setup, s: Registry, a: Action): Registry {
    match a
    case Open(ch, c, pick, initOk) => CreateSession(u, s, ch, c, pick, initOk).0
    case Close(ch, id) => Remove(u, s, ch, id).0
    case Cipher(_, _) => s
    case Cleanup(ch) => RemoveAll(u, s, ch)
  }
}
