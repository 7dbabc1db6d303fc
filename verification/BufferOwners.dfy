/**
 All rings of a connection at once: every interleaving of their producers' and consumers' steps with
 trades of buffers between any two descriptors.  Alloc, transmit, receive and refill leave each buffer
 with its descriptor, and a trade exchanges two, so the buffers are always a permutation of the
 initial ones.
 */
module BufferOwners {
  import opened Arith
  import opened RingMachine
  import opened Layout

  /** A step of one ring, or memif_buffer_enq_tx exchanging the buffers of two descriptors. */
  datatype Event =
    | RingStep(ring: nat, action: RingMachine.Action)
    | Exchange(ring: nat, desc: nat, ring': nat, desc': nat)

  /** Every buffer offset is a whole block. */
  ghost predicate Whole(bufferSize: nat, s: State) {
    0 < bufferSize && forall j :: 0 <= j < |s.desc| ==> Mask(s.desc[j].offset, bufferSize) == 0
  }

  function Offsets(s: State): (os: seq<nat>)
    ensures |os| == |s.desc| && forall j :: 0 <= j < |os| ==> os[j] == s.desc[j].offset
  {
    seq(|s.desc|, j requires 0 <= j < |s.desc| => s.desc[j].offset)
  }

  /** The buffers of all descriptors of all rings, each as often as it is named. */
  function Blocks(rings: seq<State>): multiset<nat> {
    if rings == [] then multiset{} else Blocks(rings[..|rings| - 1]) + multiset(Offsets(rings[|rings| - 1]))
  }

  function WithOffset(s: State, j: nat, offset: nat): State
    requires j < |s.desc|
  {
    s.(desc := s.desc[j := s.desc[j].(offset := offset)])
  }

  ghost predicate Can(cs: seq<Config>, rings: seq<State>, v: Event) {
    match v
    case RingStep(r, a) => r < |cs| == |rings| && RingMachine.Enabled(cs[r], rings[r], a)
    case Exchange(r, j, r', j') => r < |rings| && j < |rings[r].desc| && r' < |rings| && j' < |rings[r'].desc|
  }

  ghost function After(cs: seq<Config>, rings: seq<State>, v: Event): seq<State>
    requires Can(cs, rings, v)
  {
    match v
    case RingStep(r, a) => rings[r := RingMachine.Apply(cs[r], rings[r], a)]
    case Exchange(r, j, r', j') =>
      var x, y := rings[r].desc[j].offset, rings[r'].desc[j'].offset;
      var once := rings[r := WithOffset(rings[r], j, y)];
      once[r' := WithOffset(once[r'], j', x)]
  }

  // ----- one ring

  /** A reset leaves a whole block where it is. */
  lemma AlignedStays(c: Config, offset: nat)
    requires IsPow2(c.bufferSize) && Mask(offset, c.bufferSize) == 0
    ensures c.AlignDown(offset) == offset
  {
    ResetBlock(offset, c.bufferSize);
  }

  /** No step of a ring moves a buffer. */
  lemma StepKeepsOffsets(c: Config, s: State, a: RingMachine.Action)
    requires IsPow2(c.bufferSize) && Whole(c.bufferSize, s) && RingMachine.Enabled(c, s, a)
    ensures Offsets(RingMachine.Apply(c, s, a)) == Offsets(s)
  {
    if a.AllocOne? {
      AlignedStays(c, s.desc[c.Slot(s.prod.phase.slot)].offset);
    } else if a.RefillOne? {
      AlignedStays(c, s.desc[c.Slot(s.cons.phase.slot)].offset);
    }
  }

  lemma SameOffsetsWhole(bufferSize: nat, s: State, t: State)
    requires Whole(bufferSize, s) && Offsets(t) == Offsets(s)
    ensures Whole(bufferSize, t)
  {
    forall j | 0 <= j < |t.desc| ensures Mask(t.desc[j].offset, bufferSize) == 0 {
      assert Offsets(t)[j] == Offsets(s)[j];
    }
  }

  // ----- all rings

  lemma {:induction false} BlocksUpdate(rings: seq<State>, r: nat, t: State)
    requires r < |rings|
    ensures Blocks(rings[r := t]) + multiset(Offsets(rings[r])) == Blocks(rings) + multiset(Offsets(t))
    decreases |rings|
  {
    var n := |rings| - 1;
    var front := Blocks(rings[..n]);
    if r == n {
      assert rings[r := t][..n] == rings[..n];
      Swapped(front, multiset(Offsets(t)), multiset(Offsets(rings[n])));
    } else {
      BlocksUpdate(rings[..n], r, t);
      assert rings[r := t][..n] == rings[..n][r := t];
      Shifted(Blocks(rings[..n][r := t]), front, multiset(Offsets(rings[r])), multiset(Offsets(t)), multiset(Offsets(rings[n])));
    }
  }

  lemma Swapped(m: multiset<nat>, x: multiset<nat>, y: multiset<nat>)
    ensures m + x + y == m + y + x
  {
  }

  lemma Shifted(a: multiset<nat>, b: multiset<nat>, x: multiset<nat>, y: multiset<nat>, z: multiset<nat>)
    requires a + x == b + y
    ensures a + z + x == b + z + y
  {
    Swapped(a, z, x);
    Swapped(b, z, y);
  }

  lemma OffsetStored(s: State, j: nat, offset: nat)
    requires j < |s.desc|
    ensures multiset(Offsets(WithOffset(s, j, offset))) + multiset{s.desc[j].offset} == multiset(Offsets(s)) + multiset{offset}
  {
    assert Offsets(WithOffset(s, j, offset)) == Offsets(s)[j := offset];
  }

  /** Storing another offset in a descriptor replaces one block by another. */
  lemma BlockStored(rings: seq<State>, r: nat, j: nat, offset: nat)
    requires r < |rings| && j < |rings[r].desc|
    ensures Blocks(rings[r := WithOffset(rings[r], j, offset)]) + multiset{rings[r].desc[j].offset} == Blocks(rings) + multiset{offset}
  {
    var t := WithOffset(rings[r], j, offset);
    BlocksUpdate(rings, r, t);
    OffsetStored(rings[r], j, offset);
    Replaced(Blocks(rings[r := t]), Blocks(rings), multiset(Offsets(rings[r])), multiset(Offsets(t)),
             multiset{rings[r].desc[j].offset}, multiset{offset});
  }

  lemma Replaced(a: multiset<nat>, b: multiset<nat>, was: multiset<nat>, now: multiset<nat>, x: multiset<nat>, y: multiset<nat>)
    requires a + was == b + now && now + x == was + y
    ensures a + x == b + y
  {
    forall k ensures (a + x)[k] == (b + y)[k] {
      assert (a + was)[k] == (b + now)[k] && (now + x)[k] == (was + y)[k];
    }
  }

  /** What every event keeps: the blocks as a whole, and that all of them are whole. */
  ghost predicate Sound(cs: seq<Config>, rings: seq<State>, bufferSize: nat, blocks: multiset<nat>) {
    |rings| == |cs| && SameSize(cs, bufferSize) && AllWhole(bufferSize, rings) && Blocks(rings) == blocks
  }

  ghost predicate SameSize(cs: seq<Config>, bufferSize: nat) {
    IsPow2(bufferSize) && forall r :: 0 <= r < |cs| ==> cs[r].bufferSize == bufferSize
  }

  ghost predicate AllWhole(bufferSize: nat, rings: seq<State>) { forall r :: 0 <= r < |rings| ==> Whole(bufferSize, rings[r]) }

  lemma StoredWhole(bufferSize: nat, rings: seq<State>, r: nat, j: nat, offset: nat)
    requires AllWhole(bufferSize, rings) && r < |rings| && j < |rings[r].desc| && 0 < bufferSize && Mask(offset, bufferSize) == 0
    ensures AllWhole(bufferSize, rings[r := WithOffset(rings[r], j, offset)])
  {
  }

  lemma ExchangeKeeps(cs: seq<Config>, rings: seq<State>, bufferSize: nat, blocks: multiset<nat>, v: Event)
    requires Sound(cs, rings, bufferSize, blocks) && v.Exchange? && Can(cs, rings, v)
    ensures Sound(cs, After(cs, rings, v), bufferSize, blocks)
  {
    var x, y := rings[v.ring].desc[v.desc].offset, rings[v.ring'].desc[v.desc'].offset;
    assert Whole(bufferSize, rings[v.ring]) && Whole(bufferSize, rings[v.ring']);
    var once := rings[v.ring := WithOffset(rings[v.ring], v.desc, y)];
    BlockStored(rings, v.ring, v.desc, y);
    StoredWhole(bufferSize, rings, v.ring, v.desc, y);
    SecondStore(rings, once, bufferSize, v.ring', v.desc', x, y);
  }

  lemma SecondStore(rings: seq<State>, once: seq<State>, bufferSize: nat, r: nat, j: nat, x: nat, y: nat)
    requires r < |once| && j < |once[r].desc| && once[r].desc[j].offset == y && AllWhole(bufferSize, once)
    requires 0 < bufferSize && Mask(x, bufferSize) == 0 && Blocks(once) + multiset{x} == Blocks(rings) + multiset{y}
    ensures var twice := once[r := WithOffset(once[r], j, x)];
            AllWhole(bufferSize, twice) && Blocks(twice) == Blocks(rings)
  {
    BlockStored(once, r, j, x);
    StoredWhole(bufferSize, once, r, j, x);
    Restored(Blocks(rings), Blocks(once), Blocks(once[r := WithOffset(once[r], j, x)]), multiset{x}, multiset{y});
  }

  lemma Restored(a: multiset<nat>, b: multiset<nat>, c: multiset<nat>, x: multiset<nat>, y: multiset<nat>)
    requires b + x == a + y && c + y == b + x
    ensures c == a
  {
    forall k ensures c[k] == a[k] {
      assert (b + x)[k] == (a + y)[k] && (c + y)[k] == (b + x)[k];
    }
  }

  lemma StepKeeps(cs: seq<Config>, rings: seq<State>, bufferSize: nat, blocks: multiset<nat>, v: Event)
    requires Sound(cs, rings, bufferSize, blocks) && v.RingStep? && Can(cs, rings, v)
    ensures Sound(cs, After(cs, rings, v), bufferSize, blocks)
  {
    var s, t := rings[v.ring], RingMachine.Apply(cs[v.ring], rings[v.ring], v.action);
    StepKeepsOffsets(cs[v.ring], s, v.action);
    SameOffsetsWhole(bufferSize, s, t);
    BlocksUpdate(rings, v.ring, t);
    Restored(Blocks(rings), Blocks(rings), Blocks(rings[v.ring := t]), multiset(Offsets(s)), multiset(Offsets(s)));
  }

  ghost predicate IsRun(cs: seq<Config>, states: seq<seq<State>>, events: seq<Event>) {
    && |states| == |events| + 1
    && forall i :: 0 <= i < |events| ==> Can(cs, states[i], events[i]) && states[i + 1] == After(cs, states[i], events[i])
  }

  /** In every run of all rings and all trades, the buffers are a permutation of those at the start, all of them whole. */
  lemma {:induction false} BuffersPermuted(cs: seq<Config>, states: seq<seq<State>>, events: seq<Event>, bufferSize: nat, n: nat)
    requires IsRun(cs, states, events) && n <= |events| && Sound(cs, states[0], bufferSize, Blocks(states[0]))
    ensures Sound(cs, states[n], bufferSize, Blocks(states[0]))
  {
    if n > 0 {
      BuffersPermuted(cs, states, events, bufferSize, n - 1);
      var v := events[n - 1];
      assert states[n - 1 + 1] == After(cs, states[n - 1], v);
      if v.RingStep? {
        StepKeeps(cs, states[n - 1], bufferSize, Blocks(states[0]), v);
      } else {
        ExchangeKeeps(cs, states[n - 1], bufferSize, Blocks(states[0]), v);
      }
    }
  }

  // ----- privacy

  ghost predicate EachOnce(blocks: multiset<nat>) { forall x :: blocks[x] <= 1 }

  lemma {:induction false} Counted(rings: seq<State>, r: nat, j: nat)
    requires r < |rings| && j < |rings[r].desc|
    ensures Blocks(rings)[rings[r].desc[j].offset] >= 1
    decreases |rings|
  {
    var n := |rings| - 1;
    if r < n {
      Counted(rings[..n], r, j);
    } else {
      assert Offsets(rings[n])[j] in Offsets(rings[n]);
    }
  }

  lemma TwiceInOne(os: seq<nat>, j: nat, j': nat)
    requires j < j' < |os| && os[j] == os[j']
    ensures multiset(os)[os[j]] >= 2
  {
    assert os == os[..j'] + os[j'..];
    assert os[..j'][j] in os[..j'] && os[j'..][0] in os[j'..];
  }

  lemma {:induction false} SharedTwice(rings: seq<State>, r: nat, j: nat, r': nat, j': nat)
    requires r < |rings| && j < |rings[r].desc| && r' <= r && j' < |rings[r'].desc| && (r, j) != (r', j')
    requires rings[r].desc[j].offset == rings[r'].desc[j'].offset
    ensures Blocks(rings)[rings[r].desc[j].offset] >= 2
    decreases |rings|
  {
    var n := |rings| - 1;
    if r < n {
      SharedTwice(rings[..n], r, j, r', j');
    } else if r' < n {
      Counted(rings[..n], r', j');
      assert Offsets(rings[n])[j] in Offsets(rings[n]);
    } else {
      TwiceInOne(Offsets(rings[n]), if j < j' then j else j', if j < j' then j' else j);
    }
  }

  /** When no block occurs twice, no two descriptors of any rings name the same buffer. */
  lemma NoneShared(rings: seq<State>, r: nat, j: nat, r': nat, j': nat)
    requires EachOnce(Blocks(rings)) && r < |rings| && j < |rings[r].desc| && r' <= r && j' < |rings[r'].desc| && (r, j) != (r', j')
    ensures rings[r].desc[j].offset != rings[r'].desc[j'].offset
  {
    if rings[r].desc[j].offset == rings[r'].desc[j'].offset {
      SharedTwice(rings, r, j, r', j');
    }
  }

  /** So buffers that are private at the start stay private, whatever is sent, received, refilled and traded. */
  lemma BuffersStayPrivate(cs: seq<Config>, states: seq<seq<State>>, events: seq<Event>, bufferSize: nat, n: nat,
                           r: nat, j: nat, r': nat, j': nat)
    requires IsRun(cs, states, events) && n <= |events| && Sound(cs, states[0], bufferSize, Blocks(states[0]))
    requires EachOnce(Blocks(states[0])) && |states[n]| == |cs|
    requires r' <= r < |cs| && j < |states[n][r].desc| && j' < |states[n][r'].desc| && (r, j) != (r', j')
    ensures states[n][r].desc[j].offset != states[n][r'].desc[j'].offset
  {
    BuffersPermuted(cs, states, events, bufferSize, n);
    NoneShared(states[n], r, j, r', j');
  }

  /** The rings' descriptors, ring by ring, are the first entries of the table. */
  ghost predicate FromTable(a: RunArgs, rings: seq<State>, offsets: seq<nat>) {
    && |rings| * a.RingSize() <= |offsets|
    && forall r :: 0 <= r < |rings| ==> SliceAt(rings[r], offsets, FirstDesc(a, r), a.RingSize())
  }

  ghost predicate SliceAt(s: State, offsets: seq<nat>, base: nat, size: nat) {
    base + size <= |offsets| && Offsets(s) == offsets[base..base + size]
  }

  lemma FromTablePrefix(a: RunArgs, rings: seq<State>, offsets: seq<nat>, n: nat, base: nat, end: nat)
    requires FromTable(a, rings, offsets) && n + 1 == |rings| && base == n * a.RingSize() && end == |rings| * a.RingSize()
    ensures FromTable(a, rings[..n], offsets) && base <= end <= |offsets| && Offsets(rings[n]) == offsets[base..end]
  {
    assert end == base + a.RingSize();
    assert SliceAt(rings[n], offsets, FirstDesc(a, n), a.RingSize());
  }

  lemma Joined(os: seq<nat>, base: nat, end: nat)
    requires base <= end <= |os|
    ensures multiset(os[..base]) + multiset(os[base..end]) == multiset(os[..end])
  {
    assert os[..end] == os[..base] + os[base..end];
  }

  lemma {:induction false} BlocksOfTable(a: RunArgs, rings: seq<State>, offsets: seq<nat>, end: nat)
    requires FromTable(a, rings, offsets) && end == |rings| * a.RingSize()
    ensures end <= |offsets| && Blocks(rings) == multiset(offsets[..end])
    decreases |rings|
  {
    if rings != [] {
      var n := |rings| - 1;
      var base := n * a.RingSize();
      FromTablePrefix(a, rings, offsets, n, base, end);
      BlocksOfTable(a, rings[..n], offsets, base);
      Joined(offsets, base, end);
    }
  }

  lemma {:induction false} UnsharedOnce(offsets: seq<nat>, x: nat)
    requires Unshared(offsets)
    ensures multiset(offsets)[x] <= 1
  {
    if offsets != [] {
      var n := |offsets| - 1;
      UnsharedOnce(offsets[..n], x);
      assert offsets == offsets[..n] + [offsets[n]];
      if offsets[n] == x && x in offsets[..n] {
        assert false;
      }
    }
  }

  /** The rings of an initialised connection start out with whole blocks, none of them named twice. */
  lemma InitiallyPrivate(a: RunArgs, offsets: seq<nat>, rings: seq<State>, cs: seq<Config>)
    requires IsPow2(a.bufferSize) && OwnsBlocks(a, offsets) && FromTable(a, rings, offsets)
    requires |rings| == |cs| == a.Rings() && forall r :: 0 <= r < |cs| ==> cs[r].bufferSize == a.bufferSize
    ensures Sound(cs, rings, a.bufferSize, multiset(offsets)) && EachOnce(Blocks(rings))
  {
    BlocksOfTable(a, rings, offsets, |offsets|);
    assert offsets[..|offsets|] == offsets;
    forall r | 0 <= r < |rings| ensures Whole(a.bufferSize, rings[r]) {
      SliceWhole(rings[r], offsets, FirstDesc(a, r), a.RingSize(), a.bufferSize, a.BufferRegionSize());
    }
    forall x ensures multiset(offsets)[x] <= 1 {
      UnsharedOnce(offsets, x);
    }
  }

  lemma SliceWhole(s: State, offsets: seq<nat>, base: nat, size: nat, bufferSize: nat, region: nat)
    requires 0 < bufferSize && WholeBlocks(offsets, bufferSize, region) && SliceAt(s, offsets, base, size)
    ensures Whole(bufferSize, s)
  {
    forall j | 0 <= j < |s.desc| ensures Mask(s.desc[j].offset, bufferSize) == 0 {
      assert Offsets(s)[j] == offsets[base + j];
    }
  }

  lemma SwapPermutes(offsets: seq<nat>, x: nat, y: nat)
    requires x < |offsets| && y < |offsets|
    ensures multiset(offsets[x := offsets[y]][y := offsets[x]]) == multiset(offsets)
  {
  }

  /** The trades of one call of memif_buffer_enq_tx are such exchanges: the table is permuted. */
  lemma {:induction false} TradesPermute(offsets: seq<nat>, slots: seq<nat>, bufs: seq<RxBuffer>)
    requires Tradable(offsets, slots, bufs)
    ensures multiset(Traded(offsets, slots, bufs)) == multiset(offsets)
    decreases |slots|
  {
    if |slots| > 0 {
      var n := |slots| - 1;
      var r := Traded(offsets, slots[..n], bufs[..n]);
      TradablePrefix(offsets, slots, bufs, n);
      TradesPermute(offsets, slots[..n], bufs[..n]);
      TradedOffsets(offsets, slots[..n], bufs[..n], bufs[n].desc);
      assert r[bufs[n].desc] == bufs[n].data;
      SwapPermutes(r, bufs[n].desc, slots[n]);
    }
  }
}
