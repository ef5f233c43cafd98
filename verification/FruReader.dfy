/** `FRUReader`: a cache of 32-byte blocks over a read function that may fail, may change between
    calls, and reports the end of the device only by coming back short. */
module FruReader {
  import opened Bytes

  const CACHE_BLOCK := 32
  const ADDRESS_LIMIT := 0x20_0000_0000 // 2^32 blocks: the cache is indexed by 32-bit block numbers

  /** What one call of the read function leaves: its return value and the block buffer. */
  datatype Reply = Reply(ret: int, data: seq<byte>)

  /** A read function, given the number of calls before and an offset. It returns at most a block. */
  predicate Honest(reply: Reply) {
    |reply.data| == CACHE_BLOCK && reply.ret <= CACHE_BLOCK
  }

  /** Bytes of a device from `start`, at most `len` of them. */
  function Slice(dev: seq<byte>, start: nat, len: nat): seq<byte> {
    if start >= |dev| then [] else if start + len <= |dev| then dev[start..start + len] else dev[start..]
  }

  /** The reply of a fixed device at `offset`. */
  predicate Serves(reply: Reply, dev: seq<byte>, offset: nat) {
    Honest(reply) && reply.ret == |Slice(dev, offset, CACHE_BLOCK)|
      && reply.data[..reply.ret] == Slice(dev, offset, CACHE_BLOCK)
  }

  type Blocks = map<nat, seq<byte>>

  /** Every cached block was delivered with at least a byte. */
  ghost predicate Delivers(cache: Blocks, filled: map<nat, nat>) {
    forall b :: b in cache ==> b in filled && 0 < filled[b] <= CACHE_BLOCK && |cache[b]| == CACHE_BLOCK
  }

  /** Cached blocks in front of `e` are complete. */
  ghost predicate CompleteBelow(cache: Blocks, filled: map<nat, nat>, e: nat) {
    forall b :: b in cache && b in filled && (b + 1) * CACHE_BLOCK <= e ==> filled[b] == CACHE_BLOCK
  }

  /** The block that `e` falls into is cached and reaches up to it. */
  predicate EndCached(cache: Blocks, filled: map<nat, nat>, e: nat) {
    var b, r := e / CACHE_BLOCK, e % CACHE_BLOCK;
    r != 0 ==> b in cache && b in filled && filled[b] == r
  }

  /** Blocks in front of the known end are complete; the one it falls into is cached and reaches up
      to it. `filled` is how many bytes each cached block was delivered with. */
  ghost predicate EndKnown(cache: Blocks, filled: map<nat, nat>, eof: Option<nat>) {
    && Delivers(cache, filled)
    && (eof.None? ==> forall b :: b in cache && b in filled ==> filled[b] == CACHE_BLOCK)
    && (eof.Some? ==> CompleteBelow(cache, filled, eof.value) && EndCached(cache, filled, eof.value))
  }

  /** No block is asked for again once it was delivered, and delivered blocks are in the cache. */
  ghost predicate AskedOnce(log: seq<(nat, bool)>, cache: Blocks) {
    && (forall i, j :: 0 <= i < j < |log| && log[i].1 ==> log[j].0 != log[i].0)
    && (forall i :: 0 <= i < |log| && log[i].1 ==> log[i].0 in cache)
  }

  /** The cache holds `v` at offset `o`. */
  ghost predicate Holds(cache: Blocks, filled: map<nat, nat>, o: nat, v: byte) {
    var blk := o / CACHE_BLOCK;
    blk in cache && blk in filled && |cache[blk]| == CACHE_BLOCK
    && o % CACHE_BLOCK < filled[blk] <= CACHE_BLOCK && cache[blk][o % CACHE_BLOCK] == v
  }

  /** Every byte handed out so far is still the one in the cache. */
  ghost predicate Remembers(cache: Blocks, filled: map<nat, nat>, returned: map<nat, byte>) {
    forall o :: o in returned ==> Holds(cache, filled, o, returned[o])
  }

  /** The cache holds the bytes of `dev`, and its end is not known too early. */
  ghost predicate Mirrors(dev: seq<byte>, cache: Blocks, filled: map<nat, nat>, eof: Option<nat>) {
    && (forall b :: b in cache ==> b in filled && |cache[b]| == CACHE_BLOCK && filled[b] <= CACHE_BLOCK
                                   && cache[b][..filled[b]] == Slice(dev, b * CACHE_BLOCK, CACHE_BLOCK))
    && (eof.Some? ==> eof.value >= |dev|)
  }

  /** Blocks never leave the cache and never change, and the end only moves forward. */
  ghost predicate Extends(cache: Blocks, filled: map<nat, nat>, eof: Option<nat>,
                          cache': Blocks, filled': map<nat, nat>, eof': Option<nat>)
  {
    && (forall b :: b in cache && b in filled ==>
         b in cache' && b in filled' && cache'[b] == cache[b] && filled'[b] == filled[b])
    && (eof.Some? ==> eof'.Some? && eof'.value <= eof.value)
  }

  lemma ExtendsRemembers(cache: Blocks, filled: map<nat, nat>, eof: Option<nat>,
                         cache': Blocks, filled': map<nat, nat>, eof': Option<nat>, returned: map<nat, byte>)
    requires Extends(cache, filled, eof, cache', filled', eof') && Remembers(cache, filled, returned)
    ensures Remembers(cache', filled', returned)
  {
  }

  /** The known end after an answer. */
  function EndAfter(eof: Option<nat>, blk: nat, ret: int): Option<nat> {
    if 0 <= ret < CACHE_BLOCK then Some(blk * CACHE_BLOCK + ret) else eof
  }

  lemma InBlock(blk: nat, r: nat)
    requires r < CACHE_BLOCK
    ensures (blk * CACHE_BLOCK + r) / CACHE_BLOCK == blk && (blk * CACHE_BLOCK + r) % CACHE_BLOCK == r
  {
  }

  /** The end is never inside a block that is not cached. */
  lemma EndBehind(cache: Blocks, filled: map<nat, nat>, e: nat, blk: nat)
    requires EndCached(cache, filled, e) && blk !in cache && blk * CACHE_BLOCK < e
    ensures (blk + 1) * CACHE_BLOCK <= e
  {
    if e < (blk + 1) * CACHE_BLOCK {
      InBlock(blk, e - blk * CACHE_BLOCK);
    }
  }

  /** Blocks in front of a point the end is not in front of are complete. */
  lemma StillComplete(cache: Blocks, filled: map<nat, nat>, eof: Option<nat>, e: nat)
    requires EndKnown(cache, filled, eof) && (eof.Some? ==> e <= eof.value)
    ensures CompleteBelow(cache, filled, e)
  {
  }

  lemma CompleteWith(cache: Blocks, filled: map<nat, nat>, e: nat, blk: nat, data: seq<byte>, ret: nat)
    requires CompleteBelow(cache, filled, e) && (ret == CACHE_BLOCK || e < (blk + 1) * CACHE_BLOCK)
    ensures CompleteBelow(cache[blk := data], filled[blk := ret], e)
  {
  }

  lemma EndCachedWith(cache: Blocks, filled: map<nat, nat>, e: nat, blk: nat, data: seq<byte>, ret: nat)
    requires EndCached(cache, filled, e) && blk !in cache
    ensures EndCached(cache[blk := data], filled[blk := ret], e)
  {
  }

  /** Storing a delivered block; if it is short the device ends in it, in front of any end known. */
  lemma StoreBlock(cache: Blocks, filled: map<nat, nat>, eof: Option<nat>, blk: nat, data: seq<byte>, ret: nat)
    requires EndKnown(cache, filled, eof) && blk !in cache && |data| == CACHE_BLOCK && 0 < ret <= CACHE_BLOCK
    requires eof.Some? ==> blk * CACHE_BLOCK < eof.value
    ensures EndKnown(cache[blk := data], filled[blk := ret], EndAfter(eof, blk, ret))
    ensures Extends(cache, filled, eof, cache[blk := data], filled[blk := ret], EndAfter(eof, blk, ret))
  {
    if eof.Some? {
      EndBehind(cache, filled, eof.value, blk);
      EndCachedWith(cache, filled, eof.value, blk, data, ret);
    }
    if ret < CACHE_BLOCK {
      var e := blk * CACHE_BLOCK + ret;
      StillComplete(cache, filled, eof, e);
      CompleteWith(cache, filled, e, blk, data, ret);
      InBlock(blk, ret);
    } else if eof.Some? {
      CompleteWith(cache, filled, eof.value, blk, data, ret);
    }
  }

  /** A block that delivers nothing: if that is no error, the device ends in front of it. */
  lemma EndAtBlock(cache: Blocks, filled: map<nat, nat>, eof: Option<nat>, blk: nat, ret: int)
    requires EndKnown(cache, filled, eof) && blk !in cache && ret <= 0
    requires eof.Some? ==> blk * CACHE_BLOCK < eof.value
    ensures EndKnown(cache, filled, EndAfter(eof, blk, ret))
    ensures Extends(cache, filled, eof, cache, filled, EndAfter(eof, blk, ret))
  {
    if ret == 0 {
      StillComplete(cache, filled, eof, blk * CACHE_BLOCK);
      InBlock(blk, 0);
    }
  }

  lemma AskAgain(log: seq<(nat, bool)>, cache: Blocks, blk: nat)
    requires AskedOnce(log, cache) && blk !in cache
    ensures AskedOnce(log + [(blk, false)], cache)
  {
  }

  lemma AskDelivered(log: seq<(nat, bool)>, cache: Blocks, blk: nat, data: seq<byte>)
    requires AskedOnce(log, cache) && blk !in cache
    ensures AskedOnce(log + [(blk, true)], cache[blk := data])
  {
  }

  lemma MirrorBlock(dev: seq<byte>, cache: Blocks, filled: map<nat, nat>, eof: Option<nat>, blk: nat, reply: Reply)
    requires Mirrors(dev, cache, filled, eof) && blk !in cache && Serves(reply, dev, blk * CACHE_BLOCK)
    ensures reply.ret < CACHE_BLOCK ==> blk * CACHE_BLOCK + reply.ret >= |dev|
    ensures reply.ret < CACHE_BLOCK ==> Mirrors(dev, cache, filled, Some(blk * CACHE_BLOCK + reply.ret))
    ensures var eof' := if reply.ret < CACHE_BLOCK then Some(blk * CACHE_BLOCK + reply.ret) else eof;
            Mirrors(dev, cache[blk := reply.data], filled[blk := reply.ret], eof')
  {
  }

  /** How much of a cached block can be used. */
  function Available(eof: Option<nat>, blk: nat): nat {
    if eof.Some? && eof.value / CACHE_BLOCK == blk then eof.value % CACHE_BLOCK else CACHE_BLOCK
  }

  lemma AvailableIsFilled(cache: Blocks, filled: map<nat, nat>, eof: Option<nat>, blk: nat)
    requires EndKnown(cache, filled, eof) && blk in cache && (eof.Some? ==> blk * CACHE_BLOCK < eof.value)
    ensures blk in filled && Available(eof, blk) == filled[blk]
  {
    if eof.Some? && eof.value < (blk + 1) * CACHE_BLOCK {
      InBlock(blk, eof.value - blk * CACHE_BLOCK);
    }
  }

  ghost predicate HoldsAll(cache: Blocks, filled: map<nat, nat>, start: nat, bytes: seq<byte>) {
    forall i :: 0 <= i < |bytes| ==> Holds(cache, filled, start + i, bytes[i])
  }

  predicate Has(m: map<nat, byte>, o: nat, v: byte) {
    o in m && m[o] == v
  }

  lemma BlockHolds(cache: Blocks, filled: map<nat, nat>, blk: nat, i: nat, n: nat)
    requires blk in cache && blk in filled && |cache[blk]| == CACHE_BLOCK && filled[blk] <= CACHE_BLOCK
    requires i + n <= CACHE_BLOCK && (n > 0 ==> i + n <= filled[blk])
    ensures HoldsAll(cache, filled, blk * CACHE_BLOCK + i, cache[blk][i..i + n])
  {
    var bytes := cache[blk][i..i + n];
    forall j | 0 <= j < n
      ensures Holds(cache, filled, blk * CACHE_BLOCK + i + j, bytes[j])
    {
      var o := blk * CACHE_BLOCK + (i + j);
      assert o / CACHE_BLOCK == blk && o % CACHE_BLOCK == i + j;
    }
  }

  lemma SubSlice(s: seq<byte>, a: nat, m: nat, i: nat, n: nat)
    requires a + m <= |s| && i + n <= m
    ensures s[a..a + m][i..i + n] == s[a + i..a + i + n]
  {
    var whole, part := s[a..a + m], s[a + i..a + i + n];
    assert forall j :: 0 <= j < n ==> whole[i + j] == part[j];
    assert whole[i..i + n] == part;
  }

  lemma BlockMirrors(dev: seq<byte>, cache: Blocks, filled: map<nat, nat>, eof: Option<nat>, blk: nat, i: nat, n: nat)
    requires Mirrors(dev, cache, filled, eof) && blk in cache
    requires i + n <= CACHE_BLOCK && (n > 0 ==> i + n <= filled[blk])
    ensures cache[blk][i..i + n] == Slice(dev, blk * CACHE_BLOCK + i, n)
  {
    if n > 0 {
      var s := blk * CACHE_BLOCK;
      var whole := Slice(dev, s, CACHE_BLOCK);
      var c, f := cache[blk], filled[blk];
      assert c[..f] == whole;
      assert c[..f][i..i + n] == c[i..i + n];
      assert s + i + n <= |dev| && whole == dev[s..s + |whole|];
      SubSlice(dev, s, |whole|, i, n);
    } else {
      assert Slice(dev, blk * CACHE_BLOCK + i, 0) == [];
    }
  }

  lemma SliceAppend(dev: seq<byte>, start: nat, m: nat, n: nat)
    requires |Slice(dev, start, m)| == m && |Slice(dev, start + m, n)| == n
    ensures Slice(dev, start, m + n) == Slice(dev, start, m) + Slice(dev, start + m, n)
  {
  }

  /** `m` with the bytes of one read, from `start` on, added. */
  ghost function Noted(m: map<nat, byte>, start: nat, bytes: seq<byte>): map<nat, byte>
    decreases |bytes|
  {
    if bytes == [] then m else Noted(m[start := bytes[0]], start + 1, bytes[1..])
  }

  /** Bytes the cache holds can be noted without changing what was noted before. */
  lemma {:induction false} NotedAll(cache: Blocks, filled: map<nat, nat>, m: map<nat, byte>, start: nat,
                                    bytes: seq<byte>)
    requires Remembers(cache, filled, m) && HoldsAll(cache, filled, start, bytes)
    ensures Remembers(cache, filled, Noted(m, start, bytes))
    ensures forall o :: o in m ==> Has(Noted(m, start, bytes), o, m[o])
    ensures forall i :: 0 <= i < |bytes| ==> Has(Noted(m, start, bytes), start + i, bytes[i])
    decreases |bytes|
  {
    if bytes != [] {
      var m', rest := m[start := bytes[0]], bytes[1..];
      assert Holds(cache, filled, start + 0, bytes[0]);
      forall i | 0 <= i < |rest| ensures Holds(cache, filled, start + 1 + i, rest[i]) {
        assert Holds(cache, filled, start + (i + 1), bytes[i + 1]);
      }
      NotedAll(cache, filled, m', start + 1, rest);
      forall o | o in m ensures Has(Noted(m, start, bytes), o, m[o]) {
        assert Holds(cache, filled, o, m[o]);
        assert Has(Noted(m', start + 1, rest), o, m'[o]);
      }
      assert Has(Noted(m', start + 1, rest), start, m'[start]);
      forall i | 0 <= i < |bytes| ensures Has(Noted(m, start, bytes), start + i, bytes[i]) {
        if i > 0 {
          assert Has(Noted(m', start + 1, rest), start + 1 + (i - 1), rest[i - 1]);
        }
      }
    }
  }

  lemma SliceAtEnd(dev: seq<byte>, start: nat, m: nat, n: nat)
    requires m <= n && |Slice(dev, start, m)| == m && start + m >= |dev|
    ensures Slice(dev, start, n) == Slice(dev, start, m)
  {
  }

  lemma ExtendsTransitive(c0: Blocks, f0: map<nat, nat>, e0: Option<nat>, c1: Blocks, f1: map<nat, nat>,
                          e1: Option<nat>,
                          c2: Blocks, f2: map<nat, nat>, e2: Option<nat>)
    requires Extends(c0, f0, e0, c1, f1, e1) && Extends(c1, f1, e1, c2, f2, e2)
    ensures Extends(c0, f0, e0, c2, f2, e2)
  {
  }

  lemma HoldsAppend(c: Blocks, f: map<nat, nat>, e: Option<nat>, c': Blocks, f': map<nat, nat>, e': Option<nat>,
                    start: nat, bytes: seq<byte>, more: seq<byte>)
    requires Extends(c, f, e, c', f', e') && HoldsAll(c, f, start, bytes) && HoldsAll(c', f', start + |bytes|, more)
    ensures HoldsAll(c', f', start, bytes + more) && HoldsAll(c', f', start, bytes)
  {
    forall i | 0 <= i < |bytes| + |more|
      ensures Holds(c', f', start + i, (bytes + more)[i])
    {
      if i >= |bytes| {
        assert Holds(c', f', start + |bytes| + (i - |bytes|), more[i - |bytes|]);
      } else {
        assert Holds(c, f, start + i, bytes[i]);
      }
    }
    assert forall i :: 0 <= i < |bytes| ==> (bytes + more)[i] == bytes[i];
  }

  /** What a reader keeps between its calls. */
  ghost predicate Kept(device: Option<seq<byte>>, cache: Blocks, filled: map<nat, nat>, eof: Option<nat>,
                       log: seq<(nat, bool)>, returned: map<nat, byte>)
  {
    && EndKnown(cache, filled, eof) && AskedOnce(log, cache) && Remembers(cache, filled, returned)
    && (device.Some? ==> Mirrors(device.value, cache, filled, eof))
  }

  lemma EraseAdded(cache: Blocks, blk: nat, data: seq<byte>)
    requires blk !in cache
    ensures cache[blk := data] - {blk} == cache
  {
  }

  /** A block that is delivered, and one that is not. */
  lemma Delivered(device: Option<seq<byte>>, cache: Blocks, filled: map<nat, nat>, eof: Option<nat>,
                  log: seq<(nat, bool)>, returned: map<nat, byte>, blk: nat, reply: Reply)
    requires Kept(device, cache, filled, eof, log, returned) && blk !in cache
             && (eof.Some? ==> blk * CACHE_BLOCK < eof.value)
    requires Honest(reply) && reply.ret > 0 && (device.Some? ==> Serves(reply, device.value, blk * CACHE_BLOCK))
    ensures Kept(device, cache[blk := reply.data], filled[blk := reply.ret], EndAfter(eof, blk, reply.ret),
                 log + [(blk, true)], returned)
    ensures Extends(cache, filled, eof, cache[blk := reply.data], filled[blk := reply.ret],
                    EndAfter(eof, blk, reply.ret))
  {
    StoreBlock(cache, filled, eof, blk, reply.data, reply.ret);
    AskDelivered(log, cache, blk, reply.data);
    if device.Some? {
      MirrorBlock(device.value, cache, filled, eof, blk, reply);
    }
    ExtendsRemembers(cache, filled, eof, cache[blk := reply.data], filled[blk := reply.ret],
      EndAfter(eof, blk, reply.ret), returned);
  }

  lemma NotDelivered(device: Option<seq<byte>>, cache: Blocks, filled: map<nat, nat>, eof: Option<nat>,
                     log: seq<(nat, bool)>, returned: map<nat, byte>, blk: nat, reply: Reply)
    requires Kept(device, cache, filled, eof, log, returned) && blk !in cache
             && (eof.Some? ==> blk * CACHE_BLOCK < eof.value)
    requires Honest(reply) && reply.ret <= 0 && (device.Some? ==> Serves(reply, device.value, blk * CACHE_BLOCK))
    ensures Kept(device, cache, filled, EndAfter(eof, blk, reply.ret), log + [(blk, false)], returned)
    ensures Extends(cache, filled, eof, cache, filled, EndAfter(eof, blk, reply.ret))
  {
    EndAtBlock(cache, filled, eof, blk, reply.ret);
    AskAgain(log, cache, blk);
    if device.Some? {
      MirrorBlock(device.value, cache, filled, eof, blk, reply);
    }
  }

  /** On a fixed device `bytes` are the device's from `start` on. */
  ghost predicate FromDevice(device: Option<seq<byte>>, start: nat, bytes: seq<byte>) {
    device.Some? ==> bytes == Slice(device.value, start, |bytes|)
  }

  /** Part of a cached block. */
  lemma ChunkKept(device: Option<seq<byte>>, cache: Blocks, filled: map<nat, nat>, eof: Option<nat>,
                  log: seq<(nat, bool)>, returned: map<nat, byte>, blk: nat, i: nat, n: nat)
    requires Kept(device, cache, filled, eof, log, returned) && blk in cache
    requires i + n <= CACHE_BLOCK && (n > 0 ==> i + n <= filled[blk])
    ensures |cache[blk]| == CACHE_BLOCK
    ensures HoldsAll(cache, filled, blk * CACHE_BLOCK + i, cache[blk][i..i + n])
    ensures FromDevice(device, blk * CACHE_BLOCK + i, cache[blk][i..i + n])
  {
    BlockHolds(cache, filled, blk, i, n);
    if device.Some? {
      BlockMirrors(device.value, cache, filled, eof, blk, i, n);
    }
  }

  lemma FromDeviceAppend(device: Option<seq<byte>>, start: nat, bytes: seq<byte>, more: seq<byte>)
    requires FromDevice(device, start, bytes) && FromDevice(device, start + |bytes|, more)
    ensures FromDevice(device, start, bytes + more)
  {
    if device.Some? {
      SliceAppend(device.value, start, |bytes|, |more|);
    }
  }

  /** At the device's end the bytes read are all there are. */
  lemma FromDeviceEnd(device: Option<seq<byte>>, start: nat, bytes: seq<byte>, len: nat)
    requires FromDevice(device, start, bytes) && |bytes| <= len
    requires device.Some? ==> |bytes| == len || start + |bytes| >= |device.value|
    ensures device.Some? ==> bytes == Slice(device.value, start, len)
  {
    if device.Some? && |bytes| < len {
      SliceAtEnd(device.value, start, |bytes|, len);
    }
  }

  lemma KnownEnd(device: Option<seq<byte>>, cache: Blocks, filled: map<nat, nat>, eof: Option<nat>,
                 log: seq<(nat, bool)>, returned: map<nat, byte>)
    requires Kept(device, cache, filled, eof, log, returned)
    ensures device.Some? && eof.Some? ==> eof.value >= |device.value|
  {
  }

  /** How far a block the cache holds can be used in front of the end. */
  lemma CachedAvailable(device: Option<seq<byte>>, cache: Blocks, filled: map<nat, nat>, eof: Option<nat>,
                        log: seq<(nat, bool)>, returned: map<nat, byte>, blk: nat, i: nat)
    requires Kept(device, cache, filled, eof, log, returned) && blk in cache && i < CACHE_BLOCK
    requires eof.Some? ==> blk * CACHE_BLOCK + i < eof.value
    ensures blk in filled && i < Available(eof, blk) == filled[blk] <= CACHE_BLOCK
  {
    AvailableIsFilled(cache, filled, eof, blk);
    if eof.Some? && eof.value / CACHE_BLOCK == blk {
      assert eof.value == blk * CACHE_BLOCK + eof.value % CACHE_BLOCK;
    }
  }

  class FRUReader {
    const readFunc: (nat, nat) -> Reply
    /** The device's bytes, when the read function always reads the same device. */
    ghost const device: Option<seq<byte>>
    var calls: nat
    var cache: Blocks
    var eof: Option<nat>
    ghost var filled: map<nat, nat>
    /** Every call of the read function: the block, and whether it delivered anything. */
    ghost var log: seq<(nat, bool)>
    /** Every byte any read has returned, by offset. */
    ghost var returned: map<nat, byte>

    ghost predicate Valid()
      reads this
    {
      Source() && Kept(device, cache, filled, eof, log, returned)
    }

    ghost predicate Source() {
      && (forall n, offset :: Honest(readFunc(n, offset)))
      && (device.Some? ==> forall n, offset :: Serves(readFunc(n, offset), device.value, offset))
    }

    lemma Asked(n: nat, offset: nat)
      requires Source()
      ensures Honest(readFunc(n, offset)) && (device.Some? ==> Serves(readFunc(n, offset), device.value, offset))
    {
    }

    constructor (readFunc: (nat, nat) -> Reply, ghost device: Option<seq<byte>>)
      requires forall n, offset :: Honest(readFunc(n, offset))
      requires device.Some? ==> forall n, offset :: Serves(readFunc(n, offset), device.value, offset)
      ensures Valid() && this.device == device && eof == None && cache == map[]
    {
      this.readFunc, this.device := readFunc, device;
      calls, cache, eof := 0, map[], None;
      filled, log, returned := map[], [], map[];
    }

    /** The cache miss: call the read function for block `blk` and keep what it delivers. */
    method FetchBlock(blk: nat) returns (ret: int)
      requires Valid() && blk !in cache && (eof.Some? ==> blk * CACHE_BLOCK < eof.value)
      modifies this
      ensures Valid() && returned == old(returned) && old(log) <= log
      ensures Extends(old(cache), old(filled), old(eof), cache, filled, eof)
      ensures ret <= CACHE_BLOCK
      ensures ret > 0 ==> blk in cache && filled[blk] == ret
      ensures eof == EndAfter(old(eof), blk, ret)
      ensures device.Some? ==> ret == |Slice(device.value, blk * CACHE_BLOCK, CACHE_BLOCK)|
    {
      var reply := readFunc(calls, blk * CACHE_BLOCK);
      Asked(calls, blk * CACHE_BLOCK);
      ret := reply.ret;
      if ret > 0 {
        Delivered(device, cache, filled, eof, log, returned, blk, reply);
      } else {
        NotDelivered(device, cache, filled, eof, log, returned, blk, reply);
      }
      calls := calls + 1;
      cache := cache[blk := reply.data];
      log := log + [(blk, ret > 0)];
      if 0 <= ret < CACHE_BLOCK {
        eof := Some(blk * CACHE_BLOCK + ret);
      }
      if ret <= 0 {
        EraseAdded(old(cache), blk, reply.data);
        cache := cache - {blk};
      } else {
        filled := filled[blk := ret];
      }
    }

    /** One turn of the read loop: the bytes of one block from `cursor` on. `got` is what a failed
        fetch returned, positive otherwise. */
    method NextChunk(cursor: nat, remaining: nat) returns (got: int, chunk: seq<byte>)
      requires Valid() && remaining > 0 && (eof.Some? ==> cursor < eof.value)
      modifies this
      ensures Valid() && returned == old(returned) && old(log) <= log
      ensures Extends(old(cache), old(filled), old(eof), cache, filled, eof)
      ensures |chunk| <= remaining && HoldsAll(cache, filled, cursor, chunk)
      ensures got <= 0 ==> chunk == []
      ensures got > 0 && chunk == [] ==> eof.Some? && cursor >= eof.value
      ensures (device.Some? ==> got >= 0) && FromDevice(device, cursor, chunk)
      ensures device.Some? && got == 0 ==> cursor >= |device.value|
    {
      var blk, blkOffset := cursor / CACHE_BLOCK, cursor % CACHE_BLOCK;
      var available;
      got, chunk := 1, [];
      if blk !in cache {
        got := FetchBlock(blk);
        if got <= 0 {
          return;
        }
        available := got;
      } else {
        CachedAvailable(device, cache, filled, eof, log, returned, blk, blkOffset);
        available := Available(eof, blk);
      }
      var toCopy := if blkOffset >= available then 0
                    else if available - blkOffset < remaining then available - blkOffset else remaining;
      ChunkKept(device, cache, filled, eof, log, returned, blk, blkOffset, toCopy);
      chunk := cache[blk][blkOffset..blkOffset + toCopy];
    }

    /** The read loop, with the failure of the very first fetch reported in `failed`. */
    method ReadLoop(start: nat, len: nat) returns (failed: int, outbuf: seq<byte>)
      requires Valid() && start + len <= ADDRESS_LIMIT
      modifies this
      ensures Valid() && old(log) <= log && returned == old(returned)
      ensures Extends(old(cache), old(filled), old(eof), cache, filled, eof)
      ensures failed <= 0 && |outbuf| <= len && (failed < 0 ==> outbuf == [])
      ensures HoldsAll(cache, filled, start, outbuf)
      ensures device.Some? ==> failed == 0 && outbuf == Slice(device.value, start, len)
    {
      failed, outbuf := 0, [];
      var done, remaining, cursor := 0, len, start;
      while done < len
        invariant done <= len && remaining == len - done && cursor == start + done && |outbuf| == done
        invariant Valid() && old(log) <= log && returned == old(returned)
        invariant Extends(old(cache), old(filled), old(eof), cache, filled, eof)
        invariant HoldsAll(cache, filled, start, outbuf)
        invariant FromDevice(device, start, outbuf)
        decreases len - done, if eof.Some? && cursor >= eof.value then 0 else 1
      {
        if eof.Some? && cursor >= eof.value {
          KnownEnd(device, cache, filled, eof, log, returned);
          FromDeviceEnd(device, start, outbuf, len);
          return;
        }
        ghost var c, f, e := cache, filled, eof;
        var got, chunk := NextChunk(cursor, remaining);
        ExtendsTransitive(old(cache), old(filled), old(eof), c, f, e, cache, filled, eof);
        HoldsAppend(c, f, e, cache, filled, eof, start, outbuf, chunk);
        if got <= 0 {
          FromDeviceEnd(device, start, outbuf, len);
          failed := if done == 0 then got else 0;
          return;
        }
        FromDeviceAppend(device, start, outbuf, chunk);
        outbuf := outbuf + chunk;
        cursor, done, remaining := cursor + |chunk|, done + |chunk|, remaining - |chunk|;
      }
      FromDeviceEnd(device, start, outbuf, len);
    }

    /** Reads up to `len` bytes from `start` into a caller's buffer; `outbuf` is what it writes there. */
    method Read(start: nat, len: nat) returns (ret: int, outbuf: seq<byte>)
      requires Valid() && start + len <= ADDRESS_LIMIT
      modifies this
      ensures Valid() && old(log) <= log
      ensures Extends(old(cache), old(filled), old(eof), cache, filled, eof)
      ensures ret <= len && |outbuf| == if ret < 0 then 0 else ret
      ensures forall o :: o in old(returned) ==> Has(returned, o, old(returned)[o])
      ensures forall i :: 0 <= i < |outbuf| ==> Has(returned, start + i, outbuf[i])
      ensures device.Some? ==> ret >= 0 && outbuf == Slice(device.value, start, len)
    {
      var failed;
      failed, outbuf := ReadLoop(start, len);
      NotedAll(cache, filled, returned, start, outbuf);
      returned := Noted(returned, start, outbuf);
      ret := if failed < 0 then failed else |outbuf|;
    }
  }
}
