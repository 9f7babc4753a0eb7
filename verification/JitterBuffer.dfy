/**
 The jitter buffer as the code keeps it: index arrays shifted in place, a stack pointer and
 running counts (main/audio/audio_buffer.c). Every method is proved against the value-level
 critical sections of `JitterQueue`.
 */
module JitterBuffer {
  import opened Prelude
  import opened Serial32
  import opened JitterQueue

  const AAC_FRAMES_PER_PACKET := 352
  const AUDIO_MAX_CHANNELS := 2
  const MAX_RING_BUFFER_FRAMES := 1000
  const SLOT_PAYLOAD_BYTES := AAC_FRAMES_PER_PACKET * AUDIO_MAX_CHANNELS * 2
  const UINT16_MAX := 65535

  /** A frame that one slot can hold. */
  predicate Storable(samples: nat, channels: int) {
    && samples != 0 && 1 <= channels <= AUDIO_MAX_CHANNELS
    && samples <= UINT16_MAX && samples * channels * 2 <= SLOT_PAYLOAD_BYTES
  }

  class AudioBuffer {
    const pool: array<Frame>
    const sorted: array<nat>
    const freeStack: array<nat>
    var count: nat
    var freeTop: nat
    var sampleCount: nat
    /** The counting semaphore on which the consumer blocks. */
    var dataReady: nat
    /** Slots taken by the consumer and not yet returned. */
    ghost var held: set<nat>

    ghost predicate Shaped()
      reads this
    {
      && pool.Length == sorted.Length == freeStack.Length
      && sorted != freeStack
      && count <= sorted.Length && freeTop <= freeStack.Length
    }

    ghost function State(): Buffer
      requires Shaped()
      reads this, pool, sorted, freeStack
    {
      Buffer(pool[..], sorted[..count], freeStack[..freeTop], held, sampleCount, dataReady)
    }

    ghost predicate Valid()
      reads this, pool, sorted, freeStack
    {
      Shaped() && pool.Length > 0 && Inv(State())
    }

    constructor ()
      ensures Valid() && fresh(pool) && fresh(sorted) && fresh(freeStack)
      ensures pool.Length == MAX_RING_BUFFER_FRAMES && State() == Fresh(pool[..])
    {
      pool := new Frame[MAX_RING_BUFFER_FRAMES](_ => Frame(0, 0, 0, []));
      sorted := new nat[MAX_RING_BUFFER_FRAMES](_ => 0);
      freeStack := new nat[MAX_RING_BUFFER_FRAMES](_ => 0);
      count, freeTop, sampleCount, dataReady, held := 0, 0, 0, 0, {};
      new;
      freeTop := pool.Length;
      for i := 0 to pool.Length
        invariant forall k :: 0 <= k < i ==> freeStack[k] == k
        modifies freeStack
      {
        freeStack[i] := i;
      }
      FreshInv(pool[..]);
      assert State() == Fresh(pool[..]);
    }

    /** The binary search loop. */
    method InsertPos(timestamp: nat) returns (pos: nat)
      requires Shaped() && InRange(sorted[..count], pool.Length)
      ensures pos == Search(pool[..], sorted[..count], timestamp, 0, count)
    {
      ghost var frames, slots := pool[..], sorted[..count];
      hide *;
      var lo, hi := 0, count;
      while lo < hi
        invariant lo <= hi <= count
        invariant Search(frames, slots, timestamp, lo, hi) == Search(frames, slots, timestamp, 0, count)
      {
        var mid := Middle(lo, hi);
        SearchHalves(frames, slots, timestamp, lo, hi, mid);
        assert slots[mid] == sorted[mid] && frames[slots[mid]] == pool[sorted[mid]];
        if Diff32(Stamp(pool[sorted[mid]]), timestamp) < 0 {
          lo := mid + 1;
        } else {
          hi := mid;
        }
      }
      SearchEnds(frames, slots, timestamp, lo);
      pos := lo;
    }

    /** memmove one place down: the index of the oldest frame disappears. */
    method ShiftDown()
      requires Shaped() && 0 < count
      modifies sorted, this`count
      ensures count == old(count) - 1 && sorted[..count] == old(sorted[..count])[1..]
    {
      for i := 0 to count - 1
        invariant forall k :: 0 <= k < i ==> sorted[k] == old(sorted[k + 1])
        invariant forall k :: i <= k < sorted.Length ==> sorted[k] == old(sorted[k])
        modifies sorted
      {
        sorted[i] := sorted[i + 1];
      }
      count := count - 1;
    }

    /** memmove one place up from `pos`, and the new index in the gap. */
    method ShiftUp(pos: nat, slot: nat)
      requires Shaped() && pos <= count < sorted.Length
      modifies sorted, this`count
      ensures count == old(count) + 1 && sorted[..count] == Spliced(old(sorted[..count]), pos, slot)
    {
      var i := count;
      ghost var was := sorted[..];
      while i > pos
        invariant pos <= i <= count
        invariant forall k :: 0 <= k < i ==> sorted[k] == was[k]
        invariant forall k :: i < k <= count ==> sorted[k] == was[k - 1]
        modifies sorted
      {
        sorted[i] := sorted[i - 1];
        i := i - 1;
      }
      sorted[pos] := slot;
      count := count + 1;
      SplicedIs(was[..count - 1], sorted[..count], pos, slot);
    }

    method EvictWhileFull()
      requires Valid()
      modifies this, sorted, freeStack
      ensures Valid() && State() == Evict(old(State())) && held == old(held)
    {
      EvictInv(State());
      ghost var start := State();
      while count >= pool.Length && count > 0
        invariant Valid() && held == old(held)
        invariant State() == start || (State() == Evict(start) && count < pool.Length)
        decreases count
      {
        var victim := sorted[0];
        var lost := pool[victim].samples;
        ShiftDown();
        sampleCount := Less(sampleCount, lost);
        freeStack[freeTop] := victim;
        freeTop := freeTop + 1;
        dataReady := Less(dataReady, 1);
        assert freeStack[..freeTop] == start.free + [victim];
        assert State() == Evict(start);
      }
    }

    /** Queue one chunk; refused without a trace unless it is storable and a slot can be had. */
    method QueueChunk(time: int, pcm: seq<int>, samples: nat, channels: int) returns (ok: bool)
      requires Valid()
      modifies this, pool, sorted, freeStack
      ensures Valid() && held == old(held)
      ensures ok <==> Storable(samples, channels) && !Refuses(old(State()))
      ensures !ok ==> State() == old(State())
      ensures ok ==> State() == Give(Enqueue(old(State()), Frame(time, samples, channels, pcm)))
    {
      hide Search, Partitioned, TotalSamples;
      if samples == 0 {
        return false;
      }
      if channels < 1 || channels > AUDIO_MAX_CHANNELS {
        return false;
      }
      var pcmBytes := samples * channels * 2;
      if samples > UINT16_MAX || pcmBytes > SLOT_PAYLOAD_BYTES {
        return false;
      }
      ghost var before, f := State(), Frame(time, samples, channels, pcm);
      EvictPartitioned(before);
      EvictWhileFull();
      assert State() == Evict(before);
      if freeTop == 0 {
        return false;
      }
      StoreFrame(Frame(time, samples, channels, pcm));
      ghost var stored := State();
      assert stored == Enqueue(before, f);
      GiveInv(stored);
      dataReady := if dataReady < pool.Length then dataReady + 1 else dataReady;
      assert State() == Give(stored);
      ok := true;
    }

    /** Pop a slot, build the frame in it and index it. */
    method StoreFrame(f: Frame)
      requires Valid() && freeTop > 0
      modifies this, pool, sorted
      ensures Valid() && State() == Store(old(State()), f) && held == old(held)
    {
      hide Inv, Search, Spliced;
      ghost var before := State();
      InvPartitioned(before);
      StoreInv(before, f);
      freeTop := freeTop - 1;
      var slot := freeStack[freeTop];
      assert slot == before.free[|before.free| - 1];
      pool[slot] := f;
      assert pool[..] == before.pool[slot := f];
      var pos := InsertPos(Stamp(f));
      ShiftUp(pos, slot);
      sampleCount := sampleCount + f.samples;
      assert State() == Store(before, f);
    }

    /** The consumer's half: wait for a token, then unlink the oldest frame. */
    method Take() returns (item: bool, slot: nat)
      requires Valid()
      modifies this, sorted
      ensures Valid()
      ensures item <==> old(dataReady) > 0 && old(count) > 0
      ensures old(dataReady) == 0 ==> State() == old(State())
      ensures old(dataReady) > 0 ==> State() == Remove(Acquire(old(State())))
      ensures item ==> slot in held && slot !in old(held) && pool[slot] == Content(old(State()))[0]
    {
      hide Partitioned, TotalSamples, Frames;
      slot := 0;
      if dataReady == 0 {
        return false, 0;
      }
      AcquireInv(State());
      ghost var before := State();
      dataReady := dataReady - 1;
      assert State() == Acquire(before);
      if count == 0 {
        return false, 0;
      }
      slot := Unlink();
      item := true;
    }

    /** The oldest frame's index leaves the array and its slot belongs to the consumer. */
    method Unlink() returns (slot: nat)
      requires Valid() && count > 0
      modifies this, sorted
      ensures Valid() && State() == Remove(old(State()))
      ensures slot in held && slot !in old(held) && pool[slot] == Content(old(State()))[0]
    {
      ghost var before := State();
      RemoveInv(before);
      slot := sorted[0];
      assert slot == before.sorted[0];
      var taken := pool[slot].samples;
      ShiftDown();
      sampleCount := Less(sampleCount, taken);
      held := held + {slot};
      assert State() == Remove(before);
    }

    /** The consumer gives back a slot that it took. */
    method Return(slot: nat)
      requires Valid() && slot in held
      modifies this, freeStack
      ensures Valid() && State() == GiveBack(old(State()), slot)
    {
      GiveBackInv(State(), slot);
      freeStack[freeTop] := slot;
      freeTop := freeTop + 1;
      held := held - {slot};
      assert freeStack[..freeTop] == old(freeStack[..freeTop]) + [slot];
    }

    method FlushAll()
      requires Valid()
      modifies this, freeStack
      ensures Valid() && State() == Flush(old(State()))
    {
      FlushInv(State());
      SizeBound(State());
      hide Inv;
      FreeQueued();
      count, sampleCount := 0, 0;
      while dataReady > 0
        modifies this`dataReady
      {
        dataReady := dataReady - 1;
      }
      assert State() == Flush(old(State()));
    }

    /** Every queued slot goes onto the free stack. */
    method FreeQueued()
      requires Shaped() && freeTop + count <= freeStack.Length
      modifies this`freeTop, freeStack
      ensures freeTop == old(freeTop) + count
      ensures freeStack[..freeTop] == old(freeStack[..freeTop]) + sorted[..count]
    {
      ghost var free, slots := freeStack[..freeTop], sorted[..count];
      for i := 0 to count
        invariant freeTop == |free| + i
        invariant freeStack[..freeTop] == free + slots[..i]
      {
        freeStack[freeTop] := sorted[i];
        freeTop := freeTop + 1;
        assert slots[..i + 1] == slots[..i] + [sorted[i]];
      }
    }

    method OldestTimestamp() returns (found: bool, timestamp: nat)
      requires Valid()
      ensures found <==> Content(State()) != []
      ensures found ==> timestamp == Stamp(Content(State())[0])
    {
      if count == 0 {
        return false, 0;
      }
      found, timestamp := true, Stamp(pool[sorted[0]]);
    }
  }
}
