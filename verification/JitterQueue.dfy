/**
 The RTP jitter buffer (main/audio/audio_buffer.c) as a value: a pool of slots, a list of
 queued slots in timestamp order, a stack of free slots, the slots the consumer holds and
 a counting semaphore. Each function below is one critical section of the code.
 */
module JitterQueue {
  import opened Prelude
  import opened Serial32

  /** A slot's header and payload; `time` is the unwrapped RTP timestamp. */
  datatype Frame = Frame(time: int, samples: nat, channels: nat, pcm: seq<int>)

  datatype Buffer = Buffer(
    pool: seq<Frame>, sorted: seq<nat>, free: seq<nat>, held: set<nat>, sampleCount: nat, tokens: nat)

  // ------------------------------------------------------------------- invariants

  ghost predicate Distinct(s: seq<nat>) {
    forall i, j :: 0 <= i < j < |s| ==> s[i] != s[j]
  }

  ghost predicate InRange(s: seq<nat>, n: nat) {
    forall i :: 0 <= i < |s| ==> s[i] < n
  }

  ghost predicate Apart(s: seq<nat>, t: seq<nat>) {
    forall i, j :: 0 <= i < |s| && 0 <= j < |t| ==> s[i] != t[j]
  }

  ghost predicate NotHeld(s: seq<nat>, held: set<nat>) {
    forall i :: 0 <= i < |s| ==> s[i] !in held
  }

  /** Queued, free and held slots do not overlap and account for the whole pool. */
  ghost predicate Partitioned(b: Buffer) {
    && InRange(b.sorted, |b.pool|) && Distinct(b.sorted) && NotHeld(b.sorted, b.held)
    && InRange(b.free, |b.pool|) && Distinct(b.free) && NotHeld(b.free, b.held)
    && Apart(b.sorted, b.free)
    && (forall x :: x in b.held ==> x < |b.pool|)
    && |b.sorted| + |b.free| + |b.held| == |b.pool|
  }

  ghost function Frames(pool: seq<Frame>, slots: seq<nat>): (q: seq<Frame>)
    requires InRange(slots, |pool|)
    ensures |q| == |slots|
    ensures forall i :: 0 <= i < |q| ==> q[i] == pool[slots[i]]
  {
    seq(|slots|, i requires 0 <= i < |slots| => pool[slots[i]])
  }

  function TotalSamples(q: seq<Frame>): nat {
    if q == [] then 0 else q[0].samples + TotalSamples(q[1..])
  }

  ghost predicate Inv(b: Buffer) {
    && Partitioned(b)
    && b.sampleCount == TotalSamples(Content(b))
    && b.tokens <= |b.pool|
  }

  /** The abstract queue: the frames in the order in which they will be taken. */
  ghost function Content(b: Buffer): (q: seq<Frame>)
    requires Partitioned(b)
    ensures |q| == |b.sorted|
  {
    Frames(b.pool, b.sorted)
  }

  ghost predicate Ascending(q: seq<Frame>) {
    forall i, j :: 0 <= i < j < |q| ==> q[i].time <= q[j].time
  }

  ghost predicate AllNear(q: seq<Frame>, time: int) {
    forall i :: 0 <= i < |q| ==> Near(q[i].time, time)
  }

  /** Counting makes the three groups of slots cover the pool. */
  lemma EverySlotOwned(b: Buffer, x: nat)
    requires Partitioned(b) && x < |b.pool|
    ensures x in b.sorted || x in b.free || x in b.held
  {
    if x !in b.sorted && x !in b.free && x !in b.held {
      Crowded(b.sorted, b.free, b.held + {x}, |b.pool|);
    }
  }

  /** Disjoint groups of slots below `n` hold at most `n` slots. */
  lemma {:induction false} Crowded(s: seq<nat>, t: seq<nat>, h: set<nat>, n: nat)
    requires InRange(s, n) && Distinct(s) && NotHeld(s, h)
    requires InRange(t, n) && Distinct(t) && NotHeld(t, h)
    requires Apart(s, t) && forall x :: x in h ==> x < n
    ensures |s| + |t| + |h| <= n
    decreases |s| + |t|
  {
    if s != [] {
      Crowded(s[1..], t, h + {s[0]}, n);
    } else if t != [] {
      Crowded(s, t[1..], h + {t[0]}, n);
    } else {
      BoundedSet(h, n);
    }
  }

  lemma {:induction false} BoundedSet(h: set<nat>, n: nat)
    requires forall x :: x in h ==> x < n
    ensures |h| <= n
  {
    if n == 0 {
      assert h == {};
    } else {
      BoundedSet(h - {n - 1}, n - 1);
    }
  }

  lemma SizeBound(b: Buffer)
    requires Partitioned(b)
    ensures |b.sorted| + |b.free| <= |b.pool|
  {
  }

  // ------------------------------------------------------------ the binary search

  /** The slot's timestamp as stored in its header. */
  function Stamp(f: Frame): nat {
    Wire(f.time)
  }

  function Middle(lo: nat, hi: nat): (mid: nat)
    requires lo < hi
    ensures lo <= mid < hi
  {
    lo + (hi - lo) / 2
  }

  /** Where the code's binary search of sorted[lo..hi] ends. */
  ghost function Search(pool: seq<Frame>, sorted: seq<nat>, stamp: nat, lo: nat, hi: nat): (pos: nat)
    requires lo <= hi <= |sorted| && InRange(sorted, |pool|)
    ensures lo <= pos <= hi
    decreases hi - lo
  {
    if lo == hi then lo
    else
      var mid := Middle(lo, hi);
      if Diff32(Stamp(pool[sorted[mid]]), stamp) < 0
      then Search(pool, sorted, stamp, mid + 1, hi)
      else Search(pool, sorted, stamp, lo, mid)
  }

  lemma SearchHalves(pool: seq<Frame>, sorted: seq<nat>, stamp: nat, lo: nat, hi: nat, mid: nat)
    requires lo < hi <= |sorted| && InRange(sorted, |pool|) && mid == Middle(lo, hi)
    ensures lo <= mid < hi && sorted[mid] < |pool|
    ensures Search(pool, sorted, stamp, lo, hi)
         == if Diff32(Stamp(pool[sorted[mid]]), stamp) < 0
            then Search(pool, sorted, stamp, mid + 1, hi)
            else Search(pool, sorted, stamp, lo, mid)
  {
    hide Diff32, Stamp, Middle;
  }

  lemma SearchEnds(pool: seq<Frame>, sorted: seq<nat>, stamp: nat, lo: nat)
    requires lo <= |sorted| && InRange(sorted, |pool|)
    ensures Search(pool, sorted, stamp, lo, lo) == lo
  {
  }

  /** Every frame before `pos` is earlier than `time`, and none from there on is. */
  ghost predicate Splits(q: seq<Frame>, pos: nat, time: int) {
    && pos <= |q|
    && (forall i :: 0 <= i < pos ==> q[i].time < time)
    && (forall i :: pos <= i < |q| ==> q[i].time >= time)
  }

  /** Within a half window the search splits the queue into earlier and not earlier. */
  lemma {:induction false} SearchSplits(
    pool: seq<Frame>, sorted: seq<nat>, q: seq<Frame>, time: int, lo: nat, hi: nat)
    requires lo <= hi <= |sorted| && InRange(sorted, |pool|) && q == Frames(pool, sorted)
    requires Ascending(q) && AllNear(q, time)
    requires forall i :: 0 <= i < lo ==> q[i].time < time
    requires forall i :: hi <= i < |q| ==> q[i].time >= time
    ensures Splits(q, Search(pool, sorted, Wire(time), lo, hi), time)
    decreases hi - lo
  {
    hide Diff32, Wire, Middle;
    if lo < hi {
      var mid := Middle(lo, hi);
      assert Near(q[mid].time, time);
      DiffExact(q[mid].time, time);
      assert pool[sorted[mid]] == q[mid];
      if q[mid].time < time {
        SearchSplits(pool, sorted, q, time, mid + 1, hi);
      } else {
        SearchSplits(pool, sorted, q, time, lo, mid);
      }
    }
  }

  // ----------------------------------------------------------- the critical sections

  /** The guarded subtraction of the code. */
  function Less(a: nat, b: nat): nat {
    if a >= b then a - b else 0
  }

  /** A full queue gives up its oldest frame, and one token if there is one. */
  function Evict(b: Buffer): Buffer
  {
    if |b.sorted| >= |b.pool| && b.sorted != [] && b.sorted[0] < |b.pool| then
      var lost := b.pool[b.sorted[0]].samples;
      b.(sorted := b.sorted[1..],
         free := b.free + [b.sorted[0]],
         sampleCount := Less(b.sampleCount, lost),
         tokens := Less(b.tokens, 1))
    else b
  }

  predicate Refuses(b: Buffer) {
    Evict(b).free == []
  }

  /** The newest frame stored in a free slot and indexed by timestamp. */
  ghost function Store(b: Buffer, f: Frame): Buffer
    requires Partitioned(b) && b.free != []
  {
    var slot := b.free[|b.free| - 1];
    var pool := b.pool[slot := f];
    var pos := Search(pool, b.sorted, Stamp(f), 0, |b.sorted|);
    b.(pool := pool,
       free := b.free[..|b.free| - 1],
       sorted := Spliced(b.sorted, pos, slot),
       sampleCount := b.sampleCount + f.samples)
  }

  /** The producer's critical section. */
  ghost function Enqueue(b: Buffer, f: Frame): Buffer
    requires Partitioned(b)
  {
    EvictPartitioned(b);
    if Refuses(b) then b else Store(Evict(b), f)
  }

  function Give(b: Buffer): Buffer {
    b.(tokens := if b.tokens < |b.pool| then b.tokens + 1 else b.tokens)
  }

  function Acquire(b: Buffer): Buffer {
    b.(tokens := Less(b.tokens, 1))
  }

  /** The oldest frame leaves the queue into the consumer's hands; an empty queue is left alone. */
  ghost function Remove(b: Buffer): Buffer
    requires Partitioned(b)
  {
    if b.sorted == [] then b
    else
      var taken := b.pool[b.sorted[0]].samples;
      b.(sorted := b.sorted[1..],
         held := b.held + {b.sorted[0]},
         sampleCount := Less(b.sampleCount, taken))
  }

  ghost function GiveBack(b: Buffer, slot: nat): Buffer {
    b.(free := b.free + [slot], held := b.held - {slot})
  }

  /** Clearing the queue and draining the semaphore, taken as one step. */
  function Flush(b: Buffer): Buffer {
    b.(sorted := [], free := b.free + b.sorted, sampleCount := 0, tokens := 0)
  }

  function Fresh(pool: seq<Frame>): Buffer {
    Buffer(pool, [], seq(|pool|, i => i), {}, 0, 0)
  }

  // -------------------------------------------------------- what each section keeps

  lemma EvictPartitioned(b: Buffer)
    requires Partitioned(b)
    ensures Partitioned(Evict(b))
    ensures Evict(b).pool == b.pool && Evict(b).held == b.held
    ensures Evict(b).free == [] ==> Evict(b) == b
    ensures Content(Evict(b)) == Roomy(b)
  {
  }

  /**
   A frame is refused exactly when no slot is free and the consumer holds one; with no
   slot free and nothing held the queue is full, and its oldest frame makes room.
   */
  lemma RefusedExactly(b: Buffer)
    requires Partitioned(b) && b.pool != []
    ensures Refuses(b) <==> b.free == [] && b.held != {}
    ensures Evict(b) != b <==> b.free == [] && b.held == {}
  {
  }

  lemma EvictInv(b: Buffer)
    requires Inv(b)
    ensures Inv(Evict(b))
  {
    EvictPartitioned(b);
  }

  lemma {:induction false} TotalOfSplice(q: seq<Frame>, pos: nat, f: Frame)
    requires pos <= |q|
    ensures TotalSamples(Spliced(q, pos, f)) == TotalSamples(q) + f.samples
  {
    var r := Spliced(q, pos, f);
    if pos == 0 {
      assert r[1..] == q;
    } else {
      TotalOfSplice(q[1..], pos - 1, f);
      assert r[1..] == Spliced(q[1..], pos - 1, f);
    }
  }

  lemma InvPartitioned(b: Buffer)
    requires Inv(b)
    ensures Partitioned(b)
  {
  }

  lemma SplicePartitioned(b: Buffer, f: Frame, pos: nat)
    requires Partitioned(b) && b.free != [] && pos <= |b.sorted|
    ensures var slot := b.free[|b.free| - 1];
            Partitioned(b.(pool := b.pool[slot := f], free := b.free[..|b.free| - 1],
                           sorted := Spliced(b.sorted, pos, slot)))
  {
    var slot, free := b.free[|b.free| - 1], b.free[..|b.free| - 1];
    var sorted := Spliced(b.sorted, pos, slot);
    SpliceAt(b.sorted, pos, slot);
    assert forall i :: 0 <= i < |free| ==> free[i] == b.free[i] && free[i] != slot;
    assert forall i :: 0 <= i < |b.sorted| ==> b.sorted[i] != slot;
    assert Distinct(sorted);
    assert Apart(sorted, free);
  }

  lemma SpliceFrames(b: Buffer, f: Frame, pos: nat)
    requires Partitioned(b) && b.free != [] && pos <= |b.sorted|
    ensures var slot := b.free[|b.free| - 1];
            var pool := b.pool[slot := f];
            && Frames(pool, b.sorted) == Content(b)
            && InRange(Spliced(b.sorted, pos, slot), |pool|)
            && Frames(pool, Spliced(b.sorted, pos, slot)) == Spliced(Content(b), pos, f)
  {
    var slot := b.free[|b.free| - 1];
    SpliceAt(b.sorted, pos, slot);
    SpliceAt(Content(b), pos, f);
    assert forall i :: 0 <= i < |b.sorted| ==> b.sorted[i] != slot;
  }

  /** Where `Store` puts the frame, and the queue around it. */
  lemma StoreContent(b: Buffer, f: Frame)
    requires Partitioned(b) && b.free != []
    ensures Partitioned(Store(b, f))
    ensures var pos := Search(Store(b, f).pool, b.sorted, Stamp(f), 0, |b.sorted|);
            Content(Store(b, f)) == Spliced(Content(b), pos, f)
    ensures Frames(Store(b, f).pool, b.sorted) == Content(b)
  {
    var pos := Search(Store(b, f).pool, b.sorted, Stamp(f), 0, |b.sorted|);
    SplicePartitioned(b, f, pos);
    SpliceFrames(b, f, pos);
  }

  lemma StoreInv(b: Buffer, f: Frame)
    requires Inv(b) && b.free != []
    ensures Inv(Store(b, f))
  {
    StoreContent(b, f);
    TotalOfSplice(Content(b), Search(Store(b, f).pool, b.sorted, Stamp(f), 0, |b.sorted|), f);
  }

  lemma EnqueueInv(b: Buffer, f: Frame)
    requires Inv(b)
    ensures Inv(Enqueue(b, f))
  {
    EvictInv(b);
    if !Refuses(b) { StoreInv(Evict(b), f); }
  }

  lemma GiveInv(b: Buffer)
    requires Inv(b)
    ensures Inv(Give(b)) && Content(Give(b)) == Content(b)
  {
  }

  lemma AcquireInv(b: Buffer)
    requires Inv(b)
    ensures Inv(Acquire(b)) && Content(Acquire(b)) == Content(b)
  {
  }

  lemma RemoveInv(b: Buffer)
    requires Inv(b)
    ensures Inv(Remove(b))
    ensures b.sorted != [] ==> Content(Remove(b)) == Content(b)[1..]
  {
    if b.sorted != [] {
      assert b.sorted[0] !in b.held;
      assert Content(Remove(b)) == Content(b)[1..];
    }
  }

  lemma GiveBackInv(b: Buffer, slot: nat)
    requires Inv(b) && slot in b.held
    ensures Inv(GiveBack(b, slot)) && |b.free| < |b.pool|
    ensures Content(GiveBack(b, slot)) == Content(b)
  {
    assert |b.held - {slot}| == |b.held| - 1;
  }

  lemma FlushInv(b: Buffer)
    requires Inv(b)
    ensures Inv(Flush(b)) && |Flush(b).free| <= |b.pool|
    ensures Content(Flush(b)) == [] && Flush(b).tokens == 0 && Flush(b).held == b.held && Flush(b).pool == b.pool
  {
  }

  lemma FreshInv(pool: seq<Frame>)
    ensures Inv(Fresh(pool)) && Content(Fresh(pool)) == []
  {
  }

  // ------------------------------------------------------- refinement of a priority queue

  /** The reference: scan for the first frame that is not earlier. */
  function Insert(q: seq<Frame>, f: Frame): seq<Frame> {
    if q == [] then [f]
    else if q[0].time < f.time then [q[0]] + Insert(q[1..], f)
    else [f] + q
  }

  lemma {:induction false} InsertIsSplice(q: seq<Frame>, f: Frame, pos: nat)
    requires Splits(q, pos, f.time)
    ensures Insert(q, f) == Spliced(q, pos, f)
  {
    if pos > 0 {
      assert q[1..][..pos - 1] == q[1..pos];
      InsertIsSplice(q[1..], f, pos - 1);
    }
  }

  lemma InsertHead(q: seq<Frame>, f: Frame)
    ensures Insert(q, f) != []
    ensures Insert(q, f)[0] == if q != [] && q[0].time < f.time then q[0] else f
  {
  }

  lemma {:induction false} InsertAddsOne(q: seq<Frame>, f: Frame)
    ensures multiset(Insert(q, f)) == multiset(q) + multiset{f}
  {
    if q != [] {
      assert q == [q[0]] + q[1..];
      InsertAddsOne(q[1..], f);
    }
  }

  lemma {:induction false} InsertAscending(q: seq<Frame>, f: Frame)
    requires Ascending(q)
    ensures Ascending(Insert(q, f))
  {
    if q != [] && q[0].time < f.time {
      var rest := Insert(q[1..], f);
      InsertAscending(q[1..], f);
      InsertHead(q[1..], f);
      assert q[0].time <= rest[0].time;
      assert forall j :: 0 <= j < |rest| ==> rest[0].time <= rest[j].time;
    } else if q != [] {
      assert forall j :: 0 <= j < |q| ==> q[0].time <= q[j].time;
    }
  }

  /** The queue once a full one has given up its oldest frame. */
  ghost function Roomy(b: Buffer): seq<Frame>
    requires Partitioned(b)
  {
    if |b.sorted| == |b.pool| && b.sorted != [] then Content(b)[1..] else Content(b)
  }

  lemma StoreRefines(b: Buffer, f: Frame)
    requires Partitioned(b) && b.free != []
    requires Ascending(Content(b)) && AllNear(Content(b), f.time)
    ensures Partitioned(Store(b, f)) && Content(Store(b, f)) == Insert(Content(b), f)
  {
    StoreContent(b, f);
    var pool := Store(b, f).pool;
    SearchSplits(pool, b.sorted, Content(b), f.time, 0, |b.sorted|);
    InsertIsSplice(Content(b), f, Search(pool, b.sorted, Stamp(f), 0, |b.sorted|));
  }

  /** Under the half-window assumption the indexed pool is the priority queue, across any wrap. */
  lemma EnqueueRefines(b: Buffer, f: Frame)
    requires Partitioned(b) && !Refuses(b)
    requires Ascending(Content(b)) && AllNear(Content(b), f.time)
    ensures Partitioned(Enqueue(b, f))
    ensures Content(Enqueue(b, f)) == Insert(Roomy(b), f)
    ensures Ascending(Content(Enqueue(b, f)))
  {
    EvictPartitioned(b);
    assert Ascending(Roomy(b)) && AllNear(Roomy(b), f.time);
    StoreRefines(Evict(b), f);
    InsertAscending(Roomy(b), f);
  }

  /** What `Remove` hands over is the minimum of the queue. */
  lemma TakenIsOldest(b: Buffer, x: nat)
    requires Inv(b) && Ascending(Content(b)) && x < |b.sorted|
    ensures b.pool[b.sorted[0]].time <= b.pool[b.sorted[x]].time
    ensures Inv(Remove(b)) && Ascending(Content(Remove(b)))
  {
    RemoveInv(b);
    assert Content(b)[0].time <= Content(b)[x].time;
  }
}
