/**
 Splitting a decoded frame into slot-sized chunks (audio_buffer_queue_decoded in
 main/audio/audio_buffer.c) and what becomes of the chunks in the queue.
 */
module JitterChunks {
  import opened Prelude
  import opened Serial32
  import opened JitterQueue
  import opened JitterBuffer

  /** The chunks of a frame: at most 352 samples each, timestamps advancing by their length. */
  function Chunks(time: int, pcm: seq<int>, samples: nat, channels: nat): seq<Frame>
    requires |pcm| == samples * channels
    decreases samples
  {
    if samples == 0 then []
    else
      var n := if samples > AAC_FRAMES_PER_PACKET then AAC_FRAMES_PER_PACKET else samples;
      SplitLength(samples, n, channels);
      [Frame(time, n, channels, pcm[..n * channels])]
      + Chunks(time + n, pcm[n * channels..], samples - n, channels)
  }

  lemma SplitLength(samples: nat, n: nat, channels: nat)
    requires n <= samples
    ensures 0 <= n * channels <= samples * channels
    ensures samples * channels - n * channels == (samples - n) * channels
  {
    assert samples * channels == n * channels + (samples - n) * channels;
  }

  function JoinPcm(q: seq<Frame>): seq<int> {
    if q == [] then [] else q[0].pcm + JoinPcm(q[1..])
  }

  ghost predicate Contiguous(q: seq<Frame>, time: int) {
    q != [] ==> q[0].time == time && Contiguous(q[1..], time + q[0].samples)
  }

  /** The first chunk and what is left of the frame behind it. */
  lemma ChunksUnfold(time: int, pcm: seq<int>, samples: nat, channels: nat)
    returns (n: nat, left: nat, rest: seq<int>)
    requires |pcm| == samples * channels && samples > 0 && 1 <= channels <= AUDIO_MAX_CHANNELS
    ensures 0 < n && n + left == samples && |rest| == left * channels && |rest| <= |pcm|
    ensures Storable(n, channels) && (left > 0 ==> n == AAC_FRAMES_PER_PACKET)
    ensures var q, cut := Chunks(time, pcm, samples, channels), |pcm| - |rest|;
            && q != [] && q[1..] == Chunks(time + n, rest, left, channels)
            && q[0] == Frame(time, n, channels, pcm[..cut]) && AllFit([q[0]], channels) && rest == pcm[cut..]
  {
    n := if samples > AAC_FRAMES_PER_PACKET then AAC_FRAMES_PER_PACKET else samples;
    SplitLength(samples, n, channels);
    ChunkFits(n, channels);
    left, rest := samples - n, pcm[n * channels..];
  }

  ghost predicate AllFit(q: seq<Frame>, channels: nat) {
    forall i :: 0 <= i < |q| ==> Storable(q[i].samples, channels) && |q[i].pcm| == q[i].samples * channels
  }

  ghost predicate AllButLastFull(q: seq<Frame>) {
    forall i :: 0 <= i < |q| - 1 ==> q[i].samples == AAC_FRAMES_PER_PACKET
  }

  lemma TileStep(q: seq<Frame>, pcm: seq<int>, cut: nat, time: int, channels: nat)
    requires q != [] && cut <= |pcm| && q[0].pcm == pcm[..cut] && JoinPcm(q[1..]) == pcm[cut..]
    requires q[0].time == time && Contiguous(q[1..], time + q[0].samples)
    requires AllFit([q[0]], channels) && AllFit(q[1..], channels) && AllButLastFull(q[1..])
    requires q[1..] != [] ==> q[0].samples == AAC_FRAMES_PER_PACKET
    ensures JoinPcm(q) == pcm && AllFit(q, channels) && AllButLastFull(q)
    ensures Contiguous(q, time) && TotalSamples(q) == q[0].samples + TotalSamples(q[1..])
  {
    hide Storable;
    assert pcm == pcm[..cut] + pcm[cut..];
    assert forall i :: 0 <= i < |q| ==> q[i] == if i == 0 then [q[0]][0] else q[1..][i - 1];
  }

  /** The chunks are the frame: same samples, no gap or overlap in time, each fits a slot. */
  lemma {:induction false} ChunksTile(time: int, pcm: seq<int>, samples: nat, channels: nat)
    requires |pcm| == samples * channels && 1 <= channels <= AUDIO_MAX_CHANNELS
    ensures var q := Chunks(time, pcm, samples, channels);
            && JoinPcm(q) == pcm && TotalSamples(q) == samples && Contiguous(q, time)
            && AllFit(q, channels) && AllButLastFull(q) && (q == [] <==> samples == 0)
    decreases samples
  {
    hide *;
    if samples == 0 {
      ChunksNone(time, pcm, channels);
    } else {
      var n, left, rest := ChunksUnfold(time, pcm, samples, channels);
      ChunksTile(time + n, rest, left, channels);
      TileStep(Chunks(time, pcm, samples, channels), pcm, |pcm| - |rest|, time, channels);
    }
  }

  lemma ChunksNone(time: int, pcm: seq<int>, channels: nat)
    requires |pcm| == 0 * channels
    ensures var q := Chunks(time, pcm, 0, channels);
            && q == [] && JoinPcm(q) == pcm && TotalSamples(q) == 0 && Contiguous(q, time)
            && AllFit(q, channels) && AllButLastFull(q)
  {
  }

  /** The state after queueing frames one by one until the first refusal. */
  ghost function QueueAll(b: Buffer, q: seq<Frame>): (r: Buffer)
    requires Inv(b)
    ensures Inv(r) && r.held == b.held
    decreases |q|
  {
    if q == [] || Refuses(b) then b
    else
      EnqueueInv(b, q[0]);
      EvictPartitioned(b);
      QueueAll(Give(Enqueue(b, q[0])), q[1..])
  }

  ghost predicate AllQueued(b: Buffer, q: seq<Frame>)
    requires Inv(b)
    decreases |q|
  {
    q == [] || (!Refuses(b) && (EnqueueInv(b, q[0]); AllQueued(Give(Enqueue(b, q[0])), q[1..])))
  }

  /** A non-positive channel count means stereo. */
  function Effective(channels: int): int {
    if channels <= 0 then 2 else channels
  }

  /**
   What fits a slot: one or two channels and at most 704 values in all. The code computes the size
   in 32 bits; its check against the 16-bit header field keeps wrapped sizes out.
   */
  lemma StorableExactly(samples: nat, channels: int)
    ensures Storable(samples, channels) <==> samples > 0 && (channels == 1 || channels == 2) && samples * channels <= 704
    ensures Storable(samples, channels) <==>
      && samples > 0 && (channels == 1 || channels == 2) && samples <= 65535
      && samples * channels * 2 % 0x1_0000_0000 <= 704 * 2
  {
    if channels == 1 || channels == 2 { assert samples * channels * 2 == (samples * channels) * 2; }
  }

  method QueueDecoded(buffer: AudioBuffer, time: int, pcm: seq<int>, samples: nat, channels: int)
    returns (ok: bool)
    requires buffer.Valid()
    requires Effective(channels) <= AUDIO_MAX_CHANNELS ==> |pcm| == samples * Effective(channels)
    modifies buffer, buffer.pool, buffer.sorted, buffer.freeStack
    ensures buffer.Valid()
    ensures samples == 0 || Effective(channels) > AUDIO_MAX_CHANNELS ==>
      !ok && buffer.State() == old(buffer.State())
    ensures samples > 0 && Effective(channels) <= AUDIO_MAX_CHANNELS ==>
      var q := Chunks(time, pcm, samples, Effective(channels));
      && ok == AllQueued(old(buffer.State()), q)
      && buffer.State() == QueueAll(old(buffer.State()), q)
    ensures samples > 0 && channels <= 0 ==>
      buffer.State() == QueueAll(old(buffer.State()), Chunks(time, pcm, samples, 2))
  {
    if samples == 0 {
      return false;
    }
    var lanes := if channels <= 0 then 2 else channels;
    if lanes > AUDIO_MAX_CHANNELS {
      return false;
    }
    ok := QueueChunks(buffer, time, pcm, samples, lanes);
  }

  /** The splitting loop. */
  method QueueChunks(buffer: AudioBuffer, time: int, pcm: seq<int>, samples: nat, lanes: nat)
    returns (ok: bool)
    requires buffer.Valid()
    requires 1 <= lanes <= AUDIO_MAX_CHANNELS && |pcm| == samples * lanes
    modifies buffer, buffer.pool, buffer.sorted, buffer.freeStack
    ensures buffer.Valid()
    ensures ok == AllQueued(old(buffer.State()), Chunks(time, pcm, samples, lanes))
    ensures buffer.State() == QueueAll(old(buffer.State()), Chunks(time, pcm, samples, lanes))
  {
    ghost var start, all := buffer.State(), Chunks(time, pcm, samples, lanes);
    ghost var rest := all;
    var chunkTime, left, data := time, samples, pcm;
    while left > 0
      invariant buffer.Valid() && |data| == left * lanes && rest == Chunks(chunkTime, data, left, lanes)
      invariant QueueAll(start, all) == QueueAll(buffer.State(), rest)
      invariant AllQueued(start, all) == AllQueued(buffer.State(), rest)
    {
      var queued;
      queued, chunkTime, left, data, rest := QueueNext(buffer, chunkTime, left, data, lanes, rest);
      if !queued {
        return false;
      }
    }
    ok := true;
  }

  /** The first chunk of the `left` samples still to be queued; then the position behind it. */
  method QueueNext(buffer: AudioBuffer, time: int, left: nat, data: seq<int>, channels: nat, ghost q: seq<Frame>)
    returns (queued: bool, nextTime: int, nextLeft: nat, tail: seq<int>, ghost rest: seq<Frame>)
    requires buffer.Valid() && left > 0
    requires 1 <= channels <= AUDIO_MAX_CHANNELS && |data| == left * channels
    requires q == Chunks(time, data, left, channels)
    modifies buffer, buffer.pool, buffer.sorted, buffer.freeStack
    ensures buffer.Valid()
    ensures nextLeft < left && nextTime == time + (left - nextLeft) && |tail| == nextLeft * channels
    ensures rest == Chunks(nextTime, tail, nextLeft, channels)
    ensures !queued ==> !AllQueued(old(buffer.State()), q) && buffer.State() == QueueAll(old(buffer.State()), q)
    ensures queued ==> QueueAll(old(buffer.State()), q) == QueueAll(buffer.State(), rest)
    ensures queued ==> AllQueued(old(buffer.State()), q) == AllQueued(buffer.State(), rest)
  {
    var n := left;
    if n > AAC_FRAMES_PER_PACKET {
      n := AAC_FRAMES_PER_PACKET;
    }
    SplitLength(left, n, channels);
    ChunkFits(n, channels);
    nextTime, nextLeft, tail := time + n, left - n, data[n * channels..];
    rest := Chunks(nextTime, tail, nextLeft, channels);
    ghost var f := Frame(time, n, channels, data[..n * channels]);
    assert q == [f] + rest;
    assert q[0] == f && q[1..] == rest;
    queued := buffer.QueueChunk(time, data[..n * channels], n, channels);
  }

  lemma ChunkFits(n: nat, channels: int)
    requires 1 <= n <= AAC_FRAMES_PER_PACKET && 1 <= channels <= AUDIO_MAX_CHANNELS
    ensures Storable(n, channels)
  {
    assert n * channels <= AAC_FRAMES_PER_PACKET * channels;
  }

  // -------------------------------------------------- the chunks stay together

  ghost predicate Before(q: seq<Frame>, time: int) {
    forall i :: 0 <= i < |q| ==> q[i].time < time
  }

  ghost predicate From(q: seq<Frame>, time: int) {
    forall i :: 0 <= i < |q| ==> q[i].time >= time
  }


  /**
   The queue after the chunks `q` went between `early` and `late`, with `room` free slots.
   While the consumer holds a slot the chunks beyond the free slots are refused; otherwise
   each of them pushes out the oldest frame, which in the end is a chunk of the same frame.
   */
  function Outcome(early: seq<Frame>, q: seq<Frame>, late: seq<Frame>, room: nat, held: bool): seq<Frame> {
    if |q| <= room then early + q + late
    else if held then early + q[..room] + late
    else if room + |early| > 0 then (early + q)[|q| - room..] + late
    else if late == [] then []
    else [q[|q| - 1]] + late[1..]
  }

  /** The queue after one chunk, if it is not refused. */
  function Placed(early: seq<Frame>, f: Frame, late: seq<Frame>, room: nat): seq<Frame> {
    if room > 0 then early + [f] + late
    else if early != [] then early[1..] + [f] + late
    else if late != [] then [f] + late[1..]
    else []
  }

  /** A frame takes a free slot, or the slot of the oldest frame, or is refused. */
  lemma SlotsAfter(b: Buffer, f: Frame)
    requires Inv(b)
    ensures Refuses(b) <==> b.free == [] && (b.held != {} || b.pool == [])
    ensures !Refuses(b) ==>
      var r := Give(Enqueue(b, f));
      && Inv(r) && r.held == b.held && |r.pool| == |b.pool| && |r.free| == Less(|b.free|, 1)
      && Content(r) == Content(Enqueue(b, f))
    ensures b.free == [] && b.held == {} ==> (Content(b) == [] <==> b.pool == [])
    ensures !Refuses(b) ==> Roomy(b) == if b.free == [] then Content(b)[1..] else Content(b)
  {
    hide Search, TotalSamples, Spliced;
    EvictPartitioned(b);
    EnqueueInv(b, f);
    GiveInv(Enqueue(b, f));
  }

  /** The reference insertion of a frame that belongs between `early` and `late`. */
  lemma InsertPlaced(early: seq<Frame>, late: seq<Frame>, f: Frame, room: nat)
    requires Before(early, f.time) && From(late, f.time) && (room > 0 || early + late != [])
    ensures Insert(if room == 0 then (early + late)[1..] else early + late, f) == Placed(early, f, late, room)
  {
    var older, newer := early, late;
    if room == 0 {
      if early != [] { older := early[1..]; } else { newer := late[1..]; }
      assert (early + late)[1..] == older + newer;
    }
    InsertIsSplice(older + newer, f, |older|);
    assert Spliced(older + newer, |older|, f) == older + [f] + newer;
  }

  // ------------------------------------------------- any frames, as insertions

  /**
   The reference: each frame is inserted in its place, after the oldest frame has made room if no
   slot is free; with a slot held there is no more room, and the first refusal ends it.
   */
  function InsertAll(content: seq<Frame>, q: seq<Frame>, room: nat, held: bool): seq<Frame>
    decreases |q|
  {
    if q == [] then content
    else if room > 0 then InsertAll(Insert(content, q[0]), q[1..], room - 1, held)
    else if held || content == [] then content
    else InsertAll(Insert(content[1..], q[0]), q[1..], 0, held)
  }

  /** Every frame to come lies within half a window of every frame queued and to come. */
  ghost predicate Windowed(content: seq<Frame>, q: seq<Frame>) {
    forall j :: 0 <= j < |q| ==> AllNear(content, q[j].time) && AllNear(q, q[j].time)
  }

  lemma {:induction false} InsertNear(content: seq<Frame>, f: Frame, time: int)
    requires AllNear(content, time) && Near(f.time, time)
    ensures AllNear(Insert(content, f), time)
  {
    if content != [] && content[0].time < f.time { InsertNear(content[1..], f, time); }
  }

  lemma WindowedStep(content: seq<Frame>, q: seq<Frame>, drop: nat)
    requires Windowed(content, q) && q != [] && drop <= |content|
    ensures AllNear(content[drop..], q[0].time) && Windowed(Insert(content[drop..], q[0]), q[1..])
  {
    hide Near;
    forall j | 0 <= j < |q[1..]|
      ensures AllNear(Insert(content[drop..], q[0]), q[1..][j].time) && AllNear(q[1..], q[1..][j].time)
    {
      assert AllNear(content, q[j + 1].time) && AllNear(q, q[j + 1].time);
      InsertNear(content[drop..], q[0], q[j + 1].time);
    }
  }

  lemma QueueOne(b: Buffer, f: Frame)
    requires Inv(b) && !Refuses(b) && Ascending(Content(b)) && AllNear(Content(b), f.time)
    ensures var r := Give(Enqueue(b, f));
            && Inv(r) && Ascending(Content(r))
            && (b.free == [] ==> Content(b) != [])
            && Content(r) == Insert(Content(b)[if b.free == [] then 1 else 0..], f)
  {
    hide Enqueue, Refuses, Partitioned, Roomy, Frames, TotalSamples, Insert, Ascending, AllNear;
    SlotsAfter(b, f);
    EnqueueRefines(b, f);
    assert Content(b)[0..] == Content(b);
  }

  /** Queueing any windowed frames is inserting them one after the other. */
  lemma {:induction false} QueueRefines(b: Buffer, q: seq<Frame>)
    requires Inv(b) && Ascending(Content(b)) && Windowed(Content(b), q)
    ensures AllQueued(b, q) <==> |q| <= |b.free| || (b.held == {} && b.pool != [])
    ensures Content(QueueAll(b, q)) == InsertAll(Content(b), q, |b.free|, b.held != {})
    ensures Ascending(Content(QueueAll(b, q)))
    decreases |q|
  {
    hide Refuses, Enqueue, Insert, Ascending, Windowed, Partitioned, Frames;
    if q != [] {
      SlotsAfter(b, q[0]);
      if !Refuses(b) {
        WindowedStep(Content(b), q, 0);
        assert Content(b)[0..] == Content(b);
        if b.free == [] { WindowedStep(Content(b), q, 1); }
        QueueOne(b, q[0]);
        QueueRefines(Give(Enqueue(b, q[0])), q[1..]);
      }
    }
  }

  lemma HeadAndTail(q: seq<Frame>)
    requires q != []
    ensures multiset(q) == multiset{q[0]} + multiset(q[1..])
  {
    assert q == [q[0]] + q[1..];
  }

  lemma InsertAllStep(content: seq<Frame>, q: seq<Frame>, room: nat, held: bool)
    requires room > 0
    ensures InsertAll(content, q, room, held)
         == if q == [] then content else InsertAll(Insert(content, q[0]), q[1..], room - 1, held)
  {
    hide Insert;
  }

  lemma NoneInserted(content: seq<Frame>, room: nat, held: bool)
    ensures InsertAll(content, [], room, held) == content
  {
  }

  /** While slots are free no frame is lost. */
  lemma {:induction false} InsertAllKeeps(content: seq<Frame>, q: seq<Frame>, room: nat, held: bool)
    requires |q| <= room
    ensures multiset(InsertAll(content, q, room, held)) == multiset(content) + multiset(q)
    decreases |q|
  {
    hide *;
    if q == [] {
      NoneInserted(content, room, held);
    } else {
      InsertAllStep(content, q, room, held);
      InsertAddsOne(content, q[0]);
      InsertAllKeeps(Insert(content, q[0]), q[1..], room - 1, held);
      HeadAndTail(q);
    }
  }

  // ------------------------------------------------- chunks that belong together

  lemma Regroup(early: seq<Frame>, q: seq<Frame>)
    requires q != []
    ensures early + [q[0]] + q[1..] == early + q
  {
  }

  lemma OutcomeFree(early: seq<Frame>, q: seq<Frame>, late: seq<Frame>, room: nat, held: bool)
    requires q != [] && room > 0
    ensures Outcome(early + [q[0]], q[1..], late, room - 1, held) == Outcome(early, q, late, room, held)
  {
    if held && |q| > room {
      Regroup(early, q[..room]);
      assert q[..room][1..] == q[1..][..room - 1];
    } else {
      Regroup(early, q);
    }
  }

  lemma DropTwice(x: seq<Frame>, n: nat)
    requires 1 <= n <= |x|
    ensures x[1..][n - 1..] == x[n..]
  {
  }

  lemma OutcomeFull(early: seq<Frame>, q: seq<Frame>, late: seq<Frame>)
    requires q != []
    ensures early != [] ==>
      Outcome(early[1..] + [q[0]], q[1..], late, 0, false) == Outcome(early, q, late, 0, false)
    ensures early == [] && late != [] ==>
      Outcome([q[0]], q[1..], late[1..], 0, false) == Outcome(early, q, late, 0, false)
  {
    var all := early + q;
    DropTwice(all, |q|);
    if early != [] {
      Regroup(early[1..], q);
      assert early[1..] + q == all[1..];
      OutcomeOf(early[1..] + [q[0]], q[1..], late, all[1..]);
      OutcomeOf(early, q, late, all);
    } else if late != [] {
      Regroup([], q);
      assert [] + [q[0]] == [q[0]] && [] + q == q && all == q;
      OutcomeOf([q[0]], q[1..], late[1..], all);
      assert all[|q| - 1..] == [q[|q| - 1]];
    }
  }

  /** With no slot free and an older frame, the newest frames of the two stay. */
  lemma OutcomeOf(early: seq<Frame>, q: seq<Frame>, late: seq<Frame>, all: seq<Frame>)
    requires early != [] && all == early + q
    ensures Outcome(early, q, late, 0, false) == all[|q|..] + late
  {
    if q == [] { assert all[0..] == early && early + q == early; }
  }

  /** The frames before and after a chunk once it is placed. */
  function OlderNow(early: seq<Frame>, f: Frame, room: nat): seq<Frame> {
    if room > 0 || early == [] then early + [f] else early[1..] + [f]
  }

  function NewerNow(early: seq<Frame>, late: seq<Frame>, room: nat): seq<Frame> {
    if room == 0 && early == [] && late != [] then late[1..] else late
  }

  lemma OutcomeStep(early: seq<Frame>, q: seq<Frame>, late: seq<Frame>, room: nat, held: bool)
    requires q != []
    requires room > 0 || (!held && (early != [] || late != []))
    ensures Placed(early, q[0], late, room) == OlderNow(early, q[0], room) + NewerNow(early, late, room)
    ensures Outcome(OlderNow(early, q[0], room), q[1..], NewerNow(early, late, room), Less(room, 1), held)
         == Outcome(early, q, late, room, held)
  {
    hide Outcome;
    assert early == [] ==> early + [q[0]] == [q[0]];
    if room > 0 { OutcomeFree(early, q, late, room, held); } else { OutcomeFull(early, q, late); }
  }

  lemma OutcomeStuck(early: seq<Frame>, q: seq<Frame>, late: seq<Frame>, room: nat, held: bool)
    requires q == [] || (room == 0 && (held || (early == [] && late == [])))
    ensures Outcome(early, q, late, room, held) == early + late
  {
    if q != [] { assert early + q[..room] + late == early + late; } else { assert early + q + late == early + late; }
  }

  /** Contiguous chunks inserted between earlier and later frames. */
  lemma {:induction false} InsertAllOutcome(
    early: seq<Frame>, late: seq<Frame>, q: seq<Frame>, time: int, room: nat, held: bool)
    requires Contiguous(q, time) && forall i :: 0 <= i < |q| ==> q[i].samples > 0
    requires Before(early, time) && From(late, time + TotalSamples(q))
    ensures InsertAll(early + late, q, room, held) == Outcome(early, q, late, room, held)
    decreases |q|
  {
    hide Outcome, Placed, Insert;
    if q == [] || (room == 0 && (held || early + late == [])) {
      OutcomeStuck(early, q, late, room, held);
    } else {
      InsertPlaced(early, late, q[0], room);
      OutcomeStep(early, q, late, room, held);
      InsertAllOutcome(OlderNow(early, q[0], room), NewerNow(early, late, room), q[1..], time + q[0].samples,
                       Less(room, 1), held);
    }
  }

  /** Contiguous chunks ascend, from the start of their frame to its end. */
  lemma {:induction false} ContiguousTimes(q: seq<Frame>, time: int)
    requires Contiguous(q, time)
    ensures forall i :: 0 <= i < |q| ==> time <= q[i].time <= time + TotalSamples(q)
  {
    if q != [] { ContiguousTimes(q[1..], time + q[0].samples); }
  }

  /** Where every chunk ends up, for any number of free slots and any number of chunks. */
  lemma ChunksOutcome(b: Buffer, early: seq<Frame>, late: seq<Frame>, q: seq<Frame>, time: int, end: int)
    requires Inv(b) && Content(b) == early + late && Ascending(Content(b))
    requires Contiguous(q, time) && end == time + TotalSamples(q) && end - time < HALF
    requires forall i :: 0 <= i < |q| ==> q[i].samples > 0
    requires Before(early, time) && AllNear(early, end)
    requires From(late, end) && AllNear(late, time)
    ensures AllQueued(b, q) <==> |q| <= |b.free| || (b.held == {} && b.pool != [])
    ensures Content(QueueAll(b, q)) == Outcome(early, q, late, |b.free|, b.held != {})
  {
    hide Outcome, Partitioned, QueueAll, AllQueued, InsertAll, Contiguous;
    ContiguousTimes(q, time);
    BetweenWindowed(early, late, q, time, end);
    QueueRefines(b, q);
    InsertAllOutcome(early, late, q, time, |b.free|, b.held != {});
  }

  lemma BetweenWindowed(early: seq<Frame>, late: seq<Frame>, q: seq<Frame>, time: int, end: int)
    requires end - time < HALF && forall i :: 0 <= i < |q| ==> time <= q[i].time <= end
    requires Before(early, time) && AllNear(early, end)
    requires From(late, end) && AllNear(late, time)
    ensures Windowed(early + late, q)
  {
  }

  lemma {:induction false} ChunkCount(time: int, pcm: seq<int>, samples: nat, channels: nat)
    requires |pcm| == samples * channels
    ensures |Chunks(time, pcm, samples, channels)| == (samples + AAC_FRAMES_PER_PACKET - 1) / AAC_FRAMES_PER_PACKET
    decreases samples
  {
    if samples > AAC_FRAMES_PER_PACKET {
      var n := AAC_FRAMES_PER_PACKET;
      SplitLength(samples, n, channels);
      ChunkCount(time + n, pcm[n * channels..], samples - n, channels);
    } else if samples > 0 {
      SplitLength(samples, samples, channels);
      assert Chunks(time + samples, pcm[samples * channels..], 0, channels) == [];
    }
  }

  /**
   Any decoded frame within half a window of the queue, whether or not its span meets queued
   frames: its chunks are inserted in their places, in turn, and with a free slot for each of them
   nothing is lost.
   */
  lemma DecodedFrameQueued(b: Buffer, time: int, pcm: seq<int>, samples: nat, channels: nat)
    requires Inv(b) && Ascending(Content(b)) && samples < HALF
    requires |pcm| == samples * channels && 1 <= channels <= AUDIO_MAX_CHANNELS
    requires AllNear(Content(b), time) && AllNear(Content(b), time + samples)
    ensures var q := Chunks(time, pcm, samples, channels);
            var after := Content(QueueAll(b, q));
            && JoinPcm(q) == pcm && Ascending(after)
            && after == InsertAll(Content(b), q, |b.free|, b.held != {})
            && (AllQueued(b, q) <==> |q| <= |b.free| || (b.held == {} && b.pool != []))
            && (|q| <= |b.free| ==> multiset(after) == multiset(Content(b)) + multiset(q))
  {
    hide Chunks, Partitioned, QueueAll, AllQueued, InsertAll, Contiguous;
    var q := Chunks(time, pcm, samples, channels);
    ChunksTile(time, pcm, samples, channels);
    ContiguousTimes(q, time);
    assert Windowed(Content(b), q);
    QueueRefines(b, q);
    if |q| <= |b.free| { InsertAllKeeps(Content(b), q, |b.free|, b.held != {}); }
  }

  /** All of `q` is in the queue side by side, and at most older frames had to go. */
  ghost predicate Whole(content: seq<Frame>, early: seq<Frame>, q: seq<Frame>, late: seq<Frame>) {
    exists k :: 0 <= k <= |early| && content == early[k..] + q + late
  }

  /** The number of chunks that a buffer can take without losing part of their own frame. */
  function Capacity(b: Buffer, early: seq<Frame>): nat {
    |b.free| + if b.held == {} then |early| else 0
  }

  /**
   A decoded frame whose time span meets no queued frame. Its chunks concatenate to the frame,
   and they end up as neighbours, in order, with nothing newer lost, exactly when there is a
   slot for each of them: a free one or, with nothing held, that of an older frame.
   */
  lemma DecodedFrameStaysWhole(b: Buffer, early: seq<Frame>, late: seq<Frame>,
                               time: int, pcm: seq<int>, samples: nat, channels: nat)
    requires Inv(b) && Content(b) == early + late && Ascending(Content(b))
    requires |pcm| == samples * channels && 1 <= channels <= AUDIO_MAX_CHANNELS && samples < HALF
    requires Before(early, time) && AllNear(early, time + samples)
    requires From(late, time + samples) && AllNear(late, time)
    ensures var q := Chunks(time, pcm, samples, channels);
            var after := Content(QueueAll(b, q));
            && JoinPcm(q) == pcm
            && (AllQueued(b, q) <==> |q| <= |b.free| || (b.held == {} && b.pool != []))
            && after == Outcome(early, q, late, |b.free|, b.held != {})
            && (Whole(after, early, q, late) <==> |q| <= Capacity(b, early))
  {
    var q := Chunks(time, pcm, samples, channels);
    ChunksTile(time, pcm, samples, channels);
    ChunksOutcome(b, early, late, q, time, time + samples);
    WholeExactly(early, q, late, |b.free|, b.held != {}, time);
  }

  lemma WholeExactly(early: seq<Frame>, q: seq<Frame>, late: seq<Frame>, room: nat, held: bool, time: int)
    requires Before(early, time) && (q != [] ==> q[0].time == time)
    ensures Whole(Outcome(early, q, late, room, held), early, q, late)
       <==> |q| <= room + if held then 0 else |early|
  {
    var o := Outcome(early, q, late, room, held);
    if |q| <= room {
      assert o == early[0..] + q + late;
    } else if !held && |q| <= room + |early| {
      var k := |q| - room;
      assert (early + q)[k..] == early[k..] + q;
    } else if held {
      forall k | 0 <= k <= |early| ensures o != early[k..] + q + late {
        if k > 0 { assert (early[k..] + q + late)[|early| - k] == q[0] && o[|early| - k] == early[|early| - k]; }
      }
    }
  }

  /**
   The failing family: a full queue of later frames with nothing held. Every chunk pushes out
   the oldest frame, which from the second chunk on is the chunk before it: the call reports
   success, and of the whole frame only the last chunk is left.
   */
  lemma LateFrameLosesItself(b: Buffer, late: seq<Frame>, time: int, pcm: seq<int>, samples: nat, channels: nat)
    requires Inv(b) && Content(b) == late && late != [] && Ascending(late) && b.free == [] && b.held == {}
    requires |pcm| == samples * channels && 1 <= channels <= AUDIO_MAX_CHANNELS && 0 < samples < HALF
    requires From(late, time + samples) && AllNear(late, time)
    ensures var q := Chunks(time, pcm, samples, channels);
            q != [] && AllQueued(b, q) && Content(QueueAll(b, q)) == [q[|q| - 1]] + late[1..]
  {
    hide Chunks, Partitioned, Content, QueueAll, AllQueued, TotalSamples, Whole, JoinPcm;
    ChunkCount(time, pcm, samples, channels);
    assert [] + late == late;
    assert b.pool != [] by { PoolNotEmpty(b); }
    DecodedFrameStaysWhole(b, [], late, time, pcm, samples, channels);
  }

  /** While the consumer holds a slot, the chunks that found a free slot stay and the call fails. */
  lemma HeldSlotCutsFrame(b: Buffer, early: seq<Frame>, late: seq<Frame>,
                          time: int, pcm: seq<int>, samples: nat, channels: nat)
    requires Inv(b) && Content(b) == early + late && Ascending(Content(b)) && b.held != {}
    requires |pcm| == samples * channels && 1 <= channels <= AUDIO_MAX_CHANNELS && samples < HALF
    requires Before(early, time) && AllNear(early, time + samples)
    requires From(late, time + samples) && AllNear(late, time)
    requires samples > |b.free| * AAC_FRAMES_PER_PACKET
    ensures var q := Chunks(time, pcm, samples, channels);
            && |q| > |b.free| && !AllQueued(b, q)
            && Content(QueueAll(b, q)) == early + q[..|b.free|] + late
  {
    hide Chunks, Partitioned, Content, QueueAll, AllQueued, TotalSamples, Whole, JoinPcm;
    ChunkCount(time, pcm, samples, channels);
    DecodedFrameStaysWhole(b, early, late, time, pcm, samples, channels);
  }

  lemma PoolNotEmpty(b: Buffer)
    requires Partitioned(b) && Content(b) != []
    ensures b.pool != []
  {
  }

  lemma FilledExactly(b: Buffer)
    requires Partitioned(b)
    ensures |b.free| + |b.held| == |b.pool| - |Content(b)|
  {
  }

  lemma {:induction false} PoolSize(b: Buffer, q: seq<Frame>)
    requires Inv(b)
    ensures |QueueAll(b, q).pool| == |b.pool|
    decreases |q|
  {
    if q != [] && !Refuses(b) {
      SlotsAfter(b, q[0]);
      PoolSize(Give(Enqueue(b, q[0])), q[1..]);
    }
  }

  /** Packet number `k` of a mono stream that starts at `time`, as the decoder delivers it. */
  function Packet(time: int, pcm: seq<int>, k: nat): Frame
    requires (k + 1) * AAC_FRAMES_PER_PACKET <= |pcm|
  {
    var n := AAC_FRAMES_PER_PACKET;
    Frame(time + k * n, n, 1, pcm[k * n..(k + 1) * n])
  }

  function Packets(time: int, pcm: seq<int>, count: nat): (q: seq<Frame>)
    requires count * AAC_FRAMES_PER_PACKET <= |pcm|
    ensures |q| == count
    ensures forall k :: 0 <= k < count ==> q[k] == Packet(time, pcm, k)
  {
    seq(count, k requires 0 <= k < count => Packet(time, pcm, k))
  }

  /** A packet of 352 samples is a single chunk. */
  lemma PacketIsChunk(time: int, pcm: seq<int>, k: nat)
    requires (k + 1) * AAC_FRAMES_PER_PACKET <= |pcm|
    ensures var f := Packet(time, pcm, k);
            && f.time == time + k * AAC_FRAMES_PER_PACKET && f.samples == AAC_FRAMES_PER_PACKET
            && |f.pcm| == f.samples && Chunks(f.time, f.pcm, f.samples, 1) == [f]
  {
    var f := Packet(time, pcm, k);
    assert f.pcm[..f.samples] == f.pcm && f.pcm[f.samples..] == [];
    assert Chunks(f.time + f.samples, [], 0, 1) == [];
  }

  /** The buffer after `count` calls, each with one decoded packet. */
  ghost function AfterCalls(b: Buffer, time: int, pcm: seq<int>, count: nat): (r: Buffer)
    requires Inv(b) && count * AAC_FRAMES_PER_PACKET <= |pcm|
    ensures Inv(r) && r.held == b.held
  {
    if count == 0 then b
    else
      var f := Packet(time, pcm, count - 1);
      PacketIsChunk(time, pcm, count - 1);
      QueueAll(AfterCalls(b, time, pcm, count - 1), Chunks(f.time, f.pcm, f.samples, 1))
  }

  lemma PacketTimes(time: int, pcm: seq<int>, count: nat, earlier: nat)
    requires count * AAC_FRAMES_PER_PACKET <= |pcm| && |pcm| + AAC_FRAMES_PER_PACKET + earlier < HALF
    ensures var q := Packets(time, pcm, count);
            && Ascending(q) && From(q, time) && AllNear(q, time - earlier)
            && Before(q, time + count * AAC_FRAMES_PER_PACKET)
            && AllNear(q, time + (count + 1) * AAC_FRAMES_PER_PACKET)
  {
    var q := Packets(time, pcm, count);
    assert forall k :: 0 <= k < count ==> q[k].time == time + k * AAC_FRAMES_PER_PACKET;
  }

  /** Calls with one packet each fill an empty buffer, packet by packet. */
  lemma {:induction false} FilledByCalls(pool: seq<Frame>, time: int, pcm: seq<int>, count: nat)
    requires count <= |pool| && count * AAC_FRAMES_PER_PACKET <= |pcm| && |pcm| + AAC_FRAMES_PER_PACKET < HALF
    ensures Inv(Fresh(pool))
    ensures var r := AfterCalls(Fresh(pool), time, pcm, count);
            && Content(r) == Packets(time, pcm, count) && r.held == {}
            && |r.pool| == |pool| && |r.free| == |pool| - count
  {
    hide Chunks, Partitioned, QueueAll, AllQueued, TotalSamples, JoinPcm, Whole, Packet;
    FreshInv(pool);
    if count == 0 {
      assert Packets(time, pcm, 0) == [];
    } else {
      FilledByCalls(pool, time, pcm, count - 1);
      var b, early := AfterCalls(Fresh(pool), time, pcm, count - 1), Packets(time, pcm, count - 1);
      OneMoreCall(b, early, time, pcm, count - 1);
    }
    FilledExactly(AfterCalls(Fresh(pool), time, pcm, count));
  }

  lemma OneMoreCall(b: Buffer, early: seq<Frame>, time: int, pcm: seq<int>, k: nat)
    requires (k + 1) * AAC_FRAMES_PER_PACKET <= |pcm| && |pcm| + AAC_FRAMES_PER_PACKET < HALF
    requires Inv(b) && early == Packets(time, pcm, k) && Content(b) == early && |b.free| > 0
    ensures var f := Packet(time, pcm, k);
            && |f.pcm| == f.samples
            && AllQueued(b, Chunks(f.time, f.pcm, f.samples, 1))
            && Content(QueueAll(b, Chunks(f.time, f.pcm, f.samples, 1))) == Packets(time, pcm, k + 1)
            && |QueueAll(b, Chunks(f.time, f.pcm, f.samples, 1)).pool| == |b.pool|
  {
    hide Chunks, Partitioned, Content, QueueAll, AllQueued, TotalSamples, JoinPcm, Whole, Packet, Packets, Before, AllNear;
    var f := Packet(time, pcm, k);
    PacketIsChunk(time, pcm, k);
    PacketTimes(time, pcm, k, 0);
    PacketsGrow(time, pcm, k);
    NoneLate(f.time);
    NoneLate(f.time + f.samples);
    assert early + [] == early;
    DecodedFrameStaysWhole(b, early, [], f.time, f.pcm, f.samples, 1);
    PoolSize(b, [f]);
    assert early + [f] + [] == early + [f];
  }

  lemma NoneLate(time: int)
    ensures From([], time) && AllNear([], time)
  {
  }

  lemma PacketsGrow(time: int, pcm: seq<int>, k: nat)
    requires (k + 1) * AAC_FRAMES_PER_PACKET <= |pcm|
    ensures Packets(time, pcm, k + 1) == Packets(time, pcm, k) + [Packet(time, pcm, k)]
  {
  }

  /**
   A thousand calls with one packet each fill the buffer. The next call brings an earlier frame
   of two chunks: it reports success and keeps half of its frame.
   */
  lemma LateFrameHalved(pool: seq<Frame>, time: int, pcm: seq<int>, late: seq<int>)
    requires |pool| == MAX_RING_BUFFER_FRAMES
    requires |pcm| == MAX_RING_BUFFER_FRAMES * AAC_FRAMES_PER_PACKET
    requires |late| == 2 * AAC_FRAMES_PER_PACKET
    ensures Inv(Fresh(pool))
    ensures var p, q := Packets(time, pcm, |pool|), Chunks(time - |late|, late, |late|, 1);
            var full := AfterCalls(Fresh(pool), time, pcm, |pool|);
            && Content(full) == p && |q| == 2 && AllQueued(full, q)
            && Content(QueueAll(full, q)) == [q[1]] + p[1..]
  {
    hide Chunks, QueueAll, AllQueued, Inv, Partitioned, AfterCalls, Packet;
    FilledByCalls(pool, time, pcm, |pool|);
    PacketTimes(time, pcm, |pool|, |late|);
    ChunkCount(time - |late|, late, |late|, 1);
    var full := AfterCalls(Fresh(pool), time, pcm, |pool|);
    LateFrameLosesItself(full, Packets(time, pcm, |pool|), time - |late|, late, |late|, 1);
  }

  /** The consumer takes a frame: a token and the head of the queue. */
  ghost function Taken(b: Buffer): (r: Buffer)
    requires Inv(b)
    ensures Inv(r)
  {
    AcquireInv(b);
    RemoveInv(Acquire(b));
    Remove(Acquire(b))
  }

  lemma TakenFacts(b: Buffer)
    requires Inv(b) && Content(b) != []
    ensures var r := Taken(b);
            && Content(r) == Content(b)[1..] && r.free == b.free && |r.pool| == |b.pool|
            && b.sorted != [] && b.sorted[0] !in b.held && r.held == b.held + {b.sorted[0]}
  {
    AcquireInv(b);
    RemoveInv(Acquire(b));
  }

  /** Two frames are taken and the first one is returned: one slot is free and one is held. */
  lemma OneFreeOneHeld(b: Buffer) returns (slot: nat, r: Buffer)
    requires Inv(b) && |Content(b)| >= 2 && b.free == [] && b.held == {}
    ensures slot in Taken(Taken(b)).held && r == GiveBack(Taken(Taken(b)), slot)
    ensures Inv(r) && Content(r) == Content(b)[2..] && |r.free| == 1 && r.held != {}
  {
    hide Partitioned, Frames, TotalSamples;
    TakenFacts(b);
    TakenFacts(Taken(b));
    slot := b.sorted[0];
    r := GiveBack(Taken(Taken(b)), slot);
    GiveBackInv(Taken(Taken(b)), slot);
    assert Taken(b).sorted[0] in r.held;
    assert Content(b)[1..][1..] == Content(b)[2..];
  }

  /**
   A thousand calls fill the buffer, the consumer takes two frames and returns the first. The next
   call brings a frame of two chunks behind the others: it fails, and the first chunk stays queued.
   */
  lemma HeldSlotHalvesFrame(pool: seq<Frame>, time: int, pcm: seq<int>, next: seq<int>)
    returns (slot: nat, b: Buffer)
    requires |pool| == MAX_RING_BUFFER_FRAMES
    requires |pcm| == MAX_RING_BUFFER_FRAMES * AAC_FRAMES_PER_PACKET
    requires |next| == 2 * AAC_FRAMES_PER_PACKET
    ensures Inv(Fresh(pool))
    ensures var full := AfterCalls(Fresh(pool), time, pcm, |pool|);
            slot in Taken(Taken(full)).held && b == GiveBack(Taken(Taken(full)), slot) && Inv(b)
    ensures var p, q := Packets(time, pcm, |pool|), Chunks(time + |pcm|, next, |next|, 1);
            |q| == 2 && !AllQueued(b, q) && Content(QueueAll(b, q)) == p[2..] + [q[0]]
  {
    hide Chunks, QueueAll, AllQueued, Inv, Partitioned, AfterCalls, Packet, Taken;
    FilledByCalls(pool, time, pcm, |pool|);
    var full, p := AfterCalls(Fresh(pool), time, pcm, |pool|), Packets(time, pcm, |pool|);
    slot, b := OneFreeOneHeld(full);
    PacketTimes(time, pcm, |pool|, 0);
    NearEnd(time, pcm, |pool|, |next|);
    ChunkCount(time + |pcm|, next, |next|, 1);
    assert p[2..] + [] == p[2..];
    HeldSlotCutsFrame(b, p[2..], [], time + |pcm|, next, |next|, 1);
    var q := Chunks(time + |pcm|, next, |next|, 1);
    assert q[..1] == [q[0]] && p[2..] + q[..1] + [] == p[2..] + [q[0]];
  }

  lemma NearEnd(time: int, pcm: seq<int>, count: nat, later: nat)
    requires count * AAC_FRAMES_PER_PACKET == |pcm| && |pcm| + later < HALF
    ensures AllNear(Packets(time, pcm, count), time + |pcm| + later)
  {
    var q := Packets(time, pcm, count);
    assert forall k :: 0 <= k < count ==> q[k].time == time + k * AAC_FRAMES_PER_PACKET;
  }
}
