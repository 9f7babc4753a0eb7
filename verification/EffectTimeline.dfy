/**
 The buffer of light-effect frames received from a group leader (main/effect_sync.c): at most
 eight frames in serial-number order, pushed in any order and sampled at presentation time.
 */
module EffectTimeline {
  import opened Prelude
  import opened Serial32

  const CAPACITY := 8
  const TIMEOUT_MS := 500
  const UTC_VALID_AFTER := 1_700_000_000_000

  /** `number` is the unwrapped sequence number, of which the code sees `Wire`. */
  datatype Frame = Frame(number: int, monoMs: nat, presentAtMs: nat, leadMs: nat,
                         level: real, bass: real, treble: real, receivedMs: nat)

  predicate Unit(x: real) {
    0.0 <= x <= 1.0
  }

  predicate Sound(f: Frame) {
    Unit(f.level) && Unit(f.bass) && Unit(f.treble)
  }

  /** The frames buffered and the last frame rendered since joining. */
  datatype Timeline = Timeline(frames: seq<Frame>, hasRendered: bool, last: int)

  const EMPTY := Timeline([], false, 0)

  /** seq_after of the code. */
  predicate SeqAfter(a: int, b: int) {
    Diff32(Wire(a), Wire(b)) > 0
  }

  lemma SeqAfterExact(a: int, b: int)
    requires Near(a, b)
    ensures SeqAfter(a, b) <==> a > b
    ensures Wire(a) == Wire(b) <==> a == b
  {
    DiffExact(a, b);
  }

  // ------------------------------------------------------------------------ pushing

  /** Index of the first buffered frame, from `at` on, that the new number does not follow. */
  function Slot(frames: seq<Frame>, number: int, at: nat): (r: nat)
    requires at <= |frames|
    ensures at <= r <= |frames|
    decreases |frames| - at
  {
    if at < |frames| && SeqAfter(number, frames[at].number) then Slot(frames, number, at + 1) else at
  }

  predicate Refused(t: Timeline, f: Frame) {
    || !Sound(f)
    || (t.hasRendered && !SeqAfter(f.number, t.last))
    || (var at := Slot(t.frames, f.number, 0);
        || (at < |t.frames| && Wire(t.frames[at].number) == Wire(f.number))
        || (|t.frames| == CAPACITY && at == 0))
  }

  function Push(t: Timeline, f: Frame): Timeline {
    if Refused(t, f) then t
    else
      var at := Slot(t.frames, f.number, 0);
      if |t.frames| == CAPACITY
      then t.(frames := Spliced(t.frames[1..], at - 1, f))
      else t.(frames := Spliced(t.frames, at, f))
  }

  ghost predicate Ascending(frames: seq<Frame>) {
    forall i, j :: 0 <= i < j < |frames| ==> frames[i].number < frames[j].number
  }

  /** In order, within capacity, sound, and nothing older than what has been rendered. */
  ghost predicate Ordered(t: Timeline) {
    && |t.frames| <= CAPACITY && Ascending(t.frames)
    && (forall i :: 0 <= i < |t.frames| ==> Sound(t.frames[i]))
    && (t.hasRendered ==> forall i :: 0 <= i < |t.frames| ==> t.last <= t.frames[i].number)
  }

  /** The half-window assumption for one arrival. */
  ghost predicate Windowed(t: Timeline, f: Frame) {
    && (forall i :: 0 <= i < |t.frames| ==> Near(t.frames[i].number, f.number))
    && (t.hasRendered ==> Near(t.last, f.number))
  }

  lemma {:induction false} SlotSplits(frames: seq<Frame>, number: int, at: nat)
    requires at <= |frames| && Ascending(frames)
    requires forall i :: 0 <= i < |frames| ==> Near(frames[i].number, number)
    requires forall i :: 0 <= i < at ==> frames[i].number < number
    ensures var r := Slot(frames, number, at);
            && (forall i :: 0 <= i < r ==> frames[i].number < number)
            && (forall i :: r <= i < |frames| ==> frames[i].number >= number)
    decreases |frames| - at
  {
    if at < |frames| {
      SeqAfterExact(number, frames[at].number);
      if number > frames[at].number { SlotSplits(frames, number, at + 1); }
    }
  }

  /** When the code refuses an arrival, in terms of true sequence numbers. */
  lemma RefusedExactly(t: Timeline, f: Frame)
    requires Ordered(t) && Windowed(t, f)
    ensures Refused(t, f) <==>
      || !(0.0 <= f.level <= 1.0 && 0.0 <= f.bass <= 1.0 && 0.0 <= f.treble <= 1.0)
      || (t.hasRendered && f.number <= t.last)
      || (exists i :: 0 <= i < |t.frames| && t.frames[i].number == f.number)
      || (|t.frames| == CAPACITY && f.number < t.frames[0].number)
  {
    if t.hasRendered { SeqAfterExact(f.number, t.last); }
    SlotSplits(t.frames, f.number, 0);
    var at := Slot(t.frames, f.number, 0);
    if at < |t.frames| { SeqAfterExact(t.frames[at].number, f.number); }
  }

  lemma PushOrdered(t: Timeline, f: Frame)
    requires Ordered(t) && Windowed(t, f)
    ensures Ordered(Push(t, f))
  {
    hide Slot, Diff32, Wire;
    if !Refused(t, f) {
      if t.hasRendered { SeqAfterExact(f.number, t.last); }
      SlotSplits(t.frames, f.number, 0);
      var at := Slot(t.frames, f.number, 0);
      if at < |t.frames| { SeqAfterExact(t.frames[at].number, f.number); }
      if |t.frames| == CAPACITY {
        SpliceOrdered(t.(frames := t.frames[1..]), at - 1, f);
      } else {
        SpliceOrdered(t, at, f);
      }
    }
  }

  lemma SpliceOrdered(t: Timeline, at: nat, f: Frame)
    requires Ordered(t) && Sound(f) && |t.frames| < CAPACITY && at <= |t.frames|
    requires t.hasRendered ==> t.last < f.number
    requires forall i :: 0 <= i < at ==> t.frames[i].number < f.number
    requires forall i :: at <= i < |t.frames| ==> t.frames[i].number > f.number
    ensures Ordered(t.(frames := Spliced(t.frames, at, f)))
  {
    var r := Spliced(t.frames, at, f);
    assert forall i :: 0 <= i < |r| ==>
      r[i] == if i < at then t.frames[i] else if i == at then f else t.frames[i - 1];
  }

  // --------------------------------------------- pushes alone keep the eight largest

  ghost predicate Increasing(q: seq<int>) {
    forall i, j :: 0 <= i < j < |q| ==> q[i] < q[j]
  }

  /** `q` lists, in order, the largest numbers of `s`, up to the capacity. */
  ghost predicate IsTop(s: set<int>, q: seq<int>) {
    && Increasing(q)
    && (forall i :: 0 <= i < |q| ==> q[i] in s)
    && |q| == (if |s| < CAPACITY then |s| else CAPACITY)
    && (forall x :: x in s && x !in q ==> forall i :: 0 <= i < |q| ==> x < q[i])
  }

  lemma {:induction false} IncreasingSize(q: seq<int>)
    requires Increasing(q)
    ensures |set x | x in q| == |q|
  {
    if q != [] {
      var rest := q[..|q| - 1];
      IncreasingSize(rest);
      var last := q[|q| - 1];
      assert q == rest + [last];
      assert last !in rest;
      assert (set x | x in q) == (set x | x in rest) + {last};
    }
  }

  /** Below capacity the list holds every number. */
  lemma TopIsAll(s: set<int>, q: seq<int>)
    requires IsTop(s, q) && |s| <= CAPACITY
    ensures forall x :: x in s ==> x in q
  {
    IncreasingSize(q);
    var listed := set x | x in q;
    assert listed <= s;
    forall x | x in s ensures x in q {
      if x !in listed { SmallerSubset(listed, s, x); }
    }
  }

  lemma SmallerSubset(a: set<int>, b: set<int>, x: int)
    requires a <= b && x in b && x !in a
    ensures |a| < |b|
  {
    assert b == a + (b - a) && x in b - a;
    assert |b| == |a| + |b - a|;
  }

  function Numbers(frames: seq<Frame>): (q: seq<int>)
    ensures |q| == |frames| && forall i :: 0 <= i < |q| ==> q[i] == frames[i].number
  {
    seq(|frames|, i requires 0 <= i < |frames| => frames[i].number)
  }

  /** The state after pushing frames one by one. */
  function PushAll(t: Timeline, fs: seq<Frame>): Timeline {
    if fs == [] then t else Push(PushAll(t, fs[..|fs| - 1]), fs[|fs| - 1])
  }

  ghost predicate AllWindowed(t: Timeline, fs: seq<Frame>) {
    fs != [] ==>
      && AllWindowed(t, fs[..|fs| - 1])
      && Windowed(PushAll(t, fs[..|fs| - 1]), fs[|fs| - 1])
  }

  function Pushed(fs: seq<Frame>): set<int> {
    set i | 0 <= i < |fs| && Sound(fs[i]) :: fs[i].number
  }

  /** A number already listed, or too small for a full list, changes nothing. */
  lemma TopUnchanged(s: set<int>, q: seq<int>, n: int)
    requires IsTop(s, q) && (n in q || (|q| == CAPACITY && n < q[0]))
    ensures IsTop(s + {n}, q)
  {
    if n in q {
      assert n in s;
      assert s + {n} == s;
    } else {
      assert |s| >= CAPACITY;
      assert forall i :: 0 <= i < |q| ==> n < q[i];
      assert |s + {n}| >= |s| by { if n in s { assert s + {n} == s; } }
    }
  }

  /** A new number joins a list that is not full. */
  lemma TopGrows(s: set<int>, q: seq<int>, n: int, r: seq<int>)
    requires IsTop(s, q) && |q| < CAPACITY && n !in q
    requires Increasing(r) && |r| == |q| + 1 && forall x :: x in r <==> x in q || x == n
    ensures IsTop(s + {n}, r)
  {
    TopIsAll(s, q);
    assert n !in s;
    assert |s + {n}| == |s| + 1;
    forall i | 0 <= i < |r| ensures r[i] in s + {n} { assert r[i] in r; }
  }

  /** A new number displaces the smallest of a full list. */
  lemma TopDisplaces(s: set<int>, q: seq<int>, n: int, r: seq<int>)
    requires IsTop(s, q) && |q| == CAPACITY && n !in q && q[0] < n
    requires Increasing(r) && |r| == CAPACITY && forall x :: x in r <==> (x in q && x != q[0]) || x == n
    ensures IsTop(s + {n}, r)
  {
    assert n !in s;
    assert |s + {n}| == |s| + 1;
    forall i | 0 <= i < |r| ensures r[i] in s + {n} && q[0] < r[i] {
      assert r[i] in r;
      if r[i] != n { var k :| 0 <= k < |q| && q[k] == r[i]; }
    }
    forall x | x in s + {n} && x !in r ensures forall i :: 0 <= i < |r| ==> x < r[i] {
      assert x == q[0] || x !in q;
      if x !in q { assert x < q[0]; }
    }
  }

  /** Membership after an arrival is spliced in. */
  lemma SplicedNumbers(s: seq<Frame>, at: nat, f: Frame, x: int)
    requires at <= |s|
    ensures x in Numbers(Spliced(s, at, f)) <==> x in Numbers(s) || x == f.number
  {
    var r, q := Numbers(Spliced(s, at, f)), Numbers(s);
    if x in q {
      var i :| 0 <= i < |q| && q[i] == x;
      assert r[if i < at then i else i + 1] == x;
    }
    if x == f.number { assert r[at] == x; }
    if x in r {
      var i :| 0 <= i < |r| && r[i] == x;
      if i < at { assert q[i] == x; }
      if i > at { assert q[i - 1] == x; }
    }
  }

  lemma PushTop(t: Timeline, s: set<int>, f: Frame)
    requires Ordered(t) && !t.hasRendered && Windowed(t, f) && Sound(f)
    requires IsTop(s, Numbers(t.frames))
    ensures IsTop(s + {f.number}, Numbers(Push(t, f).frames))
  {
    var q, n, r := Numbers(t.frames), f.number, Numbers(Push(t, f).frames);
    RefusedExactly(t, f);
    PushOrdered(t, f);
    assert Increasing(r);
    if Refused(t, f) {
      if i :| 0 <= i < |t.frames| && t.frames[i].number == n { assert q[i] == n; }
      TopUnchanged(s, q, n);
    } else {
      forall i | 0 <= i < |q| ensures q[i] != n { assert t.frames[i].number != n; }
      var at := Slot(t.frames, n, 0);
      if |t.frames| < CAPACITY {
        forall x ensures x in r <==> x in q || x == n { SplicedNumbers(t.frames, at, f, x); }
        TopGrows(s, q, n, r);
      } else {
        forall x ensures x in r <==> (x in q && x != q[0]) || x == n {
          SplicedNumbers(t.frames[1..], at - 1, f, x);
          TailNumbers(t.frames, x);
        }
        TopDisplaces(s, q, n, r);
      }
    }
  }

  lemma TailNumbers(frames: seq<Frame>, x: int)
    requires frames != [] && Ascending(frames)
    ensures x in Numbers(frames[1..]) <==> x in Numbers(frames) && x != frames[0].number
  {
    var q, r := Numbers(frames), Numbers(frames[1..]);
    if x in q && x != q[0] {
      var i :| 0 <= i < |q| && q[i] == x;
      assert r[i - 1] == x;
    }
    if x in r {
      var i :| 0 <= i < |r| && r[i] == x;
      assert q[i + 1] == x;
    }
  }

  lemma NothingPushed()
    ensures Ordered(EMPTY) && !EMPTY.hasRendered && Pushed([]) == {} && IsTop({}, Numbers(EMPTY.frames)) && EMPTY.frames == []
  {
    assert Pushed([]) == {};
  }

  lemma TopSize(s: set<int>, frames: seq<Frame>)
    requires IsTop(s, Numbers(frames))
    ensures |frames| == if |s| < 8 then |s| else 8
  {
  }

  lemma PushedLast(rest: seq<Frame>, f: Frame)
    ensures Pushed(rest + [f]) == Pushed(rest) + if Sound(f) then {f.number} else {}
  {
    hide Sound;
    var fs := rest + [f];
    assert fs[|rest|] == f && forall i :: 0 <= i < |rest| ==> fs[i] == rest[i];
    forall x | x in Pushed(rest) ensures x in Pushed(fs) {
      var i :| 0 <= i < |rest| && Sound(rest[i]) && rest[i].number == x;
      assert Sound(fs[i]) && fs[i].number == x;
    }
    if Sound(f) { assert Sound(fs[|rest|]) && fs[|rest|].number == f.number; }
  }

  /** One more push, sound or not. */
  lemma PushKeepsTop(t: Timeline, s: set<int>, f: Frame)
    requires Ordered(t) && !t.hasRendered && Windowed(t, f) && IsTop(s, Numbers(t.frames))
    ensures Ordered(Push(t, f)) && !Push(t, f).hasRendered
    ensures IsTop(s + if Sound(f) then {f.number} else {}, Numbers(Push(t, f).frames))
  {
    hide IsTop, Numbers, Slot, Windowed;
    PushOrdered(t, f);
    if Sound(f) { PushTop(t, s, f); } else { assert s + {} == s; }
  }

  /** Any run of pushes, in any order and with repetitions, leaves the eight largest numbers. */
  lemma {:induction false} EightLargest(fs: seq<Frame>)
    requires AllWindowed(EMPTY, fs)
    ensures Ordered(PushAll(EMPTY, fs)) && !PushAll(EMPTY, fs).hasRendered
    ensures IsTop(Pushed(fs), Numbers(PushAll(EMPTY, fs).frames))
    ensures |PushAll(EMPTY, fs).frames| == if |Pushed(fs)| < 8 then |Pushed(fs)| else 8
  {
    hide Push, Sound, IsTop, Numbers, Ordered, Windowed, Pushed;
    if fs == [] {
      NothingPushed();
    } else {
      var rest, f := fs[..|fs| - 1], fs[|fs| - 1];
      EightLargest(rest);
      PushKeepsTop(PushAll(EMPTY, rest), Pushed(rest), f);
      assert fs == rest + [f];
      PushedLast(rest, f);
      TopSize(Pushed(fs), PushAll(EMPTY, fs).frames);
    }
  }

  /** A repeated number is never taken again, not even after it has been displaced. */
  lemma RepeatRefused(fs: seq<Frame>, f: Frame)
    requires AllWindowed(EMPTY, fs) && Windowed(PushAll(EMPTY, fs), f) && f.number in Pushed(fs)
    ensures Refused(PushAll(EMPTY, fs), f)
  {
    EightLargest(fs);
    var t, s := PushAll(EMPTY, fs), Pushed(fs);
    var q := Numbers(t.frames);
    RefusedExactly(t, f);
    if f.number in q {
      var i :| 0 <= i < |q| && q[i] == f.number;
      assert t.frames[i].number == f.number;
    } else if |s| <= CAPACITY {
      TopIsAll(s, q);
    } else {
      assert f.number < q[0];
    }
  }

  /** Every frame of the new list is the arrival or was there before. */
  lemma PushMember(t: Timeline, f: Frame, i: nat) returns (p: nat)
    requires !Refused(t, f) && i < |Push(t, f).frames|
    ensures Push(t, f).frames[i] == f || (p < |t.frames| && t.frames[p] == Push(t, f).frames[i])
  {
    hide Slot, Sound, SeqAfter, Wire;
    p := 0;
    var at := Slot(t.frames, f.number, 0);
    if |t.frames| == CAPACITY {
      SpliceAt(t.frames[1..], at - 1, f);
      p := if i < at - 1 then i + 1 else i;
    } else {
      SpliceAt(t.frames, at, f);
      if i != at { p := if i < at then i else i - 1; }
    }
  }

  /** Each buffered frame is the first one that arrived with its number. */
  lemma {:induction false} FirstArrival(fs: seq<Frame>, i: nat) returns (k: nat)
    requires AllWindowed(EMPTY, fs) && i < |PushAll(EMPTY, fs).frames|
    ensures k < |fs| && fs[k] == PushAll(EMPTY, fs).frames[i] && Sound(fs[k])
    ensures forall j :: 0 <= j < k && Sound(fs[j]) ==> fs[j].number != fs[k].number
  {
    hide Refused, Windowed;
    var n := |fs| - 1;
    var rest, f := fs[..n], fs[n];
    var t := PushAll(EMPTY, rest);
    assert forall j :: 0 <= j < n ==> rest[j] == fs[j];
    if Refused(t, f) {
      k := FirstArrival(rest, i);
    } else {
      var p := PushMember(t, f, i);
      if Push(t, f).frames[i] == f {
        k := n;
        NotRefusedSound(t, f);
        forall j | 0 <= j < n && Sound(fs[j]) ensures fs[j].number != f.number {
          assert rest[j].number in Pushed(rest);
          if f.number in Pushed(rest) { RepeatRefused(rest, f); }
        }
      } else {
        k := FirstArrival(rest, p);
      }
    }
  }

  lemma NotRefusedSound(t: Timeline, f: Frame)
    requires !Refused(t, f)
    ensures Sound(f)
  {
  }

  // ----------------------------------------------------------------------- sampling

  /** A 64-bit unsigned time read as signed. */
  function Signed64(x: nat): (r: int)
    ensures -0x8000_0000_0000_0000 <= r < 0x8000_0000_0000_0000
    ensures (x - r) % 0x1_0000_0000_0000_0000 == 0
    ensures x < 0x8000_0000_0000_0000 ==> r == x
  {
    var y := x % 0x1_0000_0000_0000_0000;
    if y < 0x8000_0000_0000_0000 then y else y - 0x1_0000_0000_0000_0000
  }

  /** When a frame is due: its presentation time, or its arrival plus its lead. */
  function DueAt(f: Frame, utc: bool): int {
    if utc then Signed64(f.presentAtMs) else f.receivedMs + f.leadMs
  }

  predicate UsesUtc(t: Timeline, utcNow: nat)
    requires t.frames != []
  {
    utcNow > UTC_VALID_AFTER && t.frames[0].presentAtMs != 0
  }

  function Target(t: Timeline, now: nat, utcNow: nat, offset: int): int
    requires t.frames != []
  {
    (if UsesUtc(t, utcNow) then Signed64(utcNow) else now) - offset
  }

  /** Nothing is shown without frames, after a silence of half a second, or before the first frame is due. */
  predicate Dark(t: Timeline, now: nat, utcNow: nat, offset: int) {
    || t.frames == []
    || (now - t.frames[|t.frames| - 1].receivedMs) % MODULUS > TIMEOUT_MS
    || Target(t, now, utcNow, offset) < DueAt(t.frames[0], UsesUtc(t, utcNow))
  }

  lemma NotDark(t: Timeline, now: nat, utcNow: nat, offset: int)
    requires !Dark(t, now, utcNow, offset)
    ensures t.frames != []
  {
  }

  /** The scan for the frame being shown. */
  function Showing(frames: seq<Frame>, utc: bool, target: int, at: nat): (r: nat)
    requires at < |frames|
    ensures at <= r < |frames|
    ensures r + 1 < |frames| ==> DueAt(frames[r + 1], utc) > target
    ensures forall k :: at < k <= r ==> DueAt(frames[k], utc) <= target
    decreases |frames| - at
  {
    if at + 1 < |frames| && DueAt(frames[at + 1], utc) <= target
    then Showing(frames, utc, target, at + 1) else at
  }

  function Lerp(a: real, b: real, mix: real): real {
    a + (b - a) * mix
  }

  lemma LerpUnit(a: real, b: real, mix: real)
    requires Unit(a) && Unit(b) && Unit(mix)
    ensures Unit(Lerp(a, b, mix))
  {
    assert Lerp(a, b, mix) == a * (1.0 - mix) + b * mix;
    assert 0.0 <= a * (1.0 - mix) <= 1.0 - mix;
    assert 0.0 <= b * mix <= mix;
  }

  /** The frame between `f` and `g` at `target`. */
  function Between(f: Frame, g: Frame, start: int, end: int, target: int): Frame
    requires end > start
  {
    var mix := (target - start) as real / (end - start) as real;
    f.(level := Lerp(f.level, g.level, mix), bass := Lerp(f.bass, g.bass, mix),
       treble := Lerp(f.treble, g.treble, mix))
  }

  /** Blending starts at the one frame and would end at the other. */
  lemma BetweenEndpoints(f: Frame, g: Frame, start: int, end: int)
    requires end > start
    ensures Between(f, g, start, end, start) == f
    ensures Between(f, g, start, end, end) == f.(level := g.level, bass := g.bass, treble := g.treble)
  {
    var span := (end - start) as real;
    assert 0.0 / span == 0.0 && span / span == 1.0;
  }

  /** What is shown: the current frame, blended towards the next one. */
  function Shown(t: Timeline, now: nat, utcNow: nat, offset: int): Frame
    requires !Dark(t, now, utcNow, offset)
  {
    var utc, target := UsesUtc(t, utcNow), Target(t, now, utcNow, offset);
    var r := Showing(t.frames, utc, target, 0);
    if r + 1 < |t.frames| && DueAt(t.frames[r + 1], utc) > DueAt(t.frames[r], utc)
    then Between(t.frames[r], t.frames[r + 1], DueAt(t.frames[r], utc), DueAt(t.frames[r + 1], utc), target)
    else t.frames[r]
  }

  function Sampled(t: Timeline, now: nat, utcNow: nat, offset: int): Timeline {
    if Dark(t, now, utcNow, offset) then t
    else
      var r := Showing(t.frames, UsesUtc(t, utcNow), Target(t, now, utcNow, offset), 0);
      Timeline(t.frames[r..], true, t.frames[r].number)
  }

  /** Whenever a next frame exists the target lies between the two, and what is shown is sound. */
  lemma ShownSound(t: Timeline, now: nat, utcNow: nat, offset: int)
    requires Ordered(t) && !Dark(t, now, utcNow, offset)
    ensures Sound(Shown(t, now, utcNow, offset))
    ensures var out := Shown(t, now, utcNow, offset);
            0.0 <= out.level <= 1.0 && 0.0 <= out.bass <= 1.0 && 0.0 <= out.treble <= 1.0
    ensures var utc, target := UsesUtc(t, utcNow), Target(t, now, utcNow, offset);
            var r := Showing(t.frames, utc, target, 0);
            r + 1 < |t.frames| ==> DueAt(t.frames[r], utc) <= target < DueAt(t.frames[r + 1], utc)
  {
    hide Between, DueAt, UsesUtc;
    var utc, target := UsesUtc(t, utcNow), Target(t, now, utcNow, offset);
    var r := Showing(t.frames, utc, target, 0);
    if r + 1 < |t.frames| {
      BetweenSound(t.frames[r], t.frames[r + 1], DueAt(t.frames[r], utc), DueAt(t.frames[r + 1], utc), target);
    }
  }

  lemma BetweenSound(f: Frame, g: Frame, start: int, end: int, target: int)
    requires Sound(f) && Sound(g) && start <= target < end
    ensures Sound(Between(f, g, start, end, target))
  {
    hide Lerp;
    FractionUnit(target - start, end - start);
    var mix := (target - start) as real / (end - start) as real;
    LerpUnit(f.level, g.level, mix);
    LerpUnit(f.bass, g.bass, mix);
    LerpUnit(f.treble, g.treble, mix);
  }

  lemma FractionUnit(a: int, b: int)
    requires 0 <= a < b
    ensures Unit(a as real / b as real)
  {
    var m := a as real / b as real;
    assert m * b as real == a as real;
  }

  /**
   Sampling by arrival times, when there is no valid UTC or the oldest frame carries no presentation
   time. Something is shown exactly when a frame is buffered, the newest arrived at most half a
   second ago, and the oldest frame's arrival, lead and calibration have passed. The frame shown
   is then the last one reached through frames whose times have passed.
   */
  lemma ShownByArrival(t: Timeline, now: nat, utcNow: nat, offset: int)
    requires t.frames != [] ==> utcNow <= 1_700_000_000_000 || t.frames[0].presentAtMs == 0
    ensures !Dark(t, now, utcNow, offset) <==>
      && |t.frames| > 0 && (now - t.frames[|t.frames| - 1].receivedMs) % 0x1_0000_0000 <= 500
      && t.frames[0].receivedMs + t.frames[0].leadMs + offset <= now
    ensures !Dark(t, now, utcNow, offset) ==>
      var u := Sampled(t, now, utcNow, offset);
      var r := |t.frames| - |u.frames|;
      && 0 <= r < |t.frames| && u == Timeline(t.frames[r..], true, t.frames[r].number)
      && (forall k :: 0 < k <= r ==> t.frames[k].receivedMs + t.frames[k].leadMs + offset <= now)
      && (r + 1 < |t.frames| ==> t.frames[r + 1].receivedMs + t.frames[r + 1].leadMs + offset > now)
  {
  }

  /** Sampling by presentation times, once UTC is valid and the oldest frame carries one. */
  lemma ShownByUtc(t: Timeline, now: nat, utcNow: nat, offset: int)
    requires t.frames != [] && utcNow > 1_700_000_000_000 && t.frames[0].presentAtMs != 0
    ensures !Dark(t, now, utcNow, offset) <==>
      && (now - t.frames[|t.frames| - 1].receivedMs) % 0x1_0000_0000 <= 500
      && Signed64(t.frames[0].presentAtMs) + offset <= Signed64(utcNow)
    ensures !Dark(t, now, utcNow, offset) ==>
      var u := Sampled(t, now, utcNow, offset);
      var r := |t.frames| - |u.frames|;
      && 0 <= r < |t.frames| && u == Timeline(t.frames[r..], true, t.frames[r].number)
      && (forall k :: 0 < k <= r ==> Signed64(t.frames[k].presentAtMs) + offset <= Signed64(utcNow))
      && (r + 1 < |t.frames| ==> Signed64(t.frames[r + 1].presentAtMs) + offset > Signed64(utcNow))
  {
  }

  /** `out` is `f` with its values moved towards those of `g`, as `passed` is of `span`. */
  ghost predicate Moved(out: Frame, f: Frame, g: Frame, passed: int, span: int) {
    && out == f.(level := out.level, bass := out.bass, treble := out.treble)
    && (out.level - f.level) * span as real == (g.level - f.level) * passed as real
    && (out.bass - f.bass) * span as real == (g.bass - f.bass) * passed as real
    && (out.treble - f.treble) * span as real == (g.treble - f.treble) * passed as real
  }

  lemma BetweenMoves(f: Frame, g: Frame, start: int, end: int, target: int)
    requires end > start
    ensures Moved(Between(f, g, start, end, target), f, g, target - start, end - start)
  {
    var span, passed := (end - start) as real, (target - start) as real;
    var mix := passed / span;
    assert mix * span == passed;
    LerpProportional(f.level, g.level, mix, span, passed);
    LerpProportional(f.bass, g.bass, mix, span, passed);
    LerpProportional(f.treble, g.treble, mix, span, passed);
  }

  /**
   What is shown: the frame itself if no frame follows it, and otherwise its values moved towards
   those of the next frame in proportion to the time that has passed between the two.
   */
  lemma ShownProportionally(t: Timeline, now: nat, utcNow: nat, offset: int)
    requires Ordered(t) && !Dark(t, now, utcNow, offset)
    ensures var out, u := Shown(t, now, utcNow, offset), Sampled(t, now, utcNow, offset);
            && u.frames != []
            && (|u.frames| == 1 ==> out == u.frames[0])
            && (|u.frames| > 1 ==>
                  var utc := utcNow > 1_700_000_000_000 && t.frames[0].presentAtMs != 0;
                  var f, g := u.frames[0], u.frames[1];
                  var start := if utc then Signed64(f.presentAtMs) else f.receivedMs + f.leadMs;
                  var end := if utc then Signed64(g.presentAtMs) else g.receivedMs + g.leadMs;
                  var clock := (if utc then Signed64(utcNow) else now) - offset;
                  start <= clock < end && Moved(out, f, g, clock - start, end - start))
  {
    ShownSound(t, now, utcNow, offset);
    var utc, target := UsesUtc(t, utcNow), Target(t, now, utcNow, offset);
    var r := Showing(t.frames, utc, target, 0);
    if r + 1 < |t.frames| {
      BetweenMoves(t.frames[r], t.frames[r + 1], DueAt(t.frames[r], utc), DueAt(t.frames[r + 1], utc), target);
    }
    hide Showing, Moved, Between, Sound, Dark, Signed64;
  }

  lemma LerpProportional(a: real, b: real, mix: real, span: real, passed: real)
    requires mix * span == passed
    ensures (Lerp(a, b, mix) - a) * span == (b - a) * passed
  {
    assert (Lerp(a, b, mix) - a) * span == (b - a) * (mix * span);
  }

  lemma SampledOrdered(t: Timeline, now: nat, utcNow: nat, offset: int)
    requires Ordered(t)
    ensures Ordered(Sampled(t, now, utcNow, offset))
    ensures t.hasRendered ==> t.last <= Sampled(t, now, utcNow, offset).last
  {
  }

  // --------------------------------------------------------------------- whole runs

  datatype Event =
    | Arrive(f: Frame)
    | Show(now: nat, utcNow: nat, offset: int)
    | Reset

  function Step(t: Timeline, e: Event): Timeline {
    match e
    case Arrive(f) => Push(t, f)
    case Show(now, utcNow, offset) => Sampled(t, now, utcNow, offset)
    case Reset => EMPTY
  }

  function After(t: Timeline, es: seq<Event>): Timeline {
    if es == [] then t else Step(After(t, es[..|es| - 1]), es[|es| - 1])
  }

  /** The numbers rendered since the last reset, in the order of rendering. */
  function Log(t: Timeline, es: seq<Event>): seq<int> {
    if es == [] then []
    else
      var before, e := After(t, es[..|es| - 1]), es[|es| - 1];
      if e.Reset? then []
      else if e.Show? && !Dark(before, e.now, e.utcNow, e.offset)
      then Log(t, es[..|es| - 1]) + [Step(before, e).last]
      else Log(t, es[..|es| - 1])
  }

  ghost predicate RunWindowed(t: Timeline, es: seq<Event>) {
    es != [] ==>
      && RunWindowed(t, es[..|es| - 1])
      && (es[|es| - 1].Arrive? ==> Windowed(After(t, es[..|es| - 1]), es[|es| - 1].f))
  }

  /** One event: what is rendered changes only when something is shown, and then never back. */
  lemma StepOrdered(t: Timeline, e: Event)
    requires Ordered(t)
    requires e.Arrive? ==> Windowed(t, e.f)
    ensures var u := Step(t, e);
            && Ordered(u)
            && (e.Reset? ==> !u.hasRendered)
            && (e.Show? && !Dark(t, e.now, e.utcNow, e.offset)
                ==> u.hasRendered && (t.hasRendered ==> t.last <= u.last))
            && (e.Arrive? || (e.Show? && Dark(t, e.now, e.utcNow, e.offset))
                ==> u.hasRendered == t.hasRendered && u.last == t.last)
  {
    hide Refused, Windowed, Dark, Showing, Slot;
    match e
    case Arrive(f) => PushOrdered(t, f);
    case Show(now, utcNow, offset) => SampledOrdered(t, now, utcNow, offset);
    case Reset =>
  }

  /** Over any run, nothing buffered is older than what was rendered, and rendering never goes back. */
  lemma {:induction false} NeverBackwards(es: seq<Event>)
    requires RunWindowed(EMPTY, es)
    ensures Ordered(After(EMPTY, es))
    ensures var log, t := Log(EMPTY, es), After(EMPTY, es);
            && (t.hasRendered <==> log != [])
            && (log != [] ==> log[|log| - 1] == t.last)
            && (forall i, j :: 0 <= i < j < |log| ==> log[i] <= log[j])
  {
    hide Step, Windowed, Dark;
    if es != [] {
      var rest, e := es[..|es| - 1], es[|es| - 1];
      NeverBackwards(rest);
      StepOrdered(After(EMPTY, rest), e);
    }
  }
}
