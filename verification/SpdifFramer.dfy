/**
 The S/PDIF framer (main/audio/audio_output_spdif.c): samples become pairs of a preamble word
 and a data word in a half-block buffer whose first preamble is toggled by exclusive or each
 time the buffer is sent. Preambles as in clause 4 of IEC 60958-1.
 */
module SpdifFramer {
  import opened Prelude

  const BMC_B: bv32 := 0x3317_3333
  const BMC_M: bv32 := 0x331d_3333
  const BMC_W: bv32 := 0x331b_3333
  /** Sub-frames in the buffer: half of a 384-sub-frame block. */
  const HALF_BLOCK := 192
  const BLOCK := 384
  const BUF_WORDS := 384
  /** (BMC_B ^ BMC_M) >> 16, applied to byte 2 of the first word. */
  const SYNC_FLIP: bv32 := 0x000a_0000

  /** A 16-bit sample as its two bytes. */
  datatype Sample = Sample(lo: nat, hi: nat)

  predicate IsSample(s: Sample) {
    s.lo < 256 && s.hi < 256
  }

  /** Both bytes through the biphase table (its entries sign-extended), parity bit cleared. */
  function DataWord(table: seq<bv32>, s: Sample): bv32
    requires |table| == 256 && IsSample(s)
  {
    (((table[s.lo] << 16) ^ table[s.hi]) << 1) >> 1
  }

  /**
   Where the two bytes' codes are: the lower half word is the high byte's code; the upper half word
   is the low byte's code, inverted where the high byte's code is negative; the top bit is clear.
   */
  predicate Carries(w: bv32, lo: bv32, hi: bv32) {
    && w & 0xffff == hi & 0xffff
    && (w >> 16) & 0x7fff == (lo ^ (hi >> 16)) & 0x7fff
    && w & 0x8000_0000 == 0
  }

  lemma DataWordCarries(table: seq<bv32>, s: Sample)
    requires |table| == 256 && IsSample(s)
    ensures Carries(DataWord(table, s), table[s.lo], table[s.hi])
  {
    WordCarries(table[s.lo], table[s.hi]);
  }

  lemma WordCarries(lo: bv32, hi: bv32)
    ensures Carries((((lo << 16) ^ hi) << 1) >> 1, lo, hi)
  {
  }

  /** The preamble that sub-frame `j` has to carry. */
  function Preamble(j: nat): bv32 {
    if j % BLOCK == 0 then BMC_B else if j % 2 == 0 then BMC_M else BMC_W
  }

  /** Word `w` of the framing of a sample stream. */
  function Word(table: seq<bv32>, samples: seq<Sample>, w: nat): bv32
    requires |table| == 256 && w / 2 < |samples| && forall i :: 0 <= i < |samples| ==> IsSample(samples[i])
  {
    if w % 2 == 0 then Preamble(w / 2) else DataWord(table, samples[w / 2])
  }

  ghost predicate AllSamples(samples: seq<Sample>) {
    forall i :: 0 <= i < |samples| ==> IsSample(samples[i])
  }

  /** The framing of the whole half blocks of a stream. */
  ghost function Framed(table: seq<bv32>, samples: seq<Sample>): (r: seq<bv32>)
    requires |table| == 256 && AllSamples(samples)
    ensures |r| == |samples| / HALF_BLOCK * BUF_WORDS
    ensures forall w :: 0 <= w < |r| ==> w / 2 < |samples| && r[w] == Word(table, samples, w)
  {
    seq(|samples| / HALF_BLOCK * BUF_WORDS,
        w requires 0 <= w < |samples| / HALF_BLOCK * BUF_WORDS =>
          assert w / 2 < |samples|; Word(table, samples, w))
  }

  /** Two words per framed sample: what is not framed is less than a half block. */
  lemma FramedHalfBlocks(table: seq<bv32>, samples: seq<Sample>)
    requires |table| == 256 && AllSamples(samples)
    ensures |samples| - |Framed(table, samples)| / 2 == |samples| % HALF_BLOCK < HALF_BLOCK
  {
    hide Framed;
    var q := |samples| / HALF_BLOCK;
    ModUnique(q * HALF_BLOCK, 0, 2);
  }

  /** Preamble B marks the sub-frames divisible by 384 and no others; M and W mark the rest by parity. */
  lemma FramingLaw(table: seq<bv32>, samples: seq<Sample>, j: nat)
    requires |table| == 256 && AllSamples(samples) && j < |samples| / HALF_BLOCK * HALF_BLOCK
    ensures var r := Framed(table, samples);
            && 2 * j + 1 < |r|
            && (r[2 * j] == BMC_B <==> j % BLOCK == 0)
            && (r[2 * j] == BMC_W <==> j % 2 == 1)
            && (r[2 * j] == BMC_M <==> j % 2 == 0 && j % BLOCK != 0)
            && r[2 * j + 1] == DataWord(table, samples[j])
  {
    var r := Framed(table, samples);
    assert (2 * j) / 2 == j && (2 * j + 1) / 2 == j;
    assert r[2 * j] == Word(table, samples, 2 * j) && r[2 * j + 1] == Word(table, samples, 2 * j + 1);
    ParityOfBlock(j);
  }

  lemma ParityOfBlock(j: nat)
    ensures j % BLOCK == 0 ==> j % 2 == 0
  {
    if j % BLOCK == 0 { assert j == 2 * (HALF_BLOCK * (j / BLOCK)); }
  }

  /** Inside half block `k`, only the first preamble depends on `k`. */
  function Local(k: nat, i: nat): bv32 {
    if i == 0 then (if k % 2 == 0 then BMC_B else BMC_M) else if i % 2 == 0 then BMC_M else BMC_W
  }

  lemma PreambleLocal(k: nat, i: nat)
    requires i < HALF_BLOCK
    ensures Preamble(HALF_BLOCK * k + i) == Local(k, i)
  {
    var j, h := HALF_BLOCK * k + i, k / 2;
    assert k == 2 * h + k % 2;
    assert j == BLOCK * h + (HALF_BLOCK * (k % 2) + i);
    ModOf(h, HALF_BLOCK * (k % 2) + i);
  }

  lemma ModOf(h: nat, r: nat)
    requires r < BLOCK
    ensures (BLOCK * h + r) % BLOCK == r && (BLOCK * h + r) % 2 == r % 2
  {
    ModUnique(h, r, BLOCK);
    ModUnique(BLOCK / 2 * h + r / 2, r % 2, 2);
  }

  /** The first preamble alternates with the half blocks. */
  lemma Toggled(k: nat, w: bv32)
    requires w == if k % 2 == 0 then BMC_M else BMC_B
    ensures w ^ SYNC_FLIP == if (k + 1) % 2 == 0 then BMC_M else BMC_B
  {
    ToggleFlips();
  }

  lemma ToggleFlips()
    ensures BMC_M ^ SYNC_FLIP == BMC_B && BMC_B ^ SYNC_FLIP == BMC_M
    ensures BMC_W ^ (BMC_M ^ BMC_W) == BMC_M && BMC_M ^ (BMC_M ^ BMC_W) == BMC_W
  {
  }

  /** The words of one half block, as the buffer holds them when it is sent. */
  ghost predicate HalfBlock(table: seq<bv32>, samples: seq<Sample>, k: nat, words: seq<bv32>)
    requires |table| == 256 && AllSamples(samples) && HALF_BLOCK * (k + 1) <= |samples|
  {
    && |words| == BUF_WORDS
    && forall i :: 0 <= i < HALF_BLOCK ==>
         words[2 * i] == Local(k, i) && words[2 * i + 1] == DataWord(table, samples[HALF_BLOCK * k + i])
  }

  lemma HalfBlockIs(table: seq<bv32>, samples: seq<Sample>, k: nat, words: seq<bv32>)
    requires |table| == 256 && AllSamples(samples) && HALF_BLOCK * (k + 1) <= |samples| && |words| == BUF_WORDS
    requires words[0] == if (k + 1) % 2 == 0 then BMC_M else BMC_B
    requires forall i :: 0 < i < HALF_BLOCK ==> words[2 * i] == Local(0, i)
    requires forall i :: 0 <= i < HALF_BLOCK ==> words[2 * i + 1] == DataWord(table, samples[HALF_BLOCK * k + i])
    ensures HalfBlock(table, samples, k, words)
  {
    hide DataWord;
  }

  /** Sending half block `k` extends the framing by exactly its words. */
  lemma FramedGrows(table: seq<bv32>, samples: seq<Sample>, s: Sample, k: nat, words: seq<bv32>)
    requires |table| == 256 && AllSamples(samples) && IsSample(s) && |samples| == HALF_BLOCK * (k + 1) - 1
    requires AllSamples(samples + [s]) && HalfBlock(table, samples + [s], k, words)
    ensures Framed(table, samples + [s]) == Framed(table, samples) + words
  {
    var all := samples + [s];
    var r, before := Framed(table, all), Framed(table, samples);
    assert |before| == k * BUF_WORDS && |r| == (k + 1) * BUF_WORDS;
    forall w | 0 <= w < |r| ensures r[w] == (before + words)[w] {
      if w < |before| {
        assert before[w] == Word(table, samples, w);
      } else {
        WordOfHalfBlock(table, all, k, words, w - |before|);
      }
    }
  }

  lemma WordOfHalfBlock(table: seq<bv32>, all: seq<Sample>, k: nat, words: seq<bv32>, v: nat)
    requires |table| == 256 && AllSamples(all) && HALF_BLOCK * (k + 1) <= |all| && v < BUF_WORDS
    requires HalfBlock(table, all, k, words)
    ensures (k * BUF_WORDS + v) / 2 < |all| && words[v] == Word(table, all, k * BUF_WORDS + v)
  {
    var i := v / 2;
    assert v == 2 * i + v % 2;
    assert (k * BUF_WORDS + v) / 2 == HALF_BLOCK * k + i && (k * BUF_WORDS + v) % 2 == v % 2;
    PreambleLocal(k, i);
    assert words[2 * i] == Local(k, i);
  }

  lemma FramedSame(table: seq<bv32>, samples: seq<Sample>, s: Sample)
    requires |table| == 256 && AllSamples(samples) && IsSample(s) && (|samples| + 1) % HALF_BLOCK != 0
    ensures AllSamples(samples + [s]) && Framed(table, samples + [s]) == Framed(table, samples)
  {
    var r, before := Framed(table, samples + [s]), Framed(table, samples);
    assert (|samples| + 1) / HALF_BLOCK == |samples| / HALF_BLOCK;
    forall w | 0 <= w < |r| ensures r[w] == before[w] {
      assert before[w] == Word(table, samples, w);
    }
  }

  // -------------------------------------------------------------------- the buffer

  class Framer {
    const table: seq<bv32>
    const buf: array<bv32>
    var ptr: nat
    /** Every word handed to the I2S channel. */
    var sent: seq<bv32>
    /** Where in `sent` the current alignment began, and the samples written since. */
    ghost var mark: nat
    ghost var samples: seq<Sample>

    ghost function HalfBlocks(): nat
      reads this
    {
      |samples| / HALF_BLOCK
    }

    /** All preambles but the first are fixed; the first alternates with the half blocks sent. */
    ghost predicate Primed()
      requires buf.Length == BUF_WORDS
      reads this, buf
    {
      && buf[0] == (if HalfBlocks() % 2 == 0 then BMC_M else BMC_B)
      && forall i :: 0 < i < HALF_BLOCK ==> buf[2 * i] == Local(0, i)
    }

    ghost predicate Pending()
      requires |table| == 256 && AllSamples(samples) && buf.Length == BUF_WORDS
      reads this, buf
    {
      forall i :: 0 <= i < |samples| % HALF_BLOCK ==>
        buf[2 * i + 1] == DataWord(table, samples[HALF_BLOCK * HalfBlocks() + i])
    }

    ghost predicate Valid()
      reads this, buf
    {
      && |table| == 256 && buf.Length == BUF_WORDS && AllSamples(samples)
      && ptr == 2 * (|samples| % HALF_BLOCK)
      && mark <= |sent| && sent[mark..] == Framed(table, samples)
      && Primed() && Pending()
    }

    constructor (biphase: seq<bv32>)
      requires |biphase| == 256
      ensures Valid() && fresh(buf) && table == biphase && samples == [] && sent == [] && mark == 0
    {
      table := biphase;
      buf := new bv32[BUF_WORDS](_ => 0);
      ptr, sent, mark, samples := 0, [], 0, [];
      new;
      BufInit();
    }

    /** Pre-fill: the word toggles between M and W on every other index. */
    method BufInit()
      requires buf.Length == BUF_WORDS
      modifies buf
      ensures buf[0] == BMC_M
      ensures forall i :: 0 < i < HALF_BLOCK ==> buf[2 * i] == Local(0, i)
    {
      ToggleFlips();
      var mw := BMC_W;
      var i := 0;
      while i < BUF_WORDS
        invariant i % 2 == 0 && i <= BUF_WORDS
        invariant mw == if (i / 2) % 2 == 0 then BMC_W else BMC_M
        invariant i > 0 ==> buf[0] == BMC_M
        invariant forall k :: 0 < k < i / 2 ==> buf[2 * k] == Local(0, k)
      {
        mw := mw ^ (BMC_M ^ BMC_W);
        buf[i] := mw;
        i := i + 2;
      }
    }

    /** A flush drops the pending samples and starts a new block. */
    method Flush()
      requires Valid()
      modifies this, buf
      ensures Valid() && samples == [] && sent == old(sent) && mark == |sent|
    {
      BufInit();
      ptr, mark, samples := 0, |sent|, [];
    }

    /** One sample into the buffer, and the buffer out when it is full. */
    method WriteSample(s: Sample)
      requires Valid() && IsSample(s)
      modifies this, buf
      ensures Valid() && samples == old(samples) + [s] && mark == old(mark) && old(sent) <= sent
    {
      hide DataWord, Framed, Local;
      ghost var n, k := |samples|, HalfBlocks();
      assert n == HALF_BLOCK * k + n % HALF_BLOCK;
      buf[ptr + 1] := DataWord(table, s);
      ptr := ptr + 2;
      if ptr >= BUF_WORDS {
        SendBuffer(s, k);
      } else {
        KeepPending(s);
      }
    }

    /** The buffer is not full yet: the sample stays in it. */
    ghost method KeepPending(s: Sample)
      requires |table| == 256 && buf.Length == BUF_WORDS && AllSamples(samples) && IsSample(s)
      requires ptr == 2 * (|samples| % HALF_BLOCK) + 2 < BUF_WORDS
      requires mark <= |sent| && sent[mark..] == Framed(table, samples) && Primed() && Pending()
      requires buf[ptr - 1] == DataWord(table, s)
      modifies this`samples
      ensures Valid() && samples == old(samples) + [s]
    {
      hide DataWord, Framed, Local;
      ghost var n, k := |samples|, HalfBlocks();
      assert n == HALF_BLOCK * k + n % HALF_BLOCK;
      NextIndex(n);
      FramedSame(table, samples, s);
      samples := samples + [s];
    }

    /** The first preamble is toggled and the buffer goes out. */
    method Transmit(ghost k: nat)
      requires buf.Length == BUF_WORDS && mark <= |sent| && buf[0] == if k % 2 == 0 then BMC_M else BMC_B
      modifies this`sent, buf
      ensures buf[0] == if (k + 1) % 2 == 0 then BMC_M else BMC_B
      ensures forall i :: 0 < i < BUF_WORDS ==> buf[i] == old(buf[i])
      ensures sent == old(sent) + buf[..] && sent[mark..] == old(sent[mark..]) + buf[..]
    {
      Toggled(k, buf[0]);
      buf[0] := buf[0] ^ SYNC_FLIP;
      sent := sent + buf[..];
    }

    /** Toggle the first preamble, send, rewind. */
    method SendBuffer(s: Sample, ghost k: nat)
      requires |table| == 256 && buf.Length == BUF_WORDS && AllSamples(samples) && IsSample(s)
      requires |samples| == HALF_BLOCK * (k + 1) - 1 && k == HalfBlocks()
      requires mark <= |sent| && sent[mark..] == Framed(table, samples) && Primed()
      requires forall i :: 0 <= i < HALF_BLOCK ==>
        buf[2 * i + 1] == DataWord(table, (samples + [s])[HALF_BLOCK * k + i])
      modifies this, buf
      ensures Valid() && samples == old(samples) + [s] && mark == old(mark) && old(sent) <= sent
    {
      hide DataWord, Framed, HalfBlock, Local;
      Transmit(k);
      ghost var all := samples + [s];
      HalfBlockIs(table, all, k, buf[..]);
      FramedGrows(table, samples, s, k, buf[..]);
      ptr := 0;
      samples := all;
      ModUnique(k + 1, 0, HALF_BLOCK);
    }

    /** spdif_write: interleaved little-endian 16-bit samples. */
    method Write(src: seq<nat>)
      requires Valid() && |src| % 2 == 0 && forall i :: 0 <= i < |src| ==> src[i] < 256
      modifies this, buf
      ensures Valid() && samples == old(samples) + Decode(src) && mark == old(mark) && old(sent) <= sent
    {
      hide Decode, Valid;
      var p := 0;
      DecodeNothing(src);
      while p < |src|
        invariant p % 2 == 0 && p <= |src| && Valid() && mark == old(mark) && old(sent) <= sent
        invariant samples == old(samples) + Decode(src[..p])
      {
        WriteSample(Sample(src[p], src[p + 1]));
        DecodeNext(src, p);
        p := p + 2;
      }
      assert src[..p] == src;
    }

    /** Any partition of a stream into writes frames the stream, with less than a half block left over. */
    method WriteAll(parts: seq<seq<nat>>)
      requires Valid() && samples == []
      requires forall k :: 0 <= k < |parts| ==>
        |parts[k]| % 2 == 0 && forall i :: 0 <= i < |parts[k]| ==> parts[k][i] < 256
      modifies this, buf
      ensures Valid() && mark == old(mark) && samples == DecodeAll(parts) && old(sent) <= sent
      ensures sent[mark..] == Framed(table, DecodeAll(parts))
      ensures |samples| - |sent[mark..]| / 2 == |samples| % HALF_BLOCK < HALF_BLOCK
    {
      WriteParts(parts);
      FramedHalfBlocks(table, samples);
    }

    method WriteParts(parts: seq<seq<nat>>)
      requires Valid() && samples == []
      requires forall k :: 0 <= k < |parts| ==>
        |parts[k]| % 2 == 0 && forall i :: 0 <= i < |parts[k]| ==> parts[k][i] < 256
      modifies this, buf
      ensures Valid() && mark == old(mark) && samples == DecodeAll(parts) && old(sent) <= sent
    {
      hide Valid, Decode;
      for k := 0 to |parts|
        invariant Valid() && mark == old(mark) && samples == DecodeAll(parts[..k]) && old(sent) <= sent
      {
        Write(parts[k]);
        assert parts[..k + 1][..k] == parts[..k];
      }
      assert parts[..|parts|] == parts;
    }
  }

  lemma NextIndex(n: nat)
    requires n % HALF_BLOCK + 1 < HALF_BLOCK
    ensures (n + 1) / HALF_BLOCK == n / HALF_BLOCK && (n + 1) % HALF_BLOCK == n % HALF_BLOCK + 1
  {
    ModUnique(n / HALF_BLOCK, n % HALF_BLOCK + 1, HALF_BLOCK);
  }

  function Decode(src: seq<nat>): (r: seq<Sample>)
    requires |src| % 2 == 0
    ensures |r| == |src| / 2
  {
    if src == [] then []
    else Decode(src[..|src| - 2]) + [Sample(src[|src| - 2], src[|src| - 1])]
  }

  lemma DecodeNothing(src: seq<nat>)
    ensures Decode(src[..0]) == []
  {
  }

  lemma DecodeNext(src: seq<nat>, p: nat)
    requires p % 2 == 0 && p + 2 <= |src|
    ensures Decode(src[..p + 2]) == Decode(src[..p]) + [Sample(src[p], src[p + 1])]
  {
    assert src[..p + 2][..p] == src[..p];
  }

  function DecodeAll(parts: seq<seq<nat>>): seq<Sample>
    requires forall k :: 0 <= k < |parts| ==> |parts[k]| % 2 == 0
  {
    if parts == [] then [] else DecodeAll(parts[..|parts| - 1]) + Decode(parts[|parts| - 1])
  }

  /** Sample `i` of a byte stream is made of bytes 2 i and 2 i + 1, low byte first. */
  lemma {:induction false} DecodeAt(src: seq<nat>, i: nat)
    requires |src| % 2 == 0 && i < |src| / 2
    ensures Decode(src)[i] == Sample(src[2 * i], src[2 * i + 1])
  {
    var rest := src[..|src| - 2];
    if i < |rest| / 2 { DecodeAt(rest, i); }
  }

  lemma DecodeSound(src: seq<nat>)
    requires |src| % 2 == 0 && forall i :: 0 <= i < |src| ==> src[i] < 256
    ensures AllSamples(Decode(src))
  {
    hide Decode;
    forall i | 0 <= i < |Decode(src)| ensures IsSample(Decode(src)[i]) { DecodeAt(src, i); }
  }

  /** The framing in terms of the bytes written: which code stands where, for every sub-frame sent. */
  lemma ByteLaw(table: seq<bv32>, src: seq<nat>, j: nat)
    requires |table| == 256 && |src| % 2 == 0 && forall i :: 0 <= i < |src| ==> src[i] < 256
    requires j < |Decode(src)| / HALF_BLOCK * HALF_BLOCK
    ensures AllSamples(Decode(src))
    ensures var r := Framed(table, Decode(src));
            && 2 * j + 1 < |r| && 2 * j + 1 < |src|
            && Carries(r[2 * j + 1], table[src[2 * j]], table[src[2 * j + 1]])
  {
    hide Framed, DataWord, Decode, Carries, AllSamples;
    DecodeSound(src);
    FramingLaw(table, Decode(src), j);
    DecodeAt(src, j);
    DataWordCarries(table, Decode(src)[j]);
  }
}
