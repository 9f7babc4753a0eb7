/**
 The effect-synchronisation record as the code updates it: a fixed array of eight frames with
 a count, and the membership fields (main/effect_sync.c).
 */
module EffectSync {
  import opened Prelude
  import opened Serial32
  import opened EffectTimeline

  const UUID_LENGTH := 36

  predicate HexDigit(c: char) {
    '0' <= c <= '9' || 'a' <= c <= 'f' || 'A' <= c <= 'F'
  }

  predicate CanonicalUuid(s: string) {
    && |s| == UUID_LENGTH
    && forall i :: 0 <= i < |s| ==>
         if i == 8 || i == 13 || i == 18 || i == 23 then s[i] == '-' else HexDigit(s[i])
  }

  datatype Visualizer = Spectrum | VuMeter | BassPulse | Rainbow

  /** A missing name means the spectrum. */
  function VisualizerFromName(name: Option<string>): Option<Visualizer> {
    match name
    case None => Some(Spectrum)
    case Some(s) =>
      if s == "spectrum" then Some(Spectrum)
      else if s == "vu_meter" then Some(VuMeter)
      else if s == "bass_pulse" then Some(BassPulse)
      else if s == "rainbow" then Some(Rainbow)
      else None
  }

  /** The names that the code knows. */
  lemma VisualizerNames(name: Option<string>)
    ensures VisualizerFromName(name) == Some(Spectrum) <==> name == None || name == Some("spectrum")
    ensures VisualizerFromName(name) == Some(VuMeter) <==> name == Some("vu_meter")
    ensures VisualizerFromName(name) == Some(BassPulse) <==> name == Some("bass_pulse")
    ensures VisualizerFromName(name) == Some(Rainbow) <==> name == Some("rainbow")
  {
  }

  ghost predicate AllHex(s: string) {
    forall i :: 0 <= i < |s| ==> s[i] in "0123456789abcdefABCDEF"
  }

  /** Five groups of hexadecimal digits between hyphens. */
  ghost predicate Groups(s: string, a: string, b: string, c: string, d: string, e: string) {
    && |a| == 8 && |b| == 4 && |c| == 4 && |d| == 4 && |e| == 12
    && AllHex(a) && AllHex(b) && AllHex(c) && AllHex(d) && AllHex(e)
    && s == a + "-" + b + "-" + c + "-" + d + "-" + e
  }

  lemma HexDigits(c: char)
    ensures HexDigit(c) <==> c in "0123456789abcdefABCDEF"
  {
    var digits := "0123456789abcdefABCDEF";
    if '0' <= c <= '9' { assert digits[c as int - '0' as int] == c; }
    if 'a' <= c <= 'f' { assert digits[10 + c as int - 'a' as int] == c; }
    if 'A' <= c <= 'F' { assert digits[16 + c as int - 'A' as int] == c; }
  }

  /** A stretch of a string, character by character. */
  lemma HexPart(s: string, from: nat, to: nat)
    requires from <= to <= |s|
    ensures AllHex(s[from..to]) <==> forall i :: from <= i < to ==> HexDigit(s[i])
  {
    hide HexDigit;
    forall i | from <= i < to ensures HexDigit(s[i]) <==> s[from..to][i - from] in "0123456789abcdefABCDEF" {
      HexDigits(s[i]);
    }
  }

  lemma Joined(s: string)
    requires |s| == 36
    ensures s == s[..8] + "-" + s[9..13] + "-" + s[14..18] + "-" + s[19..23] + "-" + s[24..]
       <==> s[8] == s[13] == s[18] == s[23] == '-'
  {
    var t := s[..8] + "-" + s[9..13] + "-" + s[14..18] + "-" + s[19..23] + "-" + s[24..];
    assert t[8] == '-' && t[13] == '-' && t[18] == '-' && t[23] == '-';
    if s[8] == s[13] == s[18] == s[23] == '-' {
      assert forall i :: 0 <= i < 36 ==> s[i] == t[i];
    }
  }

  /** A canonical UUID is made of groups of 8, 4, 4, 4 and 12 digits, and every such string is one. */
  lemma UuidExactly(s: string)
    ensures CanonicalUuid(s) <==> |s| == 36 && Groups(s, s[..8], s[9..13], s[14..18], s[19..23], s[24..])
  {
    hide AllHex, HexDigit;
    if |s| == 36 {
      Joined(s);
      HexPart(s, 0, 8);
      HexPart(s, 9, 13);
      HexPart(s, 14, 18);
      HexPart(s, 19, 23);
      HexPart(s, 24, 36);
      assert s[0..8] == s[..8] && s[24..36] == s[24..];
    }
  }

  const ZERO := Frame(0, 0, 0, 0, 0.0, 0.0, 0.0, 0)

  class Sync {
    var joined: bool
    var groupId: string
    var leaderId: string
    var presentationDelay: nat
    var calibrationOffset: int
    var visualizer: Visualizer
    const frames: array<Frame>
    var frameCount: nat
    var hasRendered: bool
    /** The rendered frame's number; the code keeps and compares `Wire` of it. */
    var lastRendered: int

    ghost predicate Valid()
      reads this
    {
      frames.Length == CAPACITY && frameCount <= CAPACITY && (!joined ==> frameCount == 0 && !hasRendered)
    }

    ghost function State(): Timeline
      requires Valid()
      reads this, frames
    {
      Timeline(frames[..frameCount], hasRendered, lastRendered)
    }

    constructor ()
      ensures Valid() && !joined && State() == EMPTY && fresh(frames)
    {
      frames := new Frame[CAPACITY](_ => ZERO);
      joined, groupId, leaderId, presentationDelay, calibrationOffset := false, "", "", 0, 0;
      visualizer, frameCount, hasRendered, lastRendered := Spectrum, 0, false, 0;
    }

    method Cancel()
      requires Valid()
      modifies this
      ensures Valid() && !joined && State() == EMPTY
    {
      joined, groupId, leaderId, presentationDelay, calibrationOffset := false, "", "", 0, 0;
      visualizer, frameCount, hasRendered, lastRendered := Spectrum, 0, false, 0;
    }

    method Join(group: string, role: Option<string>, leader: string, delay: int, offset: int, name: Option<string>)
      returns (ok: bool)
      requires Valid()
      modifies this
      ensures Valid()
      ensures ok <==>
        && CanonicalUuid(group) && CanonicalUuid(leader) && role == Some("follower")
        && 0 <= delay <= 500 && -100 <= offset <= 100 && VisualizerFromName(name).Some?
      ensures !ok ==> unchanged(this)
      ensures ok ==> joined && State() == EMPTY && groupId == group && leaderId == leader
                     && calibrationOffset == offset && presentationDelay == delay
                     && Some(visualizer) == VisualizerFromName(name)
    {
      var parsed := VisualizerFromName(name);
      if !CanonicalUuid(group) || !CanonicalUuid(leader) || role != Some("follower") || delay < 0 || delay > 500
         || offset < -100 || offset > 100 || parsed.None? {
        return false;
      }
      Cancel();
      groupId, leaderId, presentationDelay, calibrationOffset := group, leader, delay, offset;
      visualizer, joined := parsed.value, true;
      ok := true;
    }

    method Leave(group: string) returns (ok: bool)
      requires Valid()
      modifies this
      ensures Valid()
      ensures ok <==> old(joined) && CanonicalUuid(group) && old(groupId) == group
      ensures if ok then !joined && State() == EMPTY else unchanged(this)
    {
      if !joined || !CanonicalUuid(group) || groupId != group {
        return false;
      }
      Cancel();
      ok := true;
    }

    /** The linear scan for the arrival's place. */
    method FindSlot(f: Frame) returns (at: nat)
      requires Valid()
      ensures at == Slot(State().frames, f.number, 0)
    {
      at := 0;
      while at < frameCount && Diff32(Wire(f.number), Wire(frames[at].number)) > 0
        invariant at <= frameCount
        invariant Slot(State().frames, f.number, at) == Slot(State().frames, f.number, 0)
      {
        at := at + 1;
      }
    }

    /** memmove of everything from `count` frames on to the front. */
    method DropFront(count: nat)
      requires frames.Length == CAPACITY && count <= frameCount <= CAPACITY
      modifies frames, this`frameCount
      ensures frameCount == old(frameCount) - count && frames[..frameCount] == old(frames[..frameCount])[count..]
    {
      ghost var was := frames[..];
      for i := 0 to frameCount - count
        invariant frames[..i] == was[count..count + i] && frames[i..] == was[i..]
        modifies frames
      {
        assert frames[i + count] == frames[i..][count] == was[i + count];
        frames[i] := frames[i + count];
      }
      frameCount := frameCount - count;
    }

    /** memmove up by one from `at`, and the arrival in the gap. */
    method InsertAt(at: nat, f: Frame)
      requires frames.Length == CAPACITY && at <= frameCount < CAPACITY
      modifies frames, this`frameCount
      ensures frameCount == old(frameCount) + 1 && frames[..frameCount] == Spliced(old(frames[..frameCount]), at, f)
    {
      var i := frameCount;
      ghost var was := frames[..];
      while i > at
        invariant at <= i <= frameCount
        invariant forall k :: 0 <= k < i ==> frames[k] == was[k]
        invariant forall k :: i < k <= frameCount ==> frames[k] == was[k - 1]
        modifies frames
      {
        frames[i] := frames[i - 1];
        i := i - 1;
      }
      frames[at] := f;
      frameCount := frameCount + 1;
      SplicedIs(was[..frameCount - 1], frames[..frameCount], at, f);
    }

    method PushFrame(f: Frame) returns (ok: bool)
      requires Valid()
      modifies this`frameCount, frames
      ensures Valid()
      ensures ok <==> joined && !Refused(old(State()), f)
      ensures State() == if joined then Push(old(State()), f) else old(State())
    {
      if !joined || !Sound(f) {
        return false;
      }
      if hasRendered && !(Diff32(Wire(f.number), Wire(lastRendered)) > 0) {
        return false;
      }
      var at := FindSlot(f);
      ghost var before := State();
      if at < frameCount && Wire(frames[at].number) == Wire(f.number) {
        return false;
      }
      if frameCount == CAPACITY {
        if at == 0 {
          return false;
        }
        DropFront(1);
        at := at - 1;
      }
      InsertAt(at, f);
      ok := true;
    }

    /** The scan for the frame being shown. */
    method FindShowing(utc: bool, target: int) returns (before: nat)
      requires Valid() && frameCount > 0
      ensures before == Showing(State().frames, utc, target, 0)
    {
      before := 0;
      while before + 1 < frameCount && DueAt(frames[before + 1], utc) <= target
        invariant before < frameCount
        invariant Showing(State().frames, utc, target, before) == Showing(State().frames, utc, target, 0)
      {
        before := before + 1;
      }
    }

    /** The early returns, and the time to show when there is none. */
    method Gate(now: nat, utcNow: nat) returns (dark: bool, utc: bool, target: int)
      requires Valid()
      ensures dark <==> Dark(State(), now, utcNow, calibrationOffset)
      ensures !dark ==> frameCount > 0 && utc == UsesUtc(State(), utcNow)
                        && target == Target(State(), now, utcNow, calibrationOffset)
    {
      if frameCount == 0 || (now - frames[frameCount - 1].receivedMs) % MODULUS > TIMEOUT_MS {
        return true, false, 0;
      }
      utc := utcNow > UTC_VALID_AFTER && frames[0].presentAtMs != 0;
      target := (if utc then Signed64(utcNow) else now) - calibrationOffset;
      dark := target < DueAt(frames[0], utc);
    }

    method Sample(now: nat, utcNow: nat) returns (out: Option<Frame>)
      requires Valid()
      modifies this`frameCount, this`hasRendered, this`lastRendered, frames
      ensures Valid()
      ensures out.None? <==> !joined || Dark(old(State()), now, utcNow, calibrationOffset)
      ensures State() == if joined then Sampled(old(State()), now, utcNow, calibrationOffset) else old(State())
      ensures out.Some? ==> out.value == Shown(old(State()), now, utcNow, calibrationOffset)
    {
      hide Showing, Between, Dark, Target, UsesUtc;
      if !joined {
        return None;
      }
      ghost var t := State();
      var dark, utc, target := Gate(now, utcNow);
      if dark {
        return None;
      }
      NotDark(t, now, utcNow, calibrationOffset);
      var before := FindShowing(utc, target);
      var shown := frames[before];
      if before + 1 < frameCount {
        var start := DueAt(frames[before], utc);
        var end := DueAt(frames[before + 1], utc);
        if end > start {
          shown := Between(shown, frames[before + 1], start, end, target);
        }
      }
      assert shown == Shown(t, now, utcNow, calibrationOffset);
      Render(before);
      assert State() == Sampled(t, now, utcNow, calibrationOffset);
      out := Some(shown);
    }

    /** The rendered frame is remembered, and the frames before it are gone. */
    method Render(before: nat)
      requires Valid() && joined && before < frameCount
      modifies this`frameCount, this`hasRendered, this`lastRendered, frames
      ensures Valid()
      ensures State() == Timeline(old(State()).frames[before..], true, old(State()).frames[before].number)
    {
      hasRendered := true;
      lastRendered := frames[before].number;
      if before > 0 {
        DropFront(before);
      }
    }
  }
}
