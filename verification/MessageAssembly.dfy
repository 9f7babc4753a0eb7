/**
 Reassembly of WebSocket messages from transport chunks and continuation frames
 (pogvoice_message_feed in components/pogvoice/pogvoice_protocol.c; section 5.4 of RFC 6455),
 against a grammar of fragmented messages.
 */
module MessageAssembly {
  import opened Prelude

  const MESSAGE_MAX := 4096

  /** One transport event: a piece of a frame of `total` bytes, starting at `off`. */
  datatype Piece = Piece(op: nat, fin: bool, off: nat, total: nat, data: seq<int>)

  /** The assembly record; `bytes` is the used part of its buffer. */
  datatype Assembly = Assembly(
    bytes: seq<int>, frameUsed: nat, frameSize: nat, opcode: nat, open: bool, inFrame: bool)

  const BLANK := Assembly([], 0, 0, 0, false, false)

  /** Data opcode and consistent lengths; other events leave the record alone. */
  predicate Effective(p: Piece) {
    p.op < 8 && p.off <= p.total && |p.data| <= p.total - p.off
  }

  ghost predicate Inv(m: Assembly) {
    && |m.bytes| <= MESSAGE_MAX
    && (m.inFrame ==> m.open && m.frameUsed < m.frameSize && |m.bytes| + m.frameSize - m.frameUsed <= MESSAGE_MAX)
  }

  predicate Idle(m: Assembly) {
    !m.open && !m.inFrame
  }

  /** The first piece of a frame is out of place, or the frame does not fit. */
  predicate BadStart(m: Assembly, p: Piece) {
    || m.inFrame || p.op > 2 || (p.op == 0) != m.open
    || p.total > MESSAGE_MAX - (if p.op == 0 then |m.bytes| else 0)
  }

  function Begin(m: Assembly, p: Piece): Assembly {
    var n := if p.op == 0 then m else m.(bytes := [], opcode := p.op, open := true);
    n.(frameUsed := 0, frameSize := p.total, inFrame := true)
  }

  predicate BadPiece(m: Assembly, p: Piece) {
    !m.inFrame || p.off != m.frameUsed || p.total != m.frameSize || |p.data| > MESSAGE_MAX - |m.bytes|
  }

  /** The record after the piece has been copied, and the code returned. */
  function Append(m: Assembly, p: Piece): (Assembly, int) {
    var n := m.(bytes := m.bytes + p.data, frameUsed := m.frameUsed + |p.data|);
    if n.frameUsed != p.total then (n, 0)
    else if !p.fin then (n.(inFrame := false), 0)
    else (n.(inFrame := false, open := false), 1)
  }

  function Feed(m: Assembly, p: Piece): (Assembly, int) {
    if p.op >= 8 then (m, 0)
    else if !Effective(p) then (m, -1)
    else if p.off == 0 && BadStart(m, p) then (BLANK, -1)
    else
      var n := if p.off == 0 then Begin(m, p) else m;
      if BadPiece(n, p) then (BLANK, -1) else Append(n, p)
  }

  /** What every call keeps: the message so far and the rest of its frame fit the buffer. */
  lemma FeedInv(m: Assembly, p: Piece)
    requires Inv(m)
    ensures Inv(Feed(m, p).0)
    ensures -1 <= Feed(m, p).1 <= 1
    ensures Feed(m, p).1 == 1 ==> Idle(Feed(m, p).0)
  {
  }

  /** Control frames are passed over and pieces that lie outside their frame are refused; neither leaves a trace. */
  lemma OddPieces(m: Assembly, p: Piece)
    ensures p.op >= 8 ==> Feed(m, p) == (m, 0)
    ensures p.op < 8 && p.off + |p.data| > p.total ==> Feed(m, p) == (m, -1)
    ensures p.op < 8 && p.off + |p.data| <= p.total ==>
      Feed(m, p).1 != -1 || Feed(m, p).0 == Assembly([], 0, 0, 0, false, false)
  {
  }

  /** The second length check never decides: a piece in its place fits, as its whole frame does. */
  lemma SecondCheckIdle(m: Assembly, p: Piece)
    requires Inv(m) && Effective(p) && p.op < 8 && (p.off == 0 ==> !BadStart(m, p))
    ensures var n := if p.off == 0 then Begin(m, p) else m;
            BadPiece(n, p) <==> !n.inFrame || p.off != n.frameUsed || p.total != n.frameSize
  {
  }

  // ------------------------------------------------------------ the record in place

  class Message {
    const bytes: array<int>
    var used: nat
    var frameUsed: nat
    var frameSize: nat
    var opcode: nat
    var open: bool
    var inFrame: bool

    ghost function State(): Assembly
      requires used <= bytes.Length
      reads this, bytes
    {
      Assembly(bytes[..used], frameUsed, frameSize, opcode, open, inFrame)
    }

    ghost predicate Valid()
      reads this, bytes
    {
      bytes.Length == MESSAGE_MAX + 1 && used <= MESSAGE_MAX && Inv(State())
    }

    constructor ()
      ensures Valid() && State() == BLANK && fresh(bytes)
    {
      bytes := new int[MESSAGE_MAX + 1](_ => 0);
      used, frameUsed, frameSize, opcode, open, inFrame := 0, 0, 0, 0, false, false;
    }

    method Clear()
      requires bytes.Length == MESSAGE_MAX + 1
      modifies this, bytes
      ensures Valid() && State() == BLANK
    {
      for i := 0 to bytes.Length
        modifies bytes
      {
        bytes[i] := 0;
      }
      used, frameUsed, frameSize, opcode, open, inFrame := 0, 0, 0, 0, false, false;
    }

    /** memcpy behind the bytes already there. */
    method Copy(data: seq<int>)
      requires used + |data| <= bytes.Length
      modifies this`used, bytes
      ensures used == old(used) + |data| && bytes[..used] == old(bytes[..used]) + data
    {
      for i := 0 to |data|
        invariant bytes[..used + i] == old(bytes[..used]) + data[..i]
        modifies bytes
      {
        bytes[used + i] := data[i];
        assert data[..i + 1] == data[..i] + [data[i]];
      }
      assert data[..|data|] == data;
      used := used + |data|;
    }

    method FeedPiece(p: Piece) returns (r: int)
      requires Valid()
      modifies this, bytes
      ensures Valid()
      ensures (State(), r) == Feed(old(State()), p)
      ensures r == 1 ==> bytes[used] == 0
    {
      FeedInv(State(), p);
      if p.op >= 8 {
        return 0;
      }
      if p.off > p.total || |p.data| > p.total - p.off {
        return -1;
      }
      ghost var start := State();
      if p.off == 0 {
        if inFrame || (p.op != 0 && p.op != 1 && p.op != 2) || (p.op == 0 && !open) || (p.op != 0 && open) {
          Clear();
          return -1;
        }
        if p.op != 0 {
          used, opcode, open := 0, p.op, true;
        }
        if p.total > MESSAGE_MAX - used {
          Clear();
          return -1;
        }
        frameUsed, frameSize, inFrame := 0, p.total, true;
        assert State() == Begin(start, p);
      }
      if !inFrame || p.off != frameUsed || p.total != frameSize || |p.data| > MESSAGE_MAX - used {
        Clear();
        return -1;
      }
      r := CopyPiece(p);
    }

    /** The tail of the function, once the piece is known to be in place. */
    method CopyPiece(p: Piece) returns (r: int)
      requires bytes.Length == MESSAGE_MAX + 1 && used + |p.data| <= MESSAGE_MAX
      modifies this, bytes
      ensures used <= MESSAGE_MAX && (State(), r) == Append(old(State()), p)
      ensures r == 1 ==> bytes[used] == 0
    {
      Copy(p.data);
      frameUsed := frameUsed + |p.data|;
      if frameUsed != p.total {
        return 0;
      }
      inFrame := false;
      if !p.fin {
        return 0;
      }
      open := false;
      bytes[used] := 0;
      return 1;
    }
  }

  // ------------------------------------------------------------------- the grammar

  function Data(ps: seq<Piece>): seq<int> {
    if ps == [] then [] else Data(ps[..|ps| - 1]) + ps[|ps| - 1].data
  }

  /** Consecutive pieces of one frame; only a frame with a single piece may start with no bytes. */
  ghost predicate Cut(ps: seq<Piece>, total: nat) {
    && ps != []
    && (forall i :: 0 <= i < |ps| ==>
          && ps[i].op < 8 && ps[i].total == total
          && ps[i].off == |Data(ps[..i])|)
    && (forall i :: 0 < i < |ps| ==> 0 < |Data(ps[..i])| < total)
  }

  /** All the pieces of one frame. */
  ghost predicate WholeFrame(ps: seq<Piece>) {
    ps != [] && Cut(ps, ps[0].total) && |Data(ps)| == ps[0].total
  }

  /** Frames of one message so far: the first carries its opcode, the others continue it. */
  ghost predicate Opened(fs: seq<seq<Piece>>, opcode: nat) {
    && fs != [] && 1 <= opcode <= 2
    && (forall k :: 0 <= k < |fs| ==> fs[k] != [] && fs[k][0].op == if k == 0 then opcode else 0)
  }

  /** A whole fragmented message: its last piece, and no earlier frame's, is final. */
  ghost predicate IsMessage(fs: seq<seq<Piece>>, opcode: nat) {
    && Opened(fs, opcode)
    && (forall k :: 0 <= k < |fs| ==>
          WholeFrame(fs[k]) && (fs[k][|fs[k]| - 1].fin <==> k == |fs| - 1))
    && |Data(Concat(fs))| <= MESSAGE_MAX
  }

  lemma DataAppend(ps: seq<Piece>, p: Piece)
    ensures Data(ps + [p]) == Data(ps) + p.data
  {
    assert (ps + [p])[..|ps|] == ps;
  }

  lemma ConcatAppend(fs: seq<seq<Piece>>, f: seq<Piece>)
    ensures Concat(fs + [f]) == Concat(fs) + f
  {
    assert (fs + [f])[..|fs|] == fs;
  }

  lemma {:induction false} DataConcat(a: seq<Piece>, b: seq<Piece>)
    ensures Data(a + b) == Data(a) + Data(b)
  {
    if b == [] {
      assert a + b == a;
    } else {
      var c := b[..|b| - 1];
      DataConcat(a, c);
      assert (a + b)[..|a + b| - 1] == a + c;
      assert Data(a + b) == Data(a + c) + b[|b| - 1].data;
      assert Data(a) + (Data(c) + b[|b| - 1].data) == (Data(a) + Data(c)) + b[|b| - 1].data;
    }
  }

  // --------------------------------------------------------------------- runs

  function After(m: Assembly, ps: seq<Piece>): Assembly {
    if ps == [] then m else Feed(After(m, ps[..|ps| - 1]), ps[|ps| - 1]).0
  }

  function Result(m: Assembly, ps: seq<Piece>, i: nat): int
    requires i < |ps|
  {
    Feed(After(m, ps[..i]), ps[i]).1
  }

  /** Every piece is taken with 0, except the last, which returns 1. */
  ghost predicate Accepts(m: Assembly, ps: seq<Piece>) {
    ps != [] && forall i :: 0 <= i < |ps| ==> Result(m, ps, i) == if i == |ps| - 1 then 1 else 0
  }

  lemma AfterAppend(m: Assembly, ps: seq<Piece>, p: Piece)
    ensures After(m, ps + [p]) == Feed(After(m, ps), p).0
    ensures Result(m, ps + [p], |ps|) == Feed(After(m, ps), p).1
  {
    assert (ps + [p])[..|ps|] == ps;
  }

  lemma {:induction false} AfterInv(m: Assembly, ps: seq<Piece>)
    requires Inv(m)
    ensures Inv(After(m, ps))
  {
    if ps != [] {
      AfterInv(m, ps[..|ps| - 1]);
      FeedInv(After(m, ps[..|ps| - 1]), ps[|ps| - 1]);
    }
  }

  // ---------------------------------------------------------------- soundness

  /** `whole` frames and the pieces `cur` of a further one are what the open message consists of. */
  ghost predicate History(m: Assembly, whole: seq<seq<Piece>>, cur: seq<Piece>) {
    && m.open
    && Opened(if cur == [] then whole else whole + [cur], m.opcode)
    && Unfinished(whole)
    && (m.inFrame <==> cur != [])
    && (cur != [] ==> Cut(cur, m.frameSize) && |Data(cur)| == m.frameUsed < m.frameSize)
    && m.bytes == Data(Concat(whole) + cur)
  }

  lemma CutGrows(ps: seq<Piece>, total: nat, p: Piece)
    requires Cut(ps, total) && 0 < |Data(ps)| < total
    requires p.op < 8 && p.total == total && p.off == |Data(ps)|
    ensures Cut(ps + [p], total)
  {
    var qs := ps + [p];
    assert forall i :: 0 <= i <= |ps| ==> qs[..i] == ps[..i];
    assert ps[..|ps|] == ps;
  }

  lemma CutTotal(ps: seq<Piece>, total: nat)
    requires Cut(ps, total)
    ensures forall i :: 0 <= i < |ps| ==> ps[i].total == total
  {
  }

  lemma CutStarts(p: Piece)
    requires p.op < 8 && p.off == 0
    ensures Cut([p], p.total) && Data([p]) == p.data
  {
    DataAppend([], p);
    assert [] + [p] == [p];
  }

  /** What is known about the open message, or that none is open. */
  ghost predicate Tracked(m: Assembly, whole: seq<seq<Piece>>, cur: seq<Piece>) {
    if m.open then History(m, whole, cur) else !m.inFrame && whole == [] && cur == []
  }

  /** The record at the point where the piece is copied. */
  function Entered(m: Assembly, p: Piece): Assembly {
    if p.off == 0 then Begin(m, p) else m
  }

  ghost predicate Extends(m: Assembly, whole: seq<seq<Piece>>, pieces: seq<Piece>, p: Piece) {
    var n := Entered(m, p);
    && Feed(m, p) == Append(n, p)
    && Cut(pieces, p.total) && |Data(pieces)| == n.frameUsed + |p.data| <= p.total
    && Opened(whole + [pieces], n.opcode)
    && n.open && n.inFrame && n.frameSize == p.total
    && n.bytes + p.data == Data(Concat(whole) + pieces)
  }

  lemma StartFeeds(m: Assembly, p: Piece)
    requires Effective(p) && p.off == 0 && Feed(m, p).1 != -1
    ensures !BadStart(m, p) && Feed(m, p) == Append(Begin(m, p), p)
  {
  }

  /** One more frame starts, as the first of a message or as a continuation. */
  lemma OpenedMore(whole: seq<seq<Piece>>, p: Piece, opcode: nat)
    requires if whole == [] then p.op == opcode && 1 <= opcode <= 2 else Opened(whole, opcode) && p.op == 0
    ensures Opened(whole + [[p]], opcode)
  {
    var fs := whole + [[p]];
    assert fs[|whole|] == [p] && forall k :: 0 <= k < |whole| ==> fs[k] == whole[k];
  }

  lemma DataBegins(m: Assembly, whole: seq<seq<Piece>>, p: Piece)
    requires Begin(m, p).bytes == Data(Concat(whole))
    ensures Begin(m, p).bytes + p.data == Data(Concat(whole) + [p])
  {
    hide Concat, Begin;
    DataAppend(Concat(whole), p);
  }

  lemma NoBytes()
    ensures Data(Concat<Piece>([])) == []
  {
  }

  /** A piece accepted at a frame boundary opens or continues a message. */
  lemma ExtendStart(m: Assembly, whole: seq<seq<Piece>>, cur: seq<Piece>, p: Piece)
    requires Effective(p) && Tracked(m, whole, cur) && p.off == 0 && Feed(m, p).1 != -1
    ensures cur == [] && Extends(m, whole, [p], p)
  {
    hide Feed, Cut, Data, Concat, Append, Unfinished;
    StartFeeds(m, p);
    CutStarts(p);
    NoBytes();
    assert Concat(whole) + [] == Concat(whole);
    OpenedMore(whole, p, Begin(m, p).opcode);
    DataBegins(m, whole, p);
  }

  /** A piece accepted inside a frame follows the pieces before it. */
  lemma ExtendMiddle(m: Assembly, whole: seq<seq<Piece>>, cur: seq<Piece>, p: Piece)
    requires Inv(m) && Effective(p) && Tracked(m, whole, cur) && p.off != 0 && Feed(m, p).1 != -1
    ensures Extends(m, whole, cur + [p], p)
  {
    hide Cut, Opened, Data, Concat;
    assert cur != [] && Cut(cur, p.total) by { assert History(m, whole, cur); }
    CutGrows(cur, p.total, p);
    DataAppend(cur, p);
    DataAppend(Concat(whole) + cur, p);
    assert Concat(whole) + (cur + [p]) == Concat(whole) + cur + [p];
    OpenedGrows(whole, cur, p, m.opcode);
  }

  lemma OpenedGrows(whole: seq<seq<Piece>>, cur: seq<Piece>, p: Piece, opcode: nat)
    requires cur != [] && Opened(whole + [cur], opcode)
    ensures Opened(whole + [cur + [p]], opcode)
  {
    var before, after := whole + [cur], whole + [cur + [p]];
    assert forall k :: 0 <= k < |whole| ==> after[k] == before[k];
    assert before[|whole|] == cur && after[|whole|] == cur + [p];
  }

  lemma Extend(m: Assembly, whole: seq<seq<Piece>>, cur: seq<Piece>, p: Piece)
    requires Inv(m) && Effective(p) && Tracked(m, whole, cur) && Feed(m, p).1 != -1
    ensures Extends(m, whole, cur + [p], p)
    ensures Concat(whole + [cur + [p]]) == Concat(whole) + cur + [p]
  {
    hide Extends, Concat, Feed, History;
    if p.off == 0 {
      ExtendStart(m, whole, cur, p);
      assert cur + [p] == [p];
    } else {
      ExtendMiddle(m, whole, cur, p);
    }
    ConcatAppend(whole, cur + [p]);
    assert Concat(whole) + (cur + [p]) == Concat(whole) + cur + [p];
  }

  ghost predicate Unfinished(whole: seq<seq<Piece>>) {
    forall k :: 0 <= k < |whole| ==> WholeFrame(whole[k]) && !whole[k][|whole[k]| - 1].fin
  }

  /** The history after one accepted piece that does not end the message. */
  lemma HistoryStep(m: Assembly, whole: seq<seq<Piece>>, cur: seq<Piece>, p: Piece)
    returns (whole': seq<seq<Piece>>, cur': seq<Piece>)
    requires Inv(m) && Effective(p) && Tracked(m, whole, cur) && Feed(m, p).1 == 0
    ensures History(Feed(m, p).0, whole', cur')
    ensures Concat(whole') + cur' == Concat(whole) + cur + [p]
  {
    hide Cut, Data, Concat, Opened;
    Extend(m, whole, cur, p);
    var pieces := cur + [p];
    assert Unfinished(whole);
    CutTotal(pieces, p.total);
    if |Data(pieces)| == p.total {
      whole', cur' := whole + [pieces], [];
      assert Concat(whole') + cur' == Concat(whole');
      ConcatAppend(whole, pieces);
      assert Unfinished(whole');
    } else {
      whole', cur' := whole, pieces;
      assert Concat(whole) + pieces == Concat(whole) + cur + [p];
    }
  }

  /** The frames of the message that a piece completes. */
  lemma HistoryEnd(m: Assembly, whole: seq<seq<Piece>>, cur: seq<Piece>, p: Piece)
    returns (fs: seq<seq<Piece>>)
    requires Inv(m) && Effective(p) && Tracked(m, whole, cur) && Feed(m, p).1 == 1
    ensures IsMessage(fs, Feed(m, p).0.opcode) && Concat(fs) == Concat(whole) + cur + [p]
    ensures Feed(m, p).0.bytes == Data(Concat(fs))
  {
    hide Cut, Data, Concat;
    FeedInv(m, p);
    Extend(m, whole, cur, p);
    var pieces := cur + [p];
    fs := whole + [pieces];
    ConcatAppend(whole, pieces);
    CutTotal(pieces, p.total);
    assert Unfinished(whole) && WholeFrame(pieces) && p.fin;
    assert forall k :: 0 <= k < |whole| ==> fs[k] == whole[k];
    assert fs[|whole|] == pieces && pieces[|pieces| - 1] == p;
  }

  ghost predicate AllEffective(ps: seq<Piece>) {
    forall i :: 0 <= i < |ps| ==> Effective(ps[i])
  }

  ghost predicate AllZero(m: Assembly, ps: seq<Piece>) {
    forall i :: 0 <= i < |ps| ==> Result(m, ps, i) == 0
  }

  lemma {:induction false} Progress(m: Assembly, ps: seq<Piece>)
    returns (whole: seq<seq<Piece>>, cur: seq<Piece>)
    requires Inv(m) && Idle(m) && AllEffective(ps) && AllZero(m, ps)
    ensures Tracked(After(m, ps), whole, cur) && Concat(whole) + cur == ps
  {
    hide Feed, Cut, Data, Opened, WholeFrame, Inv, Effective;
    if ps == [] {
      whole, cur := [], [];
    } else {
      var n, rest := |ps| - 1, ps[..|ps| - 1];
      forall i | 0 <= i < n ensures Result(m, rest, i) == 0 {
        assert rest[..i] == ps[..i] && Result(m, ps, i) == 0;
      }
      whole, cur := Progress(m, rest);
      AfterInv(m, rest);
      assert Result(m, ps, n) == 0;
      whole, cur := HistoryStep(After(m, rest), whole, cur, ps[n]);
      assert rest + [ps[n]] == ps;
    }
  }

  /** A run that ends in 1 has taken a well-formed message, and holds its bytes. */
  lemma AcceptedIsMessage(m: Assembly, ps: seq<Piece>) returns (fs: seq<seq<Piece>>)
    requires Inv(m) && Idle(m) && AllEffective(ps) && Accepts(m, ps)
    ensures IsMessage(fs, After(m, ps).opcode) && Concat(fs) == ps
    ensures After(m, ps).bytes == Data(ps)
  {
    hide Feed, Cut, Data, Opened, WholeFrame, Inv, Effective, IsMessage, Concat;
    var n, rest := |ps| - 1, ps[..|ps| - 1];
    forall i | 0 <= i < n ensures Result(m, rest, i) == 0 {
      assert rest[..i] == ps[..i] && Result(m, ps, i) == 0;
    }
    var whole, cur := Progress(m, rest);
    AfterInv(m, rest);
    assert Result(m, ps, n) == 1;
    fs := HistoryEnd(After(m, rest), whole, cur, ps[n]);
    assert rest + [ps[n]] == ps;
  }

  // -------------------------------------------------------------- completeness

  lemma {:induction false} AfterConcat(m: Assembly, a: seq<Piece>, b: seq<Piece>)
    ensures After(m, a + b) == After(After(m, a), b)
  {
    if b == [] {
      assert a + b == a;
    } else {
      AfterConcat(m, a, b[..|b| - 1]);
      assert (a + b)[..|a + b| - 1] == a + b[..|b| - 1];
    }
  }

  lemma ResultConcat(m: Assembly, a: seq<Piece>, b: seq<Piece>, i: nat)
    requires i < |a| + |b|
    ensures Result(m, a + b, i) == if i < |a| then Result(m, a, i) else Result(After(m, a), b, i - |a|)
  {
    if i < |a| {
      assert (a + b)[..i] == a[..i];
    } else {
      assert (a + b)[..i] == a + b[..i - |a|];
      AfterConcat(m, a, b[..i - |a|]);
    }
  }

  lemma {:induction false} DataPrefix(ps: seq<Piece>, k: nat)
    requires k <= |ps|
    ensures |Data(ps[..k])| <= |Data(ps)|
  {
    DataConcat(ps[..k], ps[k..]);
    assert ps[..k] + ps[k..] == ps;
  }

  /** The record once `k` pieces of a frame have been copied. */
  function Inside(m: Assembly, ps: seq<Piece>, k: nat): Assembly
    requires 0 < |ps| && k <= |ps|
  {
    var n := Begin(m, ps[0]);
    n.(bytes := n.bytes + Data(ps[..k]), frameUsed := |Data(ps[..k])|)
  }

  /** The bytes of the pieces up to and with piece `k`. */
  lemma DataStep(ps: seq<Piece>, k: nat)
    requires WholeFrame(ps) && k < |ps|
    ensures Data(ps[..k + 1]) == Data(ps[..k]) + ps[k].data
    ensures |Data(ps[..k + 1])| <= ps[0].total
  {
    assert ps[..k + 1] == ps[..k] + [ps[k]];
    DataAppend(ps[..k], ps[k]);
    DataPrefix(ps, k + 1);
  }

  lemma InsideBytes(m: Assembly, ps: seq<Piece>, k: nat)
    requires WholeFrame(ps) && !BadStart(m, ps[0]) && k < |ps|
    ensures Inside(m, ps, k).bytes + ps[k].data == Inside(m, ps, k + 1).bytes
    ensures k == 0 ==> Inside(m, ps, 0) == Begin(m, ps[0])
  {
    hide Cut, BadStart, Begin;
    DataStep(ps, k);
    var base := Begin(m, ps[0]).bytes;
    assert base + Data(ps[..k]) + ps[k].data == base + (Data(ps[..k]) + ps[k].data);
    if k == 0 {
      assert ps[..0] == [] && base + [] == base;
      BeginFresh(m, ps[0]);
    }
  }

  lemma BeginFresh(m: Assembly, p: Piece)
    ensures Begin(m, p).frameUsed == 0
  {
  }

  lemma InsideStep(m: Assembly, ps: seq<Piece>, k: nat)
    requires WholeFrame(ps) && !BadStart(m, ps[0]) && k < |ps|
    ensures Feed(if k == 0 then m else Inside(m, ps, k), ps[k]) == Append(Inside(m, ps, k), ps[k])
    ensures |Data(ps[..k])| + |ps[k].data| == |Data(ps[..k + 1])| <= ps[0].total
    ensures Inside(m, ps, k).bytes + ps[k].data == Inside(m, ps, k + 1).bytes
  {
    hide Data;
    DataStep(ps, k);
    InsideBytes(m, ps, k);
  }

  /** Every piece but the last leaves the record inside the frame. */
  lemma InsideNext(m: Assembly, ps: seq<Piece>, k: nat)
    requires WholeFrame(ps) && !BadStart(m, ps[0]) && k + 1 < |ps|
    ensures Feed(if k == 0 then m else Inside(m, ps, k), ps[k]) == (Inside(m, ps, k + 1), 0)
  {
    InsideStep(m, ps, k);
    InsideStep(m, ps, k + 1);
    CutTotal(ps, ps[0].total);
  }

  /** The last piece closes the frame. */
  lemma InsideLast(m: Assembly, ps: seq<Piece>, k: nat)
    requires WholeFrame(ps) && !BadStart(m, ps[0]) && k + 1 == |ps|
    ensures var fed := Feed(if k == 0 then m else Inside(m, ps, k), ps[k]);
            && fed.1 == (if ps[k].fin then 1 else 0)
            && !fed.0.inFrame && fed.0.open == !ps[k].fin && fed.0.opcode == Begin(m, ps[0]).opcode
            && fed.0.bytes == Begin(m, ps[0]).bytes + Data(ps)
  {
    hide Feed;
    InsideStep(m, ps, k);
    CutTotal(ps, ps[0].total);
    assert ps[..k + 1] == ps;
  }

  lemma {:induction false} FrameSoFar(m: Assembly, ps: seq<Piece>, k: nat)
    requires WholeFrame(ps) && !BadStart(m, ps[0]) && 0 < k < |ps|
    ensures After(m, ps[..k]) == Inside(m, ps, k) && AllZero(m, ps[..k])
  {
    hide Feed, WholeFrame, Inside, BadStart;
    var part := ps[..k - 1];
    assert ps[..k] == part + [ps[k - 1]];
    if k == 1 {
      assert After(m, part) == m;
    } else {
      FrameSoFar(m, ps, k - 1);
    }
    InsideNext(m, ps, k - 1);
    AfterAppend(m, part, ps[k - 1]);
    forall i | 0 <= i < k - 1 ensures Result(m, ps[..k], i) == 0 {
      assert ps[..k][..i] == part[..i] && Result(m, part, i) == 0;
    }
  }

  /** A whole frame leaves the record at a frame boundary, with its bytes added. */
  lemma FrameAccepted(m: Assembly, ps: seq<Piece>)
    requires WholeFrame(ps) && !BadStart(m, ps[0])
    ensures var last, n := ps[|ps| - 1], After(m, ps);
            && !n.inFrame && n.open == !last.fin
            && n.opcode == Begin(m, ps[0]).opcode && n.bytes == Begin(m, ps[0]).bytes + Data(ps)
    ensures forall i :: 0 <= i < |ps| ==>
      Result(m, ps, i) == if i == |ps| - 1 && ps[i].fin then 1 else 0
  {
    hide Feed, Cut, Inside, BadStart, Begin, Data;
    var k := |ps| - 1;
    var part := ps[..k];
    assert ps == part + [ps[k]];
    if k > 0 { FrameSoFar(m, ps, k); } else { assert After(m, part) == m; }
    InsideLast(m, ps, k);
    AfterAppend(m, part, ps[k]);
    forall i | 0 <= i < k ensures Result(m, ps, i) == 0 {
      assert ps[..i] == part[..i] && Result(m, part, i) == 0;
    }
  }

  /** After some whole frames of a message: at a boundary, open, with their bytes. */
  lemma {:induction false} MessageSoFar(m: Assembly, fs: seq<seq<Piece>>, opcode: nat, k: nat)
    requires Idle(m) && IsMessage(fs, opcode) && k < |fs|
    ensures var n := After(m, Concat(fs[..k]));
            if k == 0 then n == m
            else !n.inFrame && n.open && n.opcode == opcode && n.bytes == Data(Concat(fs[..k]))
    ensures AllZero(m, Concat(fs[..k])) && !BadStart(After(m, Concat(fs[..k])), fs[k][0])
  {
    hide Feed, Cut, Data, Concat, After, Result;
    Nothing(m);
    assert fs[..0] == [];
    if k > 0 {
      MessageSoFar(m, fs, opcode, k - 1);
      assert fs[..k] == fs[..k - 1] + [fs[k - 1]];
      ConcatAppend(fs[..k - 1], fs[k - 1]);
      NextFrame(m, Concat(fs[..k - 1]), fs[k - 1]);
    }
    RoomForFrame(fs, k);
  }

  lemma Nothing(m: Assembly)
    ensures Concat<Piece>([]) == [] && Data([]) == [] && After(m, []) == m && AllZero(m, [])
  {
  }

  /** One more frame behind pieces already taken. */
  lemma NextFrame(m: Assembly, earlier: seq<Piece>, f: seq<Piece>)
    requires AllZero(m, earlier) && WholeFrame(f) && !f[|f| - 1].fin
    requires !BadStart(After(m, earlier), f[0]) && Begin(After(m, earlier), f[0]).bytes == Data(earlier)
    ensures var n := After(m, earlier + f);
            && !n.inFrame && n.open && n.opcode == Begin(After(m, earlier), f[0]).opcode
            && n.bytes == Data(earlier + f)
    ensures AllZero(m, earlier + f)
  {
    hide Feed, Cut, BadStart, Data;
    FrameAccepted(After(m, earlier), f);
    AfterConcat(m, earlier, f);
    DataConcat(earlier, f);
    forall i | 0 <= i < |earlier + f| ensures Result(m, earlier + f, i) == 0 {
      ResultConcat(m, earlier, f, i);
    }
  }

  lemma RoomForFrame(fs: seq<seq<Piece>>, k: nat)
    requires k < |fs| && |Data(Concat(fs))| <= MESSAGE_MAX && WholeFrame(fs[k])
    ensures |Data(Concat(fs[..k]))| + fs[k][0].total <= MESSAGE_MAX
  {
    ConcatAppend(fs[..k], fs[k]);
    assert fs[..k + 1] == fs[..k] + [fs[k]];
    DataConcat(Concat(fs[..k]), fs[k]);
    ConcatPrefix(fs, k + 1);
    DataPrefix(Concat(fs), |Concat(fs[..k + 1])|);
  }

  lemma {:induction false} ConcatPrefix(fs: seq<seq<Piece>>, k: nat)
    requires k <= |fs|
    ensures |Concat(fs[..k])| <= |Concat(fs)| && Concat(fs)[..|Concat(fs[..k])|] == Concat(fs[..k])
  {
    if k < |fs| {
      var most := fs[..|fs| - 1];
      ConcatPrefix(most, k);
      assert most[..k] == fs[..k];
    } else {
      assert fs[..k] == fs;
    }
  }

  /** Every fragmentation of a message is taken, and completes it at its last piece. */
  lemma MessageIsAccepted(m: Assembly, fs: seq<seq<Piece>>, opcode: nat)
    requires Idle(m) && IsMessage(fs, opcode)
    ensures Accepts(m, Concat(fs))
    ensures var n := After(m, Concat(fs)); Idle(n) && n.opcode == opcode && n.bytes == Data(Concat(fs))
  {
    hide Feed, Cut, Data, Concat, After, Result, BadStart;
    Nothing(m);
    assert fs[..0] == [];
    var k := |fs| - 1;
    var before, f := Concat(fs[..k]), fs[k];
    MessageSoFar(m, fs, opcode, k);
    ConcatAppend(fs[..k], f);
    assert fs == fs[..k] + [f];
    var n := After(m, before);
    FrameAccepted(n, f);
    AfterConcat(m, before, f);
    DataConcat(before, f);
    forall i | 0 <= i < |Concat(fs)|
      ensures Result(m, Concat(fs), i) == if i == |Concat(fs)| - 1 then 1 else 0
    {
      ResultConcat(m, before, f, i);
    }
  }

  /** Between messages, the runs that the code completes are exactly the messages of the grammar. */
  lemma AcceptsExactlyMessages(m: Assembly, ps: seq<Piece>)
    requires Inv(m) && Idle(m) && AllEffective(ps)
    ensures Accepts(m, ps) <==> exists fs, opcode :: IsMessage(fs, opcode) && Concat(fs) == ps
  {
    if Accepts(m, ps) {
      var fs := AcceptedIsMessage(m, ps);
    }
    if fs, opcode :| IsMessage(fs, opcode) && Concat(fs) == ps {
      MessageIsAccepted(m, fs, opcode);
    }
  }

  // ------------------------------------------- arbitrary events, control frames included

  /** The events that can change the record. */
  function Kept(es: seq<Piece>): seq<Piece> {
    if es == [] then []
    else Kept(es[..|es| - 1]) + if Effective(es[|es| - 1]) then [es[|es| - 1]] else []
  }

  /** Control frames and inconsistent lengths are transparent. */
  lemma {:induction false} OthersTransparent(m: Assembly, es: seq<Piece>)
    ensures After(m, es) == After(m, Kept(es))
  {
    if es != [] {
      var rest, p := es[..|es| - 1], es[|es| - 1];
      OthersTransparent(m, rest);
      if Effective(p) {
        AfterAppend(m, Kept(rest), p);
      } else {
        assert Kept(rest) + [] == Kept(rest);
      }
    }
  }

  lemma {:induction false} KeptPrefix(es: seq<Piece>, i: nat)
    requires i < |es|
    ensures |Kept(es[..i])| <= |Kept(es)| && Kept(es)[..|Kept(es[..i])|] == Kept(es[..i])
    ensures Effective(es[i]) ==> |Kept(es[..i])| < |Kept(es)| && Kept(es)[|Kept(es[..i])|] == es[i]
  {
    var rest := es[..|es| - 1];
    if i < |rest| {
      KeptPrefix(rest, i);
      assert rest[..i] == es[..i];
    }
  }

  /**
   Any valid fragmentation, with control frames and malformed events anywhere among its
   pieces: each data piece returns 0 except the last, which returns 1.
   */
  lemma InterleavedMessage(m: Assembly, fs: seq<seq<Piece>>, opcode: nat, es: seq<Piece>, i: nat)
    requires Idle(m) && IsMessage(fs, opcode) && Kept(es) == Concat(fs) && i < |es|
    ensures var n := After(m, es); Idle(n) && n.opcode == opcode && n.bytes == Data(Concat(fs))
    ensures Result(m, es, i) ==
      if es[i].op >= 8 then 0
      else if !Effective(es[i]) then -1
      else if |Kept(es[..i])| == |Kept(es)| - 1 then 1 else 0
  {
    hide Cut, Data, IsMessage;
    MessageIsAccepted(m, fs, opcode);
    OthersTransparent(m, es);
    OthersTransparent(m, es[..i]);
    KeptPrefix(es, i);
    if Effective(es[i]) { assert Result(m, es, i) == Result(m, Kept(es), |Kept(es[..i])|); }
  }

  predicate IsSuffix(a: seq<Piece>, b: seq<Piece>) {
    |a| <= |b| && b[|b| - |a|..] == a
  }

  /** In every run, the open message consists of the most recent effective pieces. */
  lemma {:induction false} RunTracked(es: seq<Piece>)
    returns (whole: seq<seq<Piece>>, cur: seq<Piece>)
    ensures Inv(After(BLANK, es)) && Tracked(After(BLANK, es), whole, cur)
    ensures IsSuffix(Concat(whole) + cur, Kept(es))
  {
    hide Cut, Data, Opened, Feed, Concat;
    AfterInv(BLANK, es);
    whole, cur := [], [];
    Nothing(BLANK);
    if es != [] {
      var rest, p := es[..|es| - 1], es[|es| - 1];
      var w, c := RunTracked(rest);
      var m := After(BLANK, rest);
      FeedOutcome(m, p);
      if !Effective(p) {
        assert Kept(es) == Kept(rest);
        whole, cur := w, c;
      } else if Feed(m, p).1 == 0 {
        whole, cur := HistoryStep(m, w, c, p);
        SuffixGrows(Concat(w) + c, Kept(rest), p);
      }
    }
  }

  lemma FeedOutcome(m: Assembly, p: Piece)
    requires Inv(m)
    ensures !Effective(p) ==> Feed(m, p).0 == m && Feed(m, p).1 != 1
    ensures Effective(p) && Feed(m, p).1 != 0 ==> Idle(Feed(m, p).0)
    ensures -1 <= Feed(m, p).1 <= 1
  {
  }

  lemma SuffixGrows(a: seq<Piece>, b: seq<Piece>, p: Piece)
    requires IsSuffix(a, b)
    ensures IsSuffix(a + [p], b + [p])
  {
  }

  /** Whatever came before, a returned 1 holds exactly a message made of the latest effective pieces. */
  lemma CompletedIsSound(es: seq<Piece>, p: Piece) returns (fs: seq<seq<Piece>>)
    requires Feed(After(BLANK, es), p).1 == 1
    ensures var n := After(BLANK, es + [p]);
            && IsMessage(fs, n.opcode) && n.bytes == Data(Concat(fs))
            && IsSuffix(Concat(fs), Kept(es + [p]))
  {
    hide Cut, Data, Opened, History, Feed;
    var whole, cur := RunTracked(es);
    FeedOutcome(After(BLANK, es), p);
    fs := HistoryEnd(After(BLANK, es), whole, cur, p);
    AfterAppend(BLANK, es, p);
    assert (es + [p])[..|es|] == es;
    SuffixGrows(Concat(whole) + cur, Kept(es), p);
  }
}
