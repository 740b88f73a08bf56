/**
 Default-colour replies under split reads and idle timeouts: exactly which timeouts leave a
 reply whole, and what happens to the input after a reply that was cut.
 */
module FramerColor {
  import opened Options
  import opened Bytes
  import Utf8
  import opened TerminalTheme
  import opened RawInput
  import opened Framer
  import opened FramerSplit
  import opened FramerSafety

  const REPLY_LEN: nat := 19

  /** The byte shape shared by every printed reply. */
  ghost predicate HasReplyShape(r: bytes) {
    && |r| == REPLY_LEN
    && r[0] == ESC && r[1] == 0x5d && r[2] == 0x31 && (r[3] == 0x30 || r[3] == 0x31) && r[4] == 0x3b
    && r[17] == ESC && r[18] == 0x5c
    && (forall i | 1 <= i < 17 :: r[i] != ESC && r[i] != BEL)
    && (forall i | 0 <= i < REPLY_LEN :: r[i] < 0x80)
  }

  ghost predicate IsReply(r: bytes) {
    HasReplyShape(r) && ParseDefaultColorResponse(r).Some?
  }

  lemma Hex2Bytes(v: byte)
    ensures |Hex2(v)| == 2
    ensures forall i | 0 <= i < 2 :: IsDigit(Hex2(v)[i]) || 0x61 <= Hex2(v)[i] <= 0x66
  {
  }

  /** A printed reply, byte by byte. */
  lemma PrintedBytes(kind: DefaultColorKind, color: RgbColor)
    ensures |Hex2(color.r)| == |Hex2(color.g)| == |Hex2(color.b)| == 2
    ensures var (a, b, c) := (Hex2(color.r), Hex2(color.g), Hex2(color.b));
            OscSetDefaultColorSequence(kind, color) ==
            [ESC, 0x5d, 0x31, if kind.Foreground? then 0x30 else 0x31, 0x3b, 0x72, 0x67, 0x62, 0x3a,
             a[0], a[1], 0x2f, b[0], b[1], 0x2f, c[0], c[1], ESC, 0x5c]
  {
    Hex2Bytes(color.r);
    Hex2Bytes(color.g);
    Hex2Bytes(color.b);
    hide Hex2;
  }

  lemma PrintedShape(kind: DefaultColorKind, color: RgbColor)
    ensures HasReplyShape(OscSetDefaultColorSequence(kind, color))
  {
    PrintedBytes(kind, color);
    Hex2Bytes(color.r);
    Hex2Bytes(color.g);
    Hex2Bytes(color.b);
    hide Hex2, OscSetDefaultColorSequence;
  }

  lemma PrintedReply(kind: DefaultColorKind, color: RgbColor)
    ensures IsReply(OscSetDefaultColorSequence(kind, color))
  {
    hide HasReplyShape, OscSetDefaultColorSequence, ParseDefaultColorResponse;
    PrintedShape(kind, color);
    ColorReplyRoundTrip(kind, color);
  }

  lemma {:induction false} AsciiIsValid(s: bytes)
    requires forall i | 0 <= i < |s| :: s[i] < 0x80
    ensures Utf8.IsValid(s)
    decreases |s|
  {
    if s != [] {
      assert s[..1] == [s[0]];
      AsciiIsValid(s[1..]);
    }
  }

  lemma OccursAtSt(b: bytes, i: nat)
    ensures OccursAt(b, ST, i) <==> i + 2 <= |b| && b[i] == ESC && b[i + 1] == 0x5c
  {
    if i + 2 <= |b| {
      assert b[i..i + 2] == [b[i], b[i + 1]];
    }
  }

  lemma NoSt(b: bytes)
    requires forall i | 0 <= i < |b| - 1 :: !(b[i] == ESC && b[i + 1] == 0x5c)
    ensures FindSubsequence(b, ST, 0) == None
  {
    forall i: nat
      ensures !OccursAt(b, ST, i)
    {
      OccursAtSt(b, i);
    }
  }

  lemma NoBel(b: bytes)
    requires forall i | 0 <= i < |b| :: b[i] != BEL
    ensures FindFrom(b, 0, x => x == BEL) == None
  {
  }

  lemma StAtEnd(b: bytes)
    requires |b| >= 2 && b[|b| - 2] == ESC && b[|b| - 1] == 0x5c
    requires forall i | 0 <= i < |b| - 2 :: !(b[i] == ESC && b[i + 1] == 0x5c)
    ensures FindSubsequence(b, ST, 0) == Some(|b| - 2)
  {
    OccursAtSt(b, |b| - 2);
    forall i: nat | i < |b| - 2
      ensures !OccursAt(b, ST, i)
    {
      OccursAtSt(b, i);
    }
    assert FindSubsequence(b, ST, 0).Some?;
  }

  /** The reply's terminator is the first one from any point after its introducer. */
  lemma ReplyTerminator(r: bytes, from: nat, to: nat)
    requires HasReplyShape(r) && from <= 17 && from <= to <= REPLY_LEN
    ensures to < REPLY_LEN ==> TerminatorLen(r[from..to], Osc).None?
    ensures to == REPLY_LEN ==> TerminatorLen(r[from..to], Osc) == Some(REPLY_LEN - from)
  {
    hide FindSubsequence, FindFrom;
    var b := r[from..to];
    assert forall i | 0 <= i < |b| :: b[i] == r[from + i];
    assert forall i | 0 <= i < REPLY_LEN :: r[i] != BEL;
    assert forall i | 0 <= i < 17 :: !(r[i] == ESC && r[i + 1] == 0x5c);
    NoBel(b);
    forall i | 0 <= i < |b| - 1 && from + i < 17
      ensures !(b[i] == ESC && b[i + 1] == 0x5c)
    {
      assert b[i] == r[from + i] && b[i + 1] == r[from + i + 1];
    }
    if to < REPLY_LEN {
      NoSt(b);
    } else {
      StAtEnd(b);
    }
  }

  lemma ReplyPrefix(isKey: KeyParser, r: bytes, k: nat)
    requires IsReply(r) && k < REPLY_LEN
    ensures ExtractOneEvent(isKey, r[..k]).None?
    ensures k >= 2 ==> Introduces(r[..k]) == Some(Osc) && TerminatorLen(r[..k], Osc).None?
  {
    var b := r[..k];
    if k >= 1 { assert b[0] == ESC; }
    if k >= 2 {
      assert b[1] == 0x5d;
      ReplyTerminator(r, 0, k);
      assert r[0..k] == b;
    }
  }

  lemma ReplyWhole(isKey: KeyParser, r: bytes)
    requires IsReply(r)
    ensures var out := ExtractOneEvent(isKey, r);
            out.Some? && out.value.consumed == REPLY_LEN && out.value.event.HostDefaultColor?
            && ParseDefaultColorResponse(r) == Some((out.value.event.kind, out.value.event.color))
  {
    hide ParseDefaultColorResponse, TerminatorLen, Utf8.IsValid;
    ReplyTerminator(r, 0, REPLY_LEN);
    assert r[0..REPLY_LEN] == r == r[..REPLY_LEN];
    AsciiIsValid(r);
  }

  /** `k` bytes of the reply are buffered and nothing else is going on. */
  ghost predicate AtPrefix(s: State, r: bytes, k: nat) {
    k < REPLY_LEN && |r| == REPLY_LEN && KeepsAll(s) && s.buffer == r[..k]
  }

  predicate MayHold(s: State) {
    s.repliesAwaited > 0 && !s.heldEscape
  }

  /**
   Timeouts a reply survives, `k` bytes of it having arrived: none after bytes 2 to 4, and right
   after its ESC only one, while a reply is awaited and the ESC was not held before.
   */
  predicate Gentle(ops: seq<Op>, k: nat, mayHold: bool)
    decreases |ops|
  {
    ops == [] ||
    match ops[0]
    case Input(data) => Gentle(ops[1..], k + |data|, mayHold)
    case Idle => !(2 <= k <= 4) && (k == 1 ==> mayHold) && Gentle(ops[1..], k, mayHold && k != 1)
    case ColorQuerySent => Gentle(ops[1..], k, true)
    case TrackSchemeChanges => Gentle(ops[1..], k, mayHold)
  }

  lemma FeedPrefix(isKey: KeyParser, s: State, r: bytes, k: nat, data: bytes)
    requires IsReply(r) && AtPrefix(s, r, k)
    requires k + |data| <= REPLY_LEN && s.buffer + data == r[..k + |data|]
    ensures k + |data| < REPLY_LEN ==> Feed(isKey, s, data) == Output(s.(buffer := r[..k + |data|]), [])
    ensures k + |data| == REPLY_LEN ==>
              var out := Feed(isKey, s, data);
              out.chunks == [r] && KeepsAll(out.state) && out.state.buffer == []
  {
    hide ExtractOneEvent, IsReply;
    var t := s.(buffer := s.buffer + data);
    if k + |data| < REPLY_LEN {
      ReplyPrefix(isKey, r, k + |data|);
      assert DrainStep(isKey, t) == Stop(t);
    } else {
      assert t.buffer == r;
      DrainWhole(isKey, t, r);
    }
  }

  lemma DrainWhole(isKey: KeyParser, t: State, r: bytes)
    requires IsReply(r) && KeepsAll(t) && t.buffer == r
    ensures var out := Drain(isKey, t);
            out.chunks == [r] && KeepsAll(out.state) && out.state.buffer == []
  {
    hide ExtractOneEvent, IsReply;
    ReplyWhole(isKey, r);
    assert |r| == REPLY_LEN by { ReplyLength(r); }
    var event := ExtractOneEvent(isKey, r).value.event;
    assert r[..REPLY_LEN] == r && r[REPLY_LEN..] == [];
    var u := NoteEvent(t, event).(buffer := []);
    assert DrainStep(isKey, t) == Go(u, [r]);
    EmptyStops(isKey, u);
  }

  lemma ReplyLength(r: bytes)
    requires IsReply(r)
    ensures |r| == REPLY_LEN
  {
  }

  lemma EmptyStops(isKey: KeyParser, s: State)
    requires KeepsAll(s) && s.buffer == []
    ensures Drain(isKey, s) == Output(s, [])
  {
    assert DrainStep(isKey, s) == Stop(s);
  }

  /** A timeout that finds `k` bytes of the reply. */
  lemma IdlePrefix(isKey: KeyParser, s: State, r: bytes, k: nat)
    requires IsReply(r) && AtPrefix(s, r, k)
    ensures k == 0 || k >= 5 ==> Timeout(isKey, s) == Output(s, [])
    ensures k == 1 && MayHold(s) ==> Timeout(isKey, s) == Output(s.(heldEscape := true), [])
    ensures k == 1 && !MayHold(s) ==> Timeout(isKey, s).chunks == [[ESC]]
    ensures 2 <= k <= 4 ==> Timeout(isKey, s) == Output(s.(buffer := [], discard := Some(Osc), discardedTail := 0), [])
  {
    hide ExtractOneEvent, TerminatorLen, ParseDefaultColorResponse, CompleteOrphanLen;
    ReplyPrefix(isKey, r, k);
    assert DrainStep(isKey, s) == Stop(s);
    assert Drain(isKey, s) == Output(s, []);
    var b := s.buffer;
    assert k >= 1 ==> b[0] == ESC;
    assert k >= 2 ==> b[1] == 0x5d;
    assert k >= 5 ==> b[2] == 0x31 && b[3] == r[3] && b[4] == 0x3b;
    assert !IsIncompleteSgrMouse(b) && !IsIncompletePaste(b) && !IsIncompleteSchemeReport(b);
    if k == 1 {
      assert b == [ESC];
    }
  }

  /** With nothing buffered and nothing arriving, nothing happens. */
  lemma {:induction false} QuietRun(isKey: KeyParser, s: State, ops: seq<Op>)
    requires KeepsAll(s) && s.buffer == [] && Pushed(ops) == []
    ensures Run(isKey, s, ops).chunks == []
    ensures KeepsAll(Run(isKey, s, ops).state) && Run(isKey, s, ops).state.buffer == []
    decreases |ops|
  {
    if ops != [] {
      QuietApply(isKey, s, ops[0]);
      assert Received(ops[0]) == [] by { assert |Received(ops[0])| <= |Pushed(ops)|; }
      QuietRun(isKey, Apply(isKey, s, ops[0]).state, ops[1..]);
    }
  }

  lemma QuietApply(isKey: KeyParser, s: State, op: Op)
    requires KeepsAll(s) && s.buffer == []
    ensures Received(op) == [] ==>
              var out := Apply(isKey, s, op); out.chunks == [] && KeepsAll(out.state) && out.state.buffer == []
  {
    if Received(op) == [] {
      assert s.buffer + Received(op) == s.buffer;
      assert DrainStep(isKey, s) == Stop(s);
    }
  }

  lemma {:induction false} GentleWhenDone(ops: seq<Op>, k: nat, mayHold: bool)
    requires Pushed(ops) == [] && k >= 5
    ensures Gentle(ops, k, mayHold)
    decreases |ops|
  {
    if ops != [] {
      assert |Received(ops[0])| <= |Pushed(ops)|;
      assert Received(ops[0]) == [];
      match ops[0] {
        case Input(_) => GentleWhenDone(ops[1..], k, mayHold);
        case Idle => GentleWhenDone(ops[1..], k, mayHold && k != 1);
        case ColorQuerySent => GentleWhenDone(ops[1..], k, true);
        case TrackSchemeChanges => GentleWhenDone(ops[1..], k, mayHold);
      }
    }
  }

  /** Fewer than 19 bytes cannot come out as the reply. */
  lemma TooShort(isKey: KeyParser, s: State, ops: seq<Op>, r: bytes)
    requires IsReply(r) && s.buffer == [] && |Pushed(ops)| < REPLY_LEN
    ensures Run(isKey, s, ops).chunks != [r]
  {
    hide Run;
    var out := Run(isKey, s, ops);
    Conservation(isKey, s, ops);
    SubsequenceLength(Flatten(out.chunks) + out.state.buffer, s.buffer + Pushed(ops));
    assert Flatten([r]) == r + [] == r;
  }

  lemma {:induction false} RunReply(isKey: KeyParser, s: State, ops: seq<Op>, r: bytes, k: nat)
    requires IsReply(r) && AtPrefix(s, r, k)
    requires s.buffer + Pushed(ops) == r
    ensures Gentle(ops, k, MayHold(s)) <==> Run(isKey, s, ops).chunks == [r]
    ensures Gentle(ops, k, MayHold(s)) ==> Run(isKey, s, ops).state.buffer == []
    decreases |ops|, 1
  {
    hide Apply, Feed, Timeout, IsReply;
    ReplyLength(r);
    assert ops != [];
    var op, later := ops[0], Pushed(ops[1..]);
    Associative(s.buffer, Received(op), later);
    match op {
      case Input(data) => RunReplyInput(isKey, s, ops, r, k, data);
      case Idle => RunReplyIdle(isKey, s, ops, r, k);
      case _ =>
        QueryOps(isKey, s, op);
        var t := Apply(isKey, s, op).state;
        RunReply(isKey, t, ops[1..], r, k);
        ThenNothing(Run(isKey, t, ops[1..]));
    }
  }

  lemma ThenNothing(out: Output)
    ensures Then([], out) == out
  {
  }

  lemma RunCons(isKey: KeyParser, s: State, ops: seq<Op>)
    requires ops != []
    ensures var first := Apply(isKey, s, ops[0]);
            Run(isKey, s, ops) == Then(first.chunks, Run(isKey, first.state, ops[1..]))
  {
    hide Apply;
  }

  lemma {:induction false} RunReplyInput(isKey: KeyParser, s: State, ops: seq<Op>, r: bytes, k: nat, data: bytes)
    requires IsReply(r) && AtPrefix(s, r, k)
    requires ops != [] && ops[0] == Input(data) && s.buffer + data + Pushed(ops[1..]) == r
    ensures Gentle(ops, k, MayHold(s)) <==> Run(isKey, s, ops).chunks == [r]
    ensures Gentle(ops, k, MayHold(s)) ==> Run(isKey, s, ops).state.buffer == []
    decreases |ops|, 0
  {
    hide Apply, Feed, IsReply, Run;
    RunCons(isKey, s, ops);
    ApplyInput(isKey, s, data);
    var n, later := k + |data|, Pushed(ops[1..]);
    assert (s.buffer + data + later)[..n] == s.buffer + data;
    FeedPrefix(isKey, s, r, k, data);
    var out := Feed(isKey, s, data);
    var rest := Run(isKey, out.state, ops[1..]);
    if n < REPLY_LEN {
      RunReply(isKey, out.state, ops[1..], r, n);
      ThenNothing(rest);
    } else {
      assert later == [];
      QuietRun(isKey, out.state, ops[1..]);
      GentleWhenDone(ops[1..], n, MayHold(s));
      assert [r] + [] == [r];
    }
  }

  lemma {:induction false} RunReplyIdle(isKey: KeyParser, s: State, ops: seq<Op>, r: bytes, k: nat)
    requires IsReply(r) && AtPrefix(s, r, k)
    requires ops != [] && ops[0] == Idle && s.buffer + Pushed(ops[1..]) == r
    ensures Gentle(ops, k, MayHold(s)) <==> Run(isKey, s, ops).chunks == [r]
    ensures Gentle(ops, k, MayHold(s)) ==> Run(isKey, s, ops).state.buffer == []
    decreases |ops|, 0
  {
    hide Apply, Timeout, IsReply;
    ReplyLength(r);
    ApplyIdle(isKey, s);
    IdlePrefix(isKey, s, r, k);
    var out := Timeout(isKey, s);
    var rest := Run(isKey, out.state, ops[1..]);
    ThenNothing(rest);
    if 2 <= k <= 4 {
      TooShort(isKey, out.state, ops[1..], r);
    } else if k == 1 && !MayHold(s) {
      assert ([[ESC]] + rest.chunks)[0] == [ESC];
    } else {
      RunReply(isKey, out.state, ops[1..], r, k);
    }
  }

  lemma ApplyInput(isKey: KeyParser, s: State, data: bytes)
    ensures Apply(isKey, s, Input(data)) == Feed(isKey, s, data)
  {
  }

  lemma ApplyIdle(isKey: KeyParser, s: State)
    ensures Apply(isKey, s, Idle) == Timeout(isKey, s)
  {
  }

  lemma QueryOps(isKey: KeyParser, s: State, op: Op)
    requires op.ColorQuerySent? || op.TrackSchemeChanges?
    ensures var out := Apply(isKey, s, op);
            out.chunks == [] && out.state.buffer == s.buffer && (KeepsAll(s) ==> KeepsAll(out.state))
            && MayHold(out.state) == (op.ColorQuerySent? || MayHold(s))
  {
  }

  /**
   A printed reply arriving in any pieces, with timeouts and queries anywhere, comes out as one
   chunk and nothing else if and only if the timeouts are gentle; the chunk then reads back as the
   kind and colour that were printed.
   */
  lemma ColorReplySurvives(isKey: KeyParser, s: State, ops: seq<Op>, kind: DefaultColorKind, color: RgbColor)
    requires KeepsAll(s) && s.buffer == []
    requires Pushed(ops) == OscSetDefaultColorSequence(kind, color)
    ensures Gentle(ops, 0, MayHold(s)) <==> Run(isKey, s, ops).chunks == [OscSetDefaultColorSequence(kind, color)]
    ensures Gentle(ops, 0, MayHold(s)) ==> Run(isKey, s, ops).state.buffer == []
    ensures ExtractOneEvent(isKey, OscSetDefaultColorSequence(kind, color))
            == Some(Extracted(HostDefaultColor(kind, color), REPLY_LEN))
  {
    hide Run, OscSetDefaultColorSequence, ParseDefaultColorResponse, ExtractOneEvent;
    var r := OscSetDefaultColorSequence(kind, color);
    PrintedReply(kind, color);
    ColorReplyRoundTrip(kind, color);
    ReplyWhole(isKey, r);
    assert r[..0] == [] && s.buffer + Pushed(ops) == r;
    RunReply(isKey, s, ops, r, 0);
  }

  /**
   A reply cut by one timeout after 2 to 4 bytes is dropped whole: nothing of it is emitted, and
   the input after it is framed as by a framer that never saw it, for any cutting into reads.
   */
  lemma CutColorReplyVanishes(isKey: KeyParser, s: State, kind: DefaultColorKind, color: RgbColor, k: nat,
                              head: seq<bytes>, tail: seq<bytes>, after: bytes)
    requires KeepsAll(s) && s.buffer == [] && 2 <= k <= 4
    requires head != [] && Flatten(head) == OscSetDefaultColorSequence(kind, color)[..k]
    requires tail != [] && Flatten(tail) == OscSetDefaultColorSequence(kind, color)[k..] + after
    ensures var fed := FeedAll(isKey, s, head);
            var cut := Timeout(isKey, fed.state);
            && fed.chunks == [] && cut.chunks == []
            && FeedAll(isKey, cut.state, tail) == Feed(isKey, s.(discardedTail := 0), after)
  {
    hide FeedAll, Timeout, OscSetDefaultColorSequence, Feed;
    var r := OscSetDefaultColorSequence(kind, color);
    PrintedReply(kind, color);
    SplitInvariance(isKey, s, head);
    assert r[..0] == [] && s.buffer + r[..k] == r[..k];
    FeedPrefix(isKey, s, r, 0, r[..k]);
    var held := s.(buffer := r[..k]);
    IdlePrefix(isKey, held, r, k);
    var t := held.(buffer := [], discard := Some(Osc), discardedTail := 0);
    SplitInvariance(isKey, t, tail);
    FeedDiscarded(isKey, t, r, k, after);
  }

  lemma DiscardedRest(r: bytes, k: nat, after: bytes)
    requires IsReply(r) && 2 <= k <= 4
    ensures |r| == REPLY_LEN && TerminatorLen(r[k..] + after, Osc) == Some(REPLY_LEN - k)
    ensures (r[k..] + after)[REPLY_LEN - k..] == after
  {
    hide TerminatorLen, ParseDefaultColorResponse;
    ReplyLength(r);
    ReplyTerminator(r, k, REPLY_LEN);
    assert r[k..REPLY_LEN] == r[k..];
    TerminatorExtends(r[k..], after, Osc);
  }

  lemma FeedDiscarded(isKey: KeyParser, t: State, r: bytes, k: nat, after: bytes)
    requires IsReply(r) && 2 <= k <= 4
    requires !t.loneEscape && t.buffer == [] && t.discard == Some(Osc)
    ensures |r| == REPLY_LEN
    ensures Feed(isKey, t, r[k..] + after) == Feed(isKey, t.(discard := None, discardedTail := 0), after)
  {
    hide ExtractOneEvent, TerminatorLen, CompleteOrphanLen, IsIncompleteOrphan, DiscardOrphanTail, IsReply, Drain;
    DiscardedRest(r, k, after);
    var data := r[k..] + after;
    assert t.buffer + data == data && t.buffer + after == after;
    var u := t.(buffer := after, discard := None, discardedTail := 0);
    assert DrainStep(isKey, t.(buffer := data)) == Go(u, []);
    hide DrainStep;
    DrainGoes(isKey, t.(buffer := data), u);
  }

  lemma DrainGoes(isKey: KeyParser, t: State, u: State)
    requires DrainStep(isKey, t) == Go(u, [])
    ensures Drain(isKey, t) == Drain(isKey, u)
  {
    hide DrainStep;
    ThenNothing(Drain(isKey, u));
  }
}
