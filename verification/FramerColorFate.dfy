/**
 What becomes of a colour reply under any reads, timeouts and queries: it comes out whole, it vanishes
 without a trace, or some of it leaks. Which of the three depends only on where the timeouts fall.
 */
module FramerColorFate {
  import opened Options
  import opened Bytes
  import Utf8
  import opened TerminalTheme
  import opened RawInput
  import opened Framer
  import opened FramerSplit
  import opened FramerSafety
  import opened FramerText
  import opened FramerColor
  import opened FramerFollow

  datatype Fate =
    | Arriving(got: nat, mayHold: bool)              // buffered so far
    | Dropping(from: nat, got: nat, counted: nat)    // being discarded, with the bytes since `from` still buffered
    | Loose(got: nat)                                // the discard was given up: the rest is input like any other
    | Whole
    | Vanished
    | Leaked

  /** How far a read takes the reply, counted in bytes. */
  function AdvanceInput(fate: Fate, data: bytes): Fate {
    match fate
    case Arriving(got, mayHold) => if got + |data| < REPLY_LEN then Arriving(got + |data|, mayHold) else Whole
    case Dropping(from, got, counted) => if got + |data| < REPLY_LEN then Dropping(from, got + |data|, counted) else Vanished
    case Loose(got) => if data == [] then fate else if got == 17 && |data| == 1 then Loose(18) else Leaked
    case _ => fate
  }

  /** What a timeout does to it. */
  function AdvanceIdle(r: bytes, fate: Fate): Fate {
    match fate
    case Arriving(got, mayHold) =>
      if got == 0 || got >= 5 then fate
      else if got == 1 then if mayHold then Arriving(1, false) else Leaked
      else Dropping(got, got, 0)
    case Dropping(from, got, counted) =>
      if from <= got <= |r| && IsPlausibleTail(Osc, r[from..got]) && counted + (got - from) <= MAX_DISCARDED_CONTROL_TAIL_BYTES then
        Dropping(if EndsInEscape(r[from..got]) then got - 1 else got, got, counted + (got - from))
      else Loose(got)
    case _ => fate
  }

  function Advance(r: bytes, fate: Fate, op: Op): Fate {
    match op
    case Input(data) => AdvanceInput(fate, data)
    case Idle => AdvanceIdle(r, fate)
    case ColorQuerySent => if fate.Arriving? then fate.(mayHold := true) else fate
    case TrackSchemeChanges => fate
  }

  function Advancing(r: bytes): (Fate, Op) -> Fate {
    (fate, op) => Advance(r, fate, op)
  }

  predicate Starts(chunks: seq<bytes>, r: bytes) {
    chunks != [] && chunks[0] != r
  }

  /** The framer state and the chunks emitted so far that go with a fate. */
  ghost predicate Goes(s: State, chunks: seq<bytes>, r: bytes, fate: Fate) {
    match fate
    case Arriving(got, mayHold) => AtPrefix(s, r, got) && chunks == [] && mayHold == MayHold(s)
    case Dropping(from, got, counted) => Discards(s, r, from, got, counted) && chunks == []
    case Loose(got) =>
      && 2 <= got < REPLY_LEN
      && (Starts(chunks, r) || (chunks == [] && KeepsAll(s) && (s.buffer == [] || (got == 18 && s.buffer == [ESC]))))
    case Whole => AtRest(s) && chunks == [r]
    case Vanished => AtRest(s) && chunks == []
    case Leaked => Starts(chunks, r)
  }

  ghost predicate Discards(s: State, r: bytes, from: nat, got: nat, counted: nat) {
    && |r| == REPLY_LEN && 2 <= got < REPLY_LEN && from <= got && from <= 17
    && !s.loneEscape && s.discard == Some(Osc) && s.discardedTail == counted && s.buffer == r[from..got]
  }

  /** The bytes of the reply that have been read; None when it no longer matters. */
  function Read(fate: Fate): Option<nat> {
    match fate
    case Arriving(got, _) => Some(got)
    case Dropping(_, got, _) => Some(got)
    case Loose(got) => Some(got)
    case Leaked => None
    case _ => Some(REPLY_LEN)
  }

  function Reading(): Fate -> Option<nat> {
    fate => Read(fate)
  }

  ghost function Going(r: bytes): (State, seq<bytes>, Fate) -> bool {
    (s, chunks, fate) => Goes(s, chunks, r, fate)
  }

  lemma EscapeBackslash(isKey: KeyParser, s: State)
    requires KeepsAll(s) && s.buffer == ST
    ensures Drain(isKey, s).chunks != [] && Drain(isKey, s).chunks[0] == ST
  {
    var b := s.buffer;
    assert b[..2] == b && b[1..2] == [b[1]];
    assert Utf8.IsScalar([b[1]]);
    Utf8.ScalarIsValid([b[1]]);
    AsciiIsValid(b);
    assert CompleteEscapeLen(b) == Some(2);
    assert !(PASTE_START <= b);
    var e := ExtractOneEvent(isKey, b);
    assert e.Some? && e.value.consumed == 2;
    hide ExtractOneEvent;
    var u := NoteEvent(s, e.value.event).(buffer := b[2..]);
    assert DrainStep(isKey, s) == Go(u, [b]);
    hide DrainStep;
    assert Drain(isKey, s) == Then([b], Drain(isKey, u));
  }

  // ----- input -----

  lemma DroppingInput(isKey: KeyParser, s: State, r: bytes, from: nat, got: nat, counted: nat, data: bytes)
    requires IsReply(r) && Discards(s, r, from, got, counted)
    requires got + |data| <= REPLY_LEN && r[got..got + |data|] == data
    ensures got + |data| < REPLY_LEN ==> Feed(isKey, s, data) == Output(s.(buffer := r[from..got + |data|]), [])
    ensures got + |data| == REPLY_LEN ==>
              Feed(isKey, s, data) == Output(s.(buffer := [], discard := None, discardedTail := 0), [])
  {
    hide ExtractOneEvent, TerminatorLen, IsReply, CompleteOrphanLen, IsIncompleteOrphan, DiscardOrphanTail;
    var to := got + |data|;
    var t := s.(buffer := s.buffer + data);
    assert t.buffer == r[from..to];
    assert HasReplyShape(r) by { ReplyIsShaped(r); }
    ReplyTerminator(r, from, to);
    if to == REPLY_LEN {
      var u := s.(buffer := [], discard := None, discardedTail := 0);
      assert t.buffer[REPLY_LEN - from..] == [];
      assert DrainStep(isKey, t) == Go(u, []);
      EmptyStops(isKey, u);
    } else {
      assert DrainStep(isKey, t) == Stop(t);
    }
  }

  lemma ReplyIsShaped(r: bytes)
    requires IsReply(r)
    ensures HasReplyShape(r)
  {
  }

  lemma LooseInput(isKey: KeyParser, s: State, r: bytes, got: nat, data: bytes)
    requires IsReply(r) && AcceptsEveryScalar(isKey) && 2 <= got < REPLY_LEN && data != []
    requires got + |data| <= REPLY_LEN && r[got..got + |data|] == data
    requires KeepsAll(s) && (s.buffer == [] || (got == 18 && s.buffer == [ESC]))
    ensures var out := Feed(isKey, s, data);
            if got == 17 && |data| == 1 then out == Output(s.(buffer := [ESC]), []) else Starts(out.chunks, r)
  {
    hide Feed, ExtractOneEvent, ParseDefaultColorResponse;
    ReplyIsShaped(r);
    assert data[0] == r[got];
    if s.buffer == [ESC] {
      assert s.buffer + data == ST;
      EscapeBackslash(isKey, s.(buffer := ST));
      FeedIsDrain(isKey, s, data);
    } else if got == 17 {
      FeedIsDrain(isKey, s, data);
      assert s.buffer + data == data;
      if |data| == 1 {
        assert data == [ESC];
        LoneEscapeStays(isKey, s.(buffer := [ESC]));
      } else {
        assert data == ST;
        EscapeBackslash(isKey, s.(buffer := ST));
      }
    } else {
      FirstKeyComesOut(isKey, s, data);
    }
  }

  lemma FeedIsDrain(isKey: KeyParser, s: State, data: bytes)
    ensures Feed(isKey, s, data) == Drain(isKey, s.(buffer := s.buffer + data))
  {
  }

  // ----- timeouts -----

  lemma DroppingIdle(isKey: KeyParser, s: State, r: bytes, from: nat, got: nat, counted: nat)
    requires IsReply(r) && Discards(s, r, from, got, counted)
    ensures var out := Timeout(isKey, s);
            && out.chunks == []
            && if IsPlausibleTail(Osc, r[from..got]) && counted + (got - from) <= MAX_DISCARDED_CONTROL_TAIL_BYTES then
                 Discards(out.state, r, if EndsInEscape(r[from..got]) then got - 1 else got, got, counted + (got - from))
               else AtRest(out.state)
  {
    hide ExtractOneEvent, TerminatorLen, CompleteOrphanLen, IsIncompleteOrphan, DiscardOrphanTail, IsPlausibleTail, ParseDefaultColorResponse;
    ReplyTerminator(r, from, got);
    assert DrainStep(isKey, s) == Stop(s);
    assert Drain(isKey, s) == Output(s, []);
    assert got == 18 && from < got ==> EndsInEscape(r[from..got]);
    assert EndsInEscape(r[from..got]) ==> r[got - 1] == ESC && r[got - 1..got] == [ESC];
    assert got < 18 ==> r[got..got] == [];
  }

  lemma LooseIdle(isKey: KeyParser, s: State, got: nat, r: bytes)
    requires KeepsAll(s) && (s.buffer == [] || s.buffer == [ESC]) && |r| == REPLY_LEN
    ensures var out := Timeout(isKey, s);
            && (s.buffer == [] ==> out == Output(s, []))
            && (Starts(out.chunks, r) || (out.chunks == [] && KeepsAll(out.state) && out.state.buffer == s.buffer))
  {
    if s.buffer == [] {
      EmptyStops(isKey, s);
    } else {
      LoneEscapeStays(isKey, s);
      assert !IsIncompletePaste([ESC]) && !IsIncompleteSgrMouse([ESC]) && !IsIncompleteSchemeReport([ESC]);
    }
  }

  // ----- one operation -----

  /** What was emitted before stays in front. */
  lemma StartsMore(chunks: seq<bytes>, more: seq<bytes>, r: bytes)
    ensures Starts(chunks, r) ==> Starts(chunks + more, r)
    ensures chunks == [] ==> chunks + more == more
    ensures more == [] ==> chunks + more == chunks
  {
  }

  lemma InputArriving(isKey: KeyParser, s: State, chunks: seq<bytes>, r: bytes, fate: Fate, data: bytes)
    requires IsReply(r) && fate.Arriving? && Goes(s, chunks, r, fate) && Brings(r, Reading(), fate, Input(data))
    ensures var out := Feed(isKey, s, data); Goes(out.state, chunks + out.chunks, r, AdvanceInput(fate, data))
  {
    hide Feed, IsReply, Starts, Discards;
    StartsMore(chunks, Feed(isKey, s, data).chunks, r);
    assert s.buffer + data == r[..fate.got + |data|];
    FeedPrefix(isKey, s, r, fate.got, data);
  }

  lemma InputDropping(isKey: KeyParser, s: State, chunks: seq<bytes>, r: bytes, fate: Fate, data: bytes)
    requires IsReply(r) && fate.Dropping? && Goes(s, chunks, r, fate) && Brings(r, Reading(), fate, Input(data))
    ensures var out := Feed(isKey, s, data); Goes(out.state, chunks + out.chunks, r, AdvanceInput(fate, data))
  {
    hide Feed, IsReply, Starts;
    StartsMore(chunks, Feed(isKey, s, data).chunks, r);
    DroppingInput(isKey, s, r, fate.from, fate.got, fate.counted, data);
  }

  lemma InputLoose(isKey: KeyParser, s: State, chunks: seq<bytes>, r: bytes, fate: Fate, data: bytes)
    requires IsReply(r) && AcceptsEveryScalar(isKey) && |r| == REPLY_LEN
    requires fate.Loose? && Goes(s, chunks, r, fate) && Brings(r, Reading(), fate, Input(data))
    ensures var out := Feed(isKey, s, data); Goes(out.state, chunks + out.chunks, r, AdvanceInput(fate, data))
  {
    hide Feed, IsReply, AcceptsEveryScalar, Discards, Starts;
    StartsMore(chunks, Feed(isKey, s, data).chunks, r);
    if data == [] {
      FeedNothing(isKey, s);
    } else if !Starts(chunks, r) {
      LooseInput(isKey, s, r, fate.got, data);
    }
  }

  lemma InputDone(isKey: KeyParser, s: State, chunks: seq<bytes>, r: bytes, fate: Fate, data: bytes)
    requires |r| == REPLY_LEN && (fate.Whole? || fate.Vanished? || fate.Leaked?)
    requires Goes(s, chunks, r, fate) && Brings(r, Reading(), fate, Input(data))
    ensures var out := Feed(isKey, s, data); Goes(out.state, chunks + out.chunks, r, AdvanceInput(fate, data))
  {
    hide Feed, Starts;
    StartsMore(chunks, Feed(isKey, s, data).chunks, r);
    if !fate.Leaked? {
      assert data == [];
      FeedNothing(isKey, s);
    }
  }

  lemma IdleBegun(isKey: KeyParser, s: State, chunks: seq<bytes>, r: bytes, fate: Fate)
    requires IsReply(r) && |r| == REPLY_LEN && fate.Arriving? && Goes(s, chunks, r, fate)
    ensures var out := Timeout(isKey, s); Goes(out.state, chunks + out.chunks, r, AdvanceIdle(r, fate))
  {
    hide Timeout, IsReply;
    StartsMore(chunks, Timeout(isKey, s).chunks, r);
    IdlePrefix(isKey, s, r, fate.got);
    assert r[fate.got..fate.got] == [];
  }

  lemma IdleAfter(isKey: KeyParser, s: State, chunks: seq<bytes>, r: bytes, fate: Fate)
    requires IsReply(r) && |r| == REPLY_LEN && !fate.Arriving? && Goes(s, chunks, r, fate)
    ensures var out := Timeout(isKey, s); Goes(out.state, chunks + out.chunks, r, AdvanceIdle(r, fate))
  {
    hide Timeout, IsReply, IsPlausibleTail, Starts;
    StartsMore(chunks, Timeout(isKey, s).chunks, r);
    match fate {
      case Dropping(from, got, counted) => DroppingIdle(isKey, s, r, from, got, counted);
      case Leaked =>
      case Loose(got) =>
        if !Starts(chunks, r) { LooseIdle(isKey, s, got, r); }
      case _ => LooseIdle(isKey, s, REPLY_LEN, r);
    }
  }

  lemma QueryStep(isKey: KeyParser, s: State, chunks: seq<bytes>, r: bytes, fate: Fate, op: Op)
    requires op.ColorQuerySent? || op.TrackSchemeChanges?
    requires Goes(s, chunks, r, fate)
    ensures var out := Apply(isKey, s, op); Goes(out.state, chunks + out.chunks, r, Advance(r, fate, op))
  {
    hide Starts;
    StartsMore(chunks, [], r);
  }

  lemma FateStep(isKey: KeyParser, s: State, chunks: seq<bytes>, r: bytes, fate: Fate, op: Op)
    requires IsReply(r) && |r| == REPLY_LEN && AcceptsEveryScalar(isKey)
    requires Goes(s, chunks, r, fate) && Brings(r, Reading(), fate, op)
    ensures var out := Apply(isKey, s, op); Goes(out.state, chunks + out.chunks, r, Advance(r, fate, op))
  {
    hide Apply, Goes, AdvanceInput, AdvanceIdle, Brings, IsReply, AcceptsEveryScalar;
    match op {
      case Input(data) =>
        ApplyInput(isKey, s, data);
        match fate {
          case Arriving(_, _) => InputArriving(isKey, s, chunks, r, fate, data);
          case Dropping(_, _, _) => InputDropping(isKey, s, chunks, r, fate, data);
          case Loose(_) => InputLoose(isKey, s, chunks, r, fate, data);
          case _ => InputDone(isKey, s, chunks, r, fate, data);
        }
      case Idle =>
        ApplyIdle(isKey, s);
        if fate.Arriving? { IdleBegun(isKey, s, chunks, r, fate); } else { IdleAfter(isKey, s, chunks, r, fate); }
      case _ => QueryStep(isKey, s, chunks, r, fate, op);
    }
  }

  // ----- whole runs -----

  lemma FateCounts(r: bytes)
    requires |r| == REPLY_LEN
    ensures Counts(r, Advancing(r), Reading())
  {
    hide IsPlausibleTail, EndsInEscape;
  }

  lemma FateKeeps(isKey: KeyParser, r: bytes)
    requires IsReply(r) && |r| == REPLY_LEN && AcceptsEveryScalar(isKey)
    ensures Keeps(isKey, r, Advancing(r), Reading(), Going(r))
  {
    hide Apply, Goes, Advance, Brings, Reading, IsReply, AcceptsEveryScalar;
    forall s, chunks, fate, op | Going(r)(s, chunks, fate) && Brings(r, Reading(), fate, op)
      ensures Going(r)(Apply(isKey, s, op).state, chunks + Apply(isKey, s, op).chunks, Advancing(r)(fate, op))
    {
      FateStep(isKey, s, chunks, r, fate, op);
    }
  }

  /** The fate of a reply sent to a framer at rest. */
  function ReplyFate(s: State, r: bytes, ops: seq<Op>): Fate {
    Follow(Advancing(r), Arriving(0, MayHold(s)), ops)
  }

  lemma FateFromRest(isKey: KeyParser, s: State, r: bytes, ops: seq<Op>, later: bytes)
    requires IsReply(r) && |r| == REPLY_LEN && AcceptsEveryScalar(isKey) && AtRest(s)
    requires r == Pushed(ops) + later
    ensures var (out, end) := (Run(isKey, s, ops), ReplyFate(s, r, ops));
            Goes(out.state, out.chunks, r, end) && (Read(end).Some? ==> Read(end).value == REPLY_LEN - |later|)
  {
    hide Run, IsReply, Advance, AcceptsEveryScalar, Keeps, Counts, Follow;
    assert r[0..] == r && r[..0] == [];
    FateCounts(r);
    FateKeeps(isKey, r);
    FollowRun(isKey, r, Advancing(r), Reading(), Going(r), s, [], Arriving(0, MayHold(s)), ops, later);
    assert [] + Run(isKey, s, ops).chunks == Run(isKey, s, ops).chunks;
  }

  /** When the whole reply has been read its fate is settled. */
  lemma Settled(s: State, chunks: seq<bytes>, r: bytes, fate: Fate)
    requires |r| == REPLY_LEN && Goes(s, chunks, r, fate) && (Read(fate).Some? ==> Read(fate).value == REPLY_LEN)
    ensures fate in {Whole, Vanished, Leaked}
    ensures chunks == [r] <==> fate == Whole
    ensures chunks == [] <==> fate == Vanished
    ensures fate != Leaked ==> AtRest(s)
  {
  }

  lemma PrintedLength(kind: DefaultColorKind, color: RgbColor)
    ensures |OscSetDefaultColorSequence(kind, color)| == REPLY_LEN
  {
  }

  /**
   A printed reply arriving in any pieces, with timeouts and queries anywhere, comes out as one chunk if and
   only if its fate is to stay whole, and leaves nothing at all if and only if its fate is to vanish; in both
   cases the framer is at rest afterwards. Otherwise some of it leaks.
   */
  lemma ColorReplyFate(isKey: KeyParser, s: State, ops: seq<Op>, kind: DefaultColorKind, color: RgbColor)
    requires AcceptsEveryScalar(isKey) && AtRest(s)
    requires Pushed(ops) == OscSetDefaultColorSequence(kind, color)
    ensures var (out, fate) := (Run(isKey, s, ops), ReplyFate(s, Pushed(ops), ops));
            && fate in {Whole, Vanished, Leaked}
            && (out.chunks == [Pushed(ops)] <==> fate == Whole)
            && (out.chunks == [] <==> fate == Vanished)
            && (fate != Leaked ==> AtRest(out.state))
  {
    PrintedLength(kind, color);
    PrintedReply(kind, color);
    hide Run, OscSetDefaultColorSequence, IsReply, ReplyFate, Goes, Read, AtRest, AcceptsEveryScalar;
    var r := Pushed(ops);
    assert r == r + [];
    FateFromRest(isKey, s, r, ops, []);
    Settled(Run(isKey, s, ops).state, Run(isKey, s, ops).chunks, r, ReplyFate(s, r, ops));
  }

  /** Of a printed reply, the bytes that make a timeout give up its discard are the hex letters a and c to f. */
  lemma PlausibleReplyTail(kind: DefaultColorKind, color: RgbColor, from: nat, got: nat)
    requires 2 <= from <= got < REPLY_LEN
    ensures |OscSetDefaultColorSequence(kind, color)| == REPLY_LEN
    ensures IsPlausibleTail(Osc, OscSetDefaultColorSequence(kind, color)[from..got]) <==>
            forall i | from <= i < got :: OscSetDefaultColorSequence(kind, color)[i] !in {0x61, 0x63, 0x64, 0x65, 0x66}
  {
    var r := OscSetDefaultColorSequence(kind, color);
    ReplyBytes(kind, color);
    hide OscSetDefaultColorSequence;
    var tail := r[from..got];
    assert forall i | 0 <= i < |tail| :: tail[i] == r[from + i] && tail[i] in tail;
    assert forall i | from <= i < got :: r[i] == tail[i - from];
    forall x | x in tail
      ensures exists i :: from <= i < got && r[i] == x
    {
      var i :| 0 <= i < |tail| && tail[i] == x;
      assert r[from + i] == x;
    }
  }

  /** A timeout gives up the discard of a printed reply exactly at one of those letters, or when the budget is used up. */
  lemma GivesUpExactly(kind: DefaultColorKind, color: RgbColor, from: nat, got: nat, counted: nat)
    requires 2 <= from <= got < REPLY_LEN
    ensures |OscSetDefaultColorSequence(kind, color)| == REPLY_LEN
    ensures var r := OscSetDefaultColorSequence(kind, color);
            AdvanceIdle(r, Dropping(from, got, counted)) == Loose(got) <==>
            || (exists i :: from <= i < got && r[i] in {0x61, 0x63, 0x64, 0x65, 0x66})
            || counted + (got - from) > MAX_DISCARDED_CONTROL_TAIL_BYTES
  {
    PlausibleReplyTail(kind, color, from, got);
    hide OscSetDefaultColorSequence, IsPlausibleTail, EndsInEscape;
  }

  lemma ReplyBytes(kind: DefaultColorKind, color: RgbColor)
    ensures var r := OscSetDefaultColorSequence(kind, color);
            && |r| == REPLY_LEN
            && forall i | 2 <= i < 18 :: IsDigit(r[i]) || r[i] in {0x3b, 0x3a, 0x2f, 0x72, 0x67, ESC} || 0x61 <= r[i] <= 0x66
  {
    PrintedBytes(kind, color);
    Hex2Bytes(color.r);
    Hex2Bytes(color.g);
    Hex2Bytes(color.b);
    hide Hex2, OscSetDefaultColorSequence;
  }

  // ----- input after the reply -----

  /** Until its last byte is read, a reply that does not leak leaves the framer streaming. */
  lemma NotLeaking(s: State, chunks: seq<bytes>, r: bytes, fate: Fate, last: bytes)
    requires |r| == REPLY_LEN && Goes(s, chunks, r, fate)
    requires Read(fate).Some? ==> Read(fate).value == REPLY_LEN - |last|
    requires Advance(r, fate, Input(last)) != Leaked
    ensures Streams(s)
  {
  }

  /**
   Whatever follows a reply in the read that completes it, and after that, is framed as by the framer at rest
   that the reply leaves behind.
   */
  lemma InputAfterReply(isKey: KeyParser, s: State, head: seq<Op>, last: bytes, more: bytes, tail: seq<Op>,
                        kind: DefaultColorKind, color: RgbColor)
    requires AcceptsEveryScalar(isKey) && AtRest(s)
    requires var r := OscSetDefaultColorSequence(kind, color);
             && Pushed(head) + last == r && ReplyFate(s, r, head + [Input(last)]) != Leaked
    ensures var mid := Run(isKey, s, head + [Input(last)]);
            && AtRest(mid.state)
            && Run(isKey, s, head + [Input(last + more)] + tail) == Then(mid.chunks, Run(isKey, mid.state, [Input(more)] + tail))
  {
    var r := OscSetDefaultColorSequence(kind, color);
    PrintedLength(kind, color);
    PrintedReply(kind, color);
    hide Run, OscSetDefaultColorSequence, IsReply, Goes, Read, AtRest, AcceptsEveryScalar, Follow, Advance, Feed;
    var t := Run(isKey, s, head).state;
    var (start, fate) := (Arriving(0, MayHold(s)), ReplyFate(s, r, head));
    PushedConcat(head, [Input(last)]);
    assert Pushed([Input(last)]) == last + [] == last;
    ColorReplyFate(isKey, s, head + [Input(last)], kind, color);
    FateFromRest(isKey, s, r, head, last);
    FollowConcat(Advancing(r), start, head, [Input(last)]);
    FollowOne(Advancing(r), fate, Input(last));
    NotLeaking(t, Run(isKey, s, head).chunks, r, fate, last);
    FeedCut(isKey, t, last, more);
    LongRead(isKey, s, head, last, more, tail);
  }
}
