/**
 What becomes of a plain mouse report under any reads, timeouts and queries: it comes out whole, it
 vanishes, only its ESC comes out, or it leaks. Which of these depends only on where the timeouts fall.
 */
module FramerMouseFate {
  import opened Options
  import opened Bytes
  import Utf8
  import opened RawInput
  import opened Framer
  import opened FramerSplit
  import opened FramerSafety
  import opened FramerText
  import opened FramerColor
  import opened FramerMouse
  import opened FramerFollow

  datatype Fate =
    | Arriving(got: nat, mayHold: bool)   // buffered so far
    | Dropping(got: nat, escaped: bool)   // being discarded; `escaped` when the ESC came out before
    | Watched(got: nat)                   // the ESC came out, its tail is being watched for
    | Loose(got: nat, escaped: bool)      // the discard ended early: the rest is input like any other
    | Whole
    | Vanished
    | EscapeOnly
    | Leaked

  /** How far a read takes the report `r`, counted in bytes. */
  function AdvanceInput(r: bytes, fate: Fate, data: bytes): Fate {
    match fate
    case Arriving(got, mayHold) => if got + |data| < |r| then Arriving(got + |data|, mayHold) else Whole
    case Dropping(got, escaped) =>
      if got + |data| < |r| then Dropping(got + |data|, escaped) else if escaped then EscapeOnly else Vanished
    case Watched(got) =>
      if got + |data| > MAX_ORPHANED_SGR_MOUSE_TAIL_BYTES + 1 then Leaked
      else if got + |data| < |r| then Watched(got + |data|)
      else EscapeOnly
    case Loose(_, _) => if data == [] then fate else Leaked
    case _ => fate
  }

  /** What a timeout does to it. */
  function AdvanceIdle(fate: Fate): Fate {
    match fate
    case Arriving(got, mayHold) =>
      if got == 0 then fate
      else if got == 1 then if mayHold then Arriving(1, false) else Watched(1)
      else if got == 2 then Loose(2, false)
      else Dropping(got, false)
    case Dropping(got, escaped) => Loose(got, escaped)
    case Watched(got) => if got <= 1 then fate else if got == 2 then Leaked else Dropping(got, true)
    case _ => fate
  }

  function Advance(r: bytes, fate: Fate, op: Op): Fate {
    match op
    case Input(data) => AdvanceInput(r, fate, data)
    case Idle => AdvanceIdle(fate)
    case ColorQuerySent => if fate.Arriving? then fate.(mayHold := true) else fate
    case TrackSchemeChanges => fate
  }

  function Advancing(r: bytes): (Fate, Op) -> Fate {
    (fate, op) => Advance(r, fate, op)
  }

  /** A report of at most 128 bytes with plain parameters. */
  ghost predicate Short(r: bytes) {
    HasReportShape(r) && IsPlain(r) && |r| <= MAX_DISCARDED_CONTROL_TAIL_BYTES
  }

  lemma ShortLength(r: bytes)
    requires Short(r)
    ensures |r| >= 4 && HasReportShape(r)
  {
  }

  function Lead(escaped: bool): seq<bytes> {
    if escaped then [[ESC]] else []
  }

  /** Neither nothing, nor the report, nor the ESC alone, whatever comes after. */
  predicate Spoiled(chunks: seq<bytes>, r: bytes) {
    chunks != [] && chunks[0] != r && (chunks[0] == [ESC] ==> |chunks| >= 2)
  }

  lemma SpoiledMore(chunks: seq<bytes>, more: seq<bytes>, r: bytes)
    requires |r| >= 4
    ensures Spoiled(chunks, r) ==> Spoiled(chunks + more, r)
    ensures chunks == [[ESC]] && more != [] ==> Spoiled(chunks + more, r)
    ensures chunks in {[], [[ESC]]} && more != [] && |more[0]| <= 2 && more[0] != [ESC] ==> Spoiled(chunks + more, r)
    ensures more == [] ==> chunks + more == chunks
    ensures chunks == [] ==> chunks + more == more
  {
  }

  ghost predicate Watches(s: State, r: bytes, got: nat) {
    && 1 <= got < |r| && got <= MAX_ORPHANED_SGR_MOUSE_TAIL_BYTES + 1
    && s.loneEscape && s.discard.None? && s.buffer == r[1..got]
  }

  /** The framer state and the chunks emitted so far that go with a fate. */
  ghost predicate Goes(s: State, chunks: seq<bytes>, r: bytes, fate: Fate) {
    match fate
    case Arriving(got, mayHold) => got < |r| && KeepsAll(s) && s.buffer == r[..got] && chunks == [] && mayHold == MayHold(s)
    case Dropping(got, escaped) => 3 <= got < |r| && Discarding(s, r[got..]) && chunks == Lead(escaped)
    case Watched(got) => Watches(s, r, got) && chunks == [[ESC]]
    case Loose(got, escaped) => 2 <= got < |r| && (Spoiled(chunks, r) || (AtRest(s) && chunks == Lead(escaped)))
    case Whole => AtRest(s) && chunks == [r]
    case Vanished => AtRest(s) && chunks == []
    case EscapeOnly => AtRest(s) && chunks == [[ESC]]
    case Leaked => Spoiled(chunks, r)
  }

  /** The bytes of the report that have been read; None when it no longer matters. */
  function Read(r: bytes, fate: Fate): Option<nat> {
    match fate
    case Arriving(got, _) => Some(got)
    case Dropping(got, _) => Some(got)
    case Watched(got) => Some(got)
    case Loose(got, _) => Some(got)
    case Leaked => None
    case _ => Some(|r|)
  }

  function Reading(r: bytes): Fate -> Option<nat> {
    fate => Read(r, fate)
  }

  ghost function Going(r: bytes): (State, seq<bytes>, Fate) -> bool {
    (s, chunks, fate) => Goes(s, chunks, r, fate)
  }

  // ----- input -----

  lemma PrefixIncomplete(isKey: KeyParser, r: bytes, k: nat)
    requires HasReportShape(r) && k < |r|
    ensures ExtractOneEvent(isKey, r[..k]).None?
  {
    hide ParseSgrMouse;
    if k >= 3 {
      ReportPrefixIncomplete(isKey, r, k);
    } else if k == 2 {
      assert r[..2] == [ESC, 0x5b];
    } else if k == 1 {
      assert r[..1] == [ESC];
    }
  }

  lemma ArrivingInput(isKey: KeyParser, s: State, r: bytes, got: nat, data: bytes)
    requires IsReport(isKey, r) && HasReportShape(r) && got < |r| && KeepsAll(s) && s.buffer == r[..got]
    requires got + |data| <= |r| && r[got..got + |data|] == data
    ensures var out := Feed(isKey, s, data);
            if got + |data| < |r| then out == Output(s.(buffer := r[..got + |data|]), [])
            else out.chunks == [r] && AtRest(out.state)
  {
    hide ExtractOneEvent, HasReportShape;
    var t := s.(buffer := s.buffer + data);
    assert t.buffer == r[..got + |data|];
    if got + |data| < |r| {
      PrefixIncomplete(isKey, r, got + |data|);
      assert DrainStep(isKey, t) == Stop(t);
    } else {
      assert t.buffer == r && r[..|r|] == r && r[|r|..] == [];
      var event := ExtractOneEvent(isKey, r).value.event;
      var u := NoteEvent(t, event).(buffer := []);
      assert DrainStep(isKey, t) == Go(u, [r]);
      EmptyStops(isKey, u);
    }
  }

  lemma DroppingInput(isKey: KeyParser, s: State, r: bytes, got: nat, data: bytes)
    requires got < |r| && Discarding(s, r[got..])
    requires got + |data| <= |r| && r[got..got + |data|] == data
    ensures var out := Feed(isKey, s, data);
            && out.chunks == []
            && if got + |data| < |r| then Discarding(out.state, r[got + |data|..]) else AtRest(out.state)
  {
    hide Feed;
    var (rest, later) := (r[got..], r[got + |data|..]);
    assert data + later == rest + [];
    FeedDiscarding(isKey, s, rest, data, later, []);
    if got + |data| == |r| {
      FeedNothing(isKey, Released(s));
      assert data[|rest|..] == [];
    } else {
      assert forall i | 0 <= i < |later| :: later[i] == rest[|data| + i];
    }
  }

  lemma OverflowShape(r: bytes, to: nat)
    requires Short(r) && MAX_ORPHANED_SGR_MOUSE_TAIL_BYTES + 1 < to <= |r|
    ensures !IsIncompleteOrphan(r[1..to]) && CompleteOrphanLen(r[1..to]).None?
  {
    hide ParseSgrMouse;
    var b := r[1..to];
    assert forall i | 0 <= i < |b| :: b[i] == r[i + 1];
    assert FindFrom(b, 0, IsMouseFinal).Some? ==> FindFrom(b, 0, IsMouseFinal).value + 2 == |r|;
  }

  /** A watched-for tail that grows too long is input like any other. */
  lemma WatchOverflows(isKey: KeyParser, s: State, r: bytes, got: nat, data: bytes)
    requires Short(r) && AcceptsEveryScalar(isKey) && Watches(s, r, got)
    requires got + |data| <= |r| && r[got..got + |data|] == data && got + |data| > MAX_ORPHANED_SGR_MOUSE_TAIL_BYTES + 1
    ensures Feed(isKey, s, data).chunks != []
  {
    hide Drain, IsIncompleteOrphan, CompleteOrphanLen, ParseSgrMouse;
    var b := r[1..got + |data|];
    assert s.buffer + data == b && [] + b == b && b[0] == r[1];
    OverflowShape(r, got + |data|);
    WatchGivesUp(isKey, s.(buffer := []), b);
    FirstKeyComesOut(isKey, s.(buffer := [], loneEscape := false), b);
    assert Feed(isKey, s, data) == Feed(isKey, s.(buffer := []), b);
  }

  lemma WatchedInput(isKey: KeyParser, s: State, r: bytes, got: nat, data: bytes)
    requires Short(r) && Watches(s, r, got)
    requires got + |data| <= |r| && r[got..got + |data|] == data && got + |data| <= MAX_ORPHANED_SGR_MOUSE_TAIL_BYTES + 1
    ensures var out := Feed(isKey, s, data);
            && out.chunks == []
            && if got + |data| < |r| then Watches(out.state, r, got + |data|) else AtRest(out.state)
  {
    hide Feed, Short, IsIncompleteOrphan, CompleteOrphanLen;
    var b := s.buffer + data;
    assert b == r[1..got + |data|];
    TailWatched(r, got + |data|);
    FeedLone(isKey, s, data);
    if got + |data| == |r| {
      assert b[|b|..] == [];
      FeedNothing(isKey, s.(buffer := [], loneEscape := false));
    }
  }

  lemma TailWatched(r: bytes, got: nat)
    requires Short(r) && 1 <= got <= |r| && got <= MAX_ORPHANED_SGR_MOUSE_TAIL_BYTES + 1
    ensures got < |r| ==> IsIncompleteOrphan(r[1..got])
    ensures got == |r| ==> !IsIncompleteOrphan(r[1..got]) && CompleteOrphanLen(r[1..got]) == Some(|r| - 1)
  {
    hide HasReportShape, IsPlain, IsIncompleteOrphan, CompleteOrphanLen;
    if got < |r| {
      TailBegun(r, got);
    } else {
      assert r[1..got] == r[1..] && r[1..][..|r| - 1] == r[1..];
      TailComplete(r, r[1..]);
    }
  }

  lemma LooseInput(isKey: KeyParser, s: State, r: bytes, got: nat, data: bytes)
    requires Short(r) && AcceptsEveryScalar(isKey) && AtRest(s) && 2 <= got < |r| && data != []
    requires got + |data| <= |r| && r[got..got + |data|] == data
    ensures Feed(isKey, s, data).chunks != [] && |Feed(isKey, s, data).chunks[0]| == 1 && Feed(isKey, s, data).chunks[0] != [ESC]
  {
    hide Feed, ParseSgrMouse;
    assert data[0] == r[got];
    assert IsSgrParameter(r[got]) || IsMouseFinal(r[got]) || r[got] == 0x3c;
    FirstKeyComesOut(isKey, s, data);
  }

  // ----- timeouts -----

  lemma ArrivingIdle(isKey: KeyParser, s: State, r: bytes, got: nat)
    requires Short(r) && got < |r| && KeepsAll(s) && s.buffer == r[..got]
    ensures var out := Timeout(isKey, s);
            && (got == 0 ==> out == Output(s, []))
            && (got == 1 && MayHold(s) ==> out == Output(s.(heldEscape := true), []))
            && (got == 1 && !MayHold(s) ==> out == Output(Unawaited(s).(buffer := [], loneEscape := true), [[ESC]]))
            && (got == 2 ==> out.chunks == [[ESC, 0x5b]] || (out.chunks == [] && AtRest(out.state)))
            && (got >= 3 ==> out == Output(s.(buffer := [], discard := Some(OrphanedSgrMouseTail), discardedTail := got), []))
  {
    hide ExtractOneEvent, ParseSgrMouse, CompleteOrphanLen, TerminatorLen;
    PrefixIncomplete(isKey, r, got);
    assert DrainStep(isKey, s) == Stop(s);
    assert Drain(isKey, s) == Output(s, []);
    var b := s.buffer;
    assert forall i | 0 <= i < got :: b[i] == r[i];
    assert got >= 3 ==> b[..3] == SGR_START;
    assert got == 1 ==> b == [ESC];
    assert got == 2 ==> b == [ESC, 0x5b];
    assert got < 3 ==> !IsIncompleteSgrMouse(b) && !IsIncompletePaste(b) && !IsIncompleteSchemeReport(b);
    assert got == 2 ==> b[1..] == [0x5b];
  }

  lemma DroppingIdle(isKey: KeyParser, s: State, rest: bytes)
    requires Discarding(s, rest)
    ensures Timeout(isKey, s).chunks == [] && AtRest(Timeout(isKey, s).state)
  {
    hide ExtractOneEvent, CompleteOrphanLen, TerminatorLen;
    DiscardTailAll([], s.discardedTail);
    assert DrainStep(isKey, s) == Stop(s);
    assert Drain(isKey, s) == Output(s, []);
  }

  /** The timeout's decision in front of a tail that has begun. */
  lemma SettleWatched(isKey: KeyParser, s: State)
    requires s.loneEscape && s.discard.None? && IsIncompleteOrphan(s.buffer) && CompleteOrphanLen(s.buffer).None?
    requires AcceptsEveryScalar(isKey)
    ensures var out := Settle(isKey, s);
            && (s.buffer == [] ==> out == Output(s, []))
            && (|s.buffer| == 1 ==> out.chunks != [])
            && (|s.buffer| >= 2 ==> out == Output(DiscardMouse(s.(buffer := [], loneEscape := false), |s.buffer|), []))
  {
    hide CompleteOrphanLen, AcceptsEveryScalar;
    if |s.buffer| == 1 {
      BracketIsKey(isKey);
      assert s.buffer == [0x5b];
    }
  }

  lemma BracketIsKey(isKey: KeyParser)
    requires AcceptsEveryScalar(isKey)
    ensures isKey([0x5b]) && Utf8.IsValid([0x5b])
  {
    assert Utf8.IsScalar([0x5b]);
    Utf8.ScalarIsValid([0x5b]);
  }

  lemma WatchedIdle(isKey: KeyParser, s: State, r: bytes, got: nat)
    requires Short(r) && AcceptsEveryScalar(isKey) && Watches(s, r, got)
    ensures var out := Timeout(isKey, s);
            && (got == 1 ==> out == Output(s, []))
            && (got == 2 ==> out.chunks != [])
            && (got >= 3 ==> out == Output(s.(buffer := [], loneEscape := false, discard := Some(OrphanedSgrMouseTail), discardedTail := got - 1), []))
  {
    hide Short, AcceptsEveryScalar, ExtractOneEvent, CompleteOrphanLen, IsIncompleteOrphan, DiscardOrphanTail, TerminatorLen;
    TailWatched(r, got);
    IncompleteNotComplete(s.buffer);
    assert DrainStep(isKey, s) == Stop(s);
    assert Drain(isKey, s) == Output(s, []);
    hide Settle, DrainStep, Drain;
    SettleWatched(isKey, s);
  }

  // ----- one operation -----

  lemma InputArriving(isKey: KeyParser, s: State, chunks: seq<bytes>, r: bytes, fate: Fate, data: bytes)
    requires IsReport(isKey, r) && Short(r)
    requires fate.Arriving? && Goes(s, chunks, r, fate) && Brings(r, Reading(r), fate, Input(data))
    ensures var out := Feed(isKey, s, data); Goes(out.state, chunks + out.chunks, r, AdvanceInput(r, fate, data))
  {
    hide Feed, IsReport, AcceptsEveryScalar, Short, Discarding, Spoiled, HasReportShape, IsPlain, ParseSgrMouse, Lead, Watches;
    ShortLength(r);
    SpoiledMore(chunks, Feed(isKey, s, data).chunks, r);
    ArrivingInput(isKey, s, r, fate.got, data);
  }

  lemma InputDropping(isKey: KeyParser, s: State, chunks: seq<bytes>, r: bytes, fate: Fate, data: bytes)
    requires Short(r)
    requires fate.Dropping? && Goes(s, chunks, r, fate) && Brings(r, Reading(r), fate, Input(data))
    ensures var out := Feed(isKey, s, data); Goes(out.state, chunks + out.chunks, r, AdvanceInput(r, fate, data))
  {
    hide Feed, IsReport, AcceptsEveryScalar, Short, Discarding, Spoiled, HasReportShape, IsPlain, ParseSgrMouse, Watches;
    ShortLength(r);
    SpoiledMore(chunks, Feed(isKey, s, data).chunks, r);
    DroppingInput(isKey, s, r, fate.got, data);
  }

  lemma InputWatched(isKey: KeyParser, s: State, chunks: seq<bytes>, r: bytes, fate: Fate, data: bytes)
    requires Short(r) && AcceptsEveryScalar(isKey)
    requires fate.Watched? && Goes(s, chunks, r, fate) && Brings(r, Reading(r), fate, Input(data))
    ensures var out := Feed(isKey, s, data); Goes(out.state, chunks + out.chunks, r, AdvanceInput(r, fate, data))
  {
    hide Feed, IsReport, AcceptsEveryScalar, Short, Discarding, Spoiled, HasReportShape, IsPlain, ParseSgrMouse, Lead;
    ShortLength(r);
    SpoiledMore(chunks, Feed(isKey, s, data).chunks, r);
    if fate.got + |data| > MAX_ORPHANED_SGR_MOUSE_TAIL_BYTES + 1 {
      WatchOverflows(isKey, s, r, fate.got, data);
    } else {
      WatchedInput(isKey, s, r, fate.got, data);
    }
  }

  lemma LeadIs(escaped: bool)
    ensures Lead(escaped) in {[], [[ESC]]}
  {
  }

  lemma InputLoose(isKey: KeyParser, s: State, chunks: seq<bytes>, r: bytes, fate: Fate, data: bytes)
    requires Short(r) && AcceptsEveryScalar(isKey)
    requires fate.Loose? && Goes(s, chunks, r, fate) && Brings(r, Reading(r), fate, Input(data))
    ensures var out := Feed(isKey, s, data); Goes(out.state, chunks + out.chunks, r, AdvanceInput(r, fate, data))
  {
    hide Feed, IsReport, AcceptsEveryScalar, Short, Discarding, Spoiled, HasReportShape, IsPlain, ParseSgrMouse, Lead, Watches;
    ShortLength(r);
    SpoiledMore(chunks, Feed(isKey, s, data).chunks, r);
    LeadIs(fate.escaped);
    if data == [] {
      FeedNothing(isKey, s);
    } else if !Spoiled(chunks, r) {
      LooseInput(isKey, s, r, fate.got, data);
    }
  }

  lemma InputDone(isKey: KeyParser, s: State, chunks: seq<bytes>, r: bytes, fate: Fate, data: bytes)
    requires Short(r)
    requires (fate.Whole? || fate.Vanished? || fate.EscapeOnly? || fate.Leaked?) && Goes(s, chunks, r, fate) && Brings(r, Reading(r), fate, Input(data))
    ensures var out := Feed(isKey, s, data); Goes(out.state, chunks + out.chunks, r, AdvanceInput(r, fate, data))
  {
    hide Feed, IsReport, AcceptsEveryScalar, Short, Discarding, Spoiled, HasReportShape, IsPlain, ParseSgrMouse, Lead, Watches;
    ShortLength(r);
    SpoiledMore(chunks, Feed(isKey, s, data).chunks, r);
    if !fate.Leaked? {
      assert data == [];
      FeedNothing(isKey, s);
    }
  }

  lemma RestIdle(isKey: KeyParser, s: State)
    requires AtRest(s)
    ensures Timeout(isKey, s) == Output(s, [])
  {
    EmptyStops(isKey, s);
  }

  /** A timeout with the report barely begun. */
  lemma IdleBegun(isKey: KeyParser, s: State, chunks: seq<bytes>, r: bytes, fate: Fate)
    requires Short(r)
    requires fate.Arriving? && fate.got <= 2 && Goes(s, chunks, r, fate)
    ensures var out := Timeout(isKey, s); Goes(out.state, chunks + out.chunks, r, AdvanceIdle(fate))
  {
    hide Timeout, AcceptsEveryScalar, Short, Discarding, Spoiled, HasReportShape, IsPlain, ParseSgrMouse;
    ShortLength(r);
    SpoiledMore(chunks, Timeout(isKey, s).chunks, r);
    ArrivingIdle(isKey, s, r, fate.got);
    if fate.got == 1 {
      assert r[1..1] == [];
    }
  }

  lemma IdleInside(isKey: KeyParser, s: State, chunks: seq<bytes>, r: bytes, fate: Fate)
    requires Short(r)
    requires fate.Arriving? && fate.got >= 3 && Goes(s, chunks, r, fate)
    ensures var out := Timeout(isKey, s); Goes(out.state, chunks + out.chunks, r, AdvanceIdle(fate))
  {
    hide Timeout, AcceptsEveryScalar, Short, Discarding, Spoiled, HasReportShape, IsPlain, ParseSgrMouse, Watches;
    ShortLength(r);
    SpoiledMore(chunks, Timeout(isKey, s).chunks, r);
    ArrivingIdle(isKey, s, r, fate.got);
    RestDiscards(r, fate.got, Timeout(isKey, s).state);
  }

  lemma IdleWatched(isKey: KeyParser, s: State, chunks: seq<bytes>, r: bytes, fate: Fate)
    requires Short(r) && AcceptsEveryScalar(isKey)
    requires fate.Watched? && Goes(s, chunks, r, fate)
    ensures var out := Timeout(isKey, s); Goes(out.state, chunks + out.chunks, r, AdvanceIdle(fate))
  {
    hide Timeout, AcceptsEveryScalar, Short, Discarding, Spoiled, HasReportShape, IsPlain, ParseSgrMouse;
    ShortLength(r);
    SpoiledMore(chunks, Timeout(isKey, s).chunks, r);
    WatchedIdle(isKey, s, r, fate.got);
    if fate.got >= 3 { RestDiscards(r, fate.got, Timeout(isKey, s).state); }
  }

  lemma IdleAfter(isKey: KeyParser, s: State, chunks: seq<bytes>, r: bytes, fate: Fate)
    requires Short(r)
    requires !fate.Arriving? && !fate.Watched? && Goes(s, chunks, r, fate)
    ensures var out := Timeout(isKey, s); Goes(out.state, chunks + out.chunks, r, AdvanceIdle(fate))
  {
    hide Timeout, AcceptsEveryScalar, Short, Discarding, Spoiled, HasReportShape, IsPlain, ParseSgrMouse, Lead, Watches;
    ShortLength(r);
    SpoiledMore(chunks, Timeout(isKey, s).chunks, r);
    match fate {
      case Dropping(got, _) => DroppingIdle(isKey, s, r[got..]);
      case Leaked =>
      case Loose(_, _) =>
        if !Spoiled(chunks, r) { RestIdle(isKey, s); }
      case _ => RestIdle(isKey, s);
    }
  }

  lemma RestDiscards(r: bytes, got: nat, s: State)
    requires Short(r) && 3 <= got < |r|
    requires !s.loneEscape && s.buffer == [] && s.discard == Some(OrphanedSgrMouseTail) && s.discardedTail <= got
    ensures Discarding(s, r[got..])
  {
    hide ParseSgrMouse;
    assert forall i | 0 <= i < |r| - got :: r[got..][i] == r[got + i];
  }

  lemma QueryStep(isKey: KeyParser, s: State, chunks: seq<bytes>, r: bytes, fate: Fate, op: Op)
    requires op.ColorQuerySent? || op.TrackSchemeChanges?
    requires |r| >= 4 && Goes(s, chunks, r, fate)
    ensures var out := Apply(isKey, s, op); Goes(out.state, chunks + out.chunks, r, Advance(r, fate, op))
  {
    hide Spoiled, Lead, IsSgrParameter, IsMouseFinal;
    SpoiledMore(chunks, [], r);
  }

  lemma FateStep(isKey: KeyParser, s: State, chunks: seq<bytes>, r: bytes, fate: Fate, op: Op)
    requires IsReport(isKey, r) && Short(r) && AcceptsEveryScalar(isKey)
    requires Goes(s, chunks, r, fate) && Brings(r, Reading(r), fate, op)
    ensures var out := Apply(isKey, s, op); Goes(out.state, chunks + out.chunks, r, Advance(r, fate, op))
  {
    hide Apply, Goes, AdvanceInput, AdvanceIdle, Brings, IsReport, Short, AcceptsEveryScalar;
    ShortLength(r);
    match op {
      case Input(data) =>
        ApplyInput(isKey, s, data);
        match fate {
          case Arriving(_, _) => InputArriving(isKey, s, chunks, r, fate, data);
          case Dropping(_, _) => InputDropping(isKey, s, chunks, r, fate, data);
          case Watched(_) => InputWatched(isKey, s, chunks, r, fate, data);
          case Loose(_, _) => InputLoose(isKey, s, chunks, r, fate, data);
          case _ => InputDone(isKey, s, chunks, r, fate, data);
        }
      case Idle =>
        ApplyIdle(isKey, s);
        if fate.Watched? {
          IdleWatched(isKey, s, chunks, r, fate);
        } else if !fate.Arriving? {
          IdleAfter(isKey, s, chunks, r, fate);
        } else if fate.got <= 2 {
          IdleBegun(isKey, s, chunks, r, fate);
        } else {
          IdleInside(isKey, s, chunks, r, fate);
        }
      case _ => QueryStep(isKey, s, chunks, r, fate, op);
    }
  }

  // ----- whole runs -----

  lemma FateCounts(r: bytes)
    ensures Counts(r, Advancing(r), Reading(r))
  {
  }

  lemma FateKeeps(isKey: KeyParser, r: bytes)
    requires IsReport(isKey, r) && Short(r) && AcceptsEveryScalar(isKey)
    ensures Keeps(isKey, r, Advancing(r), Reading(r), Going(r))
  {
    hide Apply, Goes, Advance, Brings, Reading, IsReport, Short, AcceptsEveryScalar;
    forall s, chunks, fate, op | Going(r)(s, chunks, fate) && Brings(r, Reading(r), fate, op)
      ensures Going(r)(Apply(isKey, s, op).state, chunks + Apply(isKey, s, op).chunks, Advancing(r)(fate, op))
    {
      FateStep(isKey, s, chunks, r, fate, op);
    }
  }

  /** The fate of a report sent to a framer at rest. */
  function ReportFate(s: State, r: bytes, ops: seq<Op>): Fate {
    Follow(Advancing(r), Arriving(0, MayHold(s)), ops)
  }

  lemma FateFromRest(isKey: KeyParser, s: State, r: bytes, ops: seq<Op>, later: bytes)
    requires IsReport(isKey, r) && Short(r) && AcceptsEveryScalar(isKey) && AtRest(s)
    requires r == Pushed(ops) + later
    ensures var (out, end) := (Run(isKey, s, ops), ReportFate(s, r, ops));
            Goes(out.state, out.chunks, r, end) && (Read(r, end).Some? ==> Read(r, end).value == |r| - |later|)
  {
    hide Run, IsReport, Short, HasReportShape, IsPlain, Advance, AcceptsEveryScalar, Keeps, Counts, Follow, Discarding;
    ShortLength(r);
    assert r[0..] == r && r[..0] == [];
    FateCounts(r);
    FateKeeps(isKey, r);
    FollowRun(isKey, r, Advancing(r), Reading(r), Going(r), s, [], Arriving(0, MayHold(s)), ops, later);
    assert [] + Run(isKey, s, ops).chunks == Run(isKey, s, ops).chunks;
  }

  /** When the whole report has been read its fate is settled. */
  lemma Settled(s: State, chunks: seq<bytes>, r: bytes, fate: Fate)
    requires |r| >= 4 && Goes(s, chunks, r, fate) && (Read(r, fate).Some? ==> Read(r, fate).value == |r|)
    ensures fate in {Whole, Vanished, EscapeOnly, Leaked}
    ensures chunks == [r] <==> fate == Whole
    ensures chunks == [] <==> fate == Vanished
    ensures chunks == [[ESC]] <==> fate == EscapeOnly
    ensures fate != Leaked ==> AtRest(s)
  {
  }

  /**
   A plain report of at most 128 bytes arriving in any pieces, with timeouts and queries anywhere, comes out
   as one chunk, leaves nothing, or leaves only its ESC if and only if that is its fate; in these cases the
   framer is at rest afterwards. Otherwise it leaks.
   */
  lemma MouseReportFate(isKey: KeyParser, s: State, ops: seq<Op>)
    requires AcceptsEveryScalar(isKey) && AtRest(s)
    requires IsReport(isKey, Pushed(ops)) && IsPlain(Pushed(ops)) && |Pushed(ops)| <= MAX_DISCARDED_CONTROL_TAIL_BYTES
    ensures var (out, fate) := (Run(isKey, s, ops), ReportFate(s, Pushed(ops), ops));
            && fate in {Whole, Vanished, EscapeOnly, Leaked}
            && (out.chunks == [Pushed(ops)] <==> fate == Whole)
            && (out.chunks == [] <==> fate == Vanished)
            && (out.chunks == [[ESC]] <==> fate == EscapeOnly)
            && (fate != Leaked ==> AtRest(out.state))
  {
    var r := Pushed(ops);
    ReportShape(isKey, r);
    assert Short(r) && |r| >= 4;
    hide Run, IsReport, Short, HasReportShape, IsPlain, ReportFate, Goes, Read, AtRest, AcceptsEveryScalar;
    assert r == r + [];
    FateFromRest(isKey, s, r, ops, []);
    Settled(Run(isKey, s, ops).state, Run(isKey, s, ops).chunks, r, ReportFate(s, r, ops));
  }

  // ----- input after the report -----

  lemma DroppingCut(isKey: KeyParser, s: State, rest: bytes, more: bytes)
    requires Discarding(s, rest)
    ensures Feed(isKey, s, rest + more) == Then(Feed(isKey, s, rest).chunks, Feed(isKey, Feed(isKey, s, rest).state, more))
  {
    hide Feed;
    assert rest + more + [] == rest + more && rest + [] == rest;
    FeedDiscarding(isKey, s, rest, rest + more, [], more);
    FeedDiscarding(isKey, s, rest, rest, [], []);
    assert (rest + more)[|rest|..] == more && rest[|rest|..] == [];
    FeedNothing(isKey, Released(s));
    ThenNothing(Feed(isKey, Released(s), more));
  }

  lemma WatchedCut(isKey: KeyParser, s: State, r: bytes, got: nat, last: bytes, more: bytes)
    requires Short(r) && Watches(s, r, got) && last == r[got..] && |r| <= MAX_ORPHANED_SGR_MOUSE_TAIL_BYTES + 1
    ensures Feed(isKey, s, last + more) == Then(Feed(isKey, s, last).chunks, Feed(isKey, Feed(isKey, s, last).state, more))
  {
    hide Feed, HasReportShape, IsPlain;
    assert r[1..][..|s.buffer|] == s.buffer;
    assert s.buffer + last == r[1..] && s.buffer + (last + more) == r[1..] + more;
    assert s.buffer + (last + more) + [] == r[1..] + more && s.buffer + last + [] == r[1..] + [];
    WatchStep(isKey, s, r, last + more, [], more);
    WatchStep(isKey, s, r, last, [], []);
    assert (s.buffer + (last + more))[|r| - 1..] == more && (s.buffer + last)[|r| - 1..] == [];
    FeedNothing(isKey, s.(buffer := [], loneEscape := false));
    ThenNothing(Feed(isKey, s.(buffer := [], loneEscape := false), more));
  }

  /** A read that completes a report without leaking may be cut at the report's end. */
  lemma LastRead(isKey: KeyParser, s: State, chunks: seq<bytes>, r: bytes, fate: Fate, last: bytes, more: bytes)
    requires Short(r) && Goes(s, chunks, r, fate) && Brings(r, Reading(r), fate, Input(last))
    requires Read(r, fate).Some? ==> Read(r, fate).value == |r| - |last|
    requires Advance(r, fate, Input(last)) != Leaked
    ensures Feed(isKey, s, last + more) == Then(Feed(isKey, s, last).chunks, Feed(isKey, Feed(isKey, s, last).state, more))
  {
    hide Feed, Short, Discarding;
    match fate {
      case Dropping(got, _) =>
        assert last == r[got..];
        DroppingCut(isKey, s, r[got..], more);
      case Watched(got) =>
        assert last == r[got..];
        WatchedCut(isKey, s, r, got, last, more);
      case _ =>
        if Streams(s) { FeedCut(isKey, s, last, more); }
    }
  }

  /**
   Whatever follows a report in the read that completes it, and after that, is framed as by the framer at rest
   that the report leaves behind.
   */
  lemma InputAfterReport(isKey: KeyParser, s: State, head: seq<Op>, last: bytes, more: bytes, tail: seq<Op>)
    requires AcceptsEveryScalar(isKey) && AtRest(s)
    requires var r := Pushed(head) + last;
             && IsReport(isKey, r) && IsPlain(r) && |r| <= MAX_DISCARDED_CONTROL_TAIL_BYTES
             && ReportFate(s, r, head + [Input(last)]) != Leaked
    ensures var mid := Run(isKey, s, head + [Input(last)]);
            && AtRest(mid.state)
            && Run(isKey, s, head + [Input(last + more)] + tail) == Then(mid.chunks, Run(isKey, mid.state, [Input(more)] + tail))
  {
    var r := Pushed(head) + last;
    ReportShape(isKey, r);
    assert Short(r);
    hide Run, IsReport, Short, HasReportShape, Goes, Read, AtRest, AcceptsEveryScalar, Follow, Advance, Feed, IsPlain, Brings;
    var (t, start) := (Run(isKey, s, head), Arriving(0, MayHold(s)));
    var fate := ReportFate(s, r, head);
    PushedConcat(head, [Input(last)]);
    assert Pushed([Input(last)]) == last + [] == last;
    MouseReportFate(isKey, s, head + [Input(last)]);
    FateFromRest(isKey, s, r, head, last);
    FollowConcat(Advancing(r), start, head, [Input(last)]);
    FollowOne(Advancing(r), fate, Input(last));
    LastPart(r, fate, last, Pushed(head));
    LastRead(isKey, t.state, t.chunks, r, fate, last, more);
    LongRead(isKey, s, head, last, more, tail);
  }

  lemma LastPart(r: bytes, fate: Fate, last: bytes, before: bytes)
    requires r == before + last && (Read(r, fate).Some? ==> Read(r, fate).value == |r| - |last|)
    ensures Brings(r, Reading(r), fate, Input(last))
  {
  }
}
