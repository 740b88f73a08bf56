/**
 Bracketed pastes under any reads, timeouts and queries: exactly which timeouts leave a paste whole.
 */
module FramerPaste {
  import opened Options
  import opened Bytes
  import Utf8
  import opened RawInput
  import opened Framer
  import opened FramerSplit
  import opened FramerSafety
  import opened FramerText
  import opened FramerColor
  import opened FramerFollow

  /** A bracketed paste: valid text between the markers, the end marker first occurring at the end. */
  ghost predicate IsPaste(r: bytes) {
    && |r| >= 12 && PASTE_START <= r
    && FindSubsequence(r, PASTE_END, 0) == Some(|r| - 6)
    && Utf8.IsValid(r[6..|r| - 6])
  }

  function Content(r: bytes): bytes
    requires |r| >= 12
  {
    r[6..|r| - 6]
  }

  datatype Fate =
    | Arriving(got: nat, mayHold: bool)   // buffered so far
    | Cut(got: nat)                       // something of it is lost or out already
    | Whole

  function Advance(r: bytes, fate: Fate, op: Op): Fate {
    match op
    case Input(data) =>
      (match fate
       case Arriving(got, mayHold) => if got + |data| < |r| then Arriving(got + |data|, mayHold) else Whole
       case Cut(got) => Cut(got + |data|)
       case Whole => fate)
    case Idle =>
      (match fate
       case Arriving(got, mayHold) =>
         if got == 0 || got >= 6 then fate
         else if got == 1 && mayHold then Arriving(1, false)
         else Cut(got)
       case _ => fate)
    case ColorQuerySent => if fate.Arriving? then fate.(mayHold := true) else fate
    case TrackSchemeChanges => fate
  }

  function Read(r: bytes, fate: Fate): Option<nat> {
    match fate
    case Arriving(got, _) => Some(got)
    case Cut(got) => Some(got)
    case Whole => Some(|r|)
  }

  /** Fewer bytes are left, out or buffered, than were read. */
  ghost predicate Short(s: State, chunks: seq<bytes>, got: nat) {
    |Flatten(chunks)| + |s.buffer| < got
  }

  predicate StartsOtherwise(chunks: seq<bytes>, r: bytes) {
    chunks != [] && chunks[0] != r
  }

  ghost predicate Goes(s: State, chunks: seq<bytes>, r: bytes, fate: Fate) {
    match fate
    case Arriving(got, mayHold) => got < |r| && KeepsAll(s) && s.buffer == r[..got] && chunks == [] && mayHold == MayHold(s)
    case Cut(got) => got <= |r| && (StartsOtherwise(chunks, r) || Short(s, chunks, got))
    case Whole => AtRest(s) && chunks == [r]
  }

  function Advancing(r: bytes): (Fate, Op) -> Fate {
    (fate, op) => Advance(r, fate, op)
  }

  function Reading(r: bytes): Fate -> Option<nat> {
    fate => Read(r, fate)
  }

  ghost function Going(r: bytes): (State, seq<bytes>, Fate) -> bool {
    (s, chunks, fate) => Goes(s, chunks, r, fate)
  }

  // ----- recognising a paste -----

  /** The end marker is not found before the end. */
  lemma NoEndYet(r: bytes, k: nat)
    requires IsPaste(r) && k < |r|
    ensures FindSubsequence(r[..k], PASTE_END, 0) == None
  {
    assert r[..k] + r[k..] == r;
    if FindSubsequence(r[..k], PASTE_END, 0).Some? {
      FindSubsequenceExtends(r[..k], r[k..], PASTE_END, 0);
    }
  }

  lemma PrefixIncomplete(isKey: KeyParser, r: bytes, k: nat)
    requires IsPaste(r) && k < |r|
    ensures ExtractOneEvent(isKey, r[..k]).None?
    ensures 1 <= k ==> r[..k][0] == ESC
    ensures 2 <= k ==> r[..k][1] == 0x5b
    ensures 3 <= k ==> r[..k][2] == 0x32
    ensures 6 <= k ==> PASTE_START <= r[..k]
    ensures k < 6 ==> r[..k] == PASTE_START[..k]
  {
    hide Utf8.IsValid, CompleteEscapeLen, FindSubsequence;
    var b := r[..k];
    assert forall i | 0 <= i < 6 :: r[i] == PASTE_START[i];
    NoEndYet(r, k);
    if 1 <= k < 6 {
      assert b == PASTE_START[..k];
      PastePrefixIncomplete(k);
    } else if k >= 6 {
      assert b[..6] == PASTE_START;
    }
  }

  lemma PasteWhole(isKey: KeyParser, r: bytes)
    requires IsPaste(r)
    ensures ExtractOneEvent(isKey, r) == Some(Extracted(Paste(Content(r)), |r|))
  {
    hide FindSubsequence, Utf8.IsValid;
  }

  // ----- one operation -----

  lemma ArrivingInput(isKey: KeyParser, s: State, r: bytes, got: nat, data: bytes)
    requires IsPaste(r) && got < |r| && KeepsAll(s) && s.buffer == r[..got]
    requires got + |data| <= |r| && r[got..got + |data|] == data
    ensures var out := Feed(isKey, s, data);
            if got + |data| < |r| then out == Output(s.(buffer := r[..got + |data|]), [])
            else out.chunks == [r] && AtRest(out.state)
  {
    hide ExtractOneEvent, IsPaste;
    var t := s.(buffer := s.buffer + data);
    assert t.buffer == r[..got + |data|];
    if got + |data| < |r| {
      PrefixIncomplete(isKey, r, got + |data|);
      assert DrainStep(isKey, t) == Stop(t);
    } else {
      assert t.buffer == r && r[..|r|] == r && r[|r|..] == [];
      PasteWhole(isKey, r);
      var event := ExtractOneEvent(isKey, r).value.event;
      var u := NoteEvent(t, event).(buffer := []);
      assert DrainStep(isKey, t) == Go(u, [r]);
      EmptyStops(isKey, u);
    }
  }

  /** The timeout's decision in front of the beginning of a paste. */
  lemma SettleBegun(isKey: KeyParser, s: State)
    requires KeepsAll(s) && s.buffer != [] && |s.buffer| < 6 && s.buffer == PASTE_START[..|s.buffer|]
    ensures var out := Settle(isKey, s);
            && (|s.buffer| == 1 && MayHold(s) ==> out == Output(s.(heldEscape := true), []))
            && (|s.buffer| == 1 && !MayHold(s) ==> out.chunks == [s.buffer])
            && (|s.buffer| >= 2 ==> out.state.buffer == [] && (out.chunks == [] || out.chunks == [s.buffer]))
  {
    hide Utf8.IsValid, TerminatorLen;
    var b := s.buffer;
    assert b[0] == ESC && (|b| >= 2 ==> b[1] == 0x5b) && (|b| >= 3 ==> b[2] == 0x32);
    assert !IsIncompleteSgrMouse(b) && !IsIncompletePaste(b) && !IsIncompleteSchemeReport(b) && Introduces(b).None?;
    assert |b| == 1 ==> b == [ESC];
    assert |b| >= 2 ==> b[1..][0] == 0x5b;
  }

  lemma ArrivingIdle(isKey: KeyParser, s: State, r: bytes, got: nat)
    requires IsPaste(r) && got < |r| && KeepsAll(s) && s.buffer == r[..got]
    ensures var out := Timeout(isKey, s);
            && (got == 0 || got >= 6 ==> out == Output(s, []))
            && (got == 1 && MayHold(s) ==> out == Output(s.(heldEscape := true), []))
            && (got == 1 && !MayHold(s) ==> out.chunks == [s.buffer])
            && (2 <= got < 6 ==> out.state.buffer == [] && (out.chunks == [] || out.chunks == [s.buffer]))
  {
    hide ExtractOneEvent, IsPaste, Settle;
    PrefixIncomplete(isKey, r, got);
    assert DrainStep(isKey, s) == Stop(s);
    assert Drain(isKey, s) == Output(s, []);
    if got >= 6 {
      SettleWaits(isKey, s, r, got);
    } else if got >= 1 {
      SettleBegun(isKey, s);
    } else {
      SettleNothing(isKey, s);
    }
  }

  lemma SettleNothing(isKey: KeyParser, s: State)
    requires AtRest(s)
    ensures Settle(isKey, s) == Output(s, [])
  {
  }

  lemma SettleWaits(isKey: KeyParser, s: State, r: bytes, got: nat)
    requires IsPaste(r) && 6 <= got < |r| && KeepsAll(s) && s.buffer == r[..got]
    ensures Settle(isKey, s) == Output(s, [])
  {
    hide FindSubsequence, Utf8.IsValid;
    NoEndYet(r, got);
    assert s.buffer[..6] == PASTE_START;
    assert s.buffer[2] == PASTE_START[2];
    assert IsIncompletePaste(s.buffer) && !IsIncompleteSgrMouse(s.buffer);
  }

  /** What was lost stays lost: no operation makes bytes. */
  lemma ShortStays(isKey: KeyParser, s: State, chunks: seq<bytes>, got: nat, op: Op)
    requires Short(s, chunks, got)
    ensures Short(Apply(isKey, s, op).state, chunks + Apply(isKey, s, op).chunks, got + |Received(op)|)
  {
    hide Apply, IsSubsequence;
    var out := Apply(isKey, s, op);
    ApplyConserves(isKey, s, op);
    SubsequenceLength(Flatten(out.chunks) + out.state.buffer, s.buffer + Received(op));
    FlattenConcat(chunks, out.chunks);
  }

  lemma StartsMore(chunks: seq<bytes>, more: seq<bytes>, r: bytes)
    ensures StartsOtherwise(chunks, r) ==> StartsOtherwise(chunks + more, r)
    ensures chunks == [] ==> chunks + more == more
    ensures more == [] ==> chunks + more == chunks
  {
  }

  lemma InputStep(isKey: KeyParser, s: State, chunks: seq<bytes>, r: bytes, fate: Fate, data: bytes)
    requires IsPaste(r) && !fate.Cut? && Goes(s, chunks, r, fate) && Brings(r, Reading(r), fate, Input(data))
    ensures var out := Feed(isKey, s, data); Goes(out.state, chunks + out.chunks, r, Advance(r, fate, Input(data)))
  {
    hide Feed, IsPaste, StartsOtherwise, Short;
    StartsMore(chunks, Feed(isKey, s, data).chunks, r);
    match fate {
      case Arriving(got, _) => ArrivingInput(isKey, s, r, got, data);
      case Whole =>
        assert data == [];
        FeedNothing(isKey, s);
    }
  }

  lemma IdleStep(isKey: KeyParser, s: State, chunks: seq<bytes>, r: bytes, fate: Fate)
    requires IsPaste(r) && !fate.Cut? && Goes(s, chunks, r, fate)
    ensures var out := Timeout(isKey, s); Goes(out.state, chunks + out.chunks, r, Advance(r, fate, Idle))
  {
    PasteLength(r);
    hide Timeout, IsPaste;
    StartsMore(chunks, Timeout(isKey, s).chunks, r);
    match fate {
      case Arriving(got, _) => ArrivingIdle(isKey, s, r, got);
      case Whole => FateRest(isKey, s);
    }
  }

  lemma PasteLength(r: bytes)
    requires IsPaste(r)
    ensures |r| >= 12
  {
  }

  lemma FateRest(isKey: KeyParser, s: State)
    requires AtRest(s)
    ensures Timeout(isKey, s) == Output(s, [])
  {
    EmptyStops(isKey, s);
  }

  lemma CutStep(isKey: KeyParser, s: State, chunks: seq<bytes>, r: bytes, got: nat, op: Op)
    requires Goes(s, chunks, r, Cut(got)) && got + |Received(op)| <= |r|
    ensures var out := Apply(isKey, s, op); Goes(out.state, chunks + out.chunks, r, Cut(got + |Received(op)|))
  {
    hide Apply, StartsOtherwise, Short;
    StartsMore(chunks, Apply(isKey, s, op).chunks, r);
    if Short(s, chunks, got) { ShortStays(isKey, s, chunks, got, op); }
  }

  lemma QueryStep(isKey: KeyParser, s: State, chunks: seq<bytes>, r: bytes, fate: Fate, op: Op)
    requires (op.ColorQuerySent? || op.TrackSchemeChanges?) && !fate.Cut? && Goes(s, chunks, r, fate)
    ensures var out := Apply(isKey, s, op); Goes(out.state, chunks + out.chunks, r, Advance(r, fate, op))
  {
    hide StartsOtherwise, Short;
    StartsMore(chunks, [], r);
  }

  lemma FateStep(isKey: KeyParser, s: State, chunks: seq<bytes>, r: bytes, fate: Fate, op: Op)
    requires IsPaste(r) && Goes(s, chunks, r, fate) && Brings(r, Reading(r), fate, op)
    ensures var out := Apply(isKey, s, op); Goes(out.state, chunks + out.chunks, r, Advance(r, fate, op))
  {
    hide Apply, Goes, IsPaste;
    if fate.Cut? {
      CutStep(isKey, s, chunks, r, fate.got, op);
    } else {
      match op {
        case Input(data) =>
          ApplyInput(isKey, s, data);
          InputStep(isKey, s, chunks, r, fate, data);
        case Idle =>
          ApplyIdle(isKey, s);
          IdleStep(isKey, s, chunks, r, fate);
        case _ => QueryStep(isKey, s, chunks, r, fate, op);
      }
    }
  }

  // ----- whole runs -----

  lemma FateCounts(r: bytes)
    ensures Counts(r, Advancing(r), Reading(r))
  {
  }

  lemma FateKeeps(isKey: KeyParser, r: bytes)
    requires IsPaste(r)
    ensures Keeps(isKey, r, Advancing(r), Reading(r), Going(r))
  {
    hide Apply, Goes, Advance, Brings, Reading, IsPaste;
    forall s, chunks, fate, op | Going(r)(s, chunks, fate) && Brings(r, Reading(r), fate, op)
      ensures Going(r)(Apply(isKey, s, op).state, chunks + Apply(isKey, s, op).chunks, Advancing(r)(fate, op))
    {
      FateStep(isKey, s, chunks, r, fate, op);
    }
  }

  /** The fate of a paste sent to a framer at rest. */
  function PasteFate(s: State, r: bytes, ops: seq<Op>): Fate {
    Follow(Advancing(r), Arriving(0, MayHold(s)), ops)
  }

  lemma StartGoes(s: State, r: bytes)
    requires AtRest(s) && r != []
    ensures Goes(s, [], r, Arriving(0, MayHold(s)))
  {
    assert r[..0] == [];
  }

  lemma FateFromRest(isKey: KeyParser, s: State, r: bytes, ops: seq<Op>, later: bytes)
    requires IsPaste(r) && AtRest(s) && r == Pushed(ops) + later
    ensures var (out, end) := (Run(isKey, s, ops), PasteFate(s, r, ops));
            Goes(out.state, out.chunks, r, end) && Read(r, end) == Some(|r| - |later|)
  {
    hide Run, IsPaste, Advance, Keeps, Counts, Follow, Goes, AtRest;
    PasteLength(r);
    StartGoes(s, r);
    assert r[0..] == r;
    FateCounts(r);
    FateKeeps(isKey, r);
    FollowRun(isKey, r, Advancing(r), Reading(r), Going(r), s, [], Arriving(0, MayHold(s)), ops, later);
    ThenNothing(Run(isKey, s, ops));
  }

  /** When the whole paste has been read it came out as one chunk, or cannot have. */
  lemma Settled(s: State, chunks: seq<bytes>, r: bytes, fate: Fate)
    requires Goes(s, chunks, r, fate) && Read(r, fate) == Some(|r|)
    ensures chunks == [r] <==> fate == Whole
    ensures fate == Whole ==> AtRest(s)
  {
    assert Flatten([r]) == r + [] == r;
  }

  /** The timeouts a paste survives: none after its bytes 1 to 5, save one that holds its ESC while a reply is awaited. */
  predicate Harmless(ops: seq<Op>, k: nat, mayHold: bool)
    decreases |ops|
  {
    ops == [] ||
    match ops[0]
    case Input(data) => Harmless(ops[1..], k + |data|, mayHold)
    case Idle => !(2 <= k <= 5) && (k == 1 ==> mayHold) && Harmless(ops[1..], k, mayHold && k != 1)
    case ColorQuerySent => Harmless(ops[1..], k, true)
    case TrackSchemeChanges => Harmless(ops[1..], k, mayHold)
  }

  lemma {:induction false} CutStaysCut(r: bytes, got: nat, ops: seq<Op>)
    ensures Follow(Advancing(r), Cut(got), ops).Cut?
    decreases |ops|
  {
    if ops != [] {
      CutStaysCut(r, got + |Received(ops[0])|, ops[1..]);
    }
  }

  lemma {:induction false} LateIsHarmless(r: bytes, k: nat, mayHold: bool, ops: seq<Op>)
    requires k >= 6
    ensures Harmless(ops, k, mayHold) && Follow(Advancing(r), Whole, ops) == Whole
    decreases |ops|
  {
    if ops != [] {
      match ops[0] {
        case Input(data) => LateIsHarmless(r, k + |data|, mayHold, ops[1..]);
        case Idle => LateIsHarmless(r, k, mayHold && k != 1, ops[1..]);
        case ColorQuerySent => LateIsHarmless(r, k, true, ops[1..]);
        case TrackSchemeChanges => LateIsHarmless(r, k, mayHold, ops[1..]);
      }
    }
  }

  /** The automaton ends whole exactly when the timeouts are harmless. */
  lemma {:induction false} WholeIffHarmless(r: bytes, k: nat, mayHold: bool, ops: seq<Op>)
    requires 6 <= |r| && k < |r| && k + |Pushed(ops)| == |r|
    ensures Follow(Advancing(r), Arriving(k, mayHold), ops) == Whole <==> Harmless(ops, k, mayHold)
    decreases |ops|
  {
    assert ops != [];
    match ops[0] {
      case Input(data) =>
        if k + |data| < |r| {
          WholeIffHarmless(r, k + |data|, mayHold, ops[1..]);
        } else {
          LateIsHarmless(r, k + |data|, mayHold, ops[1..]);
        }
      case Idle =>
        if k == 0 || k >= 6 || (k == 1 && mayHold) {
          WholeIffHarmless(r, k, mayHold && k != 1, ops[1..]);
        } else {
          CutStaysCut(r, k, ops[1..]);
        }
      case ColorQuerySent => WholeIffHarmless(r, k, true, ops[1..]);
      case TrackSchemeChanges => WholeIffHarmless(r, k, mayHold, ops[1..]);
    }
  }

  /**
   A bracketed paste arriving in any pieces, with timeouts and queries anywhere, comes out as one chunk and
   nothing else if and only if the timeouts are harmless; the chunk is then read as a paste of its content,
   and the framer is at rest.
   */
  lemma PasteSurvives(isKey: KeyParser, s: State, ops: seq<Op>)
    requires AtRest(s) && IsPaste(Pushed(ops))
    ensures Run(isKey, s, ops).chunks == [Pushed(ops)] <==> Harmless(ops, 0, MayHold(s))
    ensures Harmless(ops, 0, MayHold(s)) ==> AtRest(Run(isKey, s, ops).state)
    ensures |Pushed(ops)| >= 12 && ExtractOneEvent(isKey, Pushed(ops)) == Some(Extracted(Paste(Content(Pushed(ops))), |Pushed(ops)|))
  {
    var r := Pushed(ops);
    PasteLength(r);
    hide Run, IsPaste, Goes, Read, AtRest, Follow, Harmless, ExtractOneEvent;
    assert r == r + [];
    FateFromRest(isKey, s, r, ops, []);
    Settled(Run(isKey, s, ops).state, Run(isKey, s, ops).chunks, r, PasteFate(s, r, ops));
    WholeIffHarmless(r, 0, MayHold(s), ops);
    PasteWhole(isKey, r);
  }

  /** Every valid text without the end marker makes a paste. */
  lemma TextIsPaste(content: bytes)
    requires Utf8.IsValid(content) && FindSubsequence(PASTE_START + content + PASTE_END, PASTE_END, 0) == Some(6 + |content|)
    ensures IsPaste(PASTE_START + content + PASTE_END)
  {
    hide FindSubsequence, Utf8.IsValid;
    var r := PASTE_START + content + PASTE_END;
    assert r[6..|r| - 6] == content && r[..6] == PASTE_START;
  }

  /** Input after a paste that survived, in the same read or later, is framed as by the framer at rest. */
  lemma InputAfterPaste(isKey: KeyParser, s: State, head: seq<Op>, last: bytes, more: bytes, tail: seq<Op>)
    requires AtRest(s) && IsPaste(Pushed(head) + last) && Harmless(head + [Input(last)], 0, MayHold(s))
    ensures var mid := Run(isKey, s, head + [Input(last)]);
            && AtRest(mid.state)
            && Run(isKey, s, head + [Input(last + more)] + tail) == Then(mid.chunks, Run(isKey, mid.state, [Input(more)] + tail))
  {
    var r := Pushed(head) + last;
    PasteLength(r);
    hide Run, IsPaste, Goes, Read, AtRest, Follow, Harmless, Feed, Advance;
    var (t, fate, start) := (Run(isKey, s, head), PasteFate(s, r, head), Arriving(0, MayHold(s)));
    PushedConcat(head, [Input(last)]);
    assert Pushed([Input(last)]) == last + [] == last;
    PasteSurvives(isKey, s, head + [Input(last)]);
    FateFromRest(isKey, s, r, head, last);
    FollowConcat(Advancing(r), start, head, [Input(last)]);
    FollowOne(Advancing(r), fate, Input(last));
    WholeIffHarmless(r, 0, MayHold(s), head + [Input(last)]);
    Streaming(t.state, t.chunks, r, fate, last);
    FeedCut(isKey, t.state, last, more);
    LongRead(isKey, s, head, last, more, tail);
  }

  lemma Streaming(s: State, chunks: seq<bytes>, r: bytes, fate: Fate, last: bytes)
    requires Goes(s, chunks, r, fate) && Advance(r, fate, Input(last)) == Whole
    ensures Streams(s)
  {
  }
}
