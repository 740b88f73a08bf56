/**
 The raw terminal input framer: it cuts an arbitrarily split byte stream into event
 chunks and decides, when the input goes quiet, whether a partial sequence is held,
 discarded or released.

 `Drain`, `Feed` and `Timeout` are the transitions on framer states; the class
 `RawInputByteFramer` performs them in place.
 */
module Framer {
  import opened Options
  import opened Bytes
  import Utf8
  import opened RawInput

  const HOST_COLOR_QUERY_REPLIES: nat := 2
  const MAX_ORPHANED_SGR_MOUSE_TAIL_BYTES: nat := 32
  const MAX_DISCARDED_CONTROL_TAIL_BYTES: nat := 128

  datatype State = State(
    buffer: bytes,
    discard: Option<Family>,
    discardedTail: nat,
    loneEscape: bool,
    repliesAwaited: nat,
    heldEscape: bool,
    trackScheme: bool)

  const FRESH: State := State([], None, 0, false, 0, false, false)

  datatype Output = Output(state: State, chunks: seq<bytes>)

  // ----- discarding the tail of a mouse report whose ESC is gone -----

  predicate IsIncompleteOrphan(b: bytes) {
    && |b| <= MAX_ORPHANED_SGR_MOUSE_TAIL_BYTES
    && if |b| < 2 then b <= TAIL_START
       else TAIL_START <= b && forall i | 2 <= i < |b| :: IsSgrParameter(b[i])
  }

  /** Length of a whole mouse report minus its ESC at the front of `b`. */
  function CompleteOrphanLen(b: bytes): (r: Option<nat>)
    ensures r.Some? ==> 1 <= r.value <= |b|
  {
    match TerminatorLen(b, OrphanedSgrMouseTail)
    case None => None
    case Some(n) =>
      if n > MAX_ORPHANED_SGR_MOUSE_TAIL_BYTES || !Utf8.IsValid([ESC] + b[..n]) || ParseSgrMouse([ESC] + b[..n]).None?
      then None else Some(n)
  }

  datatype TailDiscard = TailDiscard(rest: bytes, discarded: nat, done: bool)

  /** Drops mouse-report parameters through the final byte, within what is left of the budget. */
  function DiscardOrphanTail(b: bytes, discarded: nat): (r: TailDiscard)
    ensures |r.rest| <= |b| && r.rest == b[|b| - |r.rest|..]
    ensures !r.done ==> r.rest == []
  {
    var remaining := if discarded < MAX_DISCARDED_CONTROL_TAIL_BYTES then MAX_DISCARDED_CONTROL_TAIL_BYTES - discarded else 0;
    var inspected := if |b| < remaining then |b| else remaining;
    match FindFrom(b[..inspected], 0, x => !IsSgrParameter(x))
    case Some(k) => TailDiscard(if IsMouseFinal(b[k]) then b[k + 1..] else b[k..], discarded, true)
    case None => TailDiscard([], discarded + inspected, |b| > inspected)
  }

  predicate IsPlausibleTail(family: Family, b: bytes) {
    match family
    case Osc =>
      forall x | x in b ::
        IsDigit(x) || x in {0x3b, 0x3a, 0x2f, 0x23, 0x3f, 0x2e, 0x5f, 0x2d, 0x2b, 0x72, 0x67, 0x62, 0x52, 0x47, 0x42, ESC}
    case StTerminated => EndsInEscape(b)
    case HostColorSchemeCsi => forall x | x in b :: IsDigit(x) || x in {0x3b, 0x3f, 0x6e}
    case OrphanedSgrMouseTail => forall x | x in b :: IsSgrParameter(x) || IsMouseFinal(x)
  }

  predicate EndsInEscape(b: bytes) {
    |b| > 0 && b[|b| - 1] == ESC
  }

  // ----- transitions -----

  /** What recognising an event does to the reply window. */
  function NoteEvent(s: State, event: Event): State {
    var s := s.(heldEscape := false);
    if event.HostDefaultColor? then
      s.(repliesAwaited := if s.repliesAwaited > 0 then s.repliesAwaited - 1 else 0)
    else if s.trackScheme && event.HostColorSchemeChanged? then
      QuerySent(s)
    else s
  }

  function QuerySent(s: State): State {
    s.(repliesAwaited := HOST_COLOR_QUERY_REPLIES, heldEscape := false)
  }

  datatype Step =
    | Stop(state: State)
    | Go(state: State, emitted: seq<bytes>)

  /** One round of the drain loop. */
  function DrainStep(isKey: KeyParser, s: State): (step: Step)
    ensures step.Go? ==> |step.state.buffer| < |s.buffer| ||
                         (|step.state.buffer| == |s.buffer| && s.discard.Some? && step.state.discard.None?)
  {
    if s.loneEscape && IsIncompleteOrphan(s.buffer) then Stop(s)
    else if s.loneEscape && CompleteOrphanLen(s.buffer).Some? then
      Go(s.(buffer := s.buffer[CompleteOrphanLen(s.buffer).value..], loneEscape := false), [])
    else
      var s := s.(loneEscape := false);
      if s.discard == Some(OrphanedSgrMouseTail) then
        var t := DiscardOrphanTail(s.buffer, s.discardedTail);
        if t.done then Go(s.(buffer := t.rest, discard := None, discardedTail := 0), [])
        else Stop(s.(buffer := t.rest, discardedTail := t.discarded))
      else if s.discard.Some? then
        match TerminatorLen(s.buffer, s.discard.value)
        case None => Stop(s)
        case Some(n) => Go(s.(buffer := s.buffer[n..], discard := None, discardedTail := 0), [])
      else
        match ExtractOneEvent(isKey, s.buffer)
        case None => Stop(s)
        case Some(Extracted(event, n)) =>
          Go(NoteEvent(s, event).(buffer := s.buffer[n..]), [s.buffer[..n]])
  }

  /** Takes every complete chunk off the front of the buffer. */
  function Drain(isKey: KeyParser, s: State): Output
    decreases |s.buffer|, s.discard.Some?
  {
    match DrainStep(isKey, s)
    case Stop(t) => Output(t, [])
    case Go(t, emitted) => Then(emitted, Drain(isKey, t))
  }

  function Then(chunks: seq<bytes>, rest: Output): Output {
    Output(rest.state, chunks + rest.chunks)
  }

  function Feed(isKey: KeyParser, s: State, data: bytes): Output {
    Drain(isKey, s.(buffer := s.buffer + data))
  }

  /** The idle timeout, applied to a drained state. */
  function Settle(isKey: KeyParser, s: State): Output {
    var b := s.buffer;
    var dropped := s.(buffer := []);
    if s.discard == Some(OrphanedSgrMouseTail) then
      Output(dropped.(discard := None, discardedTail := 0), [])
    else if s.discard.Some? then
      var discarded := s.discardedTail + |b|;
      if IsPlausibleTail(s.discard.value, b) && discarded <= MAX_DISCARDED_CONTROL_TAIL_BYTES then
        Output(s.(buffer := if EndsInEscape(b) then [ESC] else [], discardedTail := discarded), [])
      else Output(dropped.(discard := None, discardedTail := 0), [])
    else if b == [] then Output(s, [])
    else if s.loneEscape && TAIL_START <= b then
      if CompleteOrphanLen(b).Some? then
        Output(s.(buffer := b[CompleteOrphanLen(b).value..], loneEscape := false), [])
      else Output(DiscardMouse(dropped.(loneEscape := false), |b|), [])
    else if IsIncompleteSgrMouse(b) then Output(DiscardMouse(dropped, |b|), [])
    else if IsIncompletePaste(b) then Output(s, [])
    else if IsIncompleteColorReply(b) then Output(s, [])
    else if IsIncompleteSchemeReport(b) then
      Output(dropped.(discard := Some(HostColorSchemeCsi), discardedTail := 0), [])
    else if IsIncompleteControlString(b) then
      Output(dropped.(discard := Introduces(b), discardedTail := 0), [])
    else Release(isKey, s)
  }

  /** Timed-out input that no report or control string explains: a key, a partial scalar, or junk. */
  function Release(isKey: KeyParser, s: State): Output
    requires s.buffer != []
  {
    var b := s.buffer;
    var dropped := s.(buffer := []);
    if b == [ESC] then
      if s.repliesAwaited > 0 && !s.heldEscape then Output(s.(heldEscape := true), [])
      else Output(dropped.(repliesAwaited := 0, heldEscape := false, loneEscape := true), [b])
    else if Utf8.IsValid(b) && isKey(b) then Output(dropped, [b])
    else if Utf8.IsIncompleteScalar(b) then Output(s, [])
    else if b[0] == ESC && Utf8.IsIncompleteScalar(b[1..]) then Output(s, [])
    else Output(dropped.(loneEscape := false), [])
  }

  /** Starts discarding a mouse report of which `seen` bytes were already dropped. */
  function DiscardMouse(s: State, seen: nat): State {
    s.(discardedTail := seen,
       discard := if seen <= MAX_DISCARDED_CONTROL_TAIL_BYTES then Some(OrphanedSgrMouseTail) else None)
  }

  function Timeout(isKey: KeyParser, s: State): Output {
    var drained := Drain(isKey, s);
    Then(drained.chunks, Settle(isKey, drained.state))
  }

  // ----- runs -----

  datatype Op = Input(data: bytes) | Idle | ColorQuerySent | TrackSchemeChanges

  function Apply(isKey: KeyParser, s: State, op: Op): Output {
    match op
    case Input(data) => Feed(isKey, s, data)
    case Idle => Timeout(isKey, s)
    case ColorQuerySent => Output(QuerySent(s), [])
    case TrackSchemeChanges => Output(s.(trackScheme := true), [])
  }

  function Run(isKey: KeyParser, s: State, ops: seq<Op>): Output
    decreases |ops|
  {
    if ops == [] then Output(s, [])
    else
      var first := Apply(isKey, s, ops[0]);
      Then(first.chunks, Run(isKey, first.state, ops[1..]))
  }

  function Received(op: Op): bytes {
    if op.Input? then op.data else []
  }

  /** All bytes a run pushes. */
  function Pushed(ops: seq<Op>): bytes {
    if ops == [] then [] else Received(ops[0]) + Pushed(ops[1..])
  }

  /** A run that only pushes the given pieces. */
  function FeedAll(isKey: KeyParser, s: State, pieces: seq<bytes>): Output
    decreases |pieces|
  {
    if pieces == [] then Output(s, [])
    else
      var first := Feed(isKey, s, pieces[0]);
      Then(first.chunks, FeedAll(isKey, first.state, pieces[1..]))
  }

  // ----- the framer object -----

  class RawInputByteFramer {
    const isKey: KeyParser
    var buffer: bytes
    var discardUntil: Option<Family>
    var discardedTailBytes: nat
    var loneEscapeRecentlyFlushed: bool
    var hostColorRepliesAwaited: nat
    var heldPendingColorEsc: bool
    var hostColorSchemeChangeTracking: bool

    ghost function Abs(): State
      reads this
    {
      State(buffer, discardUntil, discardedTailBytes, loneEscapeRecentlyFlushed, hostColorRepliesAwaited,
            heldPendingColorEsc, hostColorSchemeChangeTracking)
    }

    constructor (isKey: KeyParser)
      ensures Abs() == FRESH && this.isKey == isKey
    {
      this.isKey := isKey;
      buffer, discardUntil, discardedTailBytes := [], None, 0;
      loneEscapeRecentlyFlushed, hostColorRepliesAwaited := false, 0;
      heldPendingColorEsc, hostColorSchemeChangeTracking := false, false;
    }

    method Push(data: bytes) returns (chunks: seq<bytes>)
      modifies this
      ensures Output(Abs(), chunks) == Feed(isKey, old(Abs()), data)
    {
      buffer := buffer + data;
      chunks := DrainAvailableChunks();
    }

    method HostColorQuerySent()
      modifies this
      ensures Abs() == QuerySent(old(Abs()))
    {
      hostColorRepliesAwaited := HOST_COLOR_QUERY_REPLIES;
      heldPendingColorEsc := false;
    }

    method EnableHostColorSchemeChangeTracking()
      modifies this
      ensures Abs() == old(Abs()).(trackScheme := true)
    {
      hostColorSchemeChangeTracking := true;
    }

    method DiscardCompleteOrphanedSgrMouseTail() returns (discarded: bool)
      modifies this
      ensures discarded == CompleteOrphanLen(old(buffer)).Some?
      ensures Abs() ==
              if discarded then old(Abs()).(buffer := old(buffer)[CompleteOrphanLen(old(buffer)).value..])
              else old(Abs())
    {
      var terminatorLen := TerminatorLen(buffer, OrphanedSgrMouseTail);
      if terminatorLen.None? || terminatorLen.value > MAX_ORPHANED_SGR_MOUSE_TAIL_BYTES {
        return false;
      }
      var sequence := [ESC] + buffer[..terminatorLen.value];
      if !Utf8.IsValid(sequence) || ParseSgrMouse(sequence).None? {
        return false;
      }
      buffer := buffer[terminatorLen.value..];
      return true;
    }

    method DiscardOrphanedSgrMouseTail() returns (done: bool)
      modifies this
      ensures var t := DiscardOrphanTail(old(buffer), old(discardedTailBytes));
              done == t.done && Abs() == old(Abs()).(buffer := t.rest, discardedTail := t.discarded)
    {
      hide FindFrom;
      var remaining :=
        if discardedTailBytes < MAX_DISCARDED_CONTROL_TAIL_BYTES
        then MAX_DISCARDED_CONTROL_TAIL_BYTES - discardedTailBytes else 0;
      var inspected := if |buffer| < remaining then |buffer| else remaining;
      var index := FirstNonParameter(inspected);
      if index < inspected {
        buffer := if IsMouseFinal(buffer[index]) then buffer[index + 1..] else buffer[index..];
        return true;
      }
      discardedTailBytes := discardedTailBytes + inspected;
      done := |buffer| > inspected;
      buffer := [];
    }

    /** Scans the first bytes of the buffer for one that is no report parameter. */
    method FirstNonParameter(inspected: nat) returns (index: nat)
      requires inspected <= |buffer|
      ensures index <= inspected
      ensures FindFrom(buffer[..inspected], 0, x => !IsSgrParameter(x)) == if index < inspected then Some(index) else None
    {
      index := 0;
      while index < inspected && IsSgrParameter(buffer[index])
        invariant 0 <= index <= inspected
        invariant forall j | 0 <= j < index :: IsSgrParameter(buffer[j])
      {
        index := index + 1;
      }
      assert forall j | 0 <= j < inspected :: buffer[..inspected][j] == buffer[j];
    }

    method DrainAvailableChunks() returns (chunks: seq<bytes>)
      modifies this
      ensures Output(Abs(), chunks) == Drain(isKey, old(Abs()))
    {
      chunks := [];
      while true
        invariant Then(chunks, Drain(isKey, Abs())) == Drain(isKey, old(Abs()))
        decreases |buffer|, discardUntil.Some?
      {
        var again, emitted := DrainRound();
        if !again {
          return;
        }
        ThenAssociative(chunks, emitted, Drain(isKey, Abs()));
        chunks := chunks + emitted;
      }
    }

    /** One pass of the drain loop; `again` says whether it goes round once more. */
    method DrainRound() returns (again: bool, emitted: seq<bytes>)
      modifies this
      ensures (if again then Go(Abs(), emitted) else Stop(Abs())) == DrainStep(isKey, old(Abs()))
    {
      hide TerminatorLen, CompleteOrphanLen, IsIncompleteOrphan, DrainStep;
      if loneEscapeRecentlyFlushed {
        WatchingStep(isKey, Abs());
        if IsIncompleteOrphan(buffer) {
          return false, [];
        }
        var discarded := DiscardCompleteOrphanedSgrMouseTail();
        loneEscapeRecentlyFlushed := false;
        if discarded {
          return true, [];
        }
      }
      if discardUntil.Some? {
        again := DiscardRound();
        emitted := [];
      } else {
        again, emitted := ExtractRound();
      }
    }

    /** The part of a pass that goes on with a discard. */
    method DiscardRound() returns (again: bool)
      requires !loneEscapeRecentlyFlushed && discardUntil.Some?
      modifies this
      ensures (if again then Go(Abs(), []) else Stop(Abs())) == DrainStep(isKey, old(Abs()))
    {
      hide ExtractOneEvent, TerminatorLen, CompleteOrphanLen, IsIncompleteOrphan, DiscardOrphanTail;
      if discardUntil == Some(OrphanedSgrMouseTail) {
        again := DiscardOrphanedSgrMouseTail();
        if again {
          discardUntil, discardedTailBytes := None, 0;
        }
      } else {
        var terminatorLen := TerminatorLen(buffer, discardUntil.value);
        if terminatorLen.None? {
          return false;
        }
        buffer := buffer[terminatorLen.value..];
        discardUntil, discardedTailBytes := None, 0;
        again := true;
      }
    }

    /** The part of a pass that takes an event. */
    method ExtractRound() returns (again: bool, emitted: seq<bytes>)
      requires !loneEscapeRecentlyFlushed && discardUntil.None?
      modifies this
      ensures (if again then Go(Abs(), emitted) else Stop(Abs())) == DrainStep(isKey, old(Abs()))
    {
      hide ExtractOneEvent, CompleteOrphanLen, IsIncompleteOrphan;
      var extracted := ExtractOneEvent(isKey, buffer);
      if extracted.None? {
        return false, [];
      }
      var Extracted(event, consumed) := extracted.value;
      heldPendingColorEsc := false;
      if event.HostDefaultColor? {
        hostColorRepliesAwaited := if hostColorRepliesAwaited > 0 then hostColorRepliesAwaited - 1 else 0;
      } else if hostColorSchemeChangeTracking && event.HostColorSchemeChanged? {
        HostColorQuerySent();
      }
      emitted := [buffer[..consumed]];
      buffer := buffer[consumed..];
      again := true;
    }

    method FlushTimeout() returns (chunks: seq<bytes>)
      modifies this
      ensures Output(Abs(), chunks) == Timeout(isKey, old(Abs()))
    {
      chunks := DrainAvailableChunks();
      var settled := SettlePending();
      chunks := chunks + settled;
    }

    /** What the idle timeout does with input that is still incomplete. */
    method SettlePending() returns (chunks: seq<bytes>)
      modifies this
      ensures Output(Abs(), chunks) == Settle(isKey, old(Abs()))
    {
      hide TerminatorLen, CompleteOrphanLen, IsIncompleteSgrMouse, IsIncompletePaste, IsIncompleteColorReply,
        IsIncompleteSchemeReport, IsIncompleteControlString, Release, IsPlausibleTail, EndsInEscape;
      chunks := [];
      if discardUntil.Some? {
        SettleDiscard();
      } else if buffer == [] {
      } else if loneEscapeRecentlyFlushed && TAIL_START <= buffer {
        var complete := DiscardCompleteOrphanedSgrMouseTail();
        if !complete {
          StartDiscardingMouse();
        }
        loneEscapeRecentlyFlushed := false;
      } else if IsIncompleteSgrMouse(buffer) {
        StartDiscardingMouse();
      } else if IsIncompletePaste(buffer) || IsIncompleteColorReply(buffer) {
        // Keep waiting for the terminator.
      } else if IsIncompleteSchemeReport(buffer) {
        buffer, discardUntil, discardedTailBytes := [], Some(HostColorSchemeCsi), 0;
      } else if IsIncompleteControlString(buffer) {
        discardUntil, discardedTailBytes := Introduces(buffer), 0;
        buffer := [];
      } else {
        chunks := ReleasePending();
      }
    }

    /** A timeout during a discard. */
    method SettleDiscard()
      requires discardUntil.Some?
      modifies this
      ensures Output(Abs(), []) == Settle(isKey, old(Abs()))
    {
      hide IsPlausibleTail, EndsInEscape;
      if discardUntil == Some(OrphanedSgrMouseTail) {
        buffer, discardUntil, discardedTailBytes := [], None, 0;
        return;
      }
      var keepSplitSt := EndsInEscape(buffer);
      var keepDiscarding := IsPlausibleTail(discardUntil.value, buffer);
      discardedTailBytes := discardedTailBytes + |buffer|;
      buffer := [];
      if keepDiscarding && discardedTailBytes <= MAX_DISCARDED_CONTROL_TAIL_BYTES {
        if keepSplitSt {
          buffer := [ESC];
        }
      } else {
        discardUntil, discardedTailBytes := None, 0;
      }
    }

    /** The last cases of the timeout: a lone Escape, a key, a partial scalar, or junk. */
    method ReleasePending() returns (chunks: seq<bytes>)
      requires buffer != []
      modifies this
      ensures Output(Abs(), chunks) == Release(isKey, old(Abs()))
    {
      chunks := [];
      if buffer == [ESC] {
        if hostColorRepliesAwaited > 0 && !heldPendingColorEsc {
          heldPendingColorEsc := true;
          return;
        }
        hostColorRepliesAwaited, heldPendingColorEsc, loneEscapeRecentlyFlushed := 0, false, true;
        chunks := [buffer];
        buffer := [];
      } else if Utf8.IsValid(buffer) && isKey(buffer) {
        chunks := [buffer];
        buffer := [];
      } else if Utf8.IsIncompleteScalar(buffer) || (buffer[0] == ESC && Utf8.IsIncompleteScalar(buffer[1..])) {
        // Keep waiting for continuation bytes.
      } else {
        loneEscapeRecentlyFlushed := false;
        buffer := [];
      }
    }

    method StartDiscardingMouse()
      modifies this
      ensures Abs() == DiscardMouse(old(Abs()).(buffer := []), |old(buffer)|)
    {
      discardedTailBytes := |buffer|;
      discardUntil := if discardedTailBytes <= MAX_DISCARDED_CONTROL_TAIL_BYTES then Some(OrphanedSgrMouseTail) else None;
      buffer := [];
    }
  }

  /** What a lone Escape does to a pass of the drain loop. */
  lemma WatchingStep(isKey: KeyParser, s: State)
    requires s.loneEscape
    ensures IsIncompleteOrphan(s.buffer) ==> DrainStep(isKey, s) == Stop(s)
    ensures !IsIncompleteOrphan(s.buffer) && CompleteOrphanLen(s.buffer).Some? ==>
              DrainStep(isKey, s) == Go(s.(buffer := s.buffer[CompleteOrphanLen(s.buffer).value..], loneEscape := false), [])
    ensures !IsIncompleteOrphan(s.buffer) && CompleteOrphanLen(s.buffer).None? ==>
              DrainStep(isKey, s) == DrainStep(isKey, s.(loneEscape := false))
  {
    hide ExtractOneEvent, TerminatorLen, CompleteOrphanLen, IsIncompleteOrphan, DiscardOrphanTail;
  }

  lemma ThenAssociative(a: seq<bytes>, b: seq<bytes>, rest: Output)
    ensures Then(a, Then(b, rest)) == Then(a + b, rest)
  {
    assert a + (b + rest.chunks) == a + b + rest.chunks;
  }
}
