/**
 Splits while a mouse report is being discarded: exactly when cutting the input into reads makes a
 difference. The discard gives up in the middle of a read that exceeds its budget and drops that read
 whole, so what matters is what is read after it.
 */
module FramerBudget {
  import opened Options
  import opened Bytes
  import opened RawInput
  import opened Framer
  import opened FramerSplit
  import opened FramerSafety
  import opened FramerMouse

  /** A mouse report is being discarded, with `left` bytes of the budget to go. */
  ghost predicate DiscardsMouse(s: State, left: nat) {
    && !s.loneEscape && s.buffer == [] && s.discard == Some(OrphanedSgrMouseTail)
    && s.discardedTail + left == MAX_DISCARDED_CONTROL_TAIL_BYTES
  }

  /** The discard ends at a byte that is no report parameter, within the budget. */
  ghost predicate EndsInBudget(data: bytes, left: nat) {
    exists i :: 0 <= i < |data| && i < left && !IsSgrParameter(data[i])
  }

  /** What is read after the read that exceeds the budget. */
  function AfterBudget(pieces: seq<bytes>, left: nat): bytes
    decreases |pieces|
  {
    if pieces == [] then []
    else if |pieces[0]| > left then Flatten(pieces[1..])
    else AfterBudget(pieces[1..], left - |pieces[0]|)
  }

  lemma AllParameters(data: bytes, discarded: nat)
    requires discarded <= MAX_DISCARDED_CONTROL_TAIL_BYTES
    requires !EndsInBudget(data, MAX_DISCARDED_CONTROL_TAIL_BYTES - discarded)
    ensures var left := MAX_DISCARDED_CONTROL_TAIL_BYTES - discarded;
            DiscardOrphanTail(data, discarded) ==
            if |data| > left then TailDiscard([], MAX_DISCARDED_CONTROL_TAIL_BYTES, true)
            else TailDiscard([], discarded + |data|, false)
  {
    var left := MAX_DISCARDED_CONTROL_TAIL_BYTES - discarded;
    var inspected := if |data| < left then |data| else left;
    assert forall i | 0 <= i < inspected :: data[..inspected][i] == data[i] && IsSgrParameter(data[i]);
    assert FindFrom(data[..inspected], 0, x => !IsSgrParameter(x)) == None;
  }

  lemma FeedNothingMore(isKey: KeyParser, s: State)
    requires AtRest(s)
    ensures Feed(isKey, s, []) == Output(s, [])
  {
    assert s.buffer + [] == s.buffer;
    assert DrainStep(isKey, s) == Stop(s);
  }

  // ----- no end within the budget -----

  lemma EndsLater(data: bytes, later: bytes, left: nat)
    requires !EndsInBudget(data + later, left)
    ensures !EndsInBudget(data, left)
    ensures |data| <= left ==> !EndsInBudget(later, left - |data|)
  {
    var all := data + later;
    assert forall i | 0 <= i < |data| :: all[i] == data[i];
    assert forall i | 0 <= i < |later| :: all[|data| + i] == later[i];
  }

  lemma {:induction false} BudgetRun(isKey: KeyParser, s: State, pieces: seq<bytes>, left: nat)
    requires DiscardsMouse(s, left) && !EndsInBudget(Flatten(pieces), left)
    ensures FeedAll(isKey, s, pieces) ==
            if |Flatten(pieces)| <= left then Output(s.(discardedTail := s.discardedTail + |Flatten(pieces)|), [])
            else Feed(isKey, Released(s), AfterBudget(pieces, left))
    decreases |pieces|
  {
    hide Feed, DiscardOrphanTail, EndsInBudget;
    if pieces != [] {
      var (data, rest) := (pieces[0], pieces[1..]);
      EndsLater(data, Flatten(rest), left);
      AllParameters(data, s.discardedTail);
      FeedDiscardingRound(isKey, s, data);
      if |data| > left {
        FeedNothingMore(isKey, Released(s));
        FeedAllFrom(isKey, Released(s), [], rest);
        assert [] + Flatten(rest) == Flatten(rest);
      } else {
        var t := s.(discardedTail := s.discardedTail + |data|);
        BudgetRun(isKey, t, rest, left - |data|);
        var out := FeedAll(isKey, t, rest);
        assert Then([], out) == out;
      }
    }
  }

  // ----- an end within the budget -----

  /** Where the discard ends, and what is input again from there. */
  ghost predicate EndsAt(data: bytes, k: nat) {
    k < |data| && !IsSgrParameter(data[k]) && forall i | 0 <= i < k :: IsSgrParameter(data[i])
  }

  function Resumed(data: bytes, k: nat): bytes
    requires k < |data|
  {
    if IsMouseFinal(data[k]) then data[k + 1..] else data[k..]
  }

  lemma {:induction false} FirstEnd(data: bytes, left: nat, from: nat) returns (k: nat)
    requires exists i :: from <= i < |data| && i < left && !IsSgrParameter(data[i])
    requires forall i | 0 <= i < from :: i < |data| && IsSgrParameter(data[i])
    ensures k < left && EndsAt(data, k)
    decreases |data| - from
  {
    if IsSgrParameter(data[from]) {
      k := FirstEnd(data, left, from + 1);
    } else {
      k := from;
    }
  }

  lemma ResumedJoin(data: bytes, later: bytes, k: nat)
    requires k < |data|
    ensures (data + later)[k] == data[k]
    ensures Resumed(data + later, k) == Resumed(data, k) + later
  {
    assert (data + later)[k..] == data[k..] + later;
    assert (data + later)[k + 1..] == data[k + 1..] + later;
  }

  lemma EndsAtParts(data: bytes, later: bytes, k: nat)
    requires EndsAt(data + later, k)
    ensures k < |data| ==> EndsAt(data, k) && Resumed(data + later, k) == Resumed(data, k) + later
    ensures k >= |data| ==> (forall i | 0 <= i < |data| :: IsSgrParameter(data[i]))
                            && EndsAt(later, k - |data|) && Resumed(data + later, k) == Resumed(later, k - |data|)
  {
    hide IsSgrParameter;
    var all := data + later;
    assert forall i | 0 <= i < |data| :: all[i] == data[i];
    assert forall i | 0 <= i < |later| :: all[|data| + i] == later[i];
    if k < |data| {
      ResumedJoin(data, later, k);
    } else {
      assert all[k..] == later[k - |data|..] && all[k + 1..] == later[k + 1 - |data|..];
    }
  }

  lemma {:induction false} EndedRun(isKey: KeyParser, s: State, pieces: seq<bytes>, left: nat, k: nat)
    requires DiscardsMouse(s, left) && k < left && EndsAt(Flatten(pieces), k)
    ensures FeedAll(isKey, s, pieces) == Feed(isKey, Released(s), Resumed(Flatten(pieces), k))
    decreases |pieces|
  {
    hide Feed, DiscardOrphanTail, Resumed, IsSgrParameter;
    var (data, rest) := (pieces[0], pieces[1..]);
    EndsAtParts(data, Flatten(rest), k);
    FeedDiscardingRound(isKey, s, data);
    if k < |data| {
      FoundAt(data, s.discardedTail, k);
      FeedAllFrom(isKey, Released(s), Resumed(data, k), rest);
    } else {
      DiscardTailAll(data, s.discardedTail);
      var t := s.(discardedTail := s.discardedTail + |data|);
      EndedRun(isKey, t, rest, left - |data|, k - |data|);
      var out := FeedAll(isKey, t, rest);
      assert Then([], out) == out;
    }
  }

  lemma FoundAt(data: bytes, discarded: nat, k: nat)
    requires EndsAt(data, k) && discarded + k < MAX_DISCARDED_CONTROL_TAIL_BYTES
    ensures DiscardOrphanTail(data, discarded) == TailDiscard(Resumed(data, k), discarded, true)
  {
    hide IsSgrParameter;
    DiscardTailFinds(data, discarded, k);
  }

  // ----- the condition -----

  lemma OnePiece(data: bytes, left: nat)
    ensures Flatten([data]) == data && AfterBudget([data], left) == []
  {
    assert [data][1..] == [] && data + [] == data;
  }

  /**
   While a mouse report is being discarded, the reads give the chunks and the state of one read of the whole if
   and only if the discard ends within its budget or nothing is read after the read that exceeds it.
   */
  lemma DiscardSplits(isKey: KeyParser, s: State, pieces: seq<bytes>, left: nat)
    requires DiscardsMouse(s, left) && pieces != []
    ensures FeedAll(isKey, s, pieces) == Feed(isKey, s, Flatten(pieces)) <==>
            EndsInBudget(Flatten(pieces), left) || AfterBudget(pieces, left) == []
  {
    hide Feed, FeedAll, IsSgrParameter;
    var all := Flatten(pieces);
    OnePiece(all, left);
    SplitOne(isKey, s, all);
    if EndsInBudget(all, left) {
      var k := FirstEnd(all, left, 0);
      EndedRun(isKey, s, pieces, left, k);
      EndedRun(isKey, s, [all], left, k);
    } else {
      hide EndsInBudget;
      BudgetRun(isKey, s, pieces, left);
      BudgetRun(isKey, s, [all], left);
      NothingAfter(pieces, left);
      if |all| > left && AfterBudget(pieces, left) != [] {
        SomethingRemains(isKey, Released(s), AfterBudget(pieces, left), Released(s));
      }
    }
  }

  lemma {:induction false} NothingAfter(pieces: seq<bytes>, left: nat)
    ensures |Flatten(pieces)| <= left ==> AfterBudget(pieces, left) == []
    decreases |pieces|
  {
    if pieces != [] && |pieces[0]| <= left {
      NothingAfter(pieces[1..], left - |pieces[0]|);
    }
  }

  /** With one byte of the budget left, two digits and another byte are dropped in one read; read by itself, that byte is not. */
  lemma SplitsMatterPastTheBudget(isKey: KeyParser, s: State, a: byte, b: byte, c: byte)
    requires DiscardsMouse(s, 1) && IsDigit(a) && IsDigit(b)
    ensures FeedAll(isKey, s, [[a], [b], [c]]) != Feed(isKey, s, [a, b, c])
  {
    hide FeedAll, Feed;
    var pieces := [[a], [b], [c]];
    assert pieces[1..] == [[b], [c]] && [[b], [c]][1..] == [[c]];
    OnePiece([c], 0);
    assert Flatten([[b], [c]]) == [b] + [c] && Flatten(pieces) == [a] + ([b] + [c]) == [a, b, c];
    assert AfterBudget([[b], [c]], 0) == Flatten([[c]]);
    assert AfterBudget(pieces, 1) == [c];
    DiscardSplits(isKey, s, pieces, 1);
  }
}
