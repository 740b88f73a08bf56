/** Concrete inputs showing that the conditions of the framer's theorems are needed. */
module FramerLimits {
  import opened Options
  import opened Bytes
  import opened TerminalTheme
  import opened RawInput
  import opened Framer
  import opened FramerSplit
  import opened FramerColor
  import opened FramerMouse
  import opened FramerSafety
  import opened FramerText
  import opened FramerFollow
  import opened FramerColorFate
  import opened FramerMouseFate

  /** `ESC [<+0;1;1M`: the mouse parser takes the sign, the discard filters do not. */
  const SIGNED_REPORT: bytes := [ESC, 0x5b, 0x3c, 0x2b, 0x30, 0x3b, 0x31, 0x3b, 0x31, 0x4d]

  lemma SignedParts()
    ensures Split([0x2b, 0x30, 0x3b, 0x31, 0x3b, 0x31], 0x3b) == [[0x2b, 0x30], [0x31], [0x31]]
  {
    hide Split;
    SplitStep([0x2b, 0x30, 0x3b, 0x31, 0x3b, 0x31], 0x3b, [0x2b, 0x30], [0x31, 0x3b, 0x31]);
    SplitStep([0x31, 0x3b, 0x31], 0x3b, [0x31], [0x31]);
    SplitLast([0x31], 0x3b);
  }

  lemma SignedNumbers()
    ensures ParseUnsigned([0x2b, 0x30], 255) == Some(0)
    ensures ParseUnsigned([0x31], 65535) == Some(1)
  {
    OneDigit([0x30]);
    OneDigit([0x31]);
    assert [0x2b, 0x30][1..] == [0x30];
  }

  lemma SignedReportParses()
    ensures ParseSgrMouse(SIGNED_REPORT) == Some(MouseReport(Down(LeftButton), 0, 0, false, false, false))
  {
    hide Split, ParseUnsigned;
    var r := SIGNED_REPORT;
    assert r[3..9] == [0x2b, 0x30, 0x3b, 0x31, 0x3b, 0x31];
    assert r[..3] == SGR_START;
    SignedParts();
    SignedNumbers();
  }

  lemma OneDigit(s: bytes)
    requires |s| == 1 && IsDigit(s[0])
    ensures DecimalNumber(s) == s[0] as nat - 0x30
  {
    assert s[..0] == [];
  }

  /** A report the framer recognises whole, and leaks when a timeout cuts it anywhere after `ESC [<`. */
  lemma SignedReportLeaks(isKey: KeyParser, k: nat)
    requires 3 <= k < |SIGNED_REPORT|
    ensures IsReport(isKey, SIGNED_REPORT)
    ensures !Vanishes(isKey, FRESH, SIGNED_REPORT, k)
  {
    SignedReportIsReport(isKey);
    assert !IsSgrParameter(SIGNED_REPORT[3]);
    hide IsReport, Vanishes;
    CutReportVanishesIffPlain(isKey, FRESH, SIGNED_REPORT, k);
  }

  lemma SignedReportLen()
    ensures CompleteEscapeLen(SIGNED_REPORT) == Some(10) && SIGNED_REPORT[..10] == SIGNED_REPORT
    ensures !(PASTE_START <= SIGNED_REPORT) && SGR_START <= SIGNED_REPORT
  {
    var r := SIGNED_REPORT;
    assert r[..3] == SGR_START;
    assert r[2] != PASTE_START[2];
    assert IsMouseFinal(r[9]) && forall i | 2 <= i < 9 :: !IsMouseFinal(r[i]);
    assert FindFrom(r, 2, IsMouseFinal) == Some(9);
  }

  lemma SignedReportIsReport(isKey: KeyParser)
    ensures IsReport(isKey, SIGNED_REPORT)
  {
    hide ParseSgrMouse, CompleteEscapeLen, Utf8.IsValid;
    var r := SIGNED_REPORT;
    SignedReportParses();
    SignedReportLen();
    assert r[1] != OSC_START[1];
    assert ReplyBody(r).None?;
    AsciiIsValid(r);
  }

  /**
   Right after a lone Escape was flushed, where a read is cut does matter: the tail of the signed
   report is swallowed when it arrives whole and comes out when it arrives in two reads.
   */
  lemma SplitsMatterAfterLoneEscape(isKey: KeyParser)
    ensures var t := Run(isKey, FRESH, [Input([ESC]), Idle]).state;
            FeedAll(isKey, t, [SIGNED_REPORT[1..4], SIGNED_REPORT[4..]]) != Feed(isKey, t, SIGNED_REPORT[1..])
  {
    var r := SIGNED_REPORT;
    var t := FRESH.(loneEscape := true);
    AfterLoneEscape(isKey);
    hide Run, Feed, FeedAll, CompleteOrphanLen, IsIncompleteOrphan;
    var (b, c) := (r[1..4], r[4..]);
    assert b + c == r[1..] && b == [0x5b, 0x3c, 0x2b];
    assert t.buffer + r[1..] == r[1..];
    SignedTail();
    FeedLone(isKey, t, r[1..]);
    assert Feed(isKey, t, r[1..]) == Feed(isKey, FRESH, []);
    EmptyFeed(isKey);
    SignedHead();
    WatchGivesUp(isKey, t, b);
    FeedAllTwo(isKey, t, b, c);
    FeedAllTwo(isKey, FRESH, b, c);
    SplitInvariance(isKey, FRESH, [b, c]);
    assert Flatten([b, c]) == r[1..] by { assert [b, c][1..] == [c] && Flatten([c]) == c + [] == c; }
    SomethingRemains(isKey, FRESH, r[1..], FRESH);
  }

  lemma AfterLoneEscape(isKey: KeyParser)
    ensures Run(isKey, FRESH, [Input([ESC]), Idle]).state == FRESH.(loneEscape := true)
  {
    hide Feed, Timeout;
    LoneEscapeReleased(isKey, FRESH);
    var ops := [Input([ESC]), Idle];
    assert ops[1..] == [Idle] && ops[1..][1..] == [];
    var s := FRESH.(buffer := [ESC]);
    assert Apply(isKey, FRESH, ops[0]) == Output(s, []);
    assert Apply(isKey, s, Idle).state == FRESH.(loneEscape := true);
    assert Run(isKey, s, [Idle]).state == FRESH.(loneEscape := true);
  }

  lemma SignedHead()
    ensures !IsIncompleteOrphan(SIGNED_REPORT[1..4]) && CompleteOrphanLen(SIGNED_REPORT[1..4]).None?
  {
    var b := SIGNED_REPORT[1..4];
    assert b == [0x5b, 0x3c, 0x2b];
    assert !IsSgrParameter(b[2]);
    assert FindFrom(b, 0, IsMouseFinal).None?;
  }

  lemma SignedTail()
    ensures !IsIncompleteOrphan(SIGNED_REPORT[1..])
    ensures CompleteOrphanLen(SIGNED_REPORT[1..]) == Some(9)
    ensures SIGNED_REPORT[1..][9..] == []
  {
    hide ParseSgrMouse;
    var b := SIGNED_REPORT[1..];
    assert b[2] == 0x2b && b[8] == 0x4d;
    assert FindFrom(b, 0, IsMouseFinal) == Some(8);
    assert [ESC] + b[..9] == SIGNED_REPORT;
    SignedReportParses();
    AsciiIsValid(SIGNED_REPORT);
  }

  // ----- a second timeout -----

  /** Read up to `k`, a timeout, read up to `j`, a timeout, and the rest. */
  function CutTwice(r: bytes, k: nat, j: nat): (ops: seq<Op>)
    requires k <= j <= |r|
  {
    [Input(r[..k])] + ([Idle] + ([Input(r[k..j])] + ([Idle] + [Input(r[j..])])))
  }

  lemma CutTwicePushes(r: bytes, k: nat, j: nat)
    requires k <= j <= |r|
    ensures Pushed(CutTwice(r, k, j)) == r
  {
    hide Pushed;
    var (a, b, c) := (r[..k], r[k..j], r[j..]);
    PushedConcat([Input(a)], [Idle] + ([Input(b)] + ([Idle] + [Input(c)])));
    PushedConcat([Idle], [Input(b)] + ([Idle] + [Input(c)]));
    PushedConcat([Input(b)], [Idle] + [Input(c)]);
    PushedConcat([Idle], [Input(c)]);
    PushedOne(Input(a));
    PushedOne(Input(b));
    PushedOne(Input(c));
    PushedOne(Idle);
    assert a + ([] + (b + ([] + c))) == r;
  }

  lemma PushedOne(op: Op)
    ensures Pushed([op]) == Received(op)
  {
    assert [op][1..] == [];
    assert Received(op) + [] == Received(op);
  }

  lemma FollowCutTwice<F>(advance: (F, Op) -> F, fate: F, r: bytes, k: nat, j: nat)
    requires k <= j <= |r|
    ensures Follow(advance, fate, CutTwice(r, k, j)) ==
            advance(advance(advance(advance(advance(fate, Input(r[..k])), Idle), Input(r[k..j])), Idle), Input(r[j..]))
  {
    hide Follow;
    var (a, b, c) := (Input(r[..k]), Input(r[k..j]), Input(r[j..]));
    FollowCons(advance, fate, a, [Idle] + ([b] + ([Idle] + [c])));
    var f1 := advance(fate, a);
    FollowCons(advance, f1, Idle, [b] + ([Idle] + [c]));
    var f2 := advance(f1, Idle);
    FollowCons(advance, f2, b, [Idle] + [c]);
    var f3 := advance(f2, b);
    FollowCons(advance, f3, Idle, [c]);
    FollowOne(advance, advance(f3, Idle), c);
  }

  /** A reply cut after 2 to 4 bytes leaks when a second timeout finds one of the hex letters a, c, d, e, f. */
  lemma ReplyCutTwiceLeaks(isKey: KeyParser, s: State, kind: DefaultColorKind, color: RgbColor, k: nat, j: nat)
    requires AcceptsEveryScalar(isKey) && AtRest(s)
    requires 2 <= k <= 4 && k < j < REPLY_LEN
    requires var r := OscSetDefaultColorSequence(kind, color);
             |r| == REPLY_LEN && exists i :: k <= i < j && r[i] in {0x61, 0x63, 0x64, 0x65, 0x66}
    ensures var r := OscSetDefaultColorSequence(kind, color);
            && ReplyFate(s, r, CutTwice(r, k, j)) == FramerColorFate.Leaked
            && Run(isKey, s, CutTwice(r, k, j)).chunks !in {[], [r]}
  {
    var r := OscSetDefaultColorSequence(kind, color);
    hide OscSetDefaultColorSequence, Run, CutTwice, IsPlausibleTail, Follow;
    CutTwicePushes(r, k, j);
    FollowCutTwice(FramerColorFate.Advancing(r), FramerColorFate.Arriving(0, MayHold(s)), r, k, j);
    GivesUpExactly(kind, color, k, j, 0);
    ColorReplyFate(isKey, s, CutTwice(r, k, j), kind, color);
  }

  /** A plain report cut behind its introducer leaks at a second timeout before its end. */
  lemma ReportCutTwiceLeaks(isKey: KeyParser, s: State, r: bytes, k: nat, j: nat)
    requires AcceptsEveryScalar(isKey) && AtRest(s)
    requires IsReport(isKey, r) && IsPlain(r) && |r| <= MAX_DISCARDED_CONTROL_TAIL_BYTES
    requires 3 <= k <= j < |r|
    ensures ReportFate(s, r, CutTwice(r, k, j)) == FramerMouseFate.Leaked
    ensures Run(isKey, s, CutTwice(r, k, j)).chunks !in {[], [r], [[ESC]]}
  {
    hide Run, CutTwice, IsReport, IsPlain, Follow;
    CutTwicePushes(r, k, j);
    FollowCutTwice(FramerMouseFate.Advancing(r), FramerMouseFate.Arriving(0, MayHold(s)), r, k, j);
    MouseReportFate(isKey, s, CutTwice(r, k, j));
  }
}
