/**
 Recognising one event at the front of a raw terminal input buffer: key, paste, mouse
 report, focus change, default-colour reply or colour-scheme report. Control strings
 follow ECMA-48, section 5.6; CSI sequences its section 5.4.

 The terminal-key parser is a parameter: `isKey(text)` says whether it accepts `text`.
 */
module RawInput {
  import opened Options
  import opened Bytes
  import Utf8
  import opened TerminalTheme

  type KeyParser = bytes -> bool

  datatype HostAppearance = Dark | Light

  datatype MouseButton = LeftButton | MiddleButton | RightButton

  datatype MouseKind =
    | Down(button: MouseButton)
    | Up(button: MouseButton)
    | Drag(button: MouseButton)
    | Moved
    | ScrollUp
    | ScrollDown
    | ScrollLeft
    | ScrollRight

  datatype MouseReport =
    MouseReport(kind: MouseKind, column: nat, row: nat, shift: bool, alt: bool, control: bool)

  datatype Event =
    | Key
    | Paste(content: bytes)
    | Mouse(mouse: MouseReport)
    | OuterFocusGained
    | OuterFocusLost
    | HostDefaultColor(kind: DefaultColorKind, color: RgbColor)
    | HostColorSchemeChanged(appearance: HostAppearance)
    | Unsupported

  const PASTE_START: bytes := [ESC, 0x5b, 0x32, 0x30, 0x30, 0x7e]                  // ESC [200~
  const PASTE_END: bytes := [ESC, 0x5b, 0x32, 0x30, 0x31, 0x7e]                    // ESC [201~
  const DARK_REPORT: bytes := [ESC, 0x5b, 0x3f, 0x39, 0x39, 0x37, 0x3b, 0x31, 0x6e]  // ESC [?997;1n
  const LIGHT_REPORT: bytes := [ESC, 0x5b, 0x3f, 0x39, 0x39, 0x37, 0x3b, 0x32, 0x6e] // ESC [?997;2n
  const SGR_START: bytes := [ESC, 0x5b, 0x3c]                                      // ESC [<
  const TAIL_START: bytes := [0x5b, 0x3c]                                          // [<

  predicate IsMouseFinal(x: byte) {
    x == 0x4d || x == 0x6d
  }

  predicate IsCsiFinal(x: byte) {
    0x40 <= x <= 0x7e
  }

  predicate IsSgrParameter(x: byte) {
    IsDigit(x) || x == 0x3b
  }

  // ----- control strings -----

  datatype Family = Osc | StTerminated | HostColorSchemeCsi | OrphanedSgrMouseTail

  /** Length up to and including the terminator that ends a string of the family, if it is there. */
  function TerminatorLen(b: bytes, family: Family): (r: Option<nat>)
    ensures r.Some? ==> 1 <= r.value <= |b|
  {
    match family
    case Osc =>
      (match (FindSubsequence(b, ST, 0), FindFrom(b, 0, x => x == BEL))
       case (Some(st), Some(bel)) => Some(if st + 2 <= bel + 1 then st + 2 else bel + 1)
       case (Some(st), None) => Some(st + 2)
       case (None, Some(bel)) => Some(bel + 1)
       case (None, None) => None)
    case StTerminated =>
      (match FindSubsequence(b, ST, 0)
       case Some(st) => Some(st + 2)
       case None => None)
    case HostColorSchemeCsi =>
      (match FindFrom(b, 0, x => x == 0x6e)
       case Some(k) => Some(k + 1)
       case None => None)
    case OrphanedSgrMouseTail =>
      (match FindFrom(b, 0, IsMouseFinal)
       case Some(k) => Some(k + 1)
       case None => None)
  }

  /** The family a control string's two-byte introducer announces. */
  function Introduces(b: bytes): Option<Family> {
    if |b| < 2 || b[0] != ESC then None
    else if b[1] == 0x5d then Some(Osc)
    else if b[1] in {0x50, 0x5f, 0x5e, 0x58} then Some(StTerminated)
    else None
  }

  predicate IsIncompleteControlString(b: bytes) {
    Introduces(b).Some? && TerminatorLen(b, Introduces(b).value).None?
  }

  /** `ESC ]10;` or `ESC ]11;` with no terminator yet. */
  predicate IsIncompleteColorReply(b: bytes) {
    && Introduces(b) == Some(Osc)
    && TerminatorLen(b, Osc).None?
    && |b| >= 5
    && b[2] == 0x31
    && (b[3] == 0x30 || b[3] == 0x31)
    && b[4] == 0x3b
  }

  predicate IsIncompleteSchemeReport(b: bytes) {
    && [ESC, 0x5b, 0x3f] <= b
    && (b <= DARK_REPORT || b <= LIGHT_REPORT)
    && |b| < |DARK_REPORT|
  }

  predicate IsIncompletePaste(b: bytes) {
    PASTE_START <= b && FindSubsequence(b, PASTE_END, 0).None?
  }

  // ----- SGR mouse reports -----

  function DecimalNumber(s: bytes): nat
    requires forall x | x in s :: IsDigit(x)
  {
    if s == [] then 0
    else
      var last := s[|s| - 1];
      assert IsDigit(last);
      DecimalNumber(s[..|s| - 1]) * 10 + (last as nat - 0x30)
  }

  /** An unsigned decimal of at most `max`; one leading `+` is accepted. */
  function ParseUnsigned(s: bytes, max: nat): Option<nat> {
    var digits := if [0x2b] <= s then s[1..] else s;
    if digits == [] || !(forall x | x in digits :: IsDigit(x)) then None
    else if DecimalNumber(digits) > max then None
    else Some(DecimalNumber(digits))
  }

  function ParseMouseKind(cb: nat): Option<MouseKind>
    requires cb < 256
  {
    var button := cb % 4 + cb / 64 * 4;
    var dragging := cb / 32 % 2 == 1;
    match button
    case 0 => Some(if dragging then Drag(LeftButton) else Down(LeftButton))
    case 1 => Some(if dragging then Drag(MiddleButton) else Down(MiddleButton))
    case 2 => Some(if dragging then Drag(RightButton) else Down(RightButton))
    case 3 => Some(if dragging then Moved else Up(LeftButton))
    case 4 => Some(if dragging then Moved else ScrollUp)
    case 5 => Some(if dragging then Moved else ScrollDown)
    case 6 => if dragging then None else Some(ScrollLeft)
    case 7 => if dragging then None else Some(ScrollRight)
    case _ => None
  }

  /** `ESC [< button ; column ; row M`, with `m` for a release; further parameters are ignored. */
  function ParseSgrMouse(sequence: bytes): Option<MouseReport> {
    if !(SGR_START <= sequence) || |sequence| == 3 then None
    else
      var final := sequence[|sequence| - 1];
      var parts := Split(sequence[3..|sequence| - 1], 0x3b);
      if !IsMouseFinal(final) || |parts| < 3 then None
      else
        match (ParseUnsigned(parts[0], 255), ParseUnsigned(parts[1], 65535), ParseUnsigned(parts[2], 65535))
        case (Some(cb), Some(column), Some(row)) =>
          (if column == 0 || row == 0 then None
           else
             match ParseMouseKind(cb)
             case None => None
             case Some(kind) =>
               Some(MouseReport(if final == 0x6d && kind.Down? then Up(kind.button) else kind,
                                column - 1, row - 1, cb / 4 % 2 == 1, cb / 8 % 2 == 1, cb / 16 % 2 == 1)))
        case _ => None
  }

  predicate IsIncompleteSgrMouse(b: bytes) {
    SGR_START <= b && forall i | 3 <= i < |b| :: IsSgrParameter(b[i])
  }

  // ----- one event -----

  function FindCsiFinal(b: bytes, finals: byte -> bool): (r: Option<nat>)
    ensures r.Some? ==> 3 <= r.value <= |b|
  {
    match FindFrom(b, 2, finals)
    case Some(k) => Some(k + 1)
    case None => None
  }

  /** Length of the complete escape sequence at the front of `b`, if it is complete. */
  function CompleteEscapeLen(b: bytes): (r: Option<nat>)
    requires |b| > 0 && b[0] == ESC
    ensures r.Some? ==> 1 <= r.value <= |b|
  {
    if |b| == 1 then None
    else if b[1] == ESC then
      // A lone Escape right before a whole mouse report is an event of its own.
      var mouse := if SGR_START <= b[1..] then FindCsiFinal(b[1..], IsMouseFinal) else None;
      if mouse.Some? && !Utf8.IsValid(b[1..][..mouse.value]) then None
      else if mouse.Some? && ParseSgrMouse(b[1..][..mouse.value]).Some? then Some(1)
      else
        match CompleteEscapeLen(b[1..])
        case Some(n) => Some(n + 1)
        case None => None
    else if b[1] == 0x5b then
      FindCsiFinal(b, if SGR_START <= b then IsMouseFinal else IsCsiFinal)
    else if Introduces(b).Some? then TerminatorLen(b, Introduces(b).value)
    else if b[1] == 0x4f then
      if |b| >= 3 then Some(3) else None
    else
      var width := Utf8.CharWidth(b[1]);
      if width == 0 || |b| < 1 + width || !Utf8.IsValid(b[1..1 + width]) then None else Some(1 + width)
  }

  function ParseSchemeReport(sequence: bytes): Option<HostAppearance> {
    if sequence == DARK_REPORT then Some(Dark)
    else if sequence == LIGHT_REPORT then Some(Light)
    else None
  }

  /** What a complete, valid escape sequence stands for. */
  function ClassifyEscape(isKey: KeyParser, sequence: bytes): Event {
    match ParseDefaultColorResponse(sequence)
    case Some((kind, color)) => HostDefaultColor(kind, color)
    case None =>
      if sequence == [ESC, 0x5b, 0x49] then OuterFocusGained
      else if sequence == [ESC, 0x5b, 0x4f] then OuterFocusLost
      else if ParseSchemeReport(sequence).Some? then HostColorSchemeChanged(ParseSchemeReport(sequence).value)
      else if ParseSgrMouse(sequence).Some? then Mouse(ParseSgrMouse(sequence).value)
      else if isKey(sequence) then Key
      else Unsupported
  }

  datatype Extracted = Extracted(event: Event, consumed: nat)

  /** The first event of `b` and the number of bytes it takes, None while more input is needed. */
  function ExtractOneEvent(isKey: KeyParser, b: bytes): (r: Option<Extracted>)
    ensures r.Some? ==> 1 <= r.value.consumed <= |b|
  {
    if b == [] then None
    else if PASTE_START <= b then
      match FindSubsequence(b, PASTE_END, 0)
      case None => None
      case Some(end) =>
        PasteEndAfterStart(b, end);
        var content := b[6..end];
        if Utf8.IsValid(content) then Some(Extracted(Paste(content), end + 6)) else None
    else if b[0] == ESC then
      match CompleteEscapeLen(b)
      case None => None
      case Some(n) =>
        if Utf8.IsValid(b[..n]) then Some(Extracted(ClassifyEscape(isKey, b[..n]), n)) else None
    else
      var width := Utf8.CharWidth(b[0]);
      if width == 0 || |b| < width || !Utf8.IsValid(b[..width]) || !isKey(b[..width]) then None
      else Some(Extracted(Key, width))
  }

  lemma PasteEndAfterStart(b: bytes, end: nat)
    requires PASTE_START <= b && OccursAt(b, PASTE_END, end)
    ensures 6 <= end
  {
    var window := b[end..end + 6];
    assert forall i | 0 <= i < 6 :: window[i] == b[end + i];
    assert b[end] == PASTE_END[0] && b[end + 4] == PASTE_END[4];
    assert forall i | 0 <= i < 6 :: b[i] == PASTE_START[i];
  }

  // ----- more input never changes an event already recognised -----

  lemma TerminatorExtends(b: bytes, x: bytes, family: Family)
    requires TerminatorLen(b, family).Some?
    ensures TerminatorLen(b + x, family) == TerminatorLen(b, family)
  {
    match family {
      case Osc =>
        var st, bel := FindSubsequence(b, ST, 0), FindFrom(b, 0, x => x == BEL);
        if st.Some? { FindSubsequenceExtends(b, x, ST, 0); }
        if bel.Some? { FindFromExtends(b, x, 0, x => x == BEL); }
        if st.None? && FindSubsequence(b + x, ST, 0).Some? {
          var k := FindSubsequence(b + x, ST, 0).value;
          if k + 2 <= |b| { OccursAtExtends(b, x, ST, k); }
        }
      case StTerminated => FindSubsequenceExtends(b, x, ST, 0);
      case HostColorSchemeCsi => FindFromExtends(b, x, 0, x => x == 0x6e);
      case OrphanedSgrMouseTail => FindFromExtends(b, x, 0, IsMouseFinal);
    }
  }

  lemma CsiFinalExtends(b: bytes, x: bytes, finals: byte -> bool)
    requires FindCsiFinal(b, finals).Some?
    ensures FindCsiFinal(b + x, finals) == FindCsiFinal(b, finals)
  {
    FindFromExtends(b, x, 2, finals);
  }

  /** A lone ESC in front of a mouse report: what the nested sequence is taken for. */
  function NestedMouse(b: bytes): (r: Option<nat>)
    ensures r.Some? ==> 3 <= r.value <= |b|
  {
    if SGR_START <= b then FindCsiFinal(b, IsMouseFinal) else None
  }

  lemma NestedMouseExtends(b: bytes, x: bytes)
    requires |b| > 0 && b[0] == ESC && (NestedMouse(b).Some? || CompleteEscapeLen(b).Some?)
    ensures NestedMouse(b + x) == NestedMouse(b)
    ensures NestedMouse(b).Some? ==> (b + x)[..NestedMouse(b).value] == b[..NestedMouse(b).value]
  {
    hide ParseSgrMouse, Utf8.IsValid, TerminatorLen;
    if SGR_START <= b {
      PrefixSettled(b, x, SGR_START);
      SgrFound(b);
      CsiFinalExtends(b, x, IsMouseFinal);
    } else {
      SgrPrefixStable(b, x);
    }
  }

  /** A complete sequence that starts like a mouse report ends at a final byte. */
  lemma SgrFound(b: bytes)
    requires SGR_START <= b && (NestedMouse(b).Some? || CompleteEscapeLen(b).Some?)
    ensures FindCsiFinal(b, IsMouseFinal).Some?
  {
    assert b[1] == SGR_START[1];
  }

  /** The length of a sequence in front of another ESC, in terms of what follows that ESC. */
  function NestedLen(b: bytes): Option<nat>
    requires |b| > 0 && b[0] == ESC
  {
    var mouse := NestedMouse(b);
    if mouse.Some? && !Utf8.IsValid(b[..mouse.value]) then None
    else if mouse.Some? && ParseSgrMouse(b[..mouse.value]).Some? then Some(1)
    else
      match CompleteEscapeLen(b)
      case Some(n) => Some(n + 1)
      case None => None
  }

  lemma NestedUnfolds(b: bytes)
    requires |b| > 1 && b[0] == ESC && b[1] == ESC
    ensures CompleteEscapeLen(b) == NestedLen(b[1..])
  {
    hide ParseSgrMouse, Utf8.IsValid, FindCsiFinal, TerminatorLen;
  }

  lemma PlainUnfolds(b: bytes)
    requires |b| > 1 && b[0] == ESC && b[1] != ESC
    ensures CompleteEscapeLen(b) == PlainLen(b)
  {
    hide Utf8.IsValid, FindCsiFinal, TerminatorLen;
  }

  /** The length of a sequence that is not nested. */
  function PlainLen(b: bytes): Option<nat>
    requires |b| > 1 && b[0] == ESC
  {
    if b[1] == 0x5b then FindCsiFinal(b, if SGR_START <= b then IsMouseFinal else IsCsiFinal)
    else if Introduces(b).Some? then TerminatorLen(b, Introduces(b).value)
    else if b[1] == 0x4f then if |b| >= 3 then Some(3) else None
    else
      var width := Utf8.CharWidth(b[1]);
      if width == 0 || |b| < 1 + width || !Utf8.IsValid(b[1..1 + width]) then None else Some(1 + width)
  }

  lemma PlainExtends(b: bytes, x: bytes)
    requires |b| > 1 && b[0] == ESC && b[1] != ESC && PlainLen(b).Some?
    ensures PlainLen(b + x) == PlainLen(b)
  {
    hide FindCsiFinal, TerminatorLen, Utf8.IsValid;
    var c := b + x;
    assert c[1] == b[1] && c[0] == ESC;
    PlainUnfolds(b);
    if b[1] == 0x5b {
      SgrPrefixStable(b, x);
      CsiFinalExtends(b, x, if SGR_START <= b then IsMouseFinal else IsCsiFinal);
    } else if Introduces(b).Some? {
      TerminatorExtends(b, x, Introduces(b).value);
    } else if b[1] != 0x4f {
      assert c[1..1 + Utf8.CharWidth(b[1])] == b[1..1 + Utf8.CharWidth(b[1])];
    }
  }

  lemma {:induction false} CompleteEscapeExtends(b: bytes, x: bytes)
    requires |b| > 0 && b[0] == ESC && CompleteEscapeLen(b).Some?
    ensures CompleteEscapeLen(b + x) == CompleteEscapeLen(b)
  {
    LongerThanEscape(b);
    hide CompleteEscapeLen, PlainLen, NestedMouse, Utf8.IsValid, ParseSgrMouse;
    var c := b + x;
    assert c[0] == ESC && c[1] == b[1] && c[1..] == b[1..] + x;
    if b[1] == ESC {
      NestedUnfolds(b);
      NestedUnfolds(c);
      NestedMouseExtends(b[1..], x);
      if CompleteEscapeLen(b[1..]).Some? { CompleteEscapeExtends(b[1..], x); }
    } else {
      PlainUnfolds(b);
      PlainUnfolds(c);
      PlainExtends(b, x);
    }
  }

  lemma LongerThanEscape(b: bytes)
    requires |b| > 0 && b[0] == ESC && CompleteEscapeLen(b).Some?
    ensures |b| > 1
  {
    hide ParseSgrMouse, Utf8.IsValid, FindCsiFinal, TerminatorLen;
  }

  /** Whether a buffer holding a whole sequence starts with `ESC [<` is settled. */
  lemma SgrPrefixStable(b: bytes, x: bytes)
    requires |b| > 0 && b[0] == ESC && CompleteEscapeLen(b).Some?
    ensures SGR_START <= b + x <==> SGR_START <= b
  {
    if |b| >= 3 {
      PrefixSettled(b, x, SGR_START);
    } else if b[1] == 0x5b {
      assert false;
    } else {
      assert (b + x)[1] == b[1];
    }
  }

  /** A recognised event is unchanged, and consumes the same bytes, whatever input follows. */
  lemma ExtractExtends(isKey: KeyParser, b: bytes, x: bytes)
    requires ExtractOneEvent(isKey, b).Some?
    ensures ExtractOneEvent(isKey, b + x) == ExtractOneEvent(isKey, b)
  {
    var c := b + x;
    if PASTE_START <= b {
      FindSubsequenceExtends(b, x, PASTE_END, 0);
      var end := FindSubsequence(b, PASTE_END, 0).value;
      PasteEndAfterStart(b, end);
      assert c[6..end] == b[6..end];
    } else if b[0] == ESC {
      PastePrefixStable(b, x);
      CompleteEscapeExtends(b, x);
      var n := CompleteEscapeLen(b).value;
      assert c[..n] == b[..n];
    } else {
      var width := Utf8.CharWidth(b[0]);
      assert c[..width] == b[..width];
    }
  }

  /** A strict prefix of the paste introducer is never a complete sequence. */
  lemma PastePrefixIncomplete(n: nat)
    requires 1 <= n < 6
    ensures CompleteEscapeLen(PASTE_START[..n]).None?
  {
    var b := PASTE_START[..n];
    if n > 1 {
      assert b[1] == 0x5b;
      assert forall i | 2 <= i < n :: !IsCsiFinal(b[i]) && !IsMouseFinal(b[i]);
    }
  }

  lemma PrefixOfPasteStart(b: bytes, x: bytes)
    requires |b| < 6 && PASTE_START <= b + x
    ensures b == PASTE_START[..|b|]
  {
    assert forall i | 0 <= i < |b| :: b[i] == (b + x)[i] == PASTE_START[i];
  }

  lemma PastePrefixStable(b: bytes, x: bytes)
    requires |b| > 0 && b[0] == ESC && CompleteEscapeLen(b).Some? && !(PASTE_START <= b)
    ensures !(PASTE_START <= b + x)
  {
    if |b| >= 6 {
      PrefixSettled(b, x, PASTE_START);
    } else if PASTE_START <= b + x {
      PrefixOfPasteStart(b, x);
      PastePrefixIncomplete(|b|);
      assert false;
    }
  }
}
