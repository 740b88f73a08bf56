/**
 The bytes of graphics commands: how the update writes them, and a reference terminal that reads
 them back (Kitty terminal graphics protocol, with base64 payloads as in RFC 4648, section 4).
 */
module KittyWire {
  import opened Options
  import opened Bytes
  import opened KittyGeometry
  import opened KittyCache
  import opened KittyUpload
  import opened KittyRefinement
  import TerminalTheme
  import RawInput

  const COMMA: byte := 0x2c
  const EQUALS: byte := 0x3d
  const MINUS: byte := 0x2d
  const CSI: bytes := [ESC, 0x5b]   // ESC [
  const CURSOR_FINAL: byte := 0x48  // H

  // ----- numbers -----

  function Decimal(n: nat): (s: bytes)
    ensures s != [] && forall x | x in s :: IsDigit(x)
  {
    if n < 10 then [(0x30 + n) as byte] else Decimal(n / 10) + [(0x30 + n % 10) as byte]
  }

  function Signed(z: int): bytes {
    if z < 0 then [MINUS] + Decimal(-z) else Decimal(z)
  }

  function ParseNat(s: bytes): Option<nat> {
    if s == [] || !(forall x | x in s :: IsDigit(x)) then None else Some(RawInput.DecimalNumber(s))
  }

  function ParseInt(s: bytes): Option<int> {
    if [MINUS] <= s then
      var n := ParseNat(s[1..]);
      if n.None? then None else Some(0 - n.value as int)
    else
      ParseNat(s)
  }

  lemma {:induction false} DecimalRoundTrip(n: nat)
    ensures ParseNat(Decimal(n)) == Some(n)
  {
    var s := Decimal(n);
    var last := (0x30 + n % 10) as byte;
    assert s[|s| - 1] == last;
    if n < 10 {
      assert s == [last] && s[..0] == [];
      assert RawInput.DecimalNumber(s[..0]) == 0;
    } else {
      assert s == Decimal(n / 10) + [last];
      assert s[..|s| - 1] == Decimal(n / 10);
      DecimalRoundTrip(n / 10);
    }
  }

  lemma SignedRoundTrip(z: int)
    ensures ParseInt(Signed(z)) == Some(z)
  {
    var digits := Decimal(if z < 0 then -z else z);
    DecimalRoundTrip(if z < 0 then -z else z);
    assert IsDigit(digits[0]) && !([MINUS] <= digits);
    assert ([MINUS] + digits)[1..] == digits;
  }

  // ----- control data: key=value, separated by commas -----

  datatype Fields = End | Field(key: byte, value: bytes, rest: Fields)

  function RenderFields(f: Fields): bytes {
    match f
    case End => []
    case Field(key, value, End) => [key, EQUALS] + value
    case Field(key, value, rest) => [key, EQUALS] + value + [COMMA] + RenderFields(rest)
  }

  function ParseParts(parts: seq<bytes>): Option<Fields> {
    if parts == [] then Some(End)
    else if |parts[0]| < 2 || parts[0][1] != EQUALS then None
    else
      match ParseParts(parts[1..])
      case None => None
      case Some(rest) => Some(Field(parts[0][0], parts[0][2..], rest))
  }

  function ParseFields(control: bytes): Option<Fields> {
    ParseParts(TerminalTheme.Split(control, COMMA))
  }

  function Value(f: Fields, key: byte): Option<bytes> {
    match f
    case End => None
    case Field(k, value, rest) => if k == key then Some(value) else Value(rest, key)
  }

  predicate IsPlainByte(x: byte) {
    x != COMMA && x != SEMICOLON && x != ESC
  }

  predicate IsClean(f: Fields) {
    f.Field? ==> IsPlainByte(f.key) && (forall x | x in f.value :: IsPlainByte(x)) && IsClean(f.rest)
  }

  lemma {:induction false} FieldsRoundTrip(f: Fields)
    requires f.Field? && IsClean(f)
    ensures ParseFields(RenderFields(f)) == Some(f)
    ensures IsControl(RenderFields(f))
  {
    hide TerminalTheme.Split;
    var part := [f.key, EQUALS] + f.value;
    assert COMMA !in part && ESC !in part && SEMICOLON !in part;
    assert part[2..] == f.value;
    if f.rest.End? {
      assert RenderFields(f) == part;
      TerminalTheme.SplitLast(part, COMMA);
      assert [part][1..] == [];
      assert ParseParts([part]) == Some(f);
    } else {
      FieldsRoundTrip(f.rest);
      assert RenderFields(f) == part + [COMMA] + RenderFields(f.rest);
      TerminalTheme.SplitStep(RenderFields(f), COMMA, part, RenderFields(f.rest));
      var parts := TerminalTheme.Split(RenderFields(f.rest), COMMA);
      assert ([part] + parts)[1..] == parts;
    }
  }

  // ----- what the update writes -----

  /** Keys of a display command that are left out when zero. */
  function Optional(key: byte, n: nat, rest: Fields): Fields {
    if n > 0 then Field(key, Decimal(n), rest) else rest
  }

  function Number(key: byte, n: nat, rest: Fields): Fields {
    Field(key, Decimal(n), rest)
  }

  /** The keys of a command: a, i, p, q and those of its action. */
  function FieldsOf(c: Command): Fields {
    match c
    case DeleteImage(id) =>
      Field(0x61, [0x64], Field(0x64, [0x49], Number(0x69, id, Field(0x71, [0x32], End))))
    case DeletePlacement(id, placementId) =>
      Field(0x61, [0x64], Field(0x64, [0x69], Number(0x69, id, Number(0x70, placementId, Field(0x71, [0x32], End)))))
    case Upload(id, sig, _) =>
      Field(0x61, [0x74], Field(0x74, [0x64], Number(0x66, sig.formatCode, Number(0x73, sig.width, Number(0x76, sig.height,
        Number(0x69, id, Field(0x71, [0x32], End)))))))
    case Display(id, placementId, shown) =>
      Field(0x61, [0x70], Number(0x69, id, Number(0x70, placementId, Number(0x63, shown.horizontal.cells,
        Number(0x72, shown.vertical.cells, Field(0x7a, Signed(shown.z), Field(0x43, [0x31], Field(0x71, [0x32],
        CropFields(shown)))))))))
  }

  /** x, y, w, h, X and Y. */
  function CropFields(shown: Shown): Fields {
    Optional(0x78, shown.horizontal.sourceStart, Optional(0x79, shown.vertical.sourceStart,
      Optional(0x77, shown.horizontal.sourceLen, Optional(0x68, shown.vertical.sourceLen,
      Optional(0x58, shown.xOffset, Optional(0x59, shown.yOffset, End))))))
  }

  /** `ESC [ row ; column H`, counted from one. */
  function MoveCursor(column: nat, row: nat): bytes {
    CSI + (Decimal(row + 1) + [SEMICOLON] + Decimal(column + 1)) + [CURSOR_FINAL]
  }

  function Graphic(f: Fields): bytes {
    APC_G + (RenderFields(f) + [SEMICOLON] + []) + ST
  }

  function Encode(c: Command): bytes {
    match c
    case Upload(_, _, data) => Render(RenderFields(FieldsOf(c)), Packets(data))
    case Display(_, _, shown) => MoveCursor(shown.x, shown.y) + Graphic(FieldsOf(c))
    case _ => Graphic(FieldsOf(c))
  }

  function EncodeAll(cs: seq<Command>): bytes {
    if cs == [] then [] else Encode(cs[0]) + EncodeAll(cs[1..])
  }

  // ----- the terminal that reads it -----

  datatype Screen = Screen(host: Host, column: nat, row: nat)

  /** A number, zero when the key is absent. */
  function NumberOf(f: Fields, key: byte): Option<nat> {
    match Value(f, key)
    case None => Some(0)
    case Some(v) => ParseNat(v)
  }

  function U32Of(f: Fields, key: byte): Option<u32> {
    match NumberOf(f, key)
    case None => None
    case Some(n) => if n <= U32_MAX then Some(n) else None
  }

  function I32Of(f: Fields, key: byte): Option<i32> {
    match Value(f, key)
    case None => Some(0)
    case Some(v) =>
      match ParseInt(v)
      case None => None
      case Some(n) => if -0x8000_0000 <= n < 0x8000_0000 then Some(n) else None
  }

  function ReadExtent(f: Fields, cells: byte, start: byte, len: byte): Option<Extent> {
    match (NumberOf(f, cells), NumberOf(f, start), NumberOf(f, len))
    case (Some(a), Some(b), Some(c)) => Some(Extent(a, b, c))
    case _ => None
  }

  function ReadShown(f: Fields, column: nat, row: nat): Option<Shown> {
    match (ReadExtent(f, 0x63, 0x78, 0x77), ReadExtent(f, 0x72, 0x79, 0x68))
    case (Some(horizontal), Some(vertical)) =>
      (match (U32Of(f, 0x58), U32Of(f, 0x59), I32Of(f, 0x7a))
       case (Some(xOffset), Some(yOffset), Some(z)) => Some(Shown(column, row, horizontal, vertical, xOffset, yOffset, z))
       case _ => None)
    case _ => None
  }

  function ReadDelete(f: Fields): Option<Command> {
    match (U32Of(f, 0x69), U32Of(f, 0x70))
    case (Some(id), Some(placementId)) =>
      if Value(f, 0x64) == Some([0x49]) then Some(DeleteImage(id))
      else if Value(f, 0x64) == Some([0x69]) then Some(DeletePlacement(id, placementId))
      else None
    case _ => None
  }

  function ReadDisplay(f: Fields, column: nat, row: nat): Option<Command> {
    match (U32Of(f, 0x69), U32Of(f, 0x70), ReadShown(f, column, row))
    case (Some(id), Some(placementId), Some(shown)) => Some(Display(id, placementId, shown))
    case _ => None
  }

  /** The image a terminal keeps carries no fingerprint. */
  function ReadUpload(f: Fields, payload: bytes): Option<Command> {
    match (U32Of(f, 0x69), U32Of(f, 0x73), U32Of(f, 0x76), U32Of(f, 0x66), DecodeBase64(payload))
    case (Some(id), Some(width), Some(height), Some(format), Some(data)) =>
      Some(Upload(id, ImageSig(width, height, format, |data|, 0), data))
    case _ => None
  }

  predicate IsAction(f: Fields, action: byte) {
    Value(f, 0x61) == Some([action])
  }

  /** The fields and the payload of the graphics escape at the front of `s`, and what follows it. */
  function ReadPacket(s: bytes): (r: Option<(Fields, bytes)>)
    ensures r.Some? ==> |r.value.1| < |s|
  {
    if !(APC_G <= s) then None
    else
      match FindSubsequence(s, ST, 3)
      case None => None
      case Some(end) =>
        match FindFrom(s[3..end], 0, x => x == SEMICOLON)
        case None => None
        case Some(k) =>
          match ParseFields(s[3..end][..k])
          case None => None
          case Some(f) => Some((f, s[end + 2..]))
  }

  /** One graphics command with all its packets. */
  function ReadGraphic(s: bytes, column: nat, row: nat): (r: Option<(Command, bytes)>)
    ensures r.Some? ==> |r.value.1| < |s|
  {
    match ReadPacket(s)
    case None => None
    case Some((f, rest)) =>
      if IsAction(f, 0x74) then
        match Receive(s)
        case None => None
        case Some(received) =>
          match ReadUpload(f, received.payload)
          case None => None
          case Some(c) => Some((c, received.rest))
      else
        var c := if IsAction(f, 0x64) then ReadDelete(f) else if IsAction(f, 0x70) then ReadDisplay(f, column, row) else None;
        match c
        case None => None
        case Some(command) => Some((command, rest))
  }

  /** The cursor position requested at the front of `s`, and what follows. */
  function ReadCursor(s: bytes): (r: Option<(nat, nat, bytes)>)
    ensures r.Some? ==> |r.value.2| < |s|
  {
    if !(CSI <= s) then None
    else
      match FindFrom(s, 2, x => x == CURSOR_FINAL)
      case None => None
      case Some(k) =>
        var parts := TerminalTheme.Split(s[2..k], SEMICOLON);
        if |parts| != 2 then None
        else
          match (ParseNat(parts[0]), ParseNat(parts[1]))
          case (Some(row), Some(column)) =>
            if row == 0 || column == 0 then None else Some((column - 1, row - 1, s[k + 1..]))
          case _ => None
  }

  /** The terminal after reading all of `s`; None when it meets something else. */
  function Read(t: Screen, s: bytes): Option<Screen>
    decreases |s|
  {
    if s == [] then Some(t)
    else
      match ReadCursor(s)
      case Some((column, row, rest)) => Read(t.(column := column, row := row), rest)
      case None =>
        match ReadGraphic(s, t.column, t.row)
        case Some((c, rest)) => Read(t.(host := Exec(t.host, c)), rest)
        case None => None
  }

  // ----- reading back what was written -----

  lemma GraphicReads(f: Fields, rest: bytes)
    requires f.Field? && IsClean(f)
    ensures ReadPacket(Graphic(f) + rest) == Some((f, rest))
    ensures Graphic(f) + rest != [] && ReadCursor(Graphic(f) + rest) == None
  {
    hide RenderFields, IsClean, FindSubsequence, FindFrom, ParseFields;
    FieldsRoundTrip(f);
    var keys := RenderFields(f);
    var body := keys + [SEMICOLON] + [];
    var s := Graphic(f) + rest;
    assert s == APC_G + (body + (ST + rest));
    FindEnd(body, rest);
    FindSemicolon(keys, []);
    assert s[1] == APC_G[1];
  }

  lemma PositionBytes(row: nat, column: nat)
    ensures var inner := Decimal(row) + [SEMICOLON] + Decimal(column);
            && (forall i | 0 <= i < |inner| :: inner[i] != CURSOR_FINAL)
            && TerminalTheme.Split(inner, SEMICOLON) == [Decimal(row), Decimal(column)]
  {
    hide TerminalTheme.Split;
    var (r, c) := (Decimal(row), Decimal(column));
    var inner := r + [SEMICOLON] + c;
    assert forall x | x in r :: IsDigit(x);
    assert forall x | x in c :: IsDigit(x);
    hide Decimal;
    forall i | 0 <= i < |inner|
      ensures inner[i] != CURSOR_FINAL
    {
      if i < |r| {
        assert inner[i] == r[i] && r[i] in r;
      } else if i > |r| {
        assert inner[i] == c[i - |r| - 1] && c[i - |r| - 1] in c;
      }
    }
    TerminalTheme.SplitStep(inner, SEMICOLON, r, c);
    TerminalTheme.SplitLast(c, SEMICOLON);
  }

  lemma CursorReads(column: nat, row: nat, rest: bytes)
    ensures MoveCursor(column, row) + rest != []
    ensures ReadCursor(MoveCursor(column, row) + rest) == Some((column, row, rest))
  {
    hide ParseNat, Decimal, TerminalTheme.Split;
    DecimalRoundTrip(row + 1);
    DecimalRoundTrip(column + 1);
    PositionBytes(row + 1, column + 1);
    var inner := Decimal(row + 1) + [SEMICOLON] + Decimal(column + 1);
    var s := MoveCursor(column, row) + rest;
    var k := 2 + |inner|;
    assert s == CSI + (inner + ([CURSOR_FINAL] + rest));
    assert s[..2] == CSI && s[2..k] == inner && s[k] == CURSOR_FINAL && s[k + 1..] == rest;
    assert forall j | 2 <= j < k :: s[j] == inner[j - 2];
    assert FindFrom(s, 2, x => x == CURSOR_FINAL) == Some(k);
  }

  lemma ValueOfField(key: byte, value: bytes, rest: Fields)
    ensures forall k :: Value(Field(key, value, rest), k) == if k == key then Some(value) else Value(rest, k)
  {
  }

  lemma ValueOfOptional(key: byte, n: nat, rest: Fields)
    ensures forall k :: Value(Optional(key, n, rest), k) == if n > 0 && k == key then Some(Decimal(n)) else Value(rest, k)
  {
  }

  lemma NumberReads(f: Fields, key: byte, n: nat)
    requires Value(f, key) == Some(Decimal(n)) || (n == 0 && Value(f, key) == None)
    ensures NumberOf(f, key) == Some(n)
  {
    DecimalRoundTrip(n);
  }

  lemma CropValues(shown: Shown)
    ensures var f := CropFields(shown);
            && IsClean(f)
            && NumberOf(f, 0x78) == Some(shown.horizontal.sourceStart) && NumberOf(f, 0x79) == Some(shown.vertical.sourceStart)
            && NumberOf(f, 0x77) == Some(shown.horizontal.sourceLen) && NumberOf(f, 0x68) == Some(shown.vertical.sourceLen)
            && NumberOf(f, 0x58) == Some(shown.xOffset) && NumberOf(f, 0x59) == Some(shown.yOffset)
  {
    var a := Optional(0x59, shown.yOffset, End);
    var b := Optional(0x58, shown.xOffset, a);
    var c := Optional(0x68, shown.vertical.sourceLen, b);
    var d := Optional(0x77, shown.horizontal.sourceLen, c);
    var e := Optional(0x79, shown.vertical.sourceStart, d);
    var f := Optional(0x78, shown.horizontal.sourceStart, e);
    assert f == CropFields(shown);
    OptionalClean(0x59, shown.yOffset, End);
    OptionalClean(0x58, shown.xOffset, a);
    OptionalClean(0x68, shown.vertical.sourceLen, b);
    OptionalClean(0x77, shown.horizontal.sourceLen, c);
    OptionalClean(0x79, shown.vertical.sourceStart, d);
    OptionalClean(0x78, shown.horizontal.sourceStart, e);
    hide Optional, IsClean, NumberOf, Value, Decimal;
    ValueOfEnd();
    ValueOfOptional(0x59, shown.yOffset, End);
    ValueOfOptional(0x58, shown.xOffset, a);
    ValueOfOptional(0x68, shown.vertical.sourceLen, b);
    ValueOfOptional(0x77, shown.horizontal.sourceLen, c);
    ValueOfOptional(0x79, shown.vertical.sourceStart, d);
    ValueOfOptional(0x78, shown.horizontal.sourceStart, e);
    NumberReads(f, 0x78, shown.horizontal.sourceStart);
    NumberReads(f, 0x79, shown.vertical.sourceStart);
    NumberReads(f, 0x77, shown.horizontal.sourceLen);
    NumberReads(f, 0x68, shown.vertical.sourceLen);
    NumberReads(f, 0x58, shown.xOffset);
    NumberReads(f, 0x59, shown.yOffset);
  }

  lemma ValueOfEnd()
    ensures forall k :: Value(End, k) == None
  {
  }

  lemma DecimalClean(n: nat)
    ensures forall x | x in Decimal(n) :: IsPlainByte(x)
  {
  }

  lemma OptionalClean(key: byte, n: nat, rest: Fields)
    requires IsPlainByte(key) && IsClean(rest)
    ensures IsClean(Optional(key, n, rest))
  {
    DecimalClean(n);
  }

  lemma NumberClean(key: byte, n: nat, rest: Fields)
    requires IsPlainByte(key) && IsClean(rest)
    ensures IsClean(Number(key, n, rest))
  {
    DecimalClean(n);
  }

  /** What a terminal makes of a command: it keeps no fingerprint. */
  function OnWire(c: Command): Command {
    if c.Upload? then c.(sig := c.sig.(dataLen := |c.data|, fingerprint := 0)) else c
  }

  lemma OnWireSame(h: Host, c: Command)
    ensures Exec(h, OnWire(c)) == Exec(h, c)
  {
  }

  lemma SignedClean(z: int)
    ensures forall x | x in Signed(z) :: IsPlainByte(x)
  {
    DecimalClean(if z < 0 then -z else z);
  }

  predicate IsCropKey(k: byte) {
    k in {0x78, 0x79, 0x77, 0x68, 0x58, 0x59}
  }

  lemma DisplayClean(id: u32, placementId: u32, shown: Shown)
    ensures FieldsOf(Display(id, placementId, shown)).Field? && IsClean(FieldsOf(Display(id, placementId, shown)))
  {
    var z := Field(0x7a, Signed(shown.z), Field(0x43, [0x31], Field(0x71, [0x32], CropFields(shown))));
    var r := Number(0x72, shown.vertical.cells, z);
    var c := Number(0x63, shown.horizontal.cells, r);
    var p := Number(0x70, placementId, c);
    CropValues(shown);
    SignedClean(shown.z);
    assert IsClean(z);
    NumberClean(0x72, shown.vertical.cells, z);
    NumberClean(0x63, shown.horizontal.cells, r);
    NumberClean(0x70, placementId, c);
    NumberClean(0x69, id, p);
  }

  lemma DisplayValues(id: u32, placementId: u32, shown: Shown)
    ensures var (f, g) := (FieldsOf(Display(id, placementId, shown)), CropFields(shown));
            && Value(f, 0x61) == Some([0x70])
            && NumberOf(f, 0x69) == Some(id) && NumberOf(f, 0x70) == Some(placementId)
            && NumberOf(f, 0x63) == Some(shown.horizontal.cells) && NumberOf(f, 0x72) == Some(shown.vertical.cells)
            && Value(f, 0x7a) == Some(Signed(shown.z))
            && (forall k | IsCropKey(k) :: Value(f, k) == Value(g, k))
  {
    hide Value, Decimal, Signed, NumberOf, CropFields;
    var g := CropFields(shown);
    var q := Field(0x71, [0x32], g);
    var m := Field(0x43, [0x31], q);
    var z := Field(0x7a, Signed(shown.z), m);
    var r := Number(0x72, shown.vertical.cells, z);
    var c := Number(0x63, shown.horizontal.cells, r);
    var p := Number(0x70, placementId, c);
    var i := Number(0x69, id, p);
    var f := Field(0x61, [0x70], i);
    assert f == FieldsOf(Display(id, placementId, shown));
    ValueOfField(0x71, [0x32], g);
    ValueOfField(0x43, [0x31], q);
    ValueOfField(0x7a, Signed(shown.z), m);
    ValueOfField(0x72, Decimal(shown.vertical.cells), z);
    ValueOfField(0x63, Decimal(shown.horizontal.cells), r);
    ValueOfField(0x70, Decimal(placementId), c);
    ValueOfField(0x69, Decimal(id), p);
    ValueOfField(0x61, [0x70], i);
    NumberReads(f, 0x69, id);
    NumberReads(f, 0x70, placementId);
    NumberReads(f, 0x63, shown.horizontal.cells);
    NumberReads(f, 0x72, shown.vertical.cells);
  }

  lemma DisplayReads(id: u32, placementId: u32, shown: Shown)
    ensures ReadDisplay(FieldsOf(Display(id, placementId, shown)), shown.x, shown.y) == Some(Display(id, placementId, shown))
  {
    DisplayValues(id, placementId, shown);
    CropValues(shown);
    SignedRoundTrip(shown.z);
    hide FieldsOf, CropFields, Value, ParseNat, ParseInt, Signed;
    var (f, g) := (FieldsOf(Display(id, placementId, shown)), CropFields(shown));
    assert forall k | IsCropKey(k) :: NumberOf(f, k) == NumberOf(g, k);
    assert IsCropKey(0x78) && IsCropKey(0x79) && IsCropKey(0x77) && IsCropKey(0x68) && IsCropKey(0x58) && IsCropKey(0x59);
  }

  lemma DeleteImageReads(id: u32)
    ensures var f := FieldsOf(DeleteImage(id));
            f.Field? && IsClean(f) && Value(f, 0x61) == Some([0x64]) && ReadDelete(f) == Some(DeleteImage(id))
  {
    var q := Field(0x71, [0x32], End);
    var i := Number(0x69, id, q);
    var d := Field(0x64, [0x49], i);
    NumberClean(0x69, id, q);
    var f := FieldsOf(DeleteImage(id));
    assert IsClean(f);
    hide Value, Decimal, IsClean;
    ValueOfEnd();
    ValueOfField(0x71, [0x32], End);
    ValueOfField(0x69, Decimal(id), q);
    ValueOfField(0x64, [0x49], i);
    ValueOfField(0x61, [0x64], d);
    NumberReads(f, 0x69, id);
    NumberReads(f, 0x70, 0);
  }

  lemma DeletePlacementReads(id: u32, placementId: u32)
    ensures var f := FieldsOf(DeletePlacement(id, placementId));
            f.Field? && IsClean(f) && Value(f, 0x61) == Some([0x64]) && ReadDelete(f) == Some(DeletePlacement(id, placementId))
  {
    var q := Field(0x71, [0x32], End);
    var p := Number(0x70, placementId, q);
    var i := Number(0x69, id, p);
    var d := Field(0x64, [0x69], i);
    NumberClean(0x70, placementId, q);
    NumberClean(0x69, id, p);
    var f := FieldsOf(DeletePlacement(id, placementId));
    assert IsClean(f);
    hide Value, Decimal, IsClean;
    ValueOfField(0x71, [0x32], End);
    ValueOfField(0x70, Decimal(placementId), q);
    ValueOfField(0x69, Decimal(id), p);
    ValueOfField(0x64, [0x69], i);
    ValueOfField(0x61, [0x64], d);
    NumberReads(f, 0x69, id);
    NumberReads(f, 0x70, placementId);
  }

  // ----- uploads: the first packet carries the keys, with `m` after them -----

  function WithMore(f: Fields, more: bool): Fields {
    match f
    case End => Field(0x6d, if more then [0x31] else [0x30], End)
    case Field(key, value, rest) => Field(key, value, WithMore(rest, more))
  }

  lemma {:induction false} KeysAreFields(f: Fields, more: bool)
    ensures RenderFields(WithMore(f, more)) == Keys(RenderFields(f), more)
    ensures f.Field? ==> RenderFields(f) != []
  {
    var m := if more then MORE_KEY else LAST_KEY;
    match f {
      case End =>
      case Field(key, value, rest) =>
        KeysAreFields(rest, more);
        var part := [key, EQUALS] + value;
        if rest.End? {
          assert RenderFields(f) == part;
          assert RenderFields(WithMore(f, more)) == part + [COMMA] + m;
        } else {
          assert RenderFields(f) == part + [COMMA] + RenderFields(rest);
          assert RenderFields(WithMore(f, more)) == part + [COMMA] + (RenderFields(rest) + [COMMA] + m);
          assert part + [COMMA] + (RenderFields(rest) + [COMMA] + m) == part + [COMMA] + RenderFields(rest) + [COMMA] + m;
        }
    }
  }

  lemma {:induction false} WithMoreKeeps(f: Fields, more: bool)
    requires IsClean(f)
    ensures IsClean(WithMore(f, more)) && WithMore(f, more).Field?
    ensures forall k | k != 0x6d :: Value(WithMore(f, more), k) == Value(f, k)
  {
    if f.Field? {
      WithMoreKeeps(f.rest, more);
    }
  }

  lemma UploadValues(id: u32, sig: ImageSig, data: bytes)
    ensures var f := FieldsOf(Upload(id, sig, data));
            && f.Field? && IsClean(f) && Value(f, 0x61) == Some([0x74])
            && NumberOf(f, 0x69) == Some(id) && NumberOf(f, 0x73) == Some(sig.width)
            && NumberOf(f, 0x76) == Some(sig.height) && NumberOf(f, 0x66) == Some(sig.formatCode)
  {
    var q := Field(0x71, [0x32], End);
    var i := Number(0x69, id, q);
    var v := Number(0x76, sig.height, i);
    var s := Number(0x73, sig.width, v);
    var c := Number(0x66, sig.formatCode, s);
    var t := Field(0x74, [0x64], c);
    NumberClean(0x69, id, q);
    NumberClean(0x76, sig.height, i);
    NumberClean(0x73, sig.width, v);
    NumberClean(0x66, sig.formatCode, s);
    var f := FieldsOf(Upload(id, sig, data));
    assert IsClean(f);
    hide Value, Decimal, IsClean;
    ValueOfField(0x69, Decimal(id), q);
    ValueOfField(0x76, Decimal(sig.height), i);
    ValueOfField(0x73, Decimal(sig.width), v);
    ValueOfField(0x66, Decimal(sig.formatCode), s);
    ValueOfField(0x74, [0x64], c);
    ValueOfField(0x61, [0x74], t);
    NumberReads(f, 0x69, id);
    NumberReads(f, 0x73, sig.width);
    NumberReads(f, 0x76, sig.height);
    NumberReads(f, 0x66, sig.formatCode);
  }

  /** Reading the keys of a packet whose delimiters have been found. */
  lemma PacketFound(s: bytes, end: nat, keys: bytes, f: Fields)
    requires APC_G <= s && FindSubsequence(s, ST, 3) == Some(end)
    requires FindFrom(s[3..end], 0, x => x == SEMICOLON) == Some(|keys|)
    requires s[3..end][..|keys|] == keys && ParseFields(keys) == Some(f)
    ensures ReadPacket(s) == Some((f, s[end + 2..])) && s != [] && ReadCursor(s) == None
  {
    hide FindSubsequence, FindFrom, ParseFields;
    assert s[1] == APC_G[1];
  }

  /** Reading the keys off the first packet of an upload. */
  lemma PacketHead(f: Fields, p: Packet, rest: bytes)
    requires f.Field? && IsClean(f) && ESC !in p.payload
    ensures var s := RenderPacket(RenderFields(f), p) + rest;
            ReadPacket(s) == Some((WithMore(f, p.more), rest)) && s != [] && ReadCursor(s) == None
  {
    hide RenderFields, IsClean, FindSubsequence, FindFrom, ParseFields, Keys, ReadPacket, ReadCursor, RenderPacket, Value, IsPlainByte;
    KeysAreFields(f, p.more);
    WithMoreKeeps(f, p.more);
    FieldsRoundTrip(WithMore(f, p.more));
    var keys := Keys(RenderFields(f), p.more);
    PacketBytes(RenderFields(f), p, rest);
    KeysRead(keys, WithMore(f, p.more), p.payload, rest);
  }

  lemma KeysRead(keys: bytes, f: Fields, payload: bytes, rest: bytes)
    requires IsControl(keys) && ESC !in payload && ParseFields(keys) == Some(f)
    ensures var s := APC_G + (keys + [SEMICOLON] + payload + (ST + rest));
            ReadPacket(s) == Some((f, rest)) && s != [] && ReadCursor(s) == None
  {
    hide FindSubsequence, FindFrom, ParseFields, ReadPacket, ReadCursor;
    var body := keys + [SEMICOLON] + payload;
    FindEnd(body, rest);
    FindSemicolon(keys, payload);
    PacketFound(APC_G + (body + (ST + rest)), 3 + |body|, keys, f);
  }

  lemma UploadCommand(c: Command, more: bool)
    requires c.Upload?
    ensures var g := WithMore(FieldsOf(c), more);
            IsAction(g, 0x74) && ReadUpload(g, EncodeBase64(c.data)) == Some(OnWire(c))
  {
    UploadValues(c.id, c.sig, c.data);
    WithMoreKeeps(FieldsOf(c), more);
    Base64RoundTrip(c.data);
    hide FieldsOf, IsClean, Value, EncodeBase64, DecodeBase64, ParseNat;
    var (f, g) := (FieldsOf(c), WithMore(FieldsOf(c), more));
    assert NumberOf(g, 0x69) == NumberOf(f, 0x69) && NumberOf(g, 0x73) == NumberOf(f, 0x73);
    assert NumberOf(g, 0x76) == NumberOf(f, 0x76) && NumberOf(g, 0x66) == NumberOf(f, 0x66);
  }

  /** The first packet of an upload and what follows it. */
  lemma FirstPacket(control: bytes, data: bytes, rest: bytes)
    requires data != []
    ensures var ps := Packets(data);
            && ps != [] && ESC !in ps[0].payload
            && Render(control, ps) + rest == RenderPacket(control, ps[0]) + (Render([], ps[1..]) + rest)
  {
    hide EncodeBase64, RenderPacket;
    Base64Alphabet(if |data| <= CHUNK_BYTES then data else data[..CHUNK_BYTES]);
  }

  lemma UploadReads(c: Command, rest: bytes, column: nat, row: nat)
    requires c.Upload? && c.data != []
    ensures var s := Encode(c) + rest;
            s != [] && ReadCursor(s) == None && ReadGraphic(s, column, row) == Some((OnWire(c), rest))
  {
    hide FieldsOf, IsClean, Value, Receive, RenderPacket, EncodeBase64, DecodeBase64, RenderFields, ReadPacket, ReadCursor,
      ReadUpload, OnWire, Packets, Render, IsControl, IsAction, WithMore, NumberOf;
    var (control, ps) := (RenderFields(FieldsOf(c)), Packets(c.data));
    UploadValues(c.id, c.sig, c.data);
    FieldsRoundTrip(FieldsOf(c));
    FirstPacket(control, c.data, rest);
    PacketHead(FieldsOf(c), ps[0], Render([], ps[1..]) + rest);
    UploadCommand(c, ps[0].more);
    UploadRoundTrip(control, c.data, rest);
  }

  // ----- whole streams -----

  /** Executing a command; a display leaves the cursor where it was put. */
  function After(t: Screen, c: Command): Screen {
    var moved := if c.Display? then t.(column := c.shown.x, row := c.shown.y) else t;
    moved.(host := Exec(t.host, c))
  }

  predicate Sendable(c: Command) {
    c.Upload? ==> c.data != []
  }

  lemma CommandReads(t: Screen, c: Command, rest: bytes)
    requires Sendable(c)
    ensures Read(t, Encode(c) + rest) == Read(After(t, c), rest)
  {
    hide ReadCursor, ReadPacket, FieldsOf, IsClean, Value, Exec, Graphic, MoveCursor, ReadDelete, ReadDisplay;
    OnWireSame(t.host, c);
    match c {
      case Upload(_, _, _) =>
        hide ReadGraphic, Encode;
        UploadReads(c, rest, t.column, t.row);
      case Display(id, placementId, shown) =>
        var f := FieldsOf(c);
        DisplayClean(id, placementId, shown);
        DisplayValues(id, placementId, shown);
        DisplayReads(id, placementId, shown);
        GraphicReads(f, rest);
        CursorReads(shown.x, shown.y, Graphic(f) + rest);
        assert Encode(c) + rest == MoveCursor(shown.x, shown.y) + (Graphic(f) + rest);
        var u := t.(column := shown.x, row := shown.y);
        assert Read(t, Encode(c) + rest) == Read(u, Graphic(f) + rest);
        assert ReadGraphic(Graphic(f) + rest, shown.x, shown.y) == Some((c, rest));
      case DeleteImage(id) =>
        DeleteImageReads(id);
        GraphicReads(FieldsOf(c), rest);
        assert ReadGraphic(Encode(c) + rest, t.column, t.row) == Some((c, rest));
      case DeletePlacement(id, placementId) =>
        DeletePlacementReads(id, placementId);
        GraphicReads(FieldsOf(c), rest);
        assert ReadGraphic(Encode(c) + rest, t.column, t.row) == Some((c, rest));
    }
  }

  function AfterAll(t: Screen, cs: seq<Command>): Screen
    decreases |cs|
  {
    if cs == [] then t else AfterAll(After(t, cs[0]), cs[1..])
  }

  /** A terminal that reads the bytes of any commands ends up where executing the commands leads. */
  lemma {:induction false} StreamReads(t: Screen, cs: seq<Command>, rest: bytes)
    requires forall c | c in cs :: Sendable(c)
    ensures Read(t, EncodeAll(cs) + rest) == Read(AfterAll(t, cs), rest)
    ensures AfterAll(t, cs).host == ExecAll(t.host, cs)
    decreases |cs|
  {
    hide Read, Encode, Exec, Sendable;
    if cs == [] {
      assert EncodeAll(cs) + rest == rest;
    } else {
      var later := EncodeAll(cs[1..]) + rest;
      assert EncodeAll(cs) + rest == Encode(cs[0]) + later;
      CommandReads(t, cs[0], later);
      StreamReads(After(t, cs[0]), cs[1..], rest);
    }
  }

  // ----- the cache refines a terminal that reads its bytes -----

  ghost predicate AllSendable(cs: seq<Command>) {
    forall c | c in cs :: Sendable(c)
  }

  lemma PlaceSendable(p: Progress, item: Item, viewChanged: bool)
    requires AllSendable(p.commands)
    ensures AllSendable(PlaceItem(p, item, viewChanged).commands)
  {
    hide Without, PlacementsOf, Referenced;
  }

  lemma {:induction false} PlaceAllSendable(p: Progress, frame: seq<Item>, viewChanged: bool)
    requires AllSendable(p.commands)
    ensures AllSendable(PlaceAll(p, frame, viewChanged).commands)
    decreases |frame|
  {
    hide PlaceItem, AllSendable;
    if frame != [] {
      PlaceSendable(p, frame[0], viewChanged);
      PlaceAllSendable(PlaceItem(p, frame[0], viewChanged), frame[1..], viewChanged);
    }
  }

  lemma {:induction false} PruneSendable(p: Progress, removed: seq<u32>)
    requires AllSendable(p.commands)
    ensures AllSendable(PruneImages(p, removed).commands)
    decreases |removed|
  {
    hide Without, PlacementsOf;
    if removed != [] {
      PruneSendable(PruneImage(p, removed[0]), removed[1..]);
    }
  }

  lemma {:induction false} SweepSendable(p: Progress, stale: seq<(u32, u32)>)
    requires AllSendable(p.commands)
    ensures AllSendable(Sweep(p, stale).commands)
    decreases |stale|
  {
    if stale != [] {
      SweepSendable(SweepOne(p, stale[0]), stale[1..]);
    }
  }

  lemma {:induction false} ClearSendable(order: seq<u32>)
    ensures AllSendable(ClearCommands(order))
  {
    if order != [] {
      ClearSendable(order[1..]);
    }
  }

  /** Only images with data are uploaded. */
  lemma StepSendable(c: Cache, step: Step)
    ensures AllSendable(StepCommands(c, step))
  {
    hide AllSendable, PlaceAll, PruneImages, Sweep;
    assert AllSendable([]) by { NoneSendable(); }
    match step {
      case Paint(frame, viewChanged, removed, stale) =>
        PruneSendable(Start(c, frame), removed);
        PlaceAllSendable(PruneImages(Start(c, frame), removed).(current := {}), frame, viewChanged);
        SweepSendable(Placed(c, frame, viewChanged, removed), stale);
      case Clear(order) => ClearSendable(order);
    }
  }

  lemma NoneSendable()
    ensures AllSendable([])
  {
  }

  /** All bytes a run of updates and clears sends. */
  function RunBytes(c: Cache, steps: seq<Step>): bytes
    decreases |steps|
  {
    if steps == [] then [] else EncodeAll(StepCommands(c, steps[0])) + RunBytes(StepCache(c, steps[0]), steps[1..])
  }

  /**
   Over every run of updates and clears, a terminal that reads the bytes sent understands all of them and
   then holds exactly the images and placements the cache lists.
   */
  lemma {:induction false} BytesRefine(fp: Fingerprint, t: Screen, c: Cache, steps: seq<Step>)
    requires Matches(fp, t.host, c) && Consistent(c)
    requires RunAllowed(fp, c, steps)
    ensures var end := Read(t, RunBytes(c, steps));
            end.Some? && Matches(fp, end.value.host, RunCache(c, steps)) && Consistent(RunCache(c, steps))
    decreases |steps|
  {
    hide Matches, StepCache, StepCommands, StepAllowed, EncodeAll;
    if steps != [] {
      hide Read;
      var (cs, rest) := (StepCommands(c, steps[0]), RunBytes(StepCache(c, steps[0]), steps[1..]));
      StepSendable(c, steps[0]);
      StreamReads(t, cs, rest);
      StepRefines(fp, t.host, c, steps[0]);
      BytesRefine(fp, AfterAll(t, cs), StepCache(c, steps[0]), steps[1..]);
    }
  }
}
