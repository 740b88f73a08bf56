/** Default-colour replies: the parser the framer consults and the printer whose output it must read back. */
module TerminalTheme {
  import opened Options
  import opened Bytes

  datatype RgbColor = RgbColor(r: byte, g: byte, b: byte)

  datatype DefaultColorKind = Foreground | Background

  const OSC_START: bytes := [ESC, 0x5d]              // ESC ]
  const RGB_PREFIX: bytes := [0x72, 0x67, 0x62, 0x3a] // rgb:

  predicate IsHexDigit(x: byte) {
    IsDigit(x) || 0x61 <= x <= 0x66 || 0x41 <= x <= 0x46
  }

  function HexValue(x: byte): nat
    requires IsHexDigit(x)
  {
    if IsDigit(x) then x as nat - 0x30
    else if 0x61 <= x then x as nat - 0x61 + 10
    else x as nat - 0x41 + 10
  }

  function HexNumber(s: bytes): nat
    requires forall x | x in s :: IsHexDigit(x)
  {
    if s == [] then 0 else HexNumber(s[..|s| - 1]) * 16 + HexValue(s[|s| - 1])
  }

  /** Largest value of a component with the given number of hex digits (1 to 4). */
  function ComponentMax(digits: nat): (max: nat)
    requires 1 <= digits <= 4
    ensures max > 0
  {
    if digits == 1 then 0xf else if digits == 2 then 0xff else if digits == 3 then 0xfff else 0xffff
  }

  lemma HexNumberBound(s: bytes)
    requires 1 <= |s| <= 4 && forall x | x in s :: IsHexDigit(x)
    ensures HexNumber(s) <= ComponentMax(|s|)
  {
    var front := s[..|s| - 1];
    assert forall x | x in front :: x in s;
    if |s| == 1 {
      assert front == [];
    } else {
      HexNumberBound(front);
    }
    assert s[|s| - 1] in s;
  }

  /** One colour component of 1 to 4 hex digits, rescaled to 0..255 and rounded. */
  function ParseHexComponent(s: bytes): Option<byte> {
    if s == [] || |s| > 4 || !(forall x | x in s :: IsHexDigit(x)) then None
    else
      HexNumberBound(s);
      var max := ComponentMax(|s|);
      Some(((HexNumber(s) * 255 + max / 2) / max) as byte)
  }

  /** The parts of `s` between separators. */
  function Split(s: bytes, separator: byte): (parts: seq<bytes>)
    ensures |parts| >= 1
    decreases |s|
  {
    match FindFrom(s, 0, x => x == separator)
    case None => [s]
    case Some(k) => [s[..k]] + Split(s[k + 1..], separator)
  }

  function ParseComponents(r: bytes, g: bytes, b: bytes): Option<RgbColor> {
    match (ParseHexComponent(r), ParseHexComponent(g), ParseHexComponent(b))
    case (Some(red), Some(green), Some(blue)) => Some(RgbColor(red, green, blue))
    case _ => None
  }

  function ParseRgbColor(value: bytes): Option<RgbColor> {
    if RGB_PREFIX <= value then
      var parts := Split(value[4..], 0x2f);
      if |parts| == 3 then ParseComponents(parts[0], parts[1], parts[2]) else None
    else if [0x23] <= value then
      var hex := value[1..];
      var digits := |hex| / 3;
      if !(1 <= digits <= 4) || |hex| != digits * 3 then None
      else ParseComponents(hex[..digits], hex[digits..digits * 2], hex[digits * 2..])
    else None
  }

  function ParseKind(command: bytes): Option<DefaultColorKind> {
    if command == [0x31, 0x30] then Some(Foreground)
    else if command == [0x31, 0x31] then Some(Background)
    else None
  }

  /** The text between `ESC ]` and its terminator, ST tried before BEL. */
  function ReplyBody(sequence: bytes): Option<bytes> {
    if !(OSC_START <= sequence) then None
    else
      var body := sequence[2..];
      if |body| >= 2 && body[|body| - 2..] == ST then Some(body[..|body| - 2])
      else if |body| >= 1 && body[|body| - 1] == BEL then Some(body[..|body| - 1])
      else None
  }

  function ParseDefaultColorResponse(sequence: bytes): Option<(DefaultColorKind, RgbColor)> {
    match ReplyBody(sequence)
    case None => None
    case Some(body) =>
      match FindFrom(body, 0, x => x == 0x3b)
      case None => None
      case Some(k) =>
        match (ParseKind(body[..k]), ParseRgbColor(body[k + 1..]))
        case (Some(kind), Some(color)) => Some((kind, color))
        case _ => None
  }

  function HexDigit(v: nat): (x: byte)
    requires v < 16
    ensures IsHexDigit(x) && HexValue(x) == v
  {
    if v < 10 then (0x30 + v) as byte else (0x61 + v - 10) as byte
  }

  /** A byte as two lower-case hex digits. */
  function Hex2(v: byte): bytes {
    [HexDigit(v as nat / 16), HexDigit(v as nat % 16)]
  }

  /** `ESC ]10;rgb:rr/gg/bb ESC \`, or 11 for the background. */
  function OscSetDefaultColorSequence(kind: DefaultColorKind, color: RgbColor): bytes {
    var command: byte := if kind.Foreground? then 0x30 else 0x31;
    [ESC, 0x5d, 0x31, command, 0x3b] + RGB_PREFIX
    + Hex2(color.r) + [0x2f] + Hex2(color.g) + [0x2f] + Hex2(color.b) + ST
  }

  lemma RoundedQuotient(n: nat, max: nat)
    requires max > 0
    ensures -(max as int) <= 2 * (n - (n + max / 2) / max * max) <= max
  {
    var q := (n + max / 2) / max;
    assert q * max <= n + max / 2 < q * max + max;
  }

  /** The rescaled component is the nearest one: off by at most half a step of the longer scale. */
  lemma HexComponentNearest(s: bytes)
    requires ParseHexComponent(s).Some?
    ensures var (max, v) := (ComponentMax(|s|), ParseHexComponent(s).value as int);
            -max <= 2 * (HexNumber(s) * 255 - v * max) <= max
  {
    hide HexNumber, IsHexDigit, ComponentMax;
    HexNumberBound(s);
    RoundedQuotient(HexNumber(s) * 255, ComponentMax(|s|));
  }

  // ----- printing and reading back -----

  lemma HexRoundTrip(v: byte)
    ensures |Hex2(v)| == 2 && forall x | x in Hex2(v) :: IsHexDigit(x)
    ensures ParseHexComponent(Hex2(v)) == Some(v)
  {
    var s := Hex2(v);
    assert s[..1][..0] == [] && s[..1] == [s[0]];
    assert HexNumber(s[..1]) == HexValue(s[0]);
    assert HexNumber(s) == v as nat;
  }

  lemma SplitStep(s: bytes, separator: byte, head: bytes, rest: bytes)
    requires s == head + [separator] + rest
    requires separator !in head
    ensures Split(s, separator) == [head] + Split(rest, separator)
  {
    assert s[|head|] == separator;
    assert forall j | 0 <= j < |head| :: s[j] == head[j];
    assert FindFrom(s, 0, x => x == separator) == Some(|head|);
    assert s[..|head|] == head && s[|head| + 1..] == rest;
  }

  lemma SplitLast(s: bytes, separator: byte)
    requires separator !in s
    ensures Split(s, separator) == [s]
  {
  }

  lemma RgbRoundTrip(color: RgbColor)
    ensures ParseRgbColor(RGB_PREFIX + Hex2(color.r) + [0x2f] + Hex2(color.g) + [0x2f] + Hex2(color.b)) == Some(color)
  {
    hide Hex2, ParseHexComponent, Split;
    HexRoundTrip(color.r);
    HexRoundTrip(color.g);
    HexRoundTrip(color.b);
    var (r, g, b) := (Hex2(color.r), Hex2(color.g), Hex2(color.b));
    var value := RGB_PREFIX + r + [0x2f] + g + [0x2f] + b;
    assert value[4..] == r + [0x2f] + (g + [0x2f] + b);
    SplitStep(value[4..], 0x2f, r, g + [0x2f] + b);
    SplitStep(g + [0x2f] + b, 0x2f, g, b);
    SplitLast(b, 0x2f);
    assert Split(value[4..], 0x2f) == [r, g, b];
  }

  /** The parts of a printed reply: command, `;`, colour value, terminator. */
  lemma ReplyParts(kind: DefaultColorKind, color: RgbColor)
    ensures var command: bytes := [0x31, if kind.Foreground? then 0x30 else 0x31];
            var value := RGB_PREFIX + Hex2(color.r) + [0x2f] + Hex2(color.g) + [0x2f] + Hex2(color.b);
            OscSetDefaultColorSequence(kind, color) == OSC_START + ((command + [0x3b] + value) + ST)
  {
    hide Hex2;
  }

  lemma BodyRead(body: bytes)
    ensures ReplyBody(OSC_START + (body + ST)) == Some(body)
  {
    var s := OSC_START + (body + ST);
    assert s[2..] == body + ST;
    assert s[2..][|body|..] == ST && s[2..][..|body|] == body;
  }

  lemma CommandRead(command: bytes, value: bytes)
    requires |command| == 2 && 0x3b !in command
    ensures var body := command + [0x3b] + value;
            FindFrom(body, 0, x => x == 0x3b) == Some(2) && body[..2] == command && body[3..] == value
  {
    var body := command + [0x3b] + value;
    assert body[2] == 0x3b && body[0] == command[0] && body[1] == command[1];
  }

  /** Every reply the printer produces is read back as the same kind and colour. */
  lemma ColorReplyRoundTrip(kind: DefaultColorKind, color: RgbColor)
    ensures ParseDefaultColorResponse(OscSetDefaultColorSequence(kind, color)) == Some((kind, color))
  {
    hide Hex2, ParseRgbColor, ReplyBody, FindFrom, OscSetDefaultColorSequence;
    var command: bytes := [0x31, if kind.Foreground? then 0x30 else 0x31];
    var value := RGB_PREFIX + Hex2(color.r) + [0x2f] + Hex2(color.g) + [0x2f] + Hex2(color.b);
    ReplyParts(kind, color);
    BodyRead(command + [0x3b] + value);
    CommandRead(command, value);
    RgbRoundTrip(color);
  }
}
