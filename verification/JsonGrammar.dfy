/**
 * The grammar of RFC 8259 (sections 2 to 7, strings at the byte level) as concrete
 * syntax trees and the text each tree stands for. It says nothing about parsing.
 */
module JsonGrammar {
  import opened Bytes

  predicate IsWs(b: byte) {
    b == SPACE || b == TAB || b == CR || b == LF
  }

  predicate AllWs(s: seq<byte>) {
    forall k :: 0 <= k < |s| ==> IsWs(s[k])
  }

  predicate IsDigit(b: byte) {
    ZERO <= b <= NINE
  }

  predicate AllDigits(s: seq<byte>) {
    forall k :: 0 <= k < |s| ==> IsDigit(s[k])
  }

  predicate IsHex(b: byte) {
    IsDigit(b) || 0x61 <= b <= 0x66 || 0x41 <= b <= 0x46
  }

  /** The characters that may follow a backslash alone (section 7). */
  predicate IsSimpleEscape(b: byte) {
    b == QUOTE || b == BACKSLASH || b == SLASH || b == LOWER_B || b == LOWER_F ||
    b == LOWER_N || b == LOWER_R || b == LOWER_T
  }

  /** One character of a string body. */
  datatype Char =
    | Raw(b: byte)
    | Escaped(e: byte)
    | Unicode(h0: byte, h1: byte, h2: byte, h3: byte)

  predicate CharOk(c: Char) {
    match c
    case Raw(b) => b >= 0x20 && b != QUOTE && b != BACKSLASH
    case Escaped(e) => IsSimpleEscape(e)
    case Unicode(h0, h1, h2, h3) => IsHex(h0) && IsHex(h1) && IsHex(h2) && IsHex(h3)
  }

  predicate CharsOk(cs: seq<Char>) {
    forall k :: 0 <= k < |cs| ==> CharOk(cs[k])
  }

  function RenderChar(c: Char): seq<byte> {
    match c
    case Raw(b) => [b]
    case Escaped(e) => [BACKSLASH, e]
    case Unicode(h0, h1, h2, h3) => [BACKSLASH, LOWER_U, h0, h1, h2, h3]
  }

  /** The characters of a string and its closing quotation mark. */
  function RenderChars(cs: seq<Char>): seq<byte> {
    if cs == [] then [QUOTE] else RenderChar(cs[0]) + RenderChars(cs[1..])
  }

  function RenderString(cs: seq<Char>): seq<byte> {
    [QUOTE] + RenderChars(cs)
  }

  datatype Exponent =
    | NoExponent
    | Exponent(marker: byte, sign: seq<byte>, digits: seq<byte>)

  /** `fraction` holds the digits after the point; no digits means no point. */
  datatype Number = Number(minus: bool, whole: seq<byte>, fraction: seq<byte>, exponent: Exponent)

  predicate NumberOk(n: Number) {
    && n.whole != [] && AllDigits(n.whole)
    && (n.whole[0] == ZERO ==> |n.whole| == 1)
    && AllDigits(n.fraction)
    && (n.exponent.Exponent? ==>
          && (n.exponent.marker == LOWER_E || n.exponent.marker == UPPER_E)
          && (n.exponent.sign == [] || n.exponent.sign == [PLUS] || n.exponent.sign == [MINUS])
          && n.exponent.digits != [] && AllDigits(n.exponent.digits))
  }

  function RenderMinus(n: Number): seq<byte> {
    if n.minus then [MINUS] else []
  }

  function RenderFraction(n: Number): seq<byte> {
    if n.fraction == [] then [] else [DOT] + n.fraction
  }

  function RenderExponent(e: Exponent): seq<byte> {
    match e
    case NoExponent => []
    case Exponent(marker, sign, digits) => [marker] + (sign + digits)
  }

  function RenderNumber(n: Number): seq<byte> {
    RenderMinus(n) + (n.whole + (RenderFraction(n) + RenderExponent(n.exponent)))
  }

  /** An empty container holds only `blank`; otherwise the white space belongs to the elements. */
  datatype Value =
    | Literal(text: seq<byte>)
    | NumberValue(number: Number)
    | StringValue(chars: seq<Char>)
    | Array(blank: seq<byte>, items: Items)
    | Object(blank: seq<byte>, members: Members)

  datatype Items =
    | NoItems
    | Item(before: seq<byte>, value: Value, after: seq<byte>, rest: Items)

  datatype Members =
    | NoMembers
    | Member(before: seq<byte>, name: seq<Char>, gap: seq<byte>, pad: seq<byte>, value: Value, after: seq<byte>,
             more: Members)

  const TRUE: seq<byte> := [0x74, 0x72, 0x75, 0x65]
  const FALSE: seq<byte> := [0x66, 0x61, 0x6C, 0x73, 0x65]
  const NULL: seq<byte> := [0x6E, 0x75, 0x6C, 0x6C]

  function Render(v: Value): seq<byte> {
    match v
    case Literal(text) => text
    case NumberValue(n) => RenderNumber(n)
    case StringValue(cs) => RenderString(cs)
    case Array(blank, items) =>
      [LBRACKET] + (if items.NoItems? then blank + [RBRACKET] else RenderItems(items))
    case Object(blank, members) =>
      [LBRACE] + (if members.NoMembers? then blank + [RBRACE] else RenderMembers(members))
  }

  /** The elements and the closing bracket. */
  function RenderItems(items: Items): seq<byte> {
    match items
    case NoItems => [RBRACKET]
    case Item(before, value, after, rest) =>
      before + (Render(value) + (after +
      (if rest.NoItems? then [RBRACKET] else [COMMA] + RenderItems(rest))))
  }

  /** The members and the closing brace. */
  function RenderMembers(members: Members): seq<byte> {
    match members
    case NoMembers => [RBRACE]
    case Member(before, name, gap, pad, value, after, more) =>
      before + (RenderString(name) + (gap + ([COLON] + (pad + (Render(value) + (after +
      (if more.NoMembers? then [RBRACE] else [COMMA] + RenderMembers(more))))))))
  }

  predicate ValueOk(v: Value) {
    match v
    case Literal(text) => text == TRUE || text == FALSE || text == NULL
    case NumberValue(n) => NumberOk(n)
    case StringValue(cs) => CharsOk(cs)
    case Array(blank, items) => AllWs(blank) && ItemsOk(items)
    case Object(blank, members) => AllWs(blank) && MembersOk(members)
  }

  predicate ItemsOk(items: Items) {
    match items
    case NoItems => true
    case Item(before, value, after, rest) =>
      AllWs(before) && ValueOk(value) && AllWs(after) && ItemsOk(rest)
  }

  predicate MembersOk(members: Members) {
    match members
    case NoMembers => true
    case Member(before, name, gap, pad, value, after, more) =>
      AllWs(before) && CharsOk(name) && AllWs(gap) && AllWs(pad) && ValueOk(value) && AllWs(after) && MembersOk(more)
  }

  function Max(a: nat, b: nat): nat {
    if a < b then b else a
  }

  /** How deep containers nest in `v`; a container counts itself. */
  function Nesting(v: Value): nat {
    match v
    case Array(_, items) => 1 + ItemsNesting(items)
    case Object(_, members) => 1 + MembersNesting(members)
    case _ => 0
  }

  function ItemsNesting(items: Items): nat {
    match items
    case NoItems => 0
    case Item(_, value, _, rest) => Max(Nesting(value), ItemsNesting(rest))
  }

  function MembersNesting(members: Members): nat {
    match members
    case NoMembers => 0
    case Member(_, _, _, _, value, _, more) => Max(Nesting(value), MembersNesting(more))
  }

  const MAX_DEPTH: nat := 64

  /** `s` is white space, the text of object `v`, white space. */
  predicate IsDocument(s: seq<byte>, lead: seq<byte>, v: Value, trail: seq<byte>) {
    AllWs(lead) && AllWs(trail) && v.Object? && ValueOk(v) && s == lead + (Render(v) + trail)
  }

  /** The language of `json_valid_object`. */
  ghost predicate ValidDocument(s: seq<byte>) {
    exists lead, v, trail :: IsDocument(s, lead, v, trail) && Nesting(v) <= MAX_DEPTH
  }

  // ---- The letters of the grammar ---------------------------------------------------------

  predicate IsOneOf(b: byte, s: string) {
    exists k :: 0 <= k < |s| && s[k] as int == b
  }

  /** Sections 2, 3, 6 and 7 of RFC 8259, by their characters. */
  lemma Alphabet(b: byte)
    ensures IsWs(b) <==> b in {0x20, 0x09, 0x0A, 0x0D}
    ensures IsDigit(b) <==> IsOneOf(b, "0123456789")
    ensures IsHex(b) <==> IsOneOf(b, "0123456789") || IsOneOf(b, "abcdef") || IsOneOf(b, "ABCDEF")
    ensures IsSimpleEscape(b) <==> IsOneOf(b, "bfnrt/") || b == 0x22 || b == 0x5C
    ensures CharOk(Raw(b)) <==> b >= 0x20 && b != 0x22 && b != 0x5C
  {
    var digits, lower, upper, escapes := "0123456789", "abcdef", "ABCDEF", "bfnrt/";
    if 48 <= b <= 57 { assert digits[b - 48] as int == b; }
    if 97 <= b <= 102 { assert lower[b - 97] as int == b; }
    if 65 <= b <= 70 { assert upper[b - 65] as int == b; }
    assert escapes[0] as int == 98 && escapes[1] as int == 102 && escapes[2] as int == 110 && escapes[3] as int == 114
           && escapes[4] as int == 116 && escapes[5] as int == 47;
  }

  predicate Writes(b: seq<byte>, s: string) {
    |b| == |s| && forall k :: 0 <= k < |s| ==> b[k] == s[k] as int
  }

  /** The punctuation, the literals, and the nesting that is accepted. */
  lemma Words()
    ensures Writes([LBRACE, RBRACE, LBRACKET, RBRACKET, COLON, COMMA], "{}[]:,")
    ensures Writes([MINUS, PLUS, DOT, LOWER_E, UPPER_E, ZERO, LOWER_U], "-+.eE0u")
    ensures QUOTE == 0x22 && BACKSLASH == 0x5C
    ensures Writes(TRUE, "true") && Writes(FALSE, "false") && Writes(NULL, "null") && MAX_DEPTH == 64
  {
  }
}
