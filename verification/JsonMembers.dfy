/**
 * Member lookup in the outer object of a text: one list of members, the three functions of
 * `json.c` that answer from it, and the syntax tree the list comes from.
 */
module JsonMembers {
  import opened Bytes
  import opened JsonGrammar
  import opened JsonRecogniser
  import opened JsonCorrect
  import opened JsonCursor

  // ---- Decoded names ----------------------------------------------------------------------

  function HexValue(b: byte): (v: int)
    ensures v >= 0 <==> IsHex(b)
    ensures v < 16
  {
    if IsDigit(b) then b - ZERO
    else if 0x61 <= b <= 0x66 then b - 0x61 + 10
    else if 0x41 <= b <= 0x46 then b - 0x41 + 10
    else -1
  }

  function HexUnit(h0: byte, h1: byte, h2: byte, h3: byte): int {
    HexValue(h0) * 0x1000 + HexValue(h1) * 0x100 + HexValue(h2) * 0x10 + HexValue(h3)
  }

  function Unescape(e: byte): byte {
    if e == LOWER_B then 8 else if e == LOWER_F then 12 else if e == LOWER_N then LF
    else if e == LOWER_R then CR else if e == LOWER_T then TAB else e
  }

  /** The code a character of a name stands for. */
  function Decoded(c: Char): int {
    match c
    case Raw(b) => b
    case Escaped(e) => Unescape(e)
    case Unicode(h0, h1, h2, h3) => HexUnit(h0, h1, h2, h3)
  }

  /** `name` spells `key` once its escapes are resolved. */
  predicate Spells(name: seq<Char>, key: seq<byte>) {
    |name| == |key| && forall k :: 0 <= k < |name| ==> Decoded(name[k]) == key[k]
  }

  predicate Ascii(key: seq<byte>) {
    forall k :: 0 <= k < |key| ==> 0 < key[k] < 0x80
  }

  /** The characters between two quotation marks of an accepted string body. */
  function CharsAt(s: seq<byte>, i: nat): (cs: seq<Char>)
    requires i <= |s| && ScanChars(s, i).At?
    decreases |s| - i
  {
    if s[i] == QUOTE then []
    else if s[i] != BACKSLASH then [Raw(s[i])] + CharsAt(s, i + 1)
    else if s[i + 1] == LOWER_U then
      [Unicode(s[i + 2], s[i + 3], s[i + 4], s[i + 5])] + CharsAt(s, i + 6)
    else [Escaped(s[i + 1])] + CharsAt(s, i + 2)
  }

  lemma {:induction false} CharsAtRendered(s: seq<byte>, i: nat, cs: seq<Char>)
    requires CharsOk(cs) && Occurs(s, i, RenderChars(cs))
    ensures i <= |s| && ScanChars(s, i) == At(i + |RenderChars(cs)|) && CharsAt(s, i) == cs
    decreases |cs|
  {
    hide Occurs;
    CharsComplete(s, i, cs);
    if cs == [] {
      OccursOne(s, i, QUOTE);
    } else {
      var c := cs[0];
      OccursConcat(s, i, RenderChar(c), RenderChars(cs[1..]));
      CharsAtRendered(s, i + |RenderChar(c)|, cs[1..]);
      assert cs == [c] + cs[1..];
      OccursAt(s, i, RenderChar(c), 0);
      if !c.Raw? {
        OccursAt(s, i, RenderChar(c), 1);
      }
      if c.Unicode? {
        OccursAt(s, i, RenderChar(c), 2);
        OccursAt(s, i, RenderChar(c), 3);
        OccursAt(s, i, RenderChar(c), 4);
        OccursAt(s, i, RenderChar(c), 5);
      }
    }
  }

  /** The four digits of a `\\u` escape, or -1. */
  method ParseHex4(c: Cursor) returns (value: int)
    requires c.Inside()
    modifies c`i
    ensures var s, first := c.s, old(c.i);
            && c.Inside()
            && (value >= 0 <==> first + 4 <= |s| && forall k :: first <= k < first + 4 ==> IsHex(s[k]))
            && (value >= 0 ==> c.i == first + 4
                               && value == HexUnit(s[first], s[first + 1], s[first + 2], s[first + 3]))
  {
    ghost var s, first := c.s, c.i;
    var digit := 0;
    value := 0;
    while digit < 4
      invariant 0 <= digit <= 4 && c.i == first + digit <= |s|
      invariant forall k :: first <= k < first + digit ==> IsHex(s[k])
      invariant digit == 0 ==> value == 0
      invariant digit == 1 ==> value == HexValue(s[first])
      invariant digit == 2 ==> value == HexValue(s[first]) * 0x10 + HexValue(s[first + 1])
      invariant digit == 3 ==> value == HexValue(s[first]) * 0x100 + HexValue(s[first + 1]) * 0x10
                                        + HexValue(s[first + 2])
      invariant digit == 4 ==> value == HexUnit(s[first], s[first + 1], s[first + 2], s[first + 3])
      invariant value >= 0
    {
      if c.i >= |c.s| { return -1; }
      var nibble := HexValue(c.s[c.i]);
      if nibble < 0 { return -1; }
      value := value * 16 + nibble;
      c.i := c.i + 1;
      digit := digit + 1;
    }
  }

  /** One step of a scan over a string body: `unit` stands from `i` to `j`. */
  ghost predicate Step(s: seq<byte>, i: nat, unit: Char, j: nat) {
    && i < j <= |s| && ScanChars(s, i) == ScanChars(s, j)
    && (ScanChars(s, j).At? ==> CharsAt(s, i) == [unit] + CharsAt(s, j))
  }

  /**
   * One character of a name, neither a quotation mark nor a control: its low byte, and whether
   * it can match a byte of an ASCII key at all.
   */
  method NextUnit(c: Cursor) returns (ok: bool, ch: byte, narrow: bool, ghost unit: Char)
    requires c.Inside() && c.i < |c.s| && c.s[c.i] >= 0x20 && c.s[c.i] != QUOTE
    modifies c`i
    ensures c.Inside()
    ensures !ok ==> ScanChars(c.s, old(c.i)).Fail?
    ensures ok ==> Step(c.s, old(c.i), unit, c.i)
    ensures ok ==> ch == Decoded(unit) % 0x100 && (Decoded(unit) < 0x80 ==> narrow)
    ensures ok && unit.Unicode? ==> (narrow <==> Decoded(unit) < 0x80)
    ensures ok ==> 0 <= Decoded(unit) && (!unit.Unicode? ==> ch == Decoded(unit))
  {
    ghost var from := c.i;
    ch, narrow, unit := c.s[c.i], true, Raw(c.s[c.i]);
    c.i := c.i + 1;
    if ch != BACKSLASH { return true, ch, true, unit; }
    if c.i >= |c.s| { return false, ch, true, unit; }
    var e := c.s[c.i];
    c.i := c.i + 1;
    if e == LOWER_U {
      var value := ParseHex4(c);
      if value < 0 { return false, ch, true, unit; }
      unit := Unicode(c.s[from + 2], c.s[from + 3], c.s[from + 4], c.s[from + 5]);
      return true, value % 0x100, value <= 0x7f, unit;
    }
    if !IsSimpleEscape(e) { return false, ch, true, unit; }
    return true, Unescape(e), true, Escaped(e);
  }

  /** What `parse_string_key` answers. */
  datatype KeyResult = BadName | OtherName | KeyFound

  /**
   * `parse_string_key`: moves over the bytes `parse_string` moves over, and tells whether the name
   * spells the key.
   */
  method ParseStringKey(c: Cursor, key: seq<byte>) returns (r: KeyResult)
    requires c.Inside() && Ascii(key)
    modifies c`i
    ensures c.Moved(r != BadName, ScanString(c.s, old(c.i)), c.depth)
    ensures r != BadName ==> (r == KeyFound <==> Spells(CharsAt(c.s, old(c.i) + 1), key))
  {
    hide CharsAt, Decoded, ScanChars, Ascii;
    var matching, decoded := true, 0;
    if c.i >= |c.s| { return BadName; }
    ghost var start := c.i + 1;
    c.i := c.i + 1;
    if c.s[c.i - 1] != QUOTE { return BadName; }
    ghost var done: seq<Char> := [];
    NoneLeft(c.s, start);
    while c.i < |c.s|
      invariant c.Inside() && start <= c.i
      invariant ScanChars(c.s, c.i) == ScanChars(c.s, start)
      invariant ScanChars(c.s, c.i).At? ==> CharsAt(c.s, start) == done + CharsAt(c.s, c.i)
      invariant decoded == if |done| < |key| then |done| else |key|
      invariant matching <==> |done| <= |key| && Spells(done, key[..|done|])
    {
      FirstOfScan(c.s, c.i);
      if c.s[c.i] == QUOTE {
        c.i := c.i + 1;
        assert done + [] == done;
        assert |done| == |key| ==> key[..|done|] == key;
        return if matching && decoded == |key| then KeyFound else OtherName;
      }
      if c.s[c.i] < 0x20 { return BadName; }
      ghost var from := c.i;
      var ok, ch, narrow, unit := NextUnit(c);
      if !ok { return BadName; }
      if !narrow { matching := false; }
      if decoded < |key| {
        if !matching || key[decoded] != ch { matching := false; }
        decoded := decoded + 1;
      } else {
        matching := false;
      }
      SpellsOneMore(done, unit, key, ch, narrow);
      assert ScanChars(c.s, c.i).At? ==> done + ([unit] + CharsAt(c.s, c.i)) == (done + [unit]) + CharsAt(c.s, c.i);
      done := done + [unit];
    }
    FirstOfScan(c.s, c.i);
    return BadName;
  }

  lemma NoneLeft(s: seq<byte>, i: nat)
    requires i <= |s|
    ensures ScanChars(s, i).At? ==> CharsAt(s, i) == [] + CharsAt(s, i)
  {
  }

  /** How a scan over a string body goes on, by the byte it is at. */
  lemma FirstOfScan(s: seq<byte>, i: nat)
    requires i <= |s|
    ensures i == |s| ==> ScanChars(s, i).Fail?
    ensures i < |s| && s[i] == QUOTE ==> ScanChars(s, i) == At(i + 1) && CharsAt(s, i) == []
    ensures i < |s| && s[i] < 0x20 ==> ScanChars(s, i).Fail?
  {
  }

  lemma SpellsOneMore(done: seq<Char>, unit: Char, key: seq<byte>, ch: byte, narrow: bool)
    requires Ascii(key) && ch == Decoded(unit) % 0x100 && 0 <= Decoded(unit)
    requires Decoded(unit) < 0x80 ==> narrow
    requires unit.Unicode? ==> (narrow <==> Decoded(unit) < 0x80)
    requires !unit.Unicode? ==> ch == Decoded(unit)
    ensures (|done| + 1 <= |key| && Spells(done + [unit], key[..|done| + 1]))
       <==> (|done| < |key| && Spells(done, key[..|done|]) && narrow && key[|done|] == ch)
  {
    if |done| < |key| {
      var more := done + [unit];
      assert more[..|done|] == done && key[..|done| + 1][..|done|] == key[..|done|];
      if Spells(more, key[..|done| + 1]) {
        assert Decoded(more[|done|]) == key[|done|];
        forall k | 0 <= k < |done|
          ensures Decoded(done[k]) == key[..|done|][k]
        {
          assert Decoded(more[k]) == key[..|done| + 1][k];
        }
      }
    }
  }

  // ---- The member list --------------------------------------------------------------------

  /** One member: its name between the quotation marks, and its value. */
  datatype Span = Span(nameStart: nat, nameEnd: nat, valueStart: nat, valueEnd: nat)

  /** The members that `ScanMembers` passes over. */
  function Spans(s: seq<byte>, i: nat): (spans: seq<Span>)
    requires i <= |s| && ScanMembers(s, i, 0).At?
    ensures spans != []
    decreases |s| - i
  {
    var name := ScanString(s, i).next;
    var value := SkipWs(s, SkipWs(s, name) + 1);
    var end := ScanValue(s, SkipWs(s, name) + 1, 0).next;
    var span := Span(i + 1, name - 1, value, end);
    var j := SkipWs(s, end);
    if s[j] == RBRACE then [span] else [span] + Spans(s, SkipWs(s, j + 1))
  }

  /** The outer object as the lookup functions read it: no depth is charged for its own brace. */
  datatype Outer = NotObject | Damaged | Listed(spans: seq<Span>, end: nat)

  function OuterObject(s: seq<byte>): (o: Outer)
    ensures o.Listed? ==> o.end <= |s|
  {
    var i := SkipWs(s, 0);
    if i >= |s| || s[i] != LBRACE then NotObject else
    var j := SkipWs(s, i + 1);
    if j < |s| && s[j] == RBRACE then Listed([], j + 1)
    else if ScanMembers(s, j, 0).Fail? then Damaged
    else Listed(Spans(s, j), ScanMembers(s, j, 0).next)
  }

  ghost predicate NameSpells(s: seq<byte>, span: Span, key: seq<byte>) {
    span.nameStart <= |s| && ScanChars(s, span.nameStart).At? && Spells(CharsAt(s, span.nameStart), key)
  }

  predicate IsBoolean(s: seq<byte>, span: Span, value: bool) {
    Occurs(s, span.valueStart, if value then TRUE else FALSE)
    && span.valueEnd == span.valueStart + (if value then 4 else 5)
  }

  /** What a loop at `i`, with the members `seen` behind it, still has to read. */
  ghost predicate Reading(s: seq<byte>, start: nat, seen: seq<Span>, i: nat) {
    && start <= |s| && i <= |s|
    && ScanMembers(s, i, 0) == ScanMembers(s, start, 0)
    && (ScanMembers(s, i, 0).At? ==> Spans(s, start) == seen + Spans(s, i))
  }

  /** One member, read whole; `next` is behind the white space that follows it. */
  datatype One = NoMember | One(span: Span, next: nat)

  /** Where the value of the member at `i` starts. */
  function ValueStart(s: seq<byte>, i: nat): (r: Scan)
    requires i <= |s|
    ensures r.At? ==> i < r.next <= |s| && ScanString(s, i).At?
  {
    var name := ScanString(s, i);
    if name.Fail? then Fail else
    var colon := SkipWs(s, name.next);
    if colon >= |s| || s[colon] != COLON then Fail else At(SkipWs(s, colon + 1))
  }

  function MemberAt(s: seq<byte>, i: nat): (o: One)
    requires i <= |s|
    ensures o.One? ==> i < o.next <= |s|
  {
    var v := ValueStart(s, i);
    if v.Fail? then NoMember else
    var value := ScanValue(s, v.next, 0);
    if value.Fail? then NoMember else
    One(Span(i + 1, ScanString(s, i).next - 1, v.next, value.next), SkipWs(s, value.next))
  }

  lemma NotAName(s: seq<byte>, i: nat)
    requires i <= |s|
    ensures i == |s| || s[i] != QUOTE ==> ScanString(s, i).Fail?
  {
  }

  /** The list of members, one member at a time. */
  lemma Unfold(s: seq<byte>, i: nat)
    requires i <= |s|
    ensures i == |s| || s[i] != QUOTE ==> MemberAt(s, i) == NoMember
    ensures MemberAt(s, i) == NoMember ==> ScanMembers(s, i, 0).Fail?
    ensures MemberAt(s, i).One? ==>
              var One(span, j) := MemberAt(s, i);
              if j < |s| && s[j] == RBRACE then ScanMembers(s, i, 0) == At(j + 1) && Spans(s, i) == [span]
              else if j < |s| && s[j] == COMMA then
                var k := SkipWs(s, j + 1);
                && ScanMembers(s, i, 0) == ScanMembers(s, k, 0)
                && (ScanMembers(s, k, 0).At? ==> Spans(s, i) == [span] + Spans(s, k))
              else ScanMembers(s, i, 0).Fail?
  {
    hide ScanValue, SkipWs, ScanString;
    NotAName(s, i);
    if ValueStart(s, i).At? {
      ValueAfterWs(s, SkipWs(s, ScanString(s, i).next) + 1, 0);
    }
    if MemberAt(s, i).One? {
      var j := MemberAt(s, i).next;
      if j < |s| && s[j] == COMMA {
        NotAName(s, SkipWs(s, j + 1));
      }
    }
  }

  /** One turn of a reading loop. */
  lemma ReadOne(s: seq<byte>, start: nat, seen: seq<Span>, i: nat)
    requires Reading(s, start, seen, i) && MemberAt(s, i).One?
    ensures var One(span, j) := MemberAt(s, i);
            if j < |s| && s[j] == RBRACE then
              ScanMembers(s, start, 0) == At(j + 1) && Spans(s, start) == seen + [span]
            else if j < |s| && s[j] == COMMA then Reading(s, start, seen + [span], SkipWs(s, j + 1))
            else ScanMembers(s, start, 0).Fail?
  {
    hide ScanMembers, Spans, MemberAt;
    Unfold(s, i);
    var One(span, j) := MemberAt(s, i);
    if j < |s| && s[j] == COMMA {
      var k := SkipWs(s, j + 1);
      if ScanMembers(s, k, 0).At? {
        assert seen + ([span] + Spans(s, k)) == (seen + [span]) + Spans(s, k);
      }
    }
  }

  lemma ReadingFails(s: seq<byte>, start: nat, seen: seq<Span>, i: nat)
    requires Reading(s, start, seen, i) && ScanMembers(s, i, 0).Fail?
    ensures ScanMembers(s, start, 0).Fail?
  {
  }

  lemma ReadingStart(s: seq<byte>, start: nat)
    requires start <= |s|
    ensures Reading(s, start, [], start)
  {
    if ScanMembers(s, start, 0).At? {
      assert Spans(s, start) == [] + Spans(s, start);
    }
  }

  /** Values start where the white space before them ends. */
  lemma ValueAfterWs(s: seq<byte>, i: nat, depth: nat)
    requires i <= |s|
    ensures ScanValue(s, i, depth) == ScanValue(s, SkipWs(s, i), depth)
  {
    SkipWsTwice(s, i);
  }

  // ---- json_object_members ----------------------------------------------------------------

  /** A member and the white space behind it. */
  method ReadMember(c: Cursor) returns (ok: bool, span: Span)
    requires c.Inside() && c.depth == 0
    modifies c
    ensures c.Inside()
    ensures var one := MemberAt(c.s, old(c.i));
            ok == one.One? && (ok ==> span == one.span && c.i == one.next && c.depth == 0)
  {
    hide ScanValue, ScanChars, SkipWs;
    span := Span(0, 0, 0, 0);
    if c.i >= |c.s| || c.s[c.i] != QUOTE { return false, span; }
    var nameStart := c.i + 1;
    ok := c.ParseString();
    if !ok { return false, span; }
    var nameEnd := c.i - 1;
    c.SkipBlanks();
    if c.i >= |c.s| || c.s[c.i] != COLON { return false, span; }
    c.i := c.i + 1;
    c.SkipBlanks();
    var valueStart := c.i;
    ok := c.ParseValue();
    if !ok { return false, span; }
    span := Span(nameStart, nameEnd, valueStart, c.i);
    c.SkipBlanks();
  }

  lemma OuterStarts(s: seq<byte>)
    ensures var i := SkipWs(s, 0);
            if i >= |s| || s[i] != LBRACE then OuterObject(s) == NotObject
            else
              var j := SkipWs(s, i + 1);
              if j < |s| && s[j] == RBRACE then OuterObject(s) == Listed([], j + 1)
              else if ScanMembers(s, j, 0).Fail? then OuterObject(s) == Damaged
              else OuterObject(s) == Listed(Spans(s, j), ScanMembers(s, j, 0).next)
  {
    hide SkipWs, ScanMembers, Spans;
  }

  /** The members that fit into an array of the caller. */
  function Kept(seen: seq<Span>, capacity: nat): seq<Span> {
    if |seen| < capacity then seen else seen[..capacity]
  }

  lemma KeepsNone(capacity: nat)
    ensures Kept([], capacity) == []
  {
  }

  lemma KeepsOne(seen: seq<Span>, span: Span, capacity: nat)
    ensures var more := seen + [span];
            && Kept(more, capacity) == (if |seen| < capacity then Kept(seen, capacity) + [span]
                                        else Kept(seen, capacity))
            && (|more| <= capacity ==> Kept(more, capacity) == more)
  {
  }

  /**
   * Lists the members of a text that is one object and white space; fails when the text is
   * anything else, or has more members than `capacity`.
   */
  method ObjectMembers(s: seq<byte>, capacity: nat) returns (ok: bool, members: seq<Span>)
    ensures var o := OuterObject(s);
            && ok == (o.Listed? && SkipWs(s, o.end) == |s| && |o.spans| <= capacity)
            && (ok ==> members == o.spans)
  {
    hide SkipWs, ScanMembers, Spans, Reading, MemberAt, Kept;
    KeepsNone(capacity);
    members := [];
    var c := new Cursor(s, 0);
    c.SkipBlanks();
    if c.i >= |s| || s[c.i] != LBRACE { return false, []; }
    c.i := c.i + 1;
    c.SkipBlanks();
    if c.i < |s| && s[c.i] == RBRACE {
      c.i := c.i + 1;
      c.SkipBlanks();
      return c.i == |s|, [];
    }
    ghost var start, seen := c.i, [];
    ReadingStart(s, start);
    var used := 0;
    while true
      invariant c.s == s && c.Inside() && fresh(c) && c.depth == 0 && used == |seen|
      invariant start <= c.i && Reading(s, start, seen, c.i)
      invariant members == Kept(seen, capacity)
      decreases |s| - c.i
    {
      ghost var i := c.i;
      Unfold(s, i);
      if ScanMembers(s, i, 0).Fail? { ReadingFails(s, start, seen, i); }
      var span;
      ok, span := ReadMember(c);
      if !ok { return false, []; }
      if used < capacity { members := members + [span]; }
      KeepsOne(seen, span, capacity);
      used := used + 1;
      ReadOne(s, start, seen, i);
      seen := seen + [span];
      if c.i < |s| && s[c.i] == RBRACE {
        c.i := c.i + 1;
        c.SkipBlanks();
        return c.i == |s| && used <= capacity, members;
      }
      if c.i >= |s| || s[c.i] != COMMA { return false, []; }
      c.i := c.i + 1;
      c.SkipBlanks();
      if c.i < |s| && s[c.i] == RBRACE {
        Unfold(s, c.i);
        ReadingFails(s, start, seen, c.i);
        return false, [];
      }
    }
  }

  // ---- json_duplicate_key -----------------------------------------------------------------

  /** A name, compared with the key, and the colon behind it. */
  method ReadKey(c: Cursor, key: seq<byte>) returns (r: KeyResult)
    requires c.Inside() && c.depth == 0 && Ascii(key)
    modifies c
    ensures c.Inside() && c.depth == 0
    ensures var v := ValueStart(c.s, old(c.i));
            && (r != BadName <==> v.At?)
            && (r != BadName ==> c.i == v.next && (r == KeyFound <==> Spells(CharsAt(c.s, old(c.i) + 1), key)))
  {
    hide ScanChars, SkipWs, Spells, CharsAt;
    if c.i >= |c.s| || c.s[c.i] != QUOTE { return BadName; }
    r := ParseStringKey(c, key);
    if r == BadName { return BadName; }
    c.SkipBlanks();
    if c.i >= |c.s| || c.s[c.i] != COLON { return BadName; }
    c.i := c.i + 1;
    c.SkipBlanks();
  }

  ghost predicate TwoSpell(s: seq<byte>, spans: seq<Span>, key: seq<byte>) {
    exists p, q :: 0 <= p < q < |spans| && NameSpells(s, spans[p], key) && NameSpells(s, spans[q], key)
  }

  ghost predicate NoneSpells(s: seq<byte>, spans: seq<Span>, key: seq<byte>) {
    forall k :: 0 <= k < |spans| ==> !NameSpells(s, spans[k], key)
  }

  /** Member `k` spells the key and no other one does. */
  ghost predicate OnlySpells(s: seq<byte>, spans: seq<Span>, key: seq<byte>, k: nat) {
    && k < |spans| && NameSpells(s, spans[k], key)
    && forall q :: 0 <= q < |spans| && NameSpells(s, spans[q], key) ==> q == k
  }

  /** How one more member changes the count. */
  lemma SpellsMore(s: seq<byte>, seen: seq<Span>, span: Span, key: seq<byte>)
    ensures var more, hit := seen + [span], NameSpells(s, span, key);
            && (NoneSpells(s, more, key) <==> NoneSpells(s, seen, key) && !hit)
            && (NoneSpells(s, seen, key) && hit ==> OnlySpells(s, more, key, |seen|))
            && (forall k: nat :: OnlySpells(s, seen, key, k) && !hit ==> OnlySpells(s, more, key, k))
            && (forall k: nat :: OnlySpells(s, seen, key, k) && hit ==> TwoSpell(s, more, key))
            && (TwoSpell(s, seen, key) ==> TwoSpell(s, more, key))
  {
    hide NameSpells;
    var more := seen + [span];
    assert forall k :: 0 <= k < |seen| ==> more[k] == seen[k];
    assert more[|seen|] == span;
    if TwoSpell(s, seen, key) {
      var p, q :| 0 <= p < q < |seen| && NameSpells(s, seen[p], key) && NameSpells(s, seen[q], key);
      assert NameSpells(s, more[p], key) && NameSpells(s, more[q], key);
    }
    if NoneSpells(s, more, key) {
      forall k | 0 <= k < |seen| ensures !NameSpells(s, seen[k], key) { assert !NameSpells(s, more[k], key); }
    }
    forall k: nat | OnlySpells(s, seen, key, k) && NameSpells(s, span, key) ensures TwoSpell(s, more, key) {
      assert NameSpells(s, more[k], key) && NameSpells(s, more[|seen|], key);
    }
  }

  /** None, one or two members spelling a key exclude each other. */
  lemma SpellingCounts(s: seq<byte>, spans: seq<Span>, key: seq<byte>)
    ensures TwoSpell(s, spans, key) ==> !NoneSpells(s, spans, key) && forall k: nat :: !OnlySpells(s, spans, key, k)
    ensures NoneSpells(s, spans, key) ==> forall k: nat :: !OnlySpells(s, spans, key, k)
  {
    hide NameSpells;
  }

  /** A member, whether its name is the key, and the white space behind it. */
  method ReadNamedMember(c: Cursor, key: seq<byte>) returns (ok: bool, hit: bool)
    requires c.Inside() && c.depth == 0 && Ascii(key)
    modifies c
    ensures c.Inside()
    ensures var s, one := c.s, MemberAt(c.s, old(c.i));
            && ok == one.One?
            && (ok ==> c.i == one.next && c.depth == 0 && hit == NameSpells(s, one.span, key))
  {
    hide ScanValue, SkipWs, NameSpells, Spells, CharsAt, Ascii, MemberAt, ValueStart, ScanString, ScanChars;
    ghost var s, i := c.s, c.i;
    MadeMember(s, i);
    if MemberAt(s, i).One? { SpanSpells(s, i, MemberAt(s, i).span, key); }
    var name := ReadKey(c, key);
    if name == BadName { return false, false; }
    hit := name == KeyFound;
    ok := c.ParseValue();
    if !ok { return false, hit; }
    c.SkipBlanks();
  }

  /** True exactly when two members of the outer object spell the key. */
  method DuplicateKey(s: seq<byte>, key: seq<byte>) returns (twice: bool)
    requires Ascii(key)
    ensures var o := OuterObject(s); twice <==> o.Listed? && TwoSpell(s, o.spans, key)
  {
    hide SkipWs, ScanMembers, Spans, Reading, NameSpells, Ascii, TwoSpell, NoneSpells, OnlySpells, MemberAt;
    var c := new Cursor(s, 0);
    c.SkipBlanks();
    SpellingEmpty(s, key);
    if c.i >= |s| || s[c.i] != LBRACE { return false; }
    c.i := c.i + 1;
    c.SkipBlanks();
    if c.i < |s| && s[c.i] == RBRACE { return false; }
    ghost var start: nat, seen: seq<Span>, last: nat := c.i, [], 0;
    ReadingStart(s, start);
    var count: nat := 0;
    while true
      invariant c.s == s && c.Inside() && fresh(c) && c.depth == 0
      invariant start <= c.i && Reading(s, start, seen, c.i)
      invariant count == 0 ==> NoneSpells(s, seen, key)
      invariant count == 1 ==> OnlySpells(s, seen, key, last)
      invariant count > 1 ==> TwoSpell(s, seen, key)
      decreases |s| - c.i
    {
      ghost var i := c.i;
      Unfold(s, i);
      if ScanMembers(s, i, 0).Fail? { ReadingFails(s, start, seen, i); }
      var ok, hit := ReadNamedMember(c, key);
      if !ok { return false; }
      ghost var span := MemberAt(s, i).span;
      ReadOne(s, start, seen, i);
      SpellsMore(s, seen, span, key);
      if hit {
        count := count + 1;
        last := |seen|;
      }
      seen := seen + [span];
      SpellingCounts(s, seen, key);
      if c.i < |s| && s[c.i] == RBRACE { return count > 1; }
      if c.i >= |s| || s[c.i] != COMMA { return false; }
      c.i := c.i + 1;
      c.SkipBlanks();
    }
  }

  lemma SpellingEmpty(s: seq<byte>, key: seq<byte>)
    ensures NoneSpells(s, [], key) && !TwoSpell(s, [], key)
  {
  }

  lemma SpanSpells(s: seq<byte>, i: nat, span: Span, key: seq<byte>)
    requires i <= |s| && ScanString(s, i).At? && span.nameStart == i + 1
    ensures NameSpells(s, span, key) <==> Spells(CharsAt(s, i + 1), key)
  {
  }

  // ---- json_get_top_level_bool ------------------------------------------------------------

  /** The value text is the literal `true` or `false`. */
  lemma BooleanValue(s: seq<byte>, v: nat, value: bool)
    requires Occurs(s, v, if value then TRUE else FALSE)
    ensures ScanValue(s, v, 0) == At(v + (if value then 4 else 5))
    ensures Occurs(s, v, TRUE) != Occurs(s, v, FALSE)
  {
    var text := if value then TRUE else FALSE;
    OccursAt(s, v, text, 0);
    if Occurs(s, v, TRUE) && Occurs(s, v, FALSE) {
      OccursAt(s, v, TRUE, 0);
      OccursAt(s, v, FALSE, 0);
    }
  }

  datatype BooleanToken = TrueLiteral | FalseLiteral | LongerToken | NeitherLiteral

  /** A boolean literal with nothing but white space or structure behind it. */
  method ReadBoolean(c: Cursor) returns (b: BooleanToken)
    requires c.Inside()
    modifies c`i
    ensures c.Inside()
    ensures var s, v := c.s, old(c.i);
            && (b == NeitherLiteral <==> !Occurs(s, v, TRUE) && !Occurs(s, v, FALSE))
            && (b == TrueLiteral ==> Occurs(s, v, TRUE) && c.i == v + 4)
            && (b == FalseLiteral ==> Occurs(s, v, FALSE) && c.i == v + 5)
            && (b == LongerToken ==> c.i < |s| && !IsWs(s[c.i]) && s[c.i] != COMMA && s[c.i] != RBRACE
                                     && ((c.i == v + 4 && Occurs(s, v, TRUE)) || (c.i == v + 5 && Occurs(s, v, FALSE))))
  {
    var ok := c.ParseLiteral(TRUE);
    b := TrueLiteral;
    if !ok {
      ok := c.ParseLiteral(FALSE);
      if !ok { return NeitherLiteral; }
      b := FalseLiteral;
    }
    if c.i < |c.s| && !IsWs(c.s[c.i]) && c.s[c.i] != COMMA && c.s[c.i] != RBRACE { return LongerToken; }
  }

  /** A list of members starts with the member that `MemberAt` reads. */
  lemma FirstSpan(s: seq<byte>, start: nat, seen: seq<Span>, i: nat)
    requires Reading(s, start, seen, i) && ScanMembers(s, start, 0).At?
    ensures MemberAt(s, i).One? && |Spans(s, start)| > |seen| && Spans(s, start)[|seen|] == MemberAt(s, i).span
    ensures forall k :: 0 <= k < |seen| ==> Spans(s, start)[k] == seen[k]
  {
    hide ScanMembers, Spans, MemberAt;
    Unfold(s, i);
  }

  ghost predicate BoolAnswer(s: seq<byte>, spans: seq<Span>, key: seq<byte>, r: int, value: bool) {
    && -1 <= r <= 1
    && (r == 1 <==> exists k: nat :: OnlySpells(s, spans, key, k) && IsBoolean(s, spans[k], value))
    && (r == 0 <==> NoneSpells(s, spans, key))
    && (r == -1 ==> forall k: nat, b: bool :: OnlySpells(s, spans, key, k) ==> !IsBoolean(s, spans[k], b))
  }

  /** The member at `i` is why the search gives up: damaged, not a boolean, or named a second time. */
  ghost predicate Rejected(s: seq<byte>, i: nat, key: seq<byte>, found: bool) {
    && i <= |s|
    && (MemberAt(s, i).One? ==>
          var One(span, j) := MemberAt(s, i);
          || (NameSpells(s, span, key) && (found || forall b: bool :: !IsBoolean(s, span, b)))
          || j == |s| || (s[j] != COMMA && s[j] != RBRACE))
  }

  /** A member of the search and the white space behind it: only the first one with the name may have it. */
  method ReadBoolMember(c: Cursor, key: seq<byte>, found: bool) returns (ok: bool, hit: bool, value: bool)
    requires c.Inside() && c.depth == 0 && Ascii(key)
    modifies c
    ensures c.Inside()
    ensures !ok ==> Rejected(c.s, old(c.i), key, found)
    ensures ok ==>
              var s, one := c.s, MemberAt(c.s, old(c.i));
              && one.One? && c.i == one.next && c.depth == 0 && hit == NameSpells(s, one.span, key)
              && (hit ==> !found && IsBoolean(s, one.span, value))
  {
    hide ScanValue, SkipWs, NameSpells, Spells, CharsAt, Ascii, Occurs, IsBoolean, MemberAt, ValueStart, ScanString,
         ScanChars;
    ghost var s, i := c.s, c.i;
    NotAName(s, i);
    MadeMember(s, i);
    value := false;
    var name := ReadKey(c, key);
    if name == BadName { return false, false, false; }
    ghost var v := c.i;
    hit := name == KeyFound;
    if MemberAt(s, i).One? { SpanSpells(s, i, MemberAt(s, i).span, key); }
    if hit {
      if found { return false, hit, false; }
      var b := ReadBoolean(c);
      if b == NeitherLiteral {
        NotBoolean(s, i);
        return false, hit, false;
      }
      BooleanMember(s, i, v, c.i == v + 4);
      if b == LongerToken {
        NoWs(s, c.i);
        return false, hit, false;
      }
      value := b == TrueLiteral;
    } else {
      ok := c.ParseValue();
      if !ok { return false, hit, false; }
    }
    c.SkipBlanks();
    ok := true;
  }

  /** A rejected member leaves no answer but -1. */
  lemma RejectedAnswer(s: seq<byte>, start: nat, seen: seq<Span>, i: nat, key: seq<byte>, last: nat, found: bool)
    requires Reading(s, start, seen, i) && Rejected(s, i, key, found) && ScanMembers(s, start, 0).At?
    requires found ==> OnlySpells(s, seen, key, last)
    ensures forall value :: BoolAnswer(s, Spans(s, start), key, -1, value)
  {
    hide ScanMembers, Spans, MemberAt, NameSpells, IsBoolean;
    var spans := Spans(s, start);
    FirstSpan(s, start, seen, i);
    ReadOne(s, start, seen, i);
    assert NameSpells(s, spans[|seen|], key);
    if found {
      assert spans[last] == seen[last];
      assert TwoSpell(s, spans, key);
      SpellingCounts(s, spans, key);
    }
  }

  /**
   * 1 with the value for exactly one member that spells the key and is a boolean, 0 for no such
   * member, -1 for anything else.
   */
  method TopLevelBool(s: seq<byte>, key: seq<byte>) returns (r: int, value: bool)
    requires Ascii(key)
    ensures match OuterObject(s)
            case NotObject => r == 0
            case Damaged => r == -1
            case Listed(spans, _) => BoolAnswer(s, spans, key, r, value)
  {
    hide SkipWs, ScanMembers, Spans, Reading, NameSpells, Ascii, NoneSpells, OnlySpells, IsBoolean, BoolAnswer,
         MemberAt, Rejected;
    r, value := 0, false;
    var c := new Cursor(s, 0);
    c.SkipBlanks();
    SpellingEmpty(s, key);
    FoundOrNone(s, [], key, 0, false, false);
    if c.i >= |s| || s[c.i] != LBRACE { return 0, false; }
    c.i := c.i + 1;
    c.SkipBlanks();
    if c.i < |s| && s[c.i] == RBRACE { return 0, false; }
    ghost var start: nat, seen: seq<Span>, last: nat := c.i, [], 0;
    ReadingStart(s, start);
    var found := false;
    while true
      invariant c.s == s && c.Inside() && fresh(c) && c.depth == 0
      invariant start <= c.i && Reading(s, start, seen, c.i)
      invariant !found ==> NoneSpells(s, seen, key)
      invariant found ==> OnlySpells(s, seen, key, last) && last < |seen| && IsBoolean(s, seen[last], value)
      decreases |s| - c.i
    {
      ghost var i := c.i;
      var ok, hit, b := ReadBoolMember(c, key, found);
      if !ok {
        if ScanMembers(s, start, 0).At? { RejectedAnswer(s, start, seen, i, key, last, found); }
        return -1, value;
      }
      ghost var span := MemberAt(s, i).span;
      ReadOne(s, start, seen, i);
      SpellsMore(s, seen, span, key);
      if hit {
        found, value := true, b;
        last := |seen|;
      }
      seen := seen + [span];
      if c.i < |s| && s[c.i] == RBRACE {
        FoundOrNone(s, seen, key, last, found, value);
        return if found then 1 else 0, value;
      }
      if c.i >= |s| || s[c.i] != COMMA { return -1, value; }
      c.i := c.i + 1;
      c.SkipBlanks();
    }
  }

  lemma NoWs(s: seq<byte>, i: nat)
    requires i < |s| && !IsWs(s[i])
    ensures SkipWs(s, i) == i
  {
  }

  lemma FoundOrNone(s: seq<byte>, spans: seq<Span>, key: seq<byte>, k: nat, found: bool, value: bool)
    requires !found ==> NoneSpells(s, spans, key)
    requires found ==> OnlySpells(s, spans, key, k) && IsBoolean(s, spans[k], value)
    ensures BoolAnswer(s, spans, key, if found then 1 else 0, value)
  {
    hide NameSpells;
    SpellingCounts(s, spans, key);
  }

  lemma MadeMember(s: seq<byte>, i: nat)
    requires i <= |s|
    ensures ValueStart(s, i).Fail? ==> MemberAt(s, i) == NoMember
    ensures ValueStart(s, i).At? ==>
              var value := ScanValue(s, ValueStart(s, i).next, 0);
              && MemberAt(s, i).One? == value.At?
              && (value.At? ==> MemberAt(s, i).span.nameStart == i + 1 && MemberAt(s, i).next == SkipWs(s, value.next))
  {
  }

  lemma BooleanMember(s: seq<byte>, i: nat, v: nat, value: bool)
    requires i <= |s| && ValueStart(s, i) == At(v) && Occurs(s, v, if value then TRUE else FALSE)
    ensures var end := v + (if value then 4 else 5);
            end <= |s| && MemberAt(s, i).One? && MemberAt(s, i).next == SkipWs(s, end)
    ensures IsBoolean(s, MemberAt(s, i).span, value) && MemberAt(s, i).span.nameStart == i + 1
  {
    hide ScanValue, ScanString, SkipWs;
    BooleanValue(s, v, value);
  }

  lemma NotBoolean(s: seq<byte>, i: nat)
    requires i <= |s| && ValueStart(s, i).At?
    requires !Occurs(s, ValueStart(s, i).next, TRUE) && !Occurs(s, ValueStart(s, i).next, FALSE)
    ensures MemberAt(s, i).One? ==> forall b: bool :: !IsBoolean(s, MemberAt(s, i).span, b)
  {
    hide ScanValue, ScanString, SkipWs, Occurs, ValueStart;
  }

  // ---- The list and the syntax tree -------------------------------------------------------

  function Names(ms: Members): seq<seq<Char>> {
    if ms.NoMembers? then [] else [ms.name] + Names(ms.more)
  }

  function Values(ms: Members): seq<Value> {
    if ms.NoMembers? then [] else [ms.value] + Values(ms.more)
  }

  /** Span `k` holds name and value `k`, and the spans stand in order without touching. */
  ghost predicate Spread(s: seq<byte>, i: nat, spans: seq<Span>, names: seq<seq<Char>>, values: seq<Value>) {
    && |spans| == |names| == |values|
    && (forall k :: 0 <= k < |spans| ==> Holds(s, spans[k], names[k], values[k]))
    && (forall k :: 0 <= k < |spans| ==> i < spans[k].nameStart)
    && (forall k, m :: 0 <= k < m < |spans| ==> spans[k].valueEnd < spans[m].nameStart)
  }

  ghost predicate Holds(s: seq<byte>, span: Span, name: seq<Char>, value: Value) {
    && span.nameStart <= span.nameEnd < span.valueStart < span.valueEnd <= |s|
    && s[span.nameStart..span.nameEnd] + [QUOTE] == RenderChars(name)
    && ScanChars(s, span.nameStart).At? && CharsAt(s, span.nameStart) == name
    && s[span.valueStart..span.valueEnd] == Render(value)
  }

  /** The spans of members that stand in the text are those members, in order. */
  lemma {:induction false} SpansOfTree(s: seq<byte>, i: nat, ms: Members)
    requires ms.Member? && MembersOk(ms) && MembersNesting(ms) <= MAX_DEPTH && Occurs(s, i, RenderMembers(ms))
    ensures var j := i + |ms.before|;
            && j == SkipWs(s, i) && j <= |s| && ScanMembers(s, j, 0) == At(i + |RenderMembers(ms)|)
            && |s| >= i + |RenderMembers(ms)|
            && Spread(s, j, Spans(s, j), Names(ms), Values(ms))
    decreases ms
  {
    hide Occurs, CharsOk, Render, RenderMembers, RenderString, ScanMembers, ScanValue, ScanString, SkipWs, AllWs,
         MemberAt, Spans, CharsAt, Holds;
    MembersComplete(s, i, ms, 0);
    var j := i + |ms.before|;
    var a := j + |RenderString(ms.name)|;
    var colon := a + |ms.gap|;
    var v := colon + 1 + |ms.pad|;
    var b := v + |Render(ms.value)|;
    var c := b + |ms.after|;
    OccursMember(s, i, ms, j, a, colon, b, c);
    FirstMember(s, ms, j, a, colon, v, b, c);
    Unfold(s, j);
    if ms.more.Member? {
      SpansOfTree(s, c + 1, ms.more);
    }
  }

  /** What `MemberAt` reads where a member stands. */
  lemma FirstMember(s: seq<byte>, ms: Members, j: nat, a: nat, colon: nat, v: nat, b: nat, c: nat)
    requires ms.Member? && MembersOk(ms) && MembersNesting(ms) <= MAX_DEPTH
    requires a == j + |RenderString(ms.name)| && colon == a + |ms.gap| && v == colon + 1 + |ms.pad|
    requires b == v + |Render(ms.value)| && c == b + |ms.after|
    requires Occurs(s, j, RenderString(ms.name)) && Occurs(s, a, ms.gap) && colon < |s| && s[colon] == COLON
    requires Occurs(s, colon + 1, ms.pad) && Occurs(s, v, Render(ms.value)) && Occurs(s, b, ms.after)
    requires c < |s| && (s[c] == RBRACE || s[c] == COMMA)
    ensures j <= |s| && MemberAt(s, j) == One(Span(j + 1, a - 1, v, b), c)
    ensures Holds(s, Span(j + 1, a - 1, v, b), ms.name, ms.value)
  {
    hide Occurs, CharsOk, Render, RenderString, RenderChars, ScanValue, ScanString, ScanChars, SkipWs, AllWs, CharsAt,
         Holds;
    FirstByte(ms.value);
    OccursAt(s, v, Render(ms.value), 0);
    StringComplete(s, j, ms.name);
    SkipWsComplete(s, a, ms.gap);
    SkipWsComplete(s, colon + 1, ms.pad);
    SkipWsComplete(s, b, ms.after);
    DelimitedByWs(s, b, ms.after);
    ValueComplete(s, colon + 1, ms.pad, ms.value, 0);
    ValueAfterWs(s, colon + 1, 0);
    MemberText(s, ms, j, a, v, b);
  }

  lemma MemberText(s: seq<byte>, ms: Members, j: nat, a: nat, v: nat, b: nat)
    requires ms.Member? && CharsOk(ms.name) && ValueOk(ms.value) && a == j + |RenderString(ms.name)| < v
    requires b == v + |Render(ms.value)|
    requires Occurs(s, j, RenderString(ms.name)) && Occurs(s, v, Render(ms.value))
    ensures Holds(s, Span(j + 1, a - 1, v, b), ms.name, ms.value)
  {
    hide Render, RenderString;
    NameText(s, j, ms.name);
    FirstByte(ms.value);
  }

  lemma NameText(s: seq<byte>, j: nat, name: seq<Char>)
    requires CharsOk(name) && Occurs(s, j, RenderString(name))
    ensures var a := j + |RenderString(name)|;
            && j + 2 <= a <= |s| && ScanChars(s, j + 1).At? && CharsAt(s, j + 1) == name
            && s[j + 1..a - 1] + [QUOTE] == RenderChars(name)
  {
    hide ScanChars, CharsAt, CharsOk;
    OccursConcat(s, j, [QUOTE], RenderChars(name));
    CharsAtRendered(s, j + 1, name);
    LastIsQuote(name);
    var a := j + |RenderString(name)|;
    OccursAt(s, j + 1, RenderChars(name), |RenderChars(name)| - 1);
    assert s[j + 1..a] == s[j + 1..a - 1] + [s[a - 1]];
  }

  lemma {:induction false} LastIsQuote(cs: seq<Char>)
    ensures RenderChars(cs) != [] && RenderChars(cs)[|RenderChars(cs)| - 1] == QUOTE
  {
    if cs != [] {
      LastIsQuote(cs[1..]);
    }
  }

  /**
   * Every document of the grammar, also one level deeper than `json_valid_object` admits: the
   * lookup functions read exactly the members of its tree.
   */
  lemma DocumentMembers(s: seq<byte>, lead: seq<byte>, v: Value, trail: seq<byte>)
    requires IsDocument(s, lead, v, trail) && Nesting(v) <= MAX_DEPTH + 1
    ensures var o := OuterObject(s);
            && o.Listed? && o.end == |lead| + |Render(v)| && SkipWs(s, o.end) == |s|
            && Spread(s, |lead|, o.spans, Names(v.members), Values(v.members))
  {
    hide RenderMembers, ScanMembers, Spans, Occurs, Spread, OuterObject;
    Opening(s, lead, v, trail);
    OccursOne(s, |lead|, LBRACE);
    OuterStarts(s);
    if v.members.NoMembers? {
      EmptyList(s, |lead|, v);
    } else {
      FullList(s, |lead|, v);
    }
  }

  lemma FullList(s: seq<byte>, open: nat, v: Value)
    requires v.Object? && v.members.Member? && ValueOk(v) && Nesting(v) <= MAX_DEPTH + 1 && Occurs(s, open, Render(v))
    ensures var j := SkipWs(s, open + 1);
            && j < |s| && s[j] == QUOTE && ScanMembers(s, j, 0) == At(open + |Render(v)|)
            && open + |Render(v)| <= |s|
            && Spread(s, open, Spans(s, j), Names(v.members), Values(v.members))
  {
    hide Occurs, ScanMembers, Spans, RenderMembers, Holds;
    OccursConcat(s, open, [LBRACE], RenderMembers(v.members));
    SpansOfTree(s, open + 1, v.members);
    NamedFirst(s, SkipWs(s, open + 1));
  }

  lemma NamedFirst(s: seq<byte>, i: nat)
    requires i <= |s| && ScanMembers(s, i, 0).At?
    ensures i < |s| && s[i] == QUOTE
  {
  }

  lemma EmptyList(s: seq<byte>, open: nat, v: Value)
    requires v.Object? && v.members.NoMembers? && ValueOk(v) && Occurs(s, open, Render(v))
    ensures var j := SkipWs(s, open + 1); j + 1 == open + |Render(v)| <= |s| && s[j] == RBRACE
    ensures Spread(s, open, [], Names(v.members), Values(v.members))
  {
    hide Occurs;
    OccursConcat(s, open, [LBRACE], v.blank + [RBRACE]);
    OccursConcat(s, open + 1, v.blank, [RBRACE]);
    OccursOne(s, open + 1 + |v.blank|, RBRACE);
    SkipWsComplete(s, open + 1, v.blank);
  }

  /** A text that `json_object_members` can list. */
  ghost predicate ListableDocument(s: seq<byte>) {
    exists lead, v, trail :: IsDocument(s, lead, v, trail) && Nesting(v) <= MAX_DEPTH + 1
  }

  /** One more level of nesting than `json_valid_object`, and nothing else, is the difference. */
  lemma ListsIffGrammar(s: seq<byte>)
    ensures OuterObject(s).Listed? && SkipWs(s, OuterObject(s).end) == |s| <==> ListableDocument(s)
    ensures ValidDocument(s) ==> ListableDocument(s)
  {
    hide Spans;
    if OuterObject(s).Listed? && SkipWs(s, OuterObject(s).end) == |s| {
      var lead, v, trail := ListedTree(s);
    }
    if ListableDocument(s) {
      var lead, v, trail :| IsDocument(s, lead, v, trail) && Nesting(v) <= MAX_DEPTH + 1;
      DocumentMembers(s, lead, v, trail);
    }
    if ValidDocument(s) {
      var lead, v, trail :| IsDocument(s, lead, v, trail) && Nesting(v) <= MAX_DEPTH;
      assert Nesting(v) <= MAX_DEPTH + 1;
    }
  }

  lemma ListedTree(s: seq<byte>) returns (lead: seq<byte>, v: Value, trail: seq<byte>)
    requires OuterObject(s).Listed? && SkipWs(s, OuterObject(s).end) == |s|
    ensures IsDocument(s, lead, v, trail) && Nesting(v) <= MAX_DEPTH + 1
  {
    hide Spans, ScanMembers, SkipWs, RenderMembers, Occurs, IsWs, MembersOk;
    lead := Blank(s, 0);
    var open := |lead|;
    var blank := Blank(s, open + 1);
    var j := open + 1 + |blank|;
    OccursOne(s, open, LBRACE);
    if j < |s| && s[j] == RBRACE {
      v := Object(blank, NoMembers);
      NoMembersOk();
      OccursOne(s, j, RBRACE);
      OccursConcat(s, open + 1, blank, [RBRACE]);
      OccursConcat(s, open, [LBRACE], blank + [RBRACE]);
    } else {
      var members := MembersSound(s, open + 1, blank, 0);
      v := Object([], members);
      OccursConcat(s, open, [LBRACE], RenderMembers(members));
    }
    trail := Blank(s, OuterObject(s).end);
    Joined(s, lead, Render(v), trail);
  }

  lemma NoMembersOk()
    ensures MembersOk(NoMembers)
  {
  }

  lemma Joined(s: seq<byte>, a: seq<byte>, b: seq<byte>, c: seq<byte>)
    requires Occurs(s, 0, a) && Occurs(s, |a|, b) && Occurs(s, |a| + |b|, c) && |s| == |a| + |b| + |c|
    ensures s == a + (b + c)
  {
    assert s == s[..|a|] + (s[|a|..|a| + |b|] + s[|a| + |b|..]);
  }
}
