/**
 * The hand-written bracket counters of `backend_linux.c` and `news.c`: one specification for the
 * three loops, and the proof that they stop exactly where the recogniser's containers end.
 */
module JsonScanners {
  import opened Bytes
  import opened JsonGrammar
  import opened JsonRecogniser
  import opened JsonCorrect

  /** Which brackets a counter counts. */
  datatype Kind = Braces | Brackets | Both

  predicate Opens(kind: Kind, b: byte) {
    (b == LBRACE && kind != Brackets) || (b == LBRACKET && kind != Braces)
  }

  predicate Closes(kind: Kind, b: byte) {
    (b == RBRACE && kind != Brackets) || (b == RBRACKET && kind != Braces)
  }

  /** Counting state between two bytes. */
  datatype State = State(depth: nat, inString: bool, escaped: bool)

  const OUTSIDE := State(0, false, false)

  /** Just past the byte that brings the count back to zero. */
  function CloseAt(kind: Kind, s: seq<byte>, i: nat, st: State): (r: Scan)
    requires i <= |s|
    ensures r.At? ==> i < r.next <= |s|
    decreases |s| - i
  {
    if i >= |s| then Fail
    else if st.inString then
      CloseAt(kind, s, i + 1,
              if st.escaped then st.(escaped := false)
              else if s[i] == BACKSLASH then st.(escaped := true)
              else if s[i] == QUOTE then st.(inString := false)
              else st)
    else if s[i] == QUOTE then CloseAt(kind, s, i + 1, st.(inString := true))
    else if Opens(kind, s[i]) then CloseAt(kind, s, i + 1, st.(depth := st.depth + 1))
    else if Closes(kind, s[i]) then
      if st.depth == 0 then Fail
      else if st.depth == 1 then At(i + 1)
      else CloseAt(kind, s, i + 1, st.(depth := st.depth - 1))
    else CloseAt(kind, s, i + 1, st)
  }

  // ---- The loops --------------------------------------------------------------------------

  /**
   * `json_container`: copies the container at the start of `start` (a C string without its
   * terminator) into `out`, with a terminator, when it is complete and fits.
   */
  method Container(start: seq<byte>, kind: Kind, out: array<byte>) returns (ok: bool)
    requires kind != Both
    modifies out
    ensures var r := if start != [] && Opens(kind, start[0]) then CloseAt(kind, start, 0, OUTSIDE) else Fail;
            && ok == (r.At? && r.next < out.Length)
            && (ok ==> out[..r.next] == start[..r.next] && out[r.next] == 0
                       && forall k :: r.next < k < out.Length ==> out[k] == old(out[k]))
    ensures !ok ==> out[..] == old(out[..])
  {
    if start == [] || !Opens(kind, start[0]) || out.Length == 0 { return false; }
    var st := OUTSIDE;
    var i := 0;
    while i < |start|
      invariant i <= |start|
      invariant i == 0 <==> st == OUTSIDE
      invariant i > 0 ==> st.depth > 0
      invariant CloseAt(kind, start, i, st) == CloseAt(kind, start, 0, OUTSIDE)
    {
      var c := start[i];
      if st.inString {
        if st.escaped { st := st.(escaped := false); }
        else if c == BACKSLASH { st := st.(escaped := true); }
        else if c == QUOTE { st := st.(inString := false); }
      } else if c == QUOTE {
        st := st.(inString := true);
      } else if Opens(kind, c) {
        st := st.(depth := st.depth + 1);
      } else if Closes(kind, c) && st.depth > 0 {
        st := st.(depth := st.depth - 1);
        if st.depth == 0 {
          var n := i + 1;
          if n >= out.Length { return false; }
          forall k | 0 <= k < n {
            out[k] := start[k];
          }
          out[n] := 0;
          return true;
        }
      }
      i := i + 1;
    }
    return false;
  }

  /** Position of the next opening brace, unless a closing bracket comes first. */
  function FindBrace(s: seq<byte>, i: nat): (r: Scan)
    requires i <= |s|
    ensures r.At? ==> i <= r.next < |s| && s[r.next] == LBRACE
    ensures r.At? ==> forall k :: i <= k < r.next ==> s[k] != LBRACE && s[k] != RBRACKET
    ensures r.Fail? ==> forall j :: i <= j < |s| && s[j] == LBRACE ==> exists k :: i <= k < j && s[k] == RBRACKET
    decreases |s| - i
  {
    if i >= |s| || s[i] == RBRACKET then Fail
    else if s[i] == LBRACE then At(i)
    else FindBrace(s, i + 1)
  }

  /** How much of `n` bytes fits in front of the terminator. */
  function Fitting(n: nat, size: nat): nat
    requires size > 0
  {
    if n < size then n else size - 1
  }

  /**
   * `next_array_object`: copies the next object into `out`, cut to what fits, and returns where
   * the text goes on.
   */
  method NextArrayObject(text: seq<byte>, cursor: nat, out: array<byte>) returns (r: Scan)
    requires cursor <= |text| && out.Length > 0
    modifies out
    ensures var start := FindBrace(text, cursor);
            && r == (if start.Fail? then Fail else CloseAt(Braces, text, start.next, OUTSIDE))
            && (r.At? ==>
                  var used := Fitting(r.next - start.next, out.Length);
                  out[..used] == text[start.next..start.next + used] && out[used] == 0)
  {
    hide CloseAt;
    var i := cursor;
    while i < |text| && text[i] != LBRACE
      invariant cursor <= i <= |text| && FindBrace(text, i) == FindBrace(text, cursor)
    {
      if text[i] == RBRACKET { return Fail; }
      i := i + 1;
    }
    if i == |text| { return Fail; }
    r := CopyObject(text, i, out);
  }

  /** The second loop: from the opening brace on. */
  method CopyObject(text: seq<byte>, start: nat, out: array<byte>) returns (r: Scan)
    requires start < |text| && text[start] == LBRACE && out.Length > 0
    modifies out
    ensures r == CloseAt(Braces, text, start, OUTSIDE)
    ensures r.At? ==>
              var used := Fitting(r.next - start, out.Length);
              out[..used] == text[start..start + used] && out[used] == 0
  {
    var i, st, used := start, OUTSIDE, 0;
    while i < |text|
      invariant start <= i <= |text|
      invariant i == start <==> st == OUTSIDE
      invariant i > start ==> st.depth > 0
      invariant used == Fitting(i - start, out.Length)
      invariant out[..used] == text[start..start + used]
      invariant CloseAt(Braces, text, i, st) == CloseAt(Braces, text, start, OUTSIDE)
    {
      var c := text[i];
      if used + 1 < out.Length {
        out[used] := c;
        used := used + 1;
      }
      i := i + 1;
      if st.inString {
        if st.escaped { st := st.(escaped := false); }
        else if c == BACKSLASH { st := st.(escaped := true); }
        else if c == QUOTE { st := st.(inString := false); }
        continue;
      }
      if c == QUOTE { st := st.(inString := true); continue; }
      if c == LBRACE { st := st.(depth := st.depth + 1); }
      if c == RBRACE {
        st := st.(depth := st.depth - 1);
        if st.depth == 0 {
          out[used] := 0;
          return At(i);
        }
      }
    }
    return Fail;
  }

  predicate IsSeparator(b: byte) {
    IsWs(b) || b == COMMA
  }

  function SkipSeparators(s: seq<byte>, i: nat): (j: nat)
    requires i <= |s|
    ensures i <= j <= |s|
    decreases |s| - i
  {
    if i < |s| && IsSeparator(s[i]) then SkipSeparators(s, i + 1) else i
  }

  /** What `next_element` answers: no more elements, one element, or a broken text. */
  datatype Element = NoElement | Element(start: nat, end: nat) | Broken

  function ElementFrom(s: seq<byte>, pos: nat): (e: Element)
    requires pos <= |s|
    ensures e.Element? ==> pos <= e.start < e.end <= |s|
  {
    var start := SkipSeparators(s, pos);
    if start >= |s| || s[start] == RBRACKET then NoElement else
    var r := CloseAt(Both, s, start, OUTSIDE);
    if r.Fail? then Broken else Element(start, r.next)
  }

  method NextElement(s: seq<byte>, pos: nat) returns (e: Element)
    requires pos <= |s|
    ensures e == ElementFrom(s, pos)
  {
    var i := pos;
    while i < |s| && IsSeparator(s[i])
      invariant pos <= i <= |s| && SkipSeparators(s, i) == SkipSeparators(s, pos)
    {
      i := i + 1;
    }
    if i >= |s| || s[i] == RBRACKET { return NoElement; }
    var start, st := i, OUTSIDE;
    while i < |s|
      invariant start <= i <= |s|
      invariant CloseAt(Both, s, i, st) == CloseAt(Both, s, start, OUTSIDE)
    {
      var c := s[i];
      i := i + 1;
      if st.inString {
        if st.escaped { st := st.(escaped := false); }
        else if c == BACKSLASH { st := st.(escaped := true); }
        else if c == QUOTE { st := st.(inString := false); }
        continue;
      }
      if c == QUOTE {
        st := st.(inString := true);
      } else if Opens(Both, c) {
        st := st.(depth := st.depth + 1);
      } else if Closes(Both, c) {
        if st.depth == 1 { return Element(start, i); }
        if st.depth == 0 { return Broken; }
        st := st.(depth := st.depth - 1);
      }
    }
    return Broken;
  }

  // ---- Agreement with the grammar ---------------------------------------------------------

  predicate Plain(b: byte) {
    b != QUOTE && b != LBRACE && b != RBRACE && b != LBRACKET && b != RBRACKET
  }

  lemma {:induction false} PassPlain(kind: Kind, s: seq<byte>, i: nat, w: seq<byte>, st: State)
    requires Occurs(s, i, w) && !st.inString && forall k :: 0 <= k < |w| ==> Plain(w[k])
    ensures CloseAt(kind, s, i, st) == CloseAt(kind, s, i + |w|, st)
    decreases |w|
  {
    if w != [] {
      OccursAt(s, i, w, 0);
      assert s[i + 1..i + |w|] == (s[i..i + |w|])[1..];
      PassPlain(kind, s, i + 1, w[1..], st);
    }
  }

  lemma {:induction false} PassChars(kind: Kind, s: seq<byte>, i: nat, cs: seq<Char>, depth: nat)
    requires CharsOk(cs) && Occurs(s, i, RenderChars(cs))
    ensures CloseAt(kind, s, i, State(depth, true, false))
         == CloseAt(kind, s, i + |RenderChars(cs)|, State(depth, false, false))
    decreases |cs|
  {
    if cs == [] {
      OccursOne(s, i, QUOTE);
    } else {
      var c := cs[0];
      OccursConcat(s, i, RenderChar(c), RenderChars(cs[1..]));
      PassChars(kind, s, i + |RenderChar(c)|, cs[1..], depth);
      PassChar(kind, s, i, c, depth);
    }
  }

  /** Inside a string only a quotation mark and a backslash matter. */
  lemma PassText(kind: Kind, s: seq<byte>, i: nat, st: State)
    requires i < |s| && st.inString && !st.escaped && s[i] != QUOTE && s[i] != BACKSLASH
    ensures CloseAt(kind, s, i, st) == CloseAt(kind, s, i + 1, st)
  {
  }

  lemma PassEscape(kind: Kind, s: seq<byte>, i: nat, st: State)
    requires i + 2 <= |s| && st.inString && !st.escaped && s[i] == BACKSLASH
    ensures CloseAt(kind, s, i, st) == CloseAt(kind, s, i + 2, st)
  {
  }

  lemma PassChar(kind: Kind, s: seq<byte>, i: nat, c: Char, depth: nat)
    requires CharOk(c) && Occurs(s, i, RenderChar(c))
    ensures var st := State(depth, true, false);
            CloseAt(kind, s, i, st) == CloseAt(kind, s, i + |RenderChar(c)|, st)
  {
    hide CloseAt;
    var st := State(depth, true, false);
    OccursAt(s, i, RenderChar(c), 0);
    if c.Raw? {
      PassText(kind, s, i, st);
    } else {
      PassEscape(kind, s, i, st);
    }
    if c.Unicode? {
      for k := 2 to 6
        invariant CloseAt(kind, s, i, st) == CloseAt(kind, s, i + k, st)
      {
        OccursAt(s, i, RenderChar(c), k);
        PassText(kind, s, i + k, st);
      }
    }
  }

  lemma PassString(kind: Kind, s: seq<byte>, i: nat, cs: seq<Char>, depth: nat)
    requires CharsOk(cs) && Occurs(s, i, RenderString(cs))
    ensures var st := State(depth, false, false);
            CloseAt(kind, s, i, st) == CloseAt(kind, s, i + |RenderString(cs)|, st)
  {
    OccursConcat(s, i, [QUOTE], RenderChars(cs));
    OccursOne(s, i, QUOTE);
    PassChars(kind, s, i + 1, cs, depth);
  }

  lemma NumberIsPlain(n: Number)
    requires NumberOk(n)
    ensures forall k :: 0 <= k < |RenderNumber(n)| ==> Plain(RenderNumber(n)[k])
  {
    forall k | 0 <= k < |RenderExponent(n.exponent)|
      ensures Plain(RenderExponent(n.exponent)[k])
    {
    }
    forall k | 0 <= k < |RenderFraction(n)|
      ensures Plain(RenderFraction(n)[k])
    {
    }
  }

  /** A whole value inside at least one counted container leaves the count as it was. */
  lemma {:induction false} PassValue(kind: Kind, s: seq<byte>, i: nat, v: Value, depth: nat)
    requires ValueOk(v) && Occurs(s, i, Render(v)) && depth > 0
    ensures var st := State(depth, false, false);
            CloseAt(kind, s, i, st) == CloseAt(kind, s, i + |Render(v)|, st)
    decreases v, 1
  {
    hide Occurs, RenderNumber, RenderString, RenderItems, RenderMembers;
    var st := State(depth, false, false);
    match v
    case Literal(text) => PassPlain(kind, s, i, text, st);
    case NumberValue(n) => NumberIsPlain(n); PassPlain(kind, s, i, RenderNumber(n), st);
    case StringValue(cs) => PassString(kind, s, i, cs, depth);
    case Array(_, _) =>
      PassInside(kind, s, i, v, if kind == Braces then depth else depth + 1);
    case Object(_, _) =>
      PassInside(kind, s, i, v, if kind == Brackets then depth else depth + 1);
  }

  /** From behind the opening bracket of `v` to its closing bracket, with `depth` containers counted. */
  lemma {:induction false} PassInside(kind: Kind, s: seq<byte>, i: nat, v: Value, depth: nat)
    requires v.Array? || v.Object?
    requires ValueOk(v) && Occurs(s, i, Render(v)) && depth > 0
    ensures var st, last := State(depth, false, false), i + |Render(v)| - 1;
            && i < last < |s| && s[i] == (if v.Array? then LBRACKET else LBRACE)
            && s[last] == (if v.Array? then RBRACKET else RBRACE)
            && CloseAt(kind, s, i + 1, st) == CloseAt(kind, s, last, st)
    decreases v, 0
  {
    hide CloseAt, AllWs, Occurs, RenderItems, RenderMembers;
    if v.Array? {
      var body := if v.items.NoItems? then v.blank + [RBRACKET] else RenderItems(v.items);
      OccursConcat(s, i, [LBRACKET], body);
      OccursOne(s, i, LBRACKET);
      if v.items.NoItems? {
        PassEmpty(kind, s, i + 1, v.blank, RBRACKET, depth);
      } else {
        PassItems(kind, s, i + 1, v.items, depth);
      }
    } else {
      var body := if v.members.NoMembers? then v.blank + [RBRACE] else RenderMembers(v.members);
      OccursConcat(s, i, [LBRACE], body);
      OccursOne(s, i, LBRACE);
      if v.members.NoMembers? {
        PassEmpty(kind, s, i + 1, v.blank, RBRACE, depth);
      } else {
        PassMembers(kind, s, i + 1, v.members, depth);
      }
    }
  }

  lemma PassEmpty(kind: Kind, s: seq<byte>, i: nat, blank: seq<byte>, close: byte, depth: nat)
    requires AllWs(blank) && Occurs(s, i, blank + [close])
    ensures var st, last := State(depth, false, false), i + |blank|;
            && last < |s| && s[last] == close && CloseAt(kind, s, i, st) == CloseAt(kind, s, last, st)
  {
    OccursConcat(s, i, blank, [close]);
    OccursOne(s, i + |blank|, close);
    PassBlank(kind, s, i, blank, depth);
  }

  lemma PassBlank(kind: Kind, s: seq<byte>, i: nat, w: seq<byte>, depth: nat)
    requires AllWs(w) && Occurs(s, i, w)
    ensures var st := State(depth, false, false); CloseAt(kind, s, i, st) == CloseAt(kind, s, i + |w|, st)
  {
    PassPlain(kind, s, i, w, State(depth, false, false));
  }

  lemma PassOne(kind: Kind, s: seq<byte>, i: nat, depth: nat)
    requires i < |s| && Plain(s[i])
    ensures var st := State(depth, false, false); CloseAt(kind, s, i, st) == CloseAt(kind, s, i + 1, st)
  {
  }

  lemma {:induction false} PassItems(kind: Kind, s: seq<byte>, i: nat, items: Items, depth: nat)
    requires items.Item? && ItemsOk(items) && Occurs(s, i, RenderItems(items)) && depth > 0
    ensures var st, last := State(depth, false, false), i + |RenderItems(items)| - 1;
            && last < |s| && s[last] == RBRACKET && CloseAt(kind, s, i, st) == CloseAt(kind, s, last, st)
    decreases items
  {
    hide CloseAt, Occurs, AllWs, Render, RenderItems;
    var j := i + |items.before|;
    var b := j + |Render(items.value)|;
    var c := b + |items.after|;
    OccursItem(s, i, items, j, b, c);
    PassBlank(kind, s, i, items.before, depth);
    PassValue(kind, s, j, items.value, depth);
    PassBlank(kind, s, b, items.after, depth);
    if items.rest.Item? {
      PassOne(kind, s, c, depth);
      PassItems(kind, s, c + 1, items.rest, depth);
    }
  }

  lemma {:induction false} PassMembers(kind: Kind, s: seq<byte>, i: nat, ms: Members, depth: nat)
    requires ms.Member? && MembersOk(ms) && Occurs(s, i, RenderMembers(ms)) && depth > 0
    ensures var st, last := State(depth, false, false), i + |RenderMembers(ms)| - 1;
            && last < |s| && s[last] == RBRACE && CloseAt(kind, s, i, st) == CloseAt(kind, s, last, st)
    decreases ms
  {
    hide CloseAt, Occurs, AllWs, Render, RenderMembers, RenderString, CharsOk;
    var j := i + |ms.before|;
    var a := j + |RenderString(ms.name)|;
    var colon := a + |ms.gap|;
    var d := colon + 1 + |ms.pad|;
    var b := d + |Render(ms.value)|;
    var c := b + |ms.after|;
    OccursMember(s, i, ms, j, a, colon, b, c);
    PassBlank(kind, s, i, ms.before, depth);
    PassString(kind, s, j, ms.name, depth);
    PassBlank(kind, s, a, ms.gap, depth);
    PassOne(kind, s, colon, depth);
    PassBlank(kind, s, colon + 1, ms.pad, depth);
    PassValue(kind, s, d, ms.value, depth);
    PassBlank(kind, s, b, ms.after, depth);
    if ms.more.Member? {
      PassOne(kind, s, c, depth);
      PassMembers(kind, s, c + 1, ms.more, depth);
    }
  }

  /** A counter that counts the bracket it starts at stops at the end of that container. */
  lemma ContainerEnds(kind: Kind, s: seq<byte>, i: nat, v: Value)
    requires ValueOk(v) && Occurs(s, i, Render(v))
    requires (v.Array? && kind != Braces) || (v.Object? && kind != Brackets)
    ensures CloseAt(kind, s, i, OUTSIDE) == At(i + |Render(v)|)
  {
    PassInside(kind, s, i, v, 1);
  }

  /** Started at an object that the recogniser accepts, both brace counters stop where it stops. */
  lemma CountersEndObjects(s: seq<byte>, i: nat, depth: nat)
    requires i <= |s| && ScanObject(s, i, depth).At?
    ensures CloseAt(Braces, s, i, OUTSIDE) == ScanObject(s, i, depth)
    ensures CloseAt(Both, s, i, OUTSIDE) == ScanObject(s, i, depth)
  {
    var v := ObjectSound(s, i, depth);
    ContainerEnds(Braces, s, i, v);
    ContainerEnds(Both, s, i, v);
  }

  lemma CountersEndArrays(s: seq<byte>, i: nat, depth: nat)
    requires i <= |s| && ScanArray(s, i, depth).At?
    ensures CloseAt(Brackets, s, i, OUTSIDE) == ScanArray(s, i, depth)
    ensures CloseAt(Both, s, i, OUTSIDE) == ScanArray(s, i, depth)
  {
    var v := ArraySound(s, i, depth);
    ContainerEnds(Brackets, s, i, v);
    ContainerEnds(Both, s, i, v);
  }
}
