/** The recogniser's functions accept exactly the texts of the grammar's trees. */
module JsonCorrect {
  import opened Bytes
  import opened JsonGrammar
  import opened JsonRecogniser

  // ---- White space and digits -------------------------------------------------------------

  lemma {:induction false} SkipWsSound(s: seq<byte>, i: nat)
    requires i <= |s|
    ensures AllWs(s[i..SkipWs(s, i)])
    ensures SkipWs(s, i) < |s| ==> !IsWs(s[SkipWs(s, i)])
    decreases |s| - i
  {
    if i < |s| && IsWs(s[i]) {
      SkipWsSound(s, i + 1);
      assert s[i..SkipWs(s, i)] == [s[i]] + s[i + 1..SkipWs(s, i)];
    }
  }

  lemma {:induction false} SkipWsComplete(s: seq<byte>, i: nat, w: seq<byte>)
    requires Occurs(s, i, w) && AllWs(w)
    requires i + |w| == |s| || !IsWs(s[i + |w|])
    ensures SkipWs(s, i) == i + |w|
    decreases |w|
  {
    if w != [] {
      OccursAt(s, i, w, 0);
      assert s[i + 1..i + |w|] == (s[i..i + |w|])[1..];
      SkipWsComplete(s, i + 1, w[1..]);
    }
  }

  lemma {:induction false} SkipDigitsSound(s: seq<byte>, i: nat)
    requires i <= |s|
    ensures AllDigits(s[i..SkipDigits(s, i)])
    decreases |s| - i
  {
    if i < |s| && IsDigit(s[i]) {
      SkipDigitsSound(s, i + 1);
      assert s[i..SkipDigits(s, i)] == [s[i]] + s[i + 1..SkipDigits(s, i)];
    }
  }

  lemma {:induction false} SkipDigitsComplete(s: seq<byte>, i: nat, w: seq<byte>)
    requires Occurs(s, i, w) && AllDigits(w)
    requires i + |w| == |s| || !IsDigit(s[i + |w|])
    ensures SkipDigits(s, i) == i + |w|
    decreases |w|
  {
    if w != [] {
      OccursAt(s, i, w, 0);
      assert s[i + 1..i + |w|] == (s[i..i + |w|])[1..];
      SkipDigitsComplete(s, i + 1, w[1..]);
    }
  }

  // ---- Strings ----------------------------------------------------------------------------

  lemma CharAt(s: seq<byte>, i: nat, c: Char)
    requires i + |RenderChar(c)| <= |s| && s[i] == RenderChar(c)[0]
    requires !c.Raw? ==> s[i + 1] == RenderChar(c)[1]
    requires c.Unicode? ==> s[i + 2] == c.h0 && s[i + 3] == c.h1 && s[i + 4] == c.h2 && s[i + 5] == c.h3
    ensures Occurs(s, i, RenderChar(c))
  {
    assert s[i..i + |RenderChar(c)|] == RenderChar(c);
  }

  /** The character that stands at `i`. */
  lemma CharSound(s: seq<byte>, i: nat) returns (c: Char)
    requires i < |s| && s[i] != QUOTE && ScanChars(s, i).At?
    ensures CharOk(c) && Occurs(s, i, RenderChar(c)) && i < i + |RenderChar(c)| <= |s|
    ensures ScanChars(s, i) == ScanChars(s, i + |RenderChar(c)|)
  {
    hide Occurs;
    c := if s[i] != BACKSLASH then Raw(s[i])
         else if s[i + 1] == LOWER_U then Unicode(s[i + 2], s[i + 3], s[i + 4], s[i + 5])
         else Escaped(s[i + 1]);
    CharAt(s, i, c);
  }

  lemma CharComplete(s: seq<byte>, i: nat, c: Char)
    requires CharOk(c) && Occurs(s, i, RenderChar(c))
    ensures i + |RenderChar(c)| <= |s| && ScanChars(s, i) == ScanChars(s, i + |RenderChar(c)|)
  {
    hide Occurs;
    OccursBound(s, i, RenderChar(c));
    OccursAt(s, i, RenderChar(c), 0);
    if !c.Raw? {
      OccursAt(s, i, RenderChar(c), 1);
    }
    if c.Unicode? {
      OccursAt(s, i, RenderChar(c), 2);
      OccursAt(s, i, RenderChar(c), 3);
      OccursAt(s, i, RenderChar(c), 4);
      OccursAt(s, i, RenderChar(c), 5);
    }
  }

  lemma {:induction false} CharsSound(s: seq<byte>, i: nat) returns (cs: seq<Char>)
    requires i <= |s| && ScanChars(s, i).At?
    ensures CharsOk(cs) && Occurs(s, i, RenderChars(cs))
    ensures ScanChars(s, i).next == i + |RenderChars(cs)|
    decreases |s| - i
  {
    hide Occurs, CharOk, RenderChar;
    if s[i] == QUOTE {
      cs := [];
      OccursOne(s, i, QUOTE);
    } else {
      hide ScanChars;
      var c := CharSound(s, i);
      var rest := CharsSound(s, i + |RenderChar(c)|);
      cs := [c] + rest;
      assert cs[1..] == rest;
      OccursConcat(s, i, RenderChar(c), RenderChars(rest));
    }
  }

  lemma {:induction false} CharsComplete(s: seq<byte>, i: nat, cs: seq<Char>)
    requires CharsOk(cs) && Occurs(s, i, RenderChars(cs))
    ensures ScanChars(s, i) == At(i + |RenderChars(cs)|)
    decreases |cs|
  {
    hide Occurs, CharOk, RenderChar;
    if cs == [] {
      OccursOne(s, i, QUOTE);
    } else {
      hide ScanChars;
      OccursConcat(s, i, RenderChar(cs[0]), RenderChars(cs[1..]));
      CharComplete(s, i, cs[0]);
      CharsComplete(s, i + |RenderChar(cs[0])|, cs[1..]);
    }
  }

  lemma StringSound(s: seq<byte>, i: nat) returns (cs: seq<Char>)
    requires i <= |s| && ScanString(s, i).At?
    ensures CharsOk(cs) && Occurs(s, i, RenderString(cs))
    ensures ScanString(s, i).next == i + |RenderString(cs)|
  {
    cs := CharsSound(s, i + 1);
    OccursOne(s, i, QUOTE);
    OccursConcat(s, i, [QUOTE], RenderChars(cs));
  }

  lemma StringComplete(s: seq<byte>, i: nat, cs: seq<Char>)
    requires CharsOk(cs) && Occurs(s, i, RenderString(cs))
    ensures ScanString(s, i) == At(i + |RenderString(cs)|)
  {
    OccursConcat(s, i, [QUOTE], RenderChars(cs));
    OccursOne(s, i, QUOTE);
    CharsComplete(s, i + 1, cs);
  }

  // ---- Numbers ----------------------------------------------------------------------------

  /** What may follow a value inside a container, or the end of the text. */
  predicate Delimited(s: seq<byte>, i: nat) {
    i == |s| || (i < |s| && (IsWs(s[i]) || s[i] == COMMA || s[i] == RBRACE || s[i] == RBRACKET))
  }

  lemma DigitsSound(s: seq<byte>, i: nat) returns (ds: seq<byte>)
    requires i <= |s| && ScanDigits(s, i).At?
    ensures ds != [] && AllDigits(ds) && Occurs(s, i, ds) && ScanDigits(s, i).next == i + |ds|
    ensures ds[0] == s[i]
  {
    ds := s[i..SkipDigits(s, i)];
    SkipDigitsSound(s, i);
  }

  lemma DigitsComplete(s: seq<byte>, i: nat, ds: seq<byte>)
    requires ds != [] && AllDigits(ds) && Occurs(s, i, ds)
    requires i + |ds| == |s| || !IsDigit(s[i + |ds|])
    ensures ScanDigits(s, i) == At(i + |ds|)
  {
    OccursAt(s, i, ds, 0);
    SkipDigitsComplete(s, i, ds);
  }

  lemma WholeSound(s: seq<byte>, i: nat) returns (ds: seq<byte>)
    requires i <= |s| && ScanWhole(s, i).At?
    ensures ds != [] && AllDigits(ds) && (ds[0] == ZERO ==> |ds| == 1)
    ensures Occurs(s, i, ds) && ScanWhole(s, i).next == i + |ds|
  {
    if s[i] == ZERO {
      ds := [ZERO];
      OccursOne(s, i, ZERO);
    } else {
      ds := DigitsSound(s, i);
    }
  }

  lemma WholeComplete(s: seq<byte>, i: nat, ds: seq<byte>)
    requires ds != [] && AllDigits(ds) && (ds[0] == ZERO ==> |ds| == 1)
    requires Occurs(s, i, ds) && (i + |ds| == |s| || !IsDigit(s[i + |ds|]))
    ensures ScanWhole(s, i) == At(i + |ds|)
  {
    OccursAt(s, i, ds, 0);
    if ds[0] != ZERO {
      DigitsComplete(s, i, ds);
    }
  }

  lemma FractionSound(s: seq<byte>, i: nat) returns (ds: seq<byte>)
    requires i <= |s| && ScanFraction(s, i).At?
    ensures AllDigits(ds)
    ensures var text := if ds == [] then [] else [DOT] + ds;
            Occurs(s, i, text) && ScanFraction(s, i).next == i + |text|
  {
    if i < |s| && s[i] == DOT {
      ds := DigitsSound(s, i + 1);
      OccursOne(s, i, DOT);
      OccursConcat(s, i, [DOT], ds);
    } else {
      ds := [];
    }
  }

  lemma FractionComplete(s: seq<byte>, i: nat, n: Number)
    requires AllDigits(n.fraction) && Occurs(s, i, RenderFraction(n))
    requires var e := i + |RenderFraction(n)|; e == |s| || (!IsDigit(s[e]) && s[e] != DOT)
    ensures ScanFraction(s, i) == At(i + |RenderFraction(n)|)
  {
    if n.fraction != [] {
      OccursConcat(s, i, [DOT], n.fraction);
      OccursOne(s, i, DOT);
      DigitsComplete(s, i + 1, n.fraction);
    }
  }

  lemma SignSound(s: seq<byte>, i: nat) returns (sign: seq<byte>)
    requires i <= |s|
    ensures sign == [] || sign == [PLUS] || sign == [MINUS]
    ensures Occurs(s, i, sign) && SkipSign(s, i) == i + |sign|
  {
    sign := s[i..SkipSign(s, i)];
    OccursSlice(s, i, SkipSign(s, i));
  }

  lemma ExponentSound(s: seq<byte>, i: nat) returns (e: Exponent)
    requires i <= |s| && ScanExponent(s, i).At?
    ensures NumberOk(Number(false, [ZERO], [], e))
    ensures Occurs(s, i, RenderExponent(e)) && ScanExponent(s, i).next == i + |RenderExponent(e)|
  {
    hide Occurs, SkipSign, SkipDigits;
    if i < |s| && (s[i] == LOWER_E || s[i] == UPPER_E) {
      var sign := SignSound(s, i + 1);
      var digits := DigitsSound(s, i + 1 + |sign|);
      e := Exponent(s[i], sign, digits);
      OccursOne(s, i, s[i]);
      OccursConcat(s, i + 1, sign, digits);
      OccursConcat(s, i, [s[i]], sign + digits);
    } else {
      OccursNil(s, i);
      e := NoExponent;
    }
  }

  lemma ExponentComplete(s: seq<byte>, i: nat, e: Exponent)
    requires NumberOk(Number(false, [ZERO], [], e)) && Occurs(s, i, RenderExponent(e))
    requires Delimited(s, i + |RenderExponent(e)|)
    ensures ScanExponent(s, i) == At(i + |RenderExponent(e)|)
  {
    hide Occurs;
    if e.Exponent? {
      OccursConcat(s, i, [e.marker], e.sign + e.digits);
      OccursConcat(s, i + 1, e.sign, e.digits);
      OccursOne(s, i, e.marker);
      OccursAt(s, i + 1 + |e.sign|, e.digits, 0);
      if e.sign != [] {
        OccursAt(s, i + 1, e.sign, 0);
      }
      DigitsComplete(s, i + 1 + |e.sign|, e.digits);
    }
  }

  lemma NumberSound(s: seq<byte>, i: nat) returns (n: Number)
    requires i <= |s| && ScanNumber(s, i).At?
    ensures NumberOk(n) && Occurs(s, i, RenderNumber(n)) && ScanNumber(s, i).next == i + |RenderNumber(n)|
  {
    hide Occurs, AllDigits, ScanWhole, ScanFraction, ScanExponent, RenderExponent;
    var minus := i < |s| && s[i] == MINUS;
    var j := if minus then i + 1 else i;
    var whole := WholeSound(s, j);
    var fraction := FractionSound(s, j + |whole|);
    var k := ScanFraction(s, j + |whole|).next;
    var exponent := ExponentSound(s, k);
    n := Number(minus, whole, fraction, exponent);
    OccursOne(s, i, MINUS);
    OccursNil(s, i);
    OccursConcat(s, j + |whole|, RenderFraction(n), RenderExponent(exponent));
    OccursConcat(s, j, whole, RenderFraction(n) + RenderExponent(exponent));
    OccursConcat(s, i, RenderMinus(n), whole + (RenderFraction(n) + RenderExponent(exponent)));
  }

  lemma NumberComplete(s: seq<byte>, i: nat, n: Number)
    requires NumberOk(n) && Occurs(s, i, RenderNumber(n)) && Delimited(s, i + |RenderNumber(n)|)
    ensures ScanNumber(s, i) == At(i + |RenderNumber(n)|)
  {
    hide Occurs, ScanWhole, ScanFraction, ScanExponent, RenderFraction, RenderExponent, Delimited;
    var j := i + |RenderMinus(n)|;
    var k := j + |n.whole|;
    var m := k + |RenderFraction(n)|;
    OccursConcat(s, i, RenderMinus(n), n.whole + (RenderFraction(n) + RenderExponent(n.exponent)));
    OccursConcat(s, j, n.whole, RenderFraction(n) + RenderExponent(n.exponent));
    OccursConcat(s, k, RenderFraction(n), RenderExponent(n.exponent));
    MinusFirst(s, i, n);
    AfterFraction(s, m, n);
    AfterWhole(s, k, n);
    WholeComplete(s, j, n.whole);
    FractionComplete(s, k, n);
    ExponentComplete(s, m, n.exponent);
  }

  /** A number starts with a minus exactly if it has one: its digits do not. */
  lemma MinusFirst(s: seq<byte>, i: nat, n: Number)
    requires NumberOk(n) && Occurs(s, i, RenderMinus(n)) && Occurs(s, i + |RenderMinus(n)|, n.whole)
    ensures (i < |s| && s[i] == MINUS) <==> n.minus
  {
    hide Occurs;
    OccursOne(s, i, MINUS);
    OccursAt(s, i + |RenderMinus(n)|, n.whole, 0);
  }

  lemma AfterFraction(s: seq<byte>, m: nat, n: Number)
    requires NumberOk(n) && Occurs(s, m, RenderExponent(n.exponent)) && Delimited(s, m + |RenderExponent(n.exponent)|)
    ensures m == |s| || (m < |s| && !IsDigit(s[m]) && s[m] != DOT)
  {
    hide Occurs, AllDigits;
    if n.exponent.Exponent? {
      OccursAt(s, m, RenderExponent(n.exponent), 0);
    }
  }

  lemma AfterWhole(s: seq<byte>, k: nat, n: Number)
    requires Occurs(s, k, RenderFraction(n))
    requires var m := k + |RenderFraction(n)|; m == |s| || (m < |s| && !IsDigit(s[m]))
    ensures k == |s| || (k < |s| && !IsDigit(s[k]))
  {
    hide Occurs, AllDigits;
    if n.fraction != [] {
      OccursAt(s, k, RenderFraction(n), 0);
    }
  }

  // ---- Values: soundness ------------------------------------------------------------------

  lemma {:induction false} ValueSound(s: seq<byte>, i: nat, depth: nat) returns (lead: seq<byte>, v: Value)
    requires i <= |s| && depth <= MAX_DEPTH && ScanValue(s, i, depth).At?
    ensures AllWs(lead) && ValueOk(v) && depth + Nesting(v) <= MAX_DEPTH
    ensures SkipWs(s, i) == i + |lead| && Occurs(s, i, lead) && Occurs(s, i + |lead|, Render(v))
    ensures ScanValue(s, i, depth).next == i + |lead| + |Render(v)|
    decreases |s| - i, 3
  {
    var j := SkipWs(s, i);
    SkipWsSound(s, i);
    lead := s[i..j];
    if s[j] == QUOTE {
      var cs := StringSound(s, j);
      v := StringValue(cs);
    } else if s[j] == LBRACE {
      v := ObjectSound(s, j, depth);
    } else if s[j] == LBRACKET {
      v := ArraySound(s, j, depth);
    } else if s[j] == LOWER_T {
      v := Literal(TRUE);
    } else if s[j] == LOWER_F {
      v := Literal(FALSE);
    } else if s[j] == LOWER_N {
      v := Literal(NULL);
    } else {
      var n := NumberSound(s, j);
      v := NumberValue(n);
    }
  }

  /** White space up to `j`, where the scanner is. */
  lemma Blank(s: seq<byte>, i: nat) returns (w: seq<byte>)
    requires i <= |s|
    ensures AllWs(w) && Occurs(s, i, w) && SkipWs(s, i) == i + |w|
    ensures SkipWs(s, i) < |s| ==> !IsWs(s[SkipWs(s, i)])
  {
    SkipWsSound(s, i);
    w := s[i..SkipWs(s, i)];
  }

  lemma {:induction false} ObjectSound(s: seq<byte>, i: nat, depth: nat) returns (v: Value)
    requires i <= |s| && ScanObject(s, i, depth).At?
    ensures v.Object? && ValueOk(v) && depth + Nesting(v) <= MAX_DEPTH
    ensures Occurs(s, i, Render(v)) && ScanObject(s, i, depth).next == i + |Render(v)|
    decreases |s| - i, 2
  {
    hide Occurs, RenderMembers, ScanMembers, SkipWs, IsWs;
    var blank := Blank(s, i + 1);
    var j := i + 1 + |blank|;
    OccursOne(s, i, LBRACE);
    if j < |s| && s[j] == RBRACE {
      v := Object(blank, NoMembers);
      OccursOne(s, j, RBRACE);
      OccursConcat(s, i + 1, blank, [RBRACE]);
      OccursConcat(s, i, [LBRACE], blank + [RBRACE]);
    } else {
      var members := MembersSound(s, i + 1, blank, depth + 1);
      v := Object([], members);
      OccursConcat(s, i, [LBRACE], RenderMembers(members));
    }
  }

  /** `before` is the white space from `i` to the first name. */
  lemma {:induction false} MembersSound(s: seq<byte>, i: nat, before: seq<byte>, depth: nat) returns (ms: Members)
    requires Occurs(s, i, before) && AllWs(before)
    requires depth <= MAX_DEPTH && ScanMembers(s, i + |before|, depth).At?
    ensures ms.Member? && MembersOk(ms) && depth + MembersNesting(ms) <= MAX_DEPTH
    ensures Occurs(s, i, RenderMembers(ms))
    ensures ScanMembers(s, i + |before|, depth).next == i + |RenderMembers(ms)|
    decreases |s| - i - |before|, 1
  {
    hide Occurs, AllWs, CharsOk, IsWs, Render, RenderString, RenderMembers, ScanString, ScanMembers, ScanValue, SkipWs,
         ScanChars, NumberOk;
    var j := i + |before|;
    MembersByOne(s, j, depth);
    var name := StringSound(s, j);
    var a := j + |RenderString(name)|;
    var gap := Blank(s, a);
    var colon := a + |gap|;
    var pad, value := ValueSound(s, colon + 1, depth);
    var b := colon + 1 + |pad| + |Render(value)|;
    var after := Blank(s, b);
    var c := b + |after|;
    var more := NoMembers;
    if s[c] == COMMA {
      var next := Blank(s, c + 1);
      more := MembersSound(s, c + 1, next, depth);
    }
    ms := Member(before, name, gap, pad, value, after, more);
    OccursMember(s, i, ms, j, a, colon, b, c);
  }

  /** The pieces of one member, put together or taken apart. */
  lemma OccursMember(s: seq<byte>, i: nat, ms: Members, j: nat, a: nat, colon: nat, b: nat, c: nat)
    requires ms.Member?
    requires j == i + |ms.before| && a == j + |RenderString(ms.name)| && colon == a + |ms.gap|
    requires b == colon + 1 + |ms.pad| + |Render(ms.value)| && c == b + |ms.after|
    ensures Occurs(s, i, RenderMembers(ms)) <==>
            && Occurs(s, i, ms.before) && Occurs(s, j, RenderString(ms.name))
            && Occurs(s, a, ms.gap) && colon < |s| && s[colon] == COLON
            && Occurs(s, colon + 1, ms.pad) && Occurs(s, colon + 1 + |ms.pad|, Render(ms.value))
            && Occurs(s, b, ms.after)
            && c < |s| && (if ms.more.NoMembers? then s[c] == RBRACE
                           else s[c] == COMMA && Occurs(s, c + 1, RenderMembers(ms.more)))
    ensures |RenderMembers(ms)| == c - i + (if ms.more.NoMembers? then 1 else 1 + |RenderMembers(ms.more)|)
  {
    hide Occurs;
    var t6 := if ms.more.NoMembers? then [RBRACE] else [COMMA] + RenderMembers(ms.more);
    var t5 := ms.after + t6;
    var t4 := Render(ms.value) + t5;
    var t3 := ms.pad + t4;
    var t2 := [COLON] + t3;
    var t1 := ms.gap + t2;
    var t0 := RenderString(ms.name) + t1;
    OccursConcat(s, i, ms.before, t0);
    OccursConcat(s, j, RenderString(ms.name), t1);
    OccursConcat(s, a, ms.gap, t2);
    OccursConcat(s, colon, [COLON], t3);
    OccursOne(s, colon, COLON);
    OccursConcat(s, colon + 1, ms.pad, t4);
    OccursConcat(s, colon + 1 + |ms.pad|, Render(ms.value), t5);
    OccursConcat(s, b, ms.after, t6);
    if ms.more.NoMembers? {
      OccursOne(s, c, RBRACE);
    } else {
      OccursConcat(s, c, [COMMA], RenderMembers(ms.more));
      OccursOne(s, c, COMMA);
    }
  }

  lemma {:induction false} ArraySound(s: seq<byte>, i: nat, depth: nat) returns (v: Value)
    requires i <= |s| && ScanArray(s, i, depth).At?
    ensures v.Array? && ValueOk(v) && depth + Nesting(v) <= MAX_DEPTH
    ensures Occurs(s, i, Render(v)) && ScanArray(s, i, depth).next == i + |Render(v)|
    decreases |s| - i, 2
  {
    hide Occurs, RenderItems, ScanItems, SkipWs, IsWs;
    var blank := Blank(s, i + 1);
    var j := i + 1 + |blank|;
    OccursOne(s, i, LBRACKET);
    if j < |s| && s[j] == RBRACKET {
      v := Array(blank, NoItems);
      OccursOne(s, j, RBRACKET);
      OccursConcat(s, i + 1, blank, [RBRACKET]);
      OccursConcat(s, i, [LBRACKET], blank + [RBRACKET]);
    } else {
      var items := ItemsSound(s, i + 1, blank, depth + 1);
      v := Array([], items);
      OccursConcat(s, i, [LBRACKET], RenderItems(items));
    }
  }

  lemma {:induction false} ItemsSound(s: seq<byte>, i: nat, before: seq<byte>, depth: nat) returns (items: Items)
    requires Occurs(s, i, before) && AllWs(before) && SkipWs(s, i) == i + |before|
    requires depth <= MAX_DEPTH && ScanItems(s, i + |before|, depth).At?
    ensures items.Item? && ItemsOk(items) && depth + ItemsNesting(items) <= MAX_DEPTH
    ensures Occurs(s, i, RenderItems(items))
    ensures ScanItems(s, i + |before|, depth).next == i + |RenderItems(items)|
    decreases |s| - i - |before|, 4
  {
    hide Occurs, AllWs, IsWs, Render, RenderItems, ScanValue, SkipWs;
    var j := i + |before|;
    SkipWsTwice(s, i);
    var pad, value := ValueSound(s, j, depth);
    var b := j + |Render(value)|;
    var after := Blank(s, b);
    var c := b + |after|;
    var rest := NoItems;
    if s[c] == COMMA {
      var next := Blank(s, c + 1);
      rest := ItemsSound(s, c + 1, next, depth);
    }
    items := Item(before, value, after, rest);
    OccursItem(s, i, items, j, b, c);
  }

  lemma SkipWsTwice(s: seq<byte>, i: nat)
    requires i <= |s|
    ensures SkipWs(s, SkipWs(s, i)) == SkipWs(s, i)
  {
    SkipWsSound(s, i);
  }

  lemma OccursItem(s: seq<byte>, i: nat, items: Items, j: nat, b: nat, c: nat)
    requires items.Item?
    requires j == i + |items.before| && b == j + |Render(items.value)| && c == b + |items.after|
    ensures Occurs(s, i, RenderItems(items)) <==>
            && Occurs(s, i, items.before) && Occurs(s, j, Render(items.value)) && Occurs(s, b, items.after)
            && c < |s| && (if items.rest.NoItems? then s[c] == RBRACKET
                           else s[c] == COMMA && Occurs(s, c + 1, RenderItems(items.rest)))
    ensures |RenderItems(items)| == c - i + (if items.rest.NoItems? then 1 else 1 + |RenderItems(items.rest)|)
  {
    hide Occurs;
    var t2 := if items.rest.NoItems? then [RBRACKET] else [COMMA] + RenderItems(items.rest);
    var t1 := items.after + t2;
    var t0 := Render(items.value) + t1;
    OccursConcat(s, i, items.before, t0);
    OccursConcat(s, j, Render(items.value), t1);
    OccursConcat(s, b, items.after, t2);
    if items.rest.NoItems? {
      OccursOne(s, c, RBRACKET);
    } else {
      OccursConcat(s, c, [COMMA], RenderItems(items.rest));
      OccursOne(s, c, COMMA);
    }
  }

  // ---- Values: completeness ---------------------------------------------------------------

  /** The first byte of a value: never white space, and it tells the kinds apart. */
  lemma FirstByte(v: Value)
    requires ValueOk(v)
    ensures Render(v) != [] && !IsWs(Render(v)[0])
    ensures v.StringValue? <==> Render(v)[0] == QUOTE
    ensures v.Object? <==> Render(v)[0] == LBRACE
    ensures v.Array? <==> Render(v)[0] == LBRACKET
    ensures v == Literal(TRUE) <==> Render(v)[0] == LOWER_T
    ensures v == Literal(FALSE) <==> Render(v)[0] == LOWER_F
    ensures v == Literal(NULL) <==> Render(v)[0] == LOWER_N
    ensures Render(v)[0] != RBRACE && Render(v)[0] != RBRACKET && Render(v)[0] != COMMA
  {
    if v.NumberValue? {
      assert Render(v)[0] == if v.number.minus then MINUS else v.number.whole[0];
    }
  }

  lemma {:induction false} ValueComplete(s: seq<byte>, i: nat, lead: seq<byte>, v: Value, depth: nat)
    requires AllWs(lead) && ValueOk(v) && Occurs(s, i, lead) && Occurs(s, i + |lead|, Render(v))
    requires depth + Nesting(v) <= MAX_DEPTH && Delimited(s, i + |lead| + |Render(v)|)
    ensures SkipWs(s, i) == i + |lead| && ScanValue(s, i, depth) == At(i + |lead| + |Render(v)|)
    decreases v, 1
  {
    hide Occurs;
    var j := i + |lead|;
    FirstByte(v);
    OccursAt(s, j, Render(v), 0);
    SkipWsComplete(s, i, lead);
    match v
    case Literal(text) =>
    case NumberValue(n) => NumberComplete(s, j, n);
    case StringValue(cs) => StringComplete(s, j, cs);
    case Array(_, _) => ArrayComplete(s, j, v, depth);
    case Object(_, _) => ObjectComplete(s, j, v, depth);
  }

  lemma NotWs(b: byte)
    requires b == RBRACE || b == RBRACKET
    ensures !IsWs(b)
  {
  }

  lemma {:induction false} ObjectComplete(s: seq<byte>, i: nat, v: Value, depth: nat)
    requires v.Object? && ValueOk(v) && Occurs(s, i, Render(v)) && depth + Nesting(v) <= MAX_DEPTH
    ensures ScanObject(s, i, depth) == At(i + |Render(v)|)
    decreases v, 0
  {
    hide Occurs, RenderMembers, ScanMembers, MembersOk, SkipWs, IsWs;
    OccursOne(s, i, LBRACE);
    NotWs(RBRACE);
    if v.members.NoMembers? {
      OccursConcat(s, i, [LBRACE], v.blank + [RBRACE]);
      OccursConcat(s, i + 1, v.blank, [RBRACE]);
      OccursOne(s, i + 1 + |v.blank|, RBRACE);
      SkipWsComplete(s, i + 1, v.blank);
    } else {
      OccursConcat(s, i, [LBRACE], RenderMembers(v.members));
      MembersComplete(s, i + 1, v.members, depth + 1);
    }
  }

  lemma {:induction false} MembersComplete(s: seq<byte>, i: nat, ms: Members, depth: nat)
    requires ms.Member? && MembersOk(ms) && Occurs(s, i, RenderMembers(ms))
    requires depth + MembersNesting(ms) <= MAX_DEPTH
    ensures var j := i + |ms.before|;
            && SkipWs(s, i) == j < |s| && s[j] == QUOTE
            && ScanMembers(s, j, depth) == At(i + |RenderMembers(ms)|)
    decreases ms, 0
  {
    hide Occurs, AllWs, CharsOk, Render, RenderMembers, ScanString, ScanValue, SkipWs;
    var j := i + |ms.before|;
    var a := j + |RenderString(ms.name)|;
    var colon := a + |ms.gap|;
    var b := colon + 1 + |ms.pad| + |Render(ms.value)|;
    var c := b + |ms.after|;
    OccursMember(s, i, ms, j, a, colon, b, c);
    OccursAt(s, j, RenderString(ms.name), 0);
    SkipWsComplete(s, i, ms.before);
    StringComplete(s, j, ms.name);
    SkipWsComplete(s, a, ms.gap);
    SkipWsComplete(s, b, ms.after);
    DelimitedByWs(s, b, ms.after);
    ValueComplete(s, colon + 1, ms.pad, ms.value, depth);
    if ms.more.Member? {
      MembersComplete(s, c + 1, ms.more, depth);
    }
  }

  lemma DelimitedByWs(s: seq<byte>, b: nat, w: seq<byte>)
    requires AllWs(w) && Occurs(s, b, w) && Delimited(s, b + |w|)
    ensures Delimited(s, b)
  {
    if w != [] {
      OccursAt(s, b, w, 0);
    }
  }

  lemma {:induction false} ArrayComplete(s: seq<byte>, i: nat, v: Value, depth: nat)
    requires v.Array? && ValueOk(v) && Occurs(s, i, Render(v)) && depth + Nesting(v) <= MAX_DEPTH
    ensures ScanArray(s, i, depth) == At(i + |Render(v)|)
    decreases v, 0
  {
    hide Occurs, RenderItems, ScanItems, ItemsOk, SkipWs;
    OccursOne(s, i, LBRACKET);
    if v.items.NoItems? {
      OccursConcat(s, i, [LBRACKET], v.blank + [RBRACKET]);
      OccursConcat(s, i + 1, v.blank, [RBRACKET]);
      OccursOne(s, i + 1 + |v.blank|, RBRACKET);
      SkipWsComplete(s, i + 1, v.blank);
    } else {
      OccursConcat(s, i, [LBRACKET], RenderItems(v.items));
      ItemsComplete(s, i + 1, v.items, depth + 1);
    }
  }

  lemma {:induction false} ItemsComplete(s: seq<byte>, i: nat, items: Items, depth: nat)
    requires items.Item? && ItemsOk(items) && Occurs(s, i, RenderItems(items))
    requires depth + ItemsNesting(items) <= MAX_DEPTH
    ensures var j := i + |items.before|;
            && SkipWs(s, i) == j < |s| && s[j] != RBRACKET
            && ScanItems(s, j, depth) == At(i + |RenderItems(items)|)
    decreases items, 0
  {
    hide Occurs, Render, RenderItems, ScanValue, SkipWs;
    var j := i + |items.before|;
    var b := j + |Render(items.value)|;
    var c := b + |items.after|;
    OccursItem(s, i, items, j, b, c);
    FirstByte(items.value);
    OccursAt(s, j, Render(items.value), 0);
    SkipWsComplete(s, i, items.before);
    SkipWsComplete(s, b, items.after);
    DelimitedByWs(s, b, items.after);
    OccursNil(s, j);
    ValueComplete(s, j, [], items.value, depth);
    if items.rest.Item? {
      ItemsComplete(s, c + 1, items.rest, depth);
    }
  }

  lemma OccursSlice(s: seq<byte>, i: nat, j: nat)
    requires i <= j <= |s|
    ensures Occurs(s, i, s[i..j])
  {
  }

  lemma OccursNil(s: seq<byte>, i: nat)
    ensures Occurs(s, i, []) <==> i <= |s|
  {
  }

  // ---- The document -----------------------------------------------------------------------

  /** Accepted texts, with the tree and the white space around it. */
  lemma AcceptsSound(s: seq<byte>) returns (lead: seq<byte>, v: Value, trail: seq<byte>)
    requires Accepts(s)
    ensures IsDocument(s, lead, v, trail) && Nesting(v) <= MAX_DEPTH
    ensures SkipWs(s, 0) == |lead| && Occurs(s, |lead|, Render(v))
  {
    hide Render, ScanObject, SkipWs, ValueOk, IsWs;
    lead := Blank(s, 0);
    v := ObjectSound(s, |lead|, 0);
    var j := |lead| + |Render(v)|;
    trail := Blank(s, j);
    assert s == s[..|lead|] + (s[|lead|..j] + s[j..]);
  }

  /** The object of a document starts behind the leading white space. */
  lemma Opening(s: seq<byte>, lead: seq<byte>, v: Value, trail: seq<byte>)
    requires IsDocument(s, lead, v, trail)
    ensures SkipWs(s, 0) == |lead| < |s| && s[|lead|] == LBRACE && Occurs(s, |lead|, Render(v))
    ensures |lead| + |Render(v)| <= |s| && SkipWs(s, |lead| + |Render(v)|) == |s|
  {
    hide Occurs, SkipWs, AllWs, ValueOk, Render;
    var text := Render(v);
    assert text != [] && text[0] == LBRACE by { FirstByte(v); }
    OccursThree(s, lead, text, trail);
    Between(s, lead, text, trail);
  }

  lemma Between(s: seq<byte>, lead: seq<byte>, text: seq<byte>, trail: seq<byte>)
    requires AllWs(lead) && AllWs(trail) && text != [] && !IsWs(text[0]) && |s| == |lead| + |text| + |trail|
    requires Occurs(s, 0, lead) && Occurs(s, |lead|, text) && Occurs(s, |lead| + |text|, trail)
    ensures SkipWs(s, 0) == |lead| < |s| && s[|lead|] == text[0] && Occurs(s, |lead|, text)
    ensures |lead| + |text| <= |s| && SkipWs(s, |lead| + |text|) == |s|
  {
    hide Occurs, SkipWs, AllWs, IsWs;
    OccursAt(s, |lead|, text, 0);
    SkipWsComplete(s, 0, lead);
    SkipWsComplete(s, |lead| + |text|, trail);
  }

  lemma AcceptsComplete(s: seq<byte>, lead: seq<byte>, v: Value, trail: seq<byte>)
    requires IsDocument(s, lead, v, trail) && Nesting(v) <= MAX_DEPTH
    ensures Accepts(s)
  {
    hide Render, ScanObject, SkipWs, ValueOk, Occurs;
    Opening(s, lead, v, trail);
    ObjectComplete(s, |lead|, v, 0);
  }

  /** The recogniser is sound and complete. */
  lemma AcceptsIffGrammar(s: seq<byte>)
    ensures Accepts(s) <==> ValidDocument(s)
  {
    if Accepts(s) {
      var lead, v, trail := AcceptsSound(s);
    }
    if ValidDocument(s) {
      var lead, v, trail :| IsDocument(s, lead, v, trail) && Nesting(v) <= MAX_DEPTH;
      AcceptsComplete(s, lead, v, trail);
    }
  }
}
