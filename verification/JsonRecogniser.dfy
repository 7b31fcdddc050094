/**
 * The recursive-descent recogniser as functions on positions: how far each part of it gets, or that it fails.
 */
module JsonRecogniser {
  import opened Bytes
  import opened JsonGrammar

  /** Where a scan that started inside the text stopped, if it succeeded. */
  datatype Scan = Fail | At(next: nat)

  function SkipWs(s: seq<byte>, i: nat): (j: nat)
    requires i <= |s|
    ensures i <= j <= |s|
    decreases |s| - i
  {
    if i < |s| && IsWs(s[i]) then SkipWs(s, i + 1) else i
  }

  function SkipDigits(s: seq<byte>, i: nat): (j: nat)
    requires i <= |s|
    ensures i <= j <= |s|
    decreases |s| - i
  {
    if i < |s| && IsDigit(s[i]) then SkipDigits(s, i + 1) else i
  }

  /** At least one digit, then all that follow. */
  function ScanDigits(s: seq<byte>, i: nat): (r: Scan)
    requires i <= |s|
    ensures r.At? ==> i < r.next <= |s|
  {
    if i < |s| && IsDigit(s[i]) then At(SkipDigits(s, i)) else Fail
  }

  function ScanChars(s: seq<byte>, i: nat): (r: Scan)
    requires i <= |s|
    ensures r.At? ==> i < r.next <= |s|
    decreases |s| - i
  {
    if i >= |s| then Fail
    else if s[i] == QUOTE then At(i + 1)
    else if s[i] < 0x20 then Fail
    else if s[i] != BACKSLASH then ScanChars(s, i + 1)
    else if i + 1 >= |s| then Fail
    else if s[i + 1] == LOWER_U then
      if i + 6 <= |s| && IsHex(s[i + 2]) && IsHex(s[i + 3]) && IsHex(s[i + 4]) && IsHex(s[i + 5])
      then ScanChars(s, i + 6) else Fail
    else if IsSimpleEscape(s[i + 1]) then ScanChars(s, i + 2)
    else Fail
  }

  function ScanString(s: seq<byte>, i: nat): (r: Scan)
    requires i <= |s|
    ensures r.At? ==> i < r.next <= |s|
  {
    if i < |s| && s[i] == QUOTE then ScanChars(s, i + 1) else Fail
  }

  function ScanWhole(s: seq<byte>, i: nat): (r: Scan)
    requires i <= |s|
    ensures r.At? ==> i < r.next <= |s|
  {
    if i < |s| && s[i] == ZERO then
      if i + 1 < |s| && IsDigit(s[i + 1]) then Fail else At(i + 1)
    else ScanDigits(s, i)
  }

  function ScanFraction(s: seq<byte>, i: nat): (r: Scan)
    requires i <= |s|
    ensures r.At? ==> i <= r.next <= |s|
  {
    if i < |s| && s[i] == DOT then ScanDigits(s, i + 1) else At(i)
  }

  function SkipSign(s: seq<byte>, i: nat): (j: nat)
    requires i <= |s|
    ensures i <= j <= |s|
  {
    if i < |s| && (s[i] == PLUS || s[i] == MINUS) then i + 1 else i
  }

  function ScanExponent(s: seq<byte>, i: nat): (r: Scan)
    requires i <= |s|
    ensures r.At? ==> i <= r.next <= |s|
  {
    if i < |s| && (s[i] == LOWER_E || s[i] == UPPER_E) then ScanDigits(s, SkipSign(s, i + 1)) else At(i)
  }

  function ScanNumber(s: seq<byte>, i: nat): (r: Scan)
    requires i <= |s|
    ensures r.At? ==> i < r.next <= |s|
  {
    var whole := ScanWhole(s, if i < |s| && s[i] == MINUS then i + 1 else i);
    if whole.Fail? then Fail else
    var fraction := ScanFraction(s, whole.next);
    if fraction.Fail? then Fail else
    ScanExponent(s, fraction.next)
  }

  function ScanLiteral(s: seq<byte>, i: nat, text: seq<byte>): (r: Scan)
    requires i <= |s|
    ensures r.At? ==> r.next == i + |text| <= |s|
  {
    if Occurs(s, i, text) then At(i + |text|) else Fail
  }

  /** `depth` counts the containers already open around position `i`. */
  function ScanValue(s: seq<byte>, i: nat, depth: nat): (r: Scan)
    requires i <= |s|
    ensures r.At? ==> i < r.next <= |s|
    decreases |s| - i, 3
  {
    var j := SkipWs(s, i);
    if j >= |s| then Fail
    else if s[j] == QUOTE then ScanString(s, j)
    else if s[j] == LBRACE then ScanObject(s, j, depth)
    else if s[j] == LBRACKET then ScanArray(s, j, depth)
    else if s[j] == LOWER_T then ScanLiteral(s, j, TRUE)
    else if s[j] == LOWER_F then ScanLiteral(s, j, FALSE)
    else if s[j] == LOWER_N then ScanLiteral(s, j, NULL)
    else ScanNumber(s, j)
  }

  function ScanObject(s: seq<byte>, i: nat, depth: nat): (r: Scan)
    requires i <= |s|
    ensures r.At? ==> i + 1 < r.next <= |s|
    decreases |s| - i, 2
  {
    if i >= |s| || s[i] != LBRACE || depth + 1 > MAX_DEPTH then Fail else
    var j := SkipWs(s, i + 1);
    if j < |s| && s[j] == RBRACE then At(j + 1) else ScanMembers(s, j, depth + 1)
  }

  /** One member and all that follow it, up to and including the closing brace. */
  function ScanMembers(s: seq<byte>, i: nat, depth: nat): (r: Scan)
    requires i <= |s|
    ensures r.At? ==> i < r.next <= |s|
    decreases |s| - i, 1
  {
    var name := ScanString(s, i);
    if name.Fail? then Fail else
    var colon := SkipWs(s, name.next);
    if colon >= |s| || s[colon] != COLON then Fail else
    var value := ScanValue(s, colon + 1, depth);
    if value.Fail? then Fail else
    var j := SkipWs(s, value.next);
    if j >= |s| then Fail
    else if s[j] == RBRACE then At(j + 1)
    else if s[j] != COMMA then Fail else
    var k := SkipWs(s, j + 1);
    if k >= |s| || s[k] == RBRACE then Fail else ScanMembers(s, k, depth)
  }

  /** Where a member and the white space behind it end. */
  function MemberEnd(s: seq<byte>, i: nat, depth: nat): (r: Scan)
    requires i <= |s|
    ensures r.At? ==> i < r.next <= |s|
  {
    var name := ScanString(s, i);
    if name.Fail? then Fail else
    var colon := SkipWs(s, name.next);
    if colon >= |s| || s[colon] != COLON then Fail else
    var value := ScanValue(s, colon + 1, depth);
    if value.Fail? then Fail else At(SkipWs(s, value.next))
  }

  /** The list of members, one at a time. */
  lemma MembersByOne(s: seq<byte>, i: nat, depth: nat)
    requires i <= |s|
    ensures MemberEnd(s, i, depth).Fail? ==> ScanMembers(s, i, depth).Fail?
    ensures MemberEnd(s, i, depth).At? ==>
              var j := MemberEnd(s, i, depth).next;
              && (j >= |s| ==> ScanMembers(s, i, depth).Fail?)
              && (j < |s| && s[j] == RBRACE ==> ScanMembers(s, i, depth) == At(j + 1))
              && (j < |s| && s[j] != RBRACE && s[j] != COMMA ==> ScanMembers(s, i, depth).Fail?)
              && (j < |s| && s[j] == COMMA ==>
                    var k := SkipWs(s, j + 1);
                    ScanMembers(s, i, depth) == if k >= |s| || s[k] == RBRACE then Fail else ScanMembers(s, k, depth))
  {
    hide ScanValue, ScanString, SkipWs;
  }

  function ScanArray(s: seq<byte>, i: nat, depth: nat): (r: Scan)
    requires i <= |s|
    ensures r.At? ==> i + 1 < r.next <= |s|
    decreases |s| - i, 2
  {
    if i >= |s| || s[i] != LBRACKET || depth + 1 > MAX_DEPTH then Fail else
    var j := SkipWs(s, i + 1);
    if j < |s| && s[j] == RBRACKET then At(j + 1) else ScanItems(s, j, depth + 1)
  }

  function ScanItems(s: seq<byte>, i: nat, depth: nat): (r: Scan)
    requires i <= |s|
    ensures r.At? ==> i < r.next <= |s|
    decreases |s| - i, 4
  {
    var value := ScanValue(s, i, depth);
    if value.Fail? then Fail else
    var j := SkipWs(s, value.next);
    if j >= |s| then Fail
    else if s[j] == RBRACKET then At(j + 1)
    else if s[j] != COMMA then Fail else
    var k := SkipWs(s, j + 1);
    if k >= |s| || s[k] == RBRACKET then Fail else ScanItems(s, k, depth)
  }

  /** A whole document: white space, one object, white space, end. */
  predicate Accepts(s: seq<byte>) {
    var r := ScanObject(s, SkipWs(s, 0), 0);
    r.At? && SkipWs(s, r.next) == |s|
  }
}
