/** The cursor that `json.c` moves through a text, each method proved against the scanning functions. */
module JsonCursor {
  import opened Bytes
  import opened JsonGrammar
  import opened JsonRecogniser
  import opened JsonCorrect

  class Cursor {
    const s: seq<byte>
    var i: nat
    var depth: nat

    constructor (s: seq<byte>, at: nat)
      requires at <= |s|
      ensures this.s == s && i == at && depth == 0
    {
      this.s := s;
      i := at;
      depth := 0;
    }

    ghost predicate Inside()
      reads this
    {
      i <= |s|
    }

    /** What every parsing method promises when it started at `from` under `open` containers. */
    ghost predicate Moved(ok: bool, r: Scan, open: nat)
      reads this
    {
      Inside() && ok == r.At? && (ok ==> i == r.next && depth == open)
    }

    method SkipBlanks()
      requires Inside()
      modifies this`i
      ensures Inside() && i == SkipWs(s, old(i))
    {
      while i < |s| && IsWs(s[i])
        invariant Inside() && SkipWs(s, i) == SkipWs(s, old(i))
      {
        i := i + 1;
      }
    }

    method DigitRun()
      requires Inside()
      modifies this`i
      ensures Inside() && i == SkipDigits(s, old(i))
    {
      while i < |s| && IsDigit(s[i])
        invariant Inside() && SkipDigits(s, i) == SkipDigits(s, old(i))
      {
        i := i + 1;
      }
    }

    method ParseString() returns (ok: bool)
      requires Inside()
      modifies this`i
      ensures Moved(ok, ScanString(s, old(i)), depth)
    {
      if i >= |s| { return false; }
      i := i + 1;
      if s[i - 1] != QUOTE { return false; }
      while i < |s|
        invariant Inside() && ScanChars(s, i) == ScanString(s, old(i))
      {
        var ch := s[i];
        i := i + 1;
        if ch == QUOTE { return true; }
        if ch < 0x20 { return false; }
        if ch != BACKSLASH { continue; }
        if i >= |s| { return false; }
        ghost var escape := i;
        ch := s[i];
        i := i + 1;
        if ch == LOWER_U {
          var j := 0;
          while j < 4
            invariant 0 <= j <= 4 && i == escape + 1 + j <= |s|
            invariant forall k :: escape < k <= escape + j ==> IsHex(s[k])
          {
            if i >= |s| { return false; }
            i := i + 1;
            if !IsHex(s[i - 1]) { return false; }
            j := j + 1;
          }
        } else if !IsSimpleEscape(ch) {
          return false;
        }
      }
      return false;
    }

    method ParseLiteral(text: seq<byte>) returns (ok: bool)
      requires Inside()
      modifies this`i
      ensures Moved(ok, ScanLiteral(s, old(i), text), depth)
      ensures !ok ==> i == old(i)
    {
      if i + |text| > |s| || s[i..i + |text|] != text { return false; }
      i := i + |text|;
      return true;
    }

    // The three parts of parse_number, in order.

    method ParseWhole() returns (ok: bool)
      requires Inside()
      modifies this`i
      ensures Moved(ok, ScanWhole(s, old(i)), depth)
    {
      if i >= |s| { return false; }
      if s[i] == ZERO {
        i := i + 1;
        if i < |s| && IsDigit(s[i]) { return false; }
      } else {
        if !IsDigit(s[i]) { return false; }
        DigitRun();
      }
      return true;
    }

    method ParseFraction() returns (ok: bool)
      requires Inside()
      modifies this`i
      ensures Moved(ok, ScanFraction(s, old(i)), depth)
    {
      if i < |s| && s[i] == DOT {
        i := i + 1;
        if i >= |s| || !IsDigit(s[i]) { return false; }
        DigitRun();
      }
      return true;
    }

    method ParseExponent() returns (ok: bool)
      requires Inside()
      modifies this`i
      ensures Moved(ok, ScanExponent(s, old(i)), depth)
    {
      if i < |s| && (s[i] == LOWER_E || s[i] == UPPER_E) {
        i := i + 1;
        if i < |s| && (s[i] == PLUS || s[i] == MINUS) { i := i + 1; }
        if i >= |s| || !IsDigit(s[i]) { return false; }
        DigitRun();
      }
      return true;
    }

    method ParseNumber() returns (ok: bool)
      requires Inside()
      modifies this`i
      ensures Moved(ok, ScanNumber(s, old(i)), depth)
    {
      hide ScanWhole, ScanFraction, ScanExponent;
      if i < |s| && s[i] == MINUS { i := i + 1; }
      ok := ParseWhole();
      if !ok { return false; }
      ok := ParseFraction();
      if !ok { return false; }
      ok := ParseExponent();
    }

    method ParseObject() returns (ok: bool)
      requires Inside()
      modifies this
      ensures Moved(ok, ScanObject(s, old(i), old(depth)), old(depth))
      decreases |s| - i, 2
    {
      hide ScanValue, ScanString, ScanMembers, MemberEnd, SkipWs, IsWs;
      ghost var r := ScanObject(s, i, depth);
      if i >= |s| { return false; }
      i := i + 1;
      if s[i - 1] != LBRACE { return false; }
      depth := depth + 1;
      if depth > MAX_DEPTH { return false; }
      SkipBlanks();
      if i < |s| && s[i] == RBRACE { i := i + 1; depth := depth - 1; return true; }
      while true
        invariant Inside() && old(i) < i && depth == old(depth) + 1
        invariant ScanMembers(s, i, depth) == r
        decreases |s| - i
      {
        MembersByOne(s, i, depth);
        ok := ParseMember();
        if !ok { return false; }
        if i < |s| && s[i] == RBRACE { i := i + 1; depth := depth - 1; return true; }
        if i >= |s| { return false; }
        i := i + 1;
        if s[i - 1] != COMMA { return false; }
        SkipBlanks();
        if i >= |s| || s[i] == RBRACE { return false; }
      }
    }

    /** The part of the loop up to the value of a member and the white space behind it. */
    method ParseMember() returns (ok: bool)
      requires Inside()
      modifies this
      ensures Moved(ok, MemberEnd(s, old(i), old(depth)), old(depth))
      decreases |s| - i, 4
    {
      hide ScanValue, ScanString, SkipWs, IsWs;
      ok := ParseString();
      if !ok { return false; }
      SkipBlanks();
      if i >= |s| { return false; }
      i := i + 1;
      if s[i - 1] != COLON { return false; }
      ok := ParseValue();
      if !ok { return false; }
      SkipBlanks();
    }

    method ParseArray() returns (ok: bool)
      requires Inside()
      modifies this
      ensures Moved(ok, ScanArray(s, old(i), old(depth)), old(depth))
      decreases |s| - i, 2
    {
      hide ScanValue, SkipWs, IsWs;
      ghost var r := ScanArray(s, i, depth);
      if i >= |s| { return false; }
      i := i + 1;
      if s[i - 1] != LBRACKET { return false; }
      depth := depth + 1;
      if depth > MAX_DEPTH { return false; }
      SkipBlanks();
      if i < |s| && s[i] == RBRACKET { i := i + 1; depth := depth - 1; return true; }
      while true
        invariant Inside() && old(i) < i && depth == old(depth) + 1
        invariant ScanItems(s, i, depth) == r
        decreases |s| - i
      {
        ok := ParseValue();
        if !ok { return false; }
        SkipBlanks();
        if i < |s| && s[i] == RBRACKET { i := i + 1; depth := depth - 1; return true; }
        if i >= |s| { return false; }
        i := i + 1;
        if s[i - 1] != COMMA { return false; }
        SkipBlanks();
        if i >= |s| || s[i] == RBRACKET { return false; }
      }
    }

    method ParseValue() returns (ok: bool)
      requires Inside()
      modifies this
      ensures Moved(ok, ScanValue(s, old(i), old(depth)), old(depth))
      decreases |s| - i, 3
    {
      SkipBlanks();
      if i >= |s| { return false; }
      if s[i] == QUOTE {
        ok := ParseString();
      } else if s[i] == LBRACE {
        ok := ParseObject();
      } else if s[i] == LBRACKET {
        ok := ParseArray();
      } else if s[i] == LOWER_T {
        ok := ParseLiteral(TRUE);
      } else if s[i] == LOWER_F {
        ok := ParseLiteral(FALSE);
      } else if s[i] == LOWER_N {
        ok := ParseLiteral(NULL);
      } else {
        ok := ParseNumber();
      }
    }
  }

  /** Accepts exactly the documents of the grammar whose containers nest at most `MAX_DEPTH` deep. */
  method ValidObject(s: seq<byte>) returns (ok: bool)
    ensures ok <==> ValidDocument(s)
  {
    AcceptsIffGrammar(s);
    var c := new Cursor(s, 0);
    c.SkipBlanks();
    ok := c.ParseObject();
    if !ok { return false; }
    c.SkipBlanks();
    return c.i == |s|;
  }
}
