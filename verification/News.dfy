/** The news feed: which documents are accepted, and exactly which items come out, in which order. */
module News {
  import opened Bytes
  import opened JsonGrammar
  import opened JsonRecogniser
  import opened JsonCursor
  import opened JsonMembers
  import opened JsonStrings
  import opened NewsOrder
  import opened Wrappers

  const MAX_BYTES: nat := 32768
  const MAX_ITEMS: nat := 20
  const MAX_MEMBERS: nat := 12

  /** The bytes of an ASCII word. */
  function Word(s: string): seq<byte> {
    seq(|s|, i requires 0 <= i < |s| => (s[i] as int) % 0x80)
  }

  // ---- One field --------------------------------------------------------------------------

  /** `json_string_span`: the span is one string and nothing else, and its text fits `z` bytes. */
  function SpanText(t: seq<byte>, z: nat): Text {
    var i := SkipWs(t, 0);
    if z < 2 || i >= |t| || t[i] != QUOTE then NoText else
    var r := ScanValue(t, i, 0);
    if r.Fail? || SkipWs(t, r.next) != |t| then NoText else
    var d := Decode(t, i);
    if d.Text? && |d.bytes| + 1 <= z then d else NoText
  }

  /** The string at `i`, decoded into a buffer of `z` bytes and read back up to its terminator. */
  method StringAt(t: seq<byte>, i: nat, z: nat) returns (text: Text)
    ensures text == if Decode(t, i).Text? && |Decode(t, i).bytes| + 1 <= z then Decode(t, i) else NoText
  {
    var out := new byte[z];
    var ok := GetStringAt(t, i, out);
    if !ok { return NoText; }
    DecodedAboveControls(t, i + 1);
    ghost var v := Decode(t, i).bytes;
    assert forall k :: 0 <= k < |v| ==> out[k] == out[..|v|][k];
    var n := 0;
    while out[n] != 0
      invariant n <= |v|
      decreases |v| - n
    {
      n := n + 1;
    }
    return Text(out[..n]);
  }

  method StringSpan(t: seq<byte>, z: nat) returns (text: Text)
    ensures text == SpanText(t, z)
  {
    var c := new Cursor(t, 0);
    c.SkipBlanks();
    var i := c.i;
    if z < 2 || i >= |t| || t[i] != QUOTE { return NoText; }
    var probe := new Cursor(t, i);
    var ok := probe.ParseValue();
    if !ok { return NoText; }
    probe.SkipBlanks();
    if probe.i != |t| { return NoText; }
    text := StringAt(t, i, z);
  }

  /** Decoded text never holds a terminator. */
  lemma {:induction false} DecodedAboveControls(s: seq<byte>, i: nat)
    requires i <= |s| && DecodeFrom(s, i).Text?
    ensures forall k :: 0 <= k < |DecodeFrom(s, i).bytes| ==> DecodeFrom(s, i).bytes[k] >= 0x20
    decreases |s| - i
  {
    if s[i] != QUOTE {
      var p := PieceAt(s, i);
      DecodedAboveControls(s, p.next);
      PieceAboveControls(s, i);
    }
  }

  lemma PieceAboveControls(s: seq<byte>, i: nat)
    requires i < |s| && s[i] != QUOTE && PieceAt(s, i).Piece?
    ensures var b := PieceAt(s, i).bytes; forall k :: 0 <= k < |b| ==> b[k] >= 0x20
  {
  }

  // ---- One item ---------------------------------------------------------------------------

  datatype Field = Id | Kind | Date | Title | Summary | Url | Severity

  /** The members of an item that are read; the others are ignored. */
  function FieldNamed(name: seq<byte>): (f: Option<Field>) {
    if name == Word("id") then Some(Id)
    else if name == Word("type") then Some(Kind)
    else if name == Word("date") then Some(Date)
    else if name == Word("title") then Some(Title)
    else if name == Word("summary") then Some(Summary)
    else if name == Word("url") then Some(Url)
    else if name == Word("severity") then Some(Severity)
    else None
  }

  /** Size of the buffer a field is decoded into. */
  function Capacity(f: Field): nat {
    match f
    case Id => 65
    case Kind => 16
    case Date => 11
    case Title => 121
    case Summary => 401
    case Url => 257
    case Severity => 12
  }

  type Fields = map<Field, seq<byte>>

  function ItemOf(fields: Fields): NewsItem {
    var Get := (f: Field) => if f in fields then fields[f] else [];
    NewsItem(Get(Id), Get(Kind), Get(Date), Get(Title), Get(Summary), Get(Url), Get(Severity))
  }

  predicate ValidId(s: seq<byte>) {
    0 < |s| <= 64 && forall k :: 0 <= k < |s| ==>
      0x61 <= s[k] <= 0x7A || IsDigit(s[k]) || s[k] == DOT || s[k] == 0x5F || s[k] == MINUS
  }

  predicate ValidDate(s: seq<byte>) {
    && |s| == 10 && s[4] == MINUS && s[7] == MINUS
    && (forall k :: 0 <= k < 10 && k != 4 && k != 7 ==> IsDigit(s[k]))
    && (s[5] == ZERO || (s[5] == 0x31 && s[6] <= 0x32)) && !(s[5] == ZERO && s[6] == ZERO)
    && !(s[8] == ZERO && s[9] == ZERO) && (s[8] < 0x33 || (s[8] == 0x33 && s[9] <= 0x31))
  }

  predicate PlainText(s: seq<byte>) {
    forall k :: 0 <= k < |s| ==> s[k] >= 0x20 && s[k] != 0x7F
  }

  /** The host of a URL ends at the first of `/`, `?` and `#`. */
  function HostEnd(url: seq<byte>, i: nat): (j: nat)
    requires i <= |url|
    ensures i <= j <= |url|
    decreases |url| - i
  {
    if i < |url| && url[i] != SLASH && url[i] != 0x3F && url[i] != 0x23 then HostEnd(url, i + 1) else i
  }

  predicate UrlAllowed(url: seq<byte>) {
    && 8 <= |url| <= 256 && Occurs(url, 0, Word("https://"))
    && (forall k :: 0 <= k < |url| ==>
          0x20 < url[k] < 0x7F && url[k] != QUOTE && url[k] != BACKSLASH && url[k] != 0x3C && url[k] != 0x3E)
    && (url[8..HostEnd(url, 8)] in {Word("github.com"), Word("libreecho.org"), Word("dl.libreecho.org")})
  }

  predicate Acceptable(fields: Fields) {
    var it := ItemOf(fields);
    && {Id, Kind, Date, Title, Summary, Url} <= fields.Keys
    && ValidId(it.id) && ValidDate(it.date) && it.title != [] && PlainText(it.title) && PlainText(it.summary)
    && UrlAllowed(it.url) && (it.severity == [] || it.severity == Word("info") || it.severity == Word("important"))
  }

  predicate KnownKind(it: NewsItem) {
    it.kind == Word("release") || it.kind == Word("progress") || it.kind == Word("announcement")
    || it.kind == Word("security")
  }

  predicate SpanInside(e: seq<byte>, span: Span) {
    span.nameStart <= span.nameEnd <= |e| && span.valueStart <= span.valueEnd <= |e|
  }

  function RawName(e: seq<byte>, span: Span): seq<byte>
    requires SpanInside(e, span)
  {
    e[span.nameStart..span.nameEnd]
  }

  function RawValue(e: seq<byte>, span: Span): seq<byte>
    requires SpanInside(e, span)
  {
    e[span.valueStart..span.valueEnd]
  }

  predicate Inside(e: seq<byte>, spans: seq<Span>) {
    forall k :: 0 <= k < |spans| ==> SpanInside(e, spans[k])
  }

  predicate DistinctNames(e: seq<byte>, spans: seq<Span>)
    requires Inside(e, spans)
  {
    forall j, k :: 0 <= j < k < |spans| ==> RawName(e, spans[j]) != RawName(e, spans[k])
  }

  /** A known member puts its text into its field. */
  predicate Fills(e: seq<byte>, span: Span, fields: Fields)
    requires SpanInside(e, span)
  {
    var f := FieldNamed(RawName(e, span));
    f.Some? ==> f.value in fields && SpanText(RawValue(e, span), Capacity(f.value)) == Text(fields[f.value])
  }

  /** `fields` holds the text of every known member of `spans`, and nothing else. */
  ghost predicate Filled(e: seq<byte>, spans: seq<Span>, fields: Fields) {
    && Inside(e, spans)
    && (forall k :: 0 <= k < |spans| ==> Fills(e, spans[k], fields))
    && (forall f :: f in fields ==>
          exists k :: 0 <= k < |spans| && FieldNamed(RawName(e, spans[k])) == Some(f))
  }

  /** Element `e` is one object that reads as item `it`. */
  ghost predicate ReadsAs(e: seq<byte>, it: NewsItem) {
    var o := OuterObject(e);
    && o.Listed? && SkipWs(e, o.end) == |e| && |o.spans| <= MAX_MEMBERS
    && Inside(e, o.spans) && DistinctNames(e, o.spans)
    && exists fields :: Filled(e, o.spans, fields) && Acceptable(fields) && it == ItemOf(fields)
  }

  lemma SpansInside(e: seq<byte>)
    requires OuterObject(e).Listed? && SkipWs(e, OuterObject(e).end) == |e|
    ensures Inside(e, OuterObject(e).spans)
  {
    hide OuterObject, SkipWs, Holds;
    var lead, v, trail := ListedTree(e);
    DocumentMembers(e, lead, v, trail);
    var spans := OuterObject(e).spans;
    forall k | 0 <= k < |spans| ensures SpanInside(e, spans[k]) {
      HoldsInside(e, spans[k], Names(v.members)[k], Values(v.members)[k]);
    }
  }

  lemma HoldsInside(e: seq<byte>, span: Span, name: seq<Char>, value: Value)
    requires Holds(e, span, name, value)
    ensures SpanInside(e, span)
  {
  }

  /** The fields of an element are determined. */
  lemma FilledUnique(e: seq<byte>, spans: seq<Span>, a: Fields, b: Fields)
    requires Filled(e, spans, a) && Filled(e, spans, b)
    ensures a == b
  {
    hide SpanText, FieldNamed;
    forall f | f in a ensures f in b && a[f] == b[f] {
      var k :| 0 <= k < |spans| && FieldNamed(RawName(e, spans[k])) == Some(f);
      assert Fills(e, spans[k], a) && Fills(e, spans[k], b);
    }
    forall f | f in b ensures f in a {
      var k :| 0 <= k < |spans| && FieldNamed(RawName(e, spans[k])) == Some(f);
      assert Fills(e, spans[k], a);
    }
  }

  lemma ReadsAsUnique(e: seq<byte>, a: NewsItem, b: NewsItem)
    requires ReadsAs(e, a) && ReadsAs(e, b)
    ensures a == b
  {
    hide OuterObject, SkipWs, Filled, Acceptable, ItemOf, DistinctNames, Inside;
    var spans := OuterObject(e).spans;
    var f :| Filled(e, spans, f) && Acceptable(f) && a == ItemOf(f);
    var g :| Filled(e, spans, g) && Acceptable(g) && b == ItemOf(g);
    FilledUnique(e, spans, f, g);
  }

  /** `parse_item`: answers with the item an element reads as, if it reads as one. */
  method ParseItem(e: seq<byte>) returns (ok: bool, it: NewsItem)
    ensures ok ==> ReadsAs(e, it)
    ensures !ok ==> forall i: NewsItem :: !ReadsAs(e, i)
  {
    hide OuterObject, SkipWs, SpanText, FieldNamed, Acceptable, ItemOf, Word;
    var members;
    it := ItemOf(map[]);
    ok, members := ObjectMembers(e, MAX_MEMBERS);
    if !ok { return; }
    SpansInside(e);
    var fields: Fields := map[];
    var k := 0;
    while k < |members|
      invariant k <= |members|
      invariant forall i, j :: 0 <= i < j < k ==> RawName(e, members[i]) != RawName(e, members[j])
      invariant Filled(e, members[..k], fields)
    {
      var name := RawName(e, members[k]);
      var j := 0;
      while j < k
        invariant j <= k && forall i :: 0 <= i < j ==> RawName(e, members[i]) != name
      {
        if RawName(e, members[j]) == name { return false, it; }
        j := j + 1;
      }
      var f := FieldNamed(name);
      if f.Some? {
        var text := StringSpan(RawValue(e, members[k]), Capacity(f.value));
        if text.NoText? {
          DoesNotFill(e, members, k);
          return false, it;
        }
        FillOne(e, members, k, fields, f.value, text.bytes);
        fields := fields[f.value := text.bytes];
      } else {
        SkipOne(e, members, k, fields);
      }
      k := k + 1;
    }
    assert members[..k] == members;
    it := ItemOf(fields);
    ok := Acceptable(fields);
    if !ok {
      forall i: NewsItem ensures !ReadsAs(e, i) {
        if ReadsAs(e, i) {
          var g :| Filled(e, members, g) && Acceptable(g) && i == ItemOf(g);
          FilledUnique(e, members, fields, g);
        }
      }
    }
  }

  lemma DoesNotFill(e: seq<byte>, spans: seq<Span>, k: nat)
    requires Inside(e, spans) && k < |spans| && FieldNamed(RawName(e, spans[k])).Some?
    requires SpanText(RawValue(e, spans[k]), Capacity(FieldNamed(RawName(e, spans[k])).value)).NoText?
    ensures forall fields :: !Filled(e, spans, fields)
  {
    hide SpanText, FieldNamed;
    forall fields ensures !Filled(e, spans, fields) {
      assert Filled(e, spans, fields) ==> Fills(e, spans[k], fields);
    }
  }

  lemma SkipOne(e: seq<byte>, spans: seq<Span>, k: nat, fields: Fields)
    requires Inside(e, spans) && k < |spans| && Filled(e, spans[..k], fields)
    requires FieldNamed(RawName(e, spans[k])).None?
    ensures Filled(e, spans[..k + 1], fields)
  {
    hide SpanText, FieldNamed;
    var old_, new_ := spans[..k], spans[..k + 1];
    forall f | f in fields ensures exists j :: 0 <= j < |new_| && FieldNamed(RawName(e, new_[j])) == Some(f) {
      var j :| 0 <= j < |old_| && FieldNamed(RawName(e, old_[j])) == Some(f);
      assert new_[j] == old_[j];
    }
    forall j | 0 <= j < |new_| ensures Fills(e, new_[j], fields) {
      if j < k { assert new_[j] == old_[j]; }
    }
  }

  /** Only one name belongs to each field. */
  lemma FieldNamedOnce(a: seq<byte>, b: seq<byte>)
    requires FieldNamed(a).Some? && FieldNamed(a) == FieldNamed(b)
    ensures a == b
  {
  }

  lemma FillOne(e: seq<byte>, spans: seq<Span>, k: nat, fields: Fields, f: Field, text: seq<byte>)
    requires Inside(e, spans) && k < |spans| && Filled(e, spans[..k], fields)
    requires FieldNamed(RawName(e, spans[k])) == Some(f) && SpanText(RawValue(e, spans[k]), Capacity(f)) == Text(text)
    requires forall j :: 0 <= j < k ==> RawName(e, spans[j]) != RawName(e, spans[k])
    ensures Filled(e, spans[..k + 1], fields[f := text])
  {
    hide SpanText, FieldNamed;
    var old_, new_, more := spans[..k], spans[..k + 1], fields[f := text];
    forall g | g in more ensures exists j :: 0 <= j < |new_| && FieldNamed(RawName(e, new_[j])) == Some(g) {
      if g == f {
        assert new_[k] == spans[k];
      } else {
        var j :| 0 <= j < |old_| && FieldNamed(RawName(e, old_[j])) == Some(g);
        assert new_[j] == old_[j];
      }
    }
    forall j | 0 <= j < |new_| ensures Fills(e, new_[j], more) {
      if j < k {
        assert new_[j] == old_[j] && Fills(e, old_[j], fields);
        if FieldNamed(RawName(e, new_[j])) == Some(f) {
          FieldNamedOnce(RawName(e, new_[j]), RawName(e, spans[k]));
        }
      }
    }
  }

  // ---- The two members of the document ----------------------------------------------------

  /** Where the value of the first member with this raw name starts. */
  function FirstNamed(s: seq<byte>, spans: seq<Span>, key: seq<byte>): Scan
    requires Inside(s, spans)
  {
    if spans == [] then Fail
    else if RawName(s, spans[0]) == key then At(spans[0].valueStart)
    else FirstNamed(s, spans[1..], key)
  }

  /** The raw name of the member at `i`, between its quotation marks. */
  function NameAt(s: seq<byte>, i: nat): seq<byte>
    requires i <= |s| && ScanString(s, i).At?
  {
    StringLength(s, i);
    s[i + 1..ScanString(s, i).next - 1]
  }

  lemma StringLength(s: seq<byte>, i: nat)
    requires i <= |s| && ScanString(s, i).At?
    ensures i + 2 <= ScanString(s, i).next
  {
  }

  /** From the member at `i` on: members are passed over, whole, until one has the name. */
  function NamedFrom(s: seq<byte>, i: nat, key: seq<byte>): (r: Scan)
    requires i <= |s|
    decreases |s| - i
  {
    var v := ValueStart(s, i);
    if v.Fail? then Fail
    else if NameAt(s, i) == key then v
    else
      match MemberAt(s, i)
      case NoMember => Fail
      case One(_, j) => if j < |s| && s[j] == COMMA then NamedFrom(s, SkipWs(s, j + 1), key) else Fail
  }

  function TopLevelKey(s: seq<byte>, key: seq<byte>): Scan {
    var i := SkipWs(s, 0);
    if i >= |s| || s[i] != LBRACE then Fail else NamedFrom(s, SkipWs(s, i + 1), key)
  }

  /** From `i` to `j` there are exactly these members, each whole and with a comma behind it. */
  ghost predicate Leads(s: seq<byte>, i: nat, spans: seq<Span>, j: nat)
    decreases |spans|
  {
    && i <= |s| && j <= |s|
    && if spans == [] then i == j
       else
         && MemberAt(s, i).One? && MemberAt(s, i).span == spans[0]
         && var k := MemberAt(s, i).next;
            k < |s| && s[k] == COMMA && Leads(s, SkipWs(s, k + 1), spans[1..], j)
  }

  /** The member at `j`, behind the members `spans` with other names, has the name, and its value starts at `at`. */
  ghost predicate FirstMatch(s: seq<byte>, i: nat, key: seq<byte>, spans: seq<Span>, j: nat, at: nat) {
    && Leads(s, i, spans, j) && ValueStart(s, j) == At(at) && NameAt(s, j) == key
    && Inside(s, spans) && forall k :: 0 <= k < |spans| ==> RawName(s, spans[k]) != key
  }

  lemma MemberInside(s: seq<byte>, i: nat)
    requires i <= |s| && MemberAt(s, i).One?
    ensures SpanInside(s, MemberAt(s, i).span) && RawName(s, MemberAt(s, i).span) == NameAt(s, i)
  {
    hide ScanString, ScanValue, SkipWs;
    StringLength(s, i);
  }

  /** What is found is the first match, and it is found whenever there is one. */
  lemma {:induction false} NamedFromSound(s: seq<byte>, i: nat, key: seq<byte>) returns (spans: seq<Span>, j: nat)
    requires i <= |s| && NamedFrom(s, i, key).At?
    ensures FirstMatch(s, i, key, spans, j, NamedFrom(s, i, key).next)
    decreases |s| - i
  {
    hide MemberAt, ValueStart, SkipWs, NameAt;
    if NameAt(s, i) == key {
      return [], i;
    }
    MemberInside(s, i);
    var One(span, k) := MemberAt(s, i);
    var rest;
    rest, j := NamedFromSound(s, SkipWs(s, k + 1), key);
    spans := [span] + rest;
    assert spans[1..] == rest;
  }

  lemma {:induction false} NamedFromComplete(s: seq<byte>, i: nat, key: seq<byte>, spans: seq<Span>, j: nat, at: nat)
    requires i <= |s| && FirstMatch(s, i, key, spans, j, at)
    ensures NamedFrom(s, i, key) == At(at)
    decreases |spans|
  {
    hide SkipWs, NameAt, ScanString, ScanValue;
    if spans != [] {
      MemberInside(s, i);
      assert forall k :: 0 <= k < |spans| - 1 ==> spans[1..][k] == spans[k + 1];
      NamedFromComplete(s, SkipWs(s, MemberAt(s, i).next + 1), key, spans[1..], j, at);
    }
  }

  /** On a member list that can be read to its end, it is the first of the list with the name. */
  lemma {:induction false} NamedInList(s: seq<byte>, i: nat, key: seq<byte>)
    requires i <= |s| && ScanMembers(s, i, 0).At?
    ensures Inside(s, Spans(s, i)) && NamedFrom(s, i, key) == FirstNamed(s, Spans(s, i), key)
    decreases |s| - i
  {
    hide ScanMembers, Spans, MemberAt, SkipWs, NameAt, RawName, SpanInside;
    Unfold(s, i);
    MemberInside(s, i);
    ValueOfMember(s, i);
    var One(span, k) := MemberAt(s, i);
    if k < |s| && s[k] == COMMA {
      var n := SkipWs(s, k + 1);
      NamedInList(s, n, key);
      assert Spans(s, i)[1..] == Spans(s, n);
    } else {
      assert [span][1..] == [];
    }
  }

  lemma ValueOfMember(s: seq<byte>, i: nat)
    requires i <= |s| && MemberAt(s, i).One?
    ensures ValueStart(s, i) == At(MemberAt(s, i).span.valueStart)
  {
  }

  /** On an object that can be listed, the lookup answers with the first member of that raw name, or none. */
  lemma TopLevelKeyIsFirst(s: seq<byte>, key: seq<byte>)
    requires OuterObject(s).Listed?
    ensures Inside(s, OuterObject(s).spans) && TopLevelKey(s, key) == FirstNamed(s, OuterObject(s).spans, key)
  {
    hide ScanMembers, Spans, SkipWs, NamedFrom, FirstNamed, SpanInside;
    var j := SkipWs(s, SkipWs(s, 0) + 1);
    if s[j] == RBRACE {
      NoneNamed(s, j, key);
    } else {
      NamedInList(s, j, key);
    }
  }

  lemma NoneNamed(s: seq<byte>, i: nat, key: seq<byte>)
    requires i < |s| && s[i] == RBRACE
    ensures NamedFrom(s, i, key) == Fail && FirstNamed(s, [], key) == Fail
  {
  }

  /** A raw name and the colon behind it. */
  method ReadName(c: Cursor) returns (ok: bool, name: seq<byte>)
    requires c.Inside() && c.depth == 0
    modifies c
    ensures c.Inside() && c.depth == 0
    ensures var v := ValueStart(c.s, old(c.i));
            && ok == v.At?
            && (ok ==> c.i == v.next && name == NameAt(c.s, old(c.i)))
  {
    hide ScanString, SkipWs;
    NotAName(c.s, c.i);
    if c.i >= |c.s| || c.s[c.i] != QUOTE { return false, []; }
    ghost var i := c.i;
    var nameStart := c.i + 1;
    ok := c.ParseString();
    if !ok { return false, []; }
    StringLength(c.s, i);
    name := c.s[nameStart..c.i - 1];
    c.SkipBlanks();
    if c.i >= |c.s| || c.s[c.i] != COLON { return false, []; }
    c.i := c.i + 1;
    c.SkipBlanks();
  }

  lemma MemberBehindName(s: seq<byte>, i: nat)
    requires i <= |s| && ValueStart(s, i).At?
    ensures var value := ScanValue(s, ValueStart(s, i).next, 0);
            if value.Fail? then MemberAt(s, i) == NoMember
            else MemberAt(s, i).One? && MemberAt(s, i).next == SkipWs(s, value.next)
  {
    hide ScanValue, ScanString, SkipWs, ValueStart;
  }

  /** `find_top_level_key`, on any text. */
  method FindTopLevelKey(s: seq<byte>, key: seq<byte>) returns (r: Scan)
    ensures r == TopLevelKey(s, key)
  {
    hide ScanValue, ScanString, SkipWs, NamedFrom, ValueStart, MemberAt, NameAt;
    var c := new Cursor(s, 0);
    c.SkipBlanks();
    if c.i >= |s| || s[c.i] != LBRACE { return Fail; }
    c.i := c.i + 1;
    c.SkipBlanks();
    while true
      invariant c.s == s && c.Inside() && fresh(c) && c.depth == 0
      invariant NamedFrom(s, c.i, key) == TopLevelKey(s, key)
      decreases |s| - c.i
    {
      ghost var i := c.i;
      NamedUnfolds(s, i, key);
      var ok, name := ReadName(c);
      if !ok { return Fail; }
      if name == key { return At(c.i); }
      MemberBehindName(s, i);
      ok := c.ParseValue();
      if !ok { return Fail; }
      c.SkipBlanks();
      if c.i >= |s| || s[c.i] != COMMA { return Fail; }
      c.i := c.i + 1;
      c.SkipBlanks();
    }
  }

  lemma NamedUnfolds(s: seq<byte>, i: nat, key: seq<byte>)
    requires i <= |s|
    ensures ValueStart(s, i).Fail? ==> NamedFrom(s, i, key) == Fail
    ensures ValueStart(s, i).At? && NameAt(s, i) == key ==> NamedFrom(s, i, key) == ValueStart(s, i)
    ensures ValueStart(s, i).At? && NameAt(s, i) != key && MemberAt(s, i) == NoMember ==> NamedFrom(s, i, key) == Fail
    ensures ValueStart(s, i).At? && NameAt(s, i) != key && MemberAt(s, i).One? ==>
      var j := MemberAt(s, i).next;
      NamedFrom(s, i, key) == if j < |s| && s[j] == COMMA then NamedFrom(s, SkipWs(s, j + 1), key) else Fail
  {
    hide ValueStart, MemberAt, NameAt, SkipWs;
  }
}
