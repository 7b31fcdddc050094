/** What an item of the feed is, member by member and in plain terms, apart from the code that reads it. */
module NewsPlain {
  import opened Bytes
  import opened JsonGrammar
  import opened JsonRecogniser
  import opened JsonCorrect
  import opened JsonMembers
  import opened JsonStrings
  import opened JsonDecoded
  import opened NewsOrder
  import opened News
  import opened Wrappers

  // ---- Words ------------------------------------------------------------------------------

  predicate Spelled(b: seq<byte>, s: string) {
    |b| == |s| && forall k :: 0 <= k < |s| ==> b[k] == s[k] as int
  }

  predicate IsAscii(s: string) {
    forall k :: 0 <= k < |s| ==> s[k] as int < 0x80
  }

  lemma WordSpells(b: seq<byte>, s: string)
    requires IsAscii(s)
    ensures b == Word(s) <==> Spelled(b, s)
  {
  }

  // ---- Values -----------------------------------------------------------------------------

  predicate InRange(low: char, b: byte, high: char) {
    low as int <= b <= high as int
  }

  predicate IsIdByte(b: byte) {
    InRange('a', b, 'z') || InRange('0', b, '9') || InRange('-', b, '.') || b == '_' as int
  }

  predicate PlainId(s: seq<byte>) {
    1 <= |s| <= 64 && forall k :: 0 <= k < |s| ==> IsIdByte(s[k])
  }

  /** The number that two digits write. */
  function TwoDigits(s: seq<byte>, i: nat): int
    requires i + 2 <= |s|
  {
    10 * (s[i] - '0' as int) + (s[i + 1] - '0' as int)
  }

  predicate DateShaped(s: seq<byte>) {
    && |s| == 10 && s[4] == '-' as int && s[7] == '-' as int
    && forall k :: 0 <= k < 10 && k != 4 && k != 7 ==> InRange('0', s[k], '9')
  }

  predicate PlainDate(s: seq<byte>) {
    DateShaped(s) && 1 <= TwoDigits(s, 5) <= 12 && 1 <= TwoDigits(s, 8) <= 31
  }

  /** Year, month and day as one number. */
  function Day(s: seq<byte>): int
    requires |s| == 10
  {
    (100 * TwoDigits(s, 0) + TwoDigits(s, 2)) * 10000 + TwoDigits(s, 5) * 100 + TwoDigits(s, 8)
  }

  predicate NoControls(s: seq<byte>) {
    forall k :: 0 <= k < |s| ==> s[k] >= 32 && s[k] != 127
  }

  predicate IsHost(host: seq<byte>) {
    Spelled(host, "github.com") || Spelled(host, "libreecho.org") || Spelled(host, "dl.libreecho.org")
  }

  /** What may follow the host: nothing, a path, a query or a fragment. */
  predicate IsRest(rest: seq<byte>) {
    rest == [] || rest[0] == '/' as int || rest[0] == '?' as int || rest[0] == '#' as int
  }

  ghost predicate PlainUrl(url: seq<byte>) {
    && |url| <= 256
    && (forall k :: 0 <= k < |url| ==>
          InRange('!', url[k], '~') && url[k] !in {'"' as int, '\\' as int, '<' as int, '>' as int})
    && exists scheme, host, rest ::
         url == scheme + (host + rest) && Spelled(scheme, "https://") && IsHost(host) && IsRest(rest)
  }

  lemma IdMeans(s: seq<byte>)
    ensures ValidId(s) <==> PlainId(s)
  {
  }

  lemma DateMeans(s: seq<byte>)
    ensures ValidDate(s) <==> PlainDate(s)
  {
  }

  lemma TextMeans(s: seq<byte>)
    ensures PlainText(s) <==> NoControls(s)
  {
  }

  lemma {:induction false} HostEndSkips(url: seq<byte>, i: nat, j: nat)
    requires i <= j <= |url| && IsRest(url[j..])
    requires forall k :: i <= k < j ==> url[k] != '/' as int && url[k] != '?' as int && url[k] != '#' as int
    ensures HostEnd(url, i) == j
    decreases j - i
  {
    if i < j {
      HostEndSkips(url, i + 1, j);
    } else if j < |url| {
      assert url[j..][0] == url[j];
    }
  }

  lemma {:induction false} HostEndRest(url: seq<byte>, i: nat)
    requires i <= |url|
    ensures IsRest(url[HostEnd(url, i)..])
    decreases |url| - i
  {
    if i < |url| && HostEnd(url, i) != i {
      HostEndRest(url, i + 1);
    } else if i < |url| {
      assert url[i..][0] == url[i];
    }
  }

  lemma HostMeans(host: seq<byte>)
    ensures host in {Word("github.com"), Word("libreecho.org"), Word("dl.libreecho.org")} <==> IsHost(host)
    ensures IsHost(host) ==>
              forall k :: 0 <= k < |host| ==>
                host[k] != '/' as int && host[k] != '?' as int && host[k] != '#' as int
  {
    WordSpells(host, "github.com");
    WordSpells(host, "libreecho.org");
    WordSpells(host, "dl.libreecho.org");
  }

  lemma UrlParts(url: seq<byte>, scheme: seq<byte>, host: seq<byte>, rest: seq<byte>)
    requires url == scheme + (host + rest)
    ensures var i, j := |scheme|, |scheme| + |host|;
            j <= |url| && url[..i] == scheme && url[i..j] == host && url[j..] == rest
  {
  }

  lemma HostOf(url: seq<byte>, i: nat, j: nat)
    requires i <= j <= |url| && IsHost(url[i..j]) && IsRest(url[j..])
    ensures HostEnd(url, i) == j
  {
    hide IsHost, IsRest;
    HostMeans(url[i..j]);
    forall k | i <= k < j ensures url[k] != '/' as int && url[k] != '?' as int && url[k] != '#' as int {
      assert url[k] == url[i..j][k - i];
    }
    HostEndSkips(url, i, j);
  }

  lemma UrlMeans(url: seq<byte>)
    ensures UrlAllowed(url) <==> PlainUrl(url)
  {
    hide Word, IsHost, IsRest, HostEnd, Spelled;
    HttpsLength();
    if UrlAllowed(url) {
      var end := HostEnd(url, 8);
      var scheme, host, rest := url[..8], url[8..end], url[end..];
      WordSpells(scheme, "https://");
      HostEndRest(url, 8);
      HostMeans(host);
      Rejoined(url, 8, end);
    }
    if PlainUrl(url) {
      var scheme, host, rest :|
        url == scheme + (host + rest) && Spelled(scheme, "https://") && IsHost(host) && IsRest(rest);
      WordSpells(scheme, "https://");
      HostMeans(host);
      UrlParts(url, scheme, host, rest);
      HostOf(url, 8, 8 + |host|);
    }
  }

  lemma Rejoined(url: seq<byte>, i: nat, j: nat)
    requires i <= j <= |url|
    ensures url == url[..i] + (url[i..j] + url[j..])
  {
  }

  lemma HttpsLength()
    ensures |Word("https://")| == 8
  {
  }

  // ---- Spans ------------------------------------------------------------------------------

  /** The text is one string of the grammar between blanks. */
  ghost predicate IsQuoted(t: seq<byte>, lead: seq<byte>, cs: seq<Char>, trail: seq<byte>) {
    t == lead + (RenderString(cs) + trail) && AllWs(lead) && AllWs(trail) && CharsOk(cs)
  }

  lemma SpanSound(t: seq<byte>, z: nat) returns (lead: seq<byte>, cs: seq<Char>, trail: seq<byte>)
    requires SpanText(t, z).Text?
    ensures IsQuoted(t, lead, cs, trail) && SpanText(t, z) == Meaning(cs)
    ensures 2 <= z && |Meaning(cs).bytes| + 1 <= z
  {
    hide ScanString, Decode, SkipWs, Meaning, AllWs, CharsOk, RenderString, Occurs;
    ScansAsString(t, SkipWs(t, 0));
    lead, cs, trail := QuotedSound(t);
    OccursThree(t, lead, RenderString(cs), trail);
    StringMeans(t, |lead|, cs);
  }

  lemma SpanComplete(t: seq<byte>, z: nat, lead: seq<byte>, cs: seq<Char>, trail: seq<byte>)
    requires IsQuoted(t, lead, cs, trail) && Meaning(cs).Text? && 2 <= z && |Meaning(cs).bytes| + 1 <= z
    ensures SpanText(t, z) == Meaning(cs)
  {
    hide ScanString, Decode, SkipWs, Meaning, AllWs, CharsOk, RenderString, Occurs;
    QuotedComplete(t, lead, cs, trail);
    OccursThree(t, lead, RenderString(cs), trail);
    StringMeans(t, |lead|, cs);
    ScansAsString(t, |lead|);
  }

  /** A span says a text exactly if it is one string that means the text, which fits with its terminator. */
  lemma SpanMeans(t: seq<byte>, z: nat, text: seq<byte>)
    ensures SpanText(t, z) == Text(text) <==>
              && 2 <= z && |text| + 1 <= z
              && exists lead, cs, trail :: IsQuoted(t, lead, cs, trail) && Meaning(cs) == Text(text)
  {
    hide SpanText, Meaning, AllWs, RenderString;
    if SpanText(t, z) == Text(text) {
      var lead, cs, trail := SpanSound(t, z);
    }
    forall lead, cs, trail | 2 <= z && |text| + 1 <= z && IsQuoted(t, lead, cs, trail) && Meaning(cs) == Text(text)
      ensures SpanText(t, z) == Text(text)
    {
      SpanComplete(t, z, lead, cs, trail);
    }
  }

  lemma ScansAsString(t: seq<byte>, i: nat)
    requires i < |t| && t[i] == QUOTE
    ensures ScanValue(t, i, 0) == ScanString(t, i)
  {
  }

  lemma QuotedSound(t: seq<byte>) returns (lead: seq<byte>, cs: seq<Char>, trail: seq<byte>)
    requires var i := SkipWs(t, 0);
             i < |t| && t[i] == QUOTE && ScanString(t, i).At? && SkipWs(t, ScanString(t, i).next) == |t|
    ensures IsQuoted(t, lead, cs, trail) && |lead| == SkipWs(t, 0)
  {
    hide ScanString, SkipWs, AllWs, CharsOk, RenderString;
    var i := SkipWs(t, 0);
    var end := ScanString(t, i).next;
    cs := StringSound(t, i);
    SkipWsSound(t, 0);
    SkipWsSound(t, end);
    lead, trail := t[..i], t[end..];
    assert lead == t[0..i] && trail == t[end..|t|];
    assert t == t[..i] + (t[i..end] + t[end..]);
  }

  lemma StringStarts(cs: seq<Char>)
    ensures RenderString(cs) != [] && RenderString(cs)[0] == QUOTE && !IsWs(QUOTE)
  {
  }

  lemma QuotedComplete(t: seq<byte>, lead: seq<byte>, cs: seq<Char>, trail: seq<byte>)
    requires IsQuoted(t, lead, cs, trail)
    ensures SkipWs(t, 0) == |lead| < |t| && t[|lead|] == QUOTE
    ensures ScanString(t, |lead|) == At(|lead| + |RenderString(cs)|) && |lead| + |RenderString(cs)| <= |t|
    ensures SkipWs(t, |lead| + |RenderString(cs)|) == |t|
  {
    hide ScanString, SkipWs, AllWs, CharsOk, RenderString, Occurs, IsWs;
    StringStarts(cs);
    OccursThree(t, lead, RenderString(cs), trail);
    Between(t, lead, RenderString(cs), trail);
    StringComplete(t, |lead|, cs);
  }

  // ---- Items ------------------------------------------------------------------------------

  /** A member of this name is a string of this text, which fits a buffer of `z` bytes. */
  ghost predicate Says(e: seq<byte>, spans: seq<Span>, name: string, z: nat, text: seq<byte>) {
    && Inside(e, spans)
    && exists k :: 0 <= k < |spans| && Spelled(RawName(e, spans[k]), name)
                   && SpanText(RawValue(e, spans[k]), z) == Text(text)
  }

  ghost predicate Silent(e: seq<byte>, spans: seq<Span>, name: string) {
    Inside(e, spans) && forall k :: 0 <= k < |spans| ==> !Spelled(RawName(e, spans[k]), name)
  }

  /** The members of the item, by name, and the rules for their values. */
  ghost predicate IsItem(e: seq<byte>, spans: seq<Span>, it: NewsItem) {
    && Says(e, spans, "id", 65, it.id) && PlainId(it.id)
    && Says(e, spans, "type", 16, it.kind)
    && Says(e, spans, "date", 11, it.date) && PlainDate(it.date)
    && Says(e, spans, "title", 121, it.title) && it.title != [] && NoControls(it.title)
    && Says(e, spans, "summary", 401, it.summary) && NoControls(it.summary)
    && Says(e, spans, "url", 257, it.url) && PlainUrl(it.url)
    && (if it.severity == [] then Silent(e, spans, "severity") || Says(e, spans, "severity", 12, [])
        else Says(e, spans, "severity", 12, it.severity)
             && (Spelled(it.severity, "info") || Spelled(it.severity, "important")))
  }

  /** One object of at most twelve members, no two of a name, that says what the item says. */
  ghost predicate PlainItem(e: seq<byte>, it: NewsItem) {
    var o := OuterObject(e);
    && o.Listed? && SkipWs(e, o.end) == |e| && |o.spans| <= 12 && Inside(e, o.spans) && DistinctNames(e, o.spans)
    && IsItem(e, o.spans, it)
  }

  function NameOf(f: Field): string {
    match f
    case Id => "id"
    case Kind => "type"
    case Date => "date"
    case Title => "title"
    case Summary => "summary"
    case Url => "url"
    case Severity => "severity"
  }

  /** Exactly the seven names are read. */
  lemma NamesMean(name: seq<byte>, f: Field)
    ensures FieldNamed(name) == Some(f) <==> Spelled(name, NameOf(f))
  {
    hide Word;
    WordSpells(name, "id");
    WordSpells(name, "type");
    WordSpells(name, "date");
    WordSpells(name, "title");
    WordSpells(name, "summary");
    WordSpells(name, "url");
    WordSpells(name, "severity");
    assert Spelled(name, "type") ==> name[0] == 't' as int;
    assert Spelled(name, "date") ==> name[0] == 'd' as int;
  }

  /** A field that was read is one that is said, and the other way round. */
  lemma FieldSaid(e: seq<byte>, spans: seq<Span>, fields: Fields, f: Field)
    requires Filled(e, spans, fields)
    ensures f in fields ==> Says(e, spans, NameOf(f), Capacity(f), fields[f])
    ensures f !in fields ==> Silent(e, spans, NameOf(f))
  {
    hide Spelled, SpanText, NameOf, Capacity, FieldNamed;
    forall k | 0 <= k < |spans|
      ensures FieldNamed(RawName(e, spans[k])) == Some(f) <==> Spelled(RawName(e, spans[k]), NameOf(f))
      ensures Fills(e, spans[k], fields)
    {
      NamesMean(RawName(e, spans[k]), f);
    }
  }

  /** What is said under one name is said once. */
  lemma SaidOnce(e: seq<byte>, spans: seq<Span>, f: Field, text: seq<byte>, k: nat)
    requires Says(e, spans, NameOf(f), Capacity(f), text) && DistinctNames(e, spans)
    requires k < |spans| && FieldNamed(RawName(e, spans[k])) == Some(f)
    ensures SpanText(RawValue(e, spans[k]), Capacity(f)) == Text(text)
  {
    hide SpanText, NameOf, Capacity, FieldNamed;
    var j :| 0 <= j < |spans| && Spelled(RawName(e, spans[j]), NameOf(f))
             && SpanText(RawValue(e, spans[j]), Capacity(f)) == Text(text);
    NamesMean(RawName(e, spans[k]), f);
    assert RawName(e, spans[j]) == RawName(e, spans[k]);
  }

  /** The fields that an item says. */
  ghost function SaidFields(e: seq<byte>, spans: seq<Span>, it: NewsItem): Fields {
    var six := map[
      Id := it.id, Kind := it.kind, Date := it.date, Title := it.title, Summary := it.summary, Url := it.url];
    if Silent(e, spans, "severity") then six else six[Severity := it.severity]
  }

  lemma SeverityMeans(s: seq<byte>)
    ensures s == Word("info") <==> Spelled(s, "info")
    ensures s == Word("important") <==> Spelled(s, "important")
  {
    WordSpells(s, "info");
    WordSpells(s, "important");
  }

  lemma RulesMean(it: NewsItem)
    ensures ValidId(it.id) <==> PlainId(it.id)
    ensures ValidDate(it.date) <==> PlainDate(it.date)
    ensures PlainText(it.title) <==> NoControls(it.title)
    ensures PlainText(it.summary) <==> NoControls(it.summary)
    ensures UrlAllowed(it.url) <==> PlainUrl(it.url)
  {
    IdMeans(it.id);
    DateMeans(it.date);
    TextMeans(it.title);
    TextMeans(it.summary);
    UrlMeans(it.url);
    SeverityMeans(it.severity);
  }

  lemma FilledIsItem(e: seq<byte>, spans: seq<Span>, fields: Fields)
    requires Filled(e, spans, fields) && Acceptable(fields)
    ensures IsItem(e, spans, ItemOf(fields))
  {
    hide Filled, Says, Silent, ValidId, PlainId, ValidDate, PlainDate, PlainText, NoControls, UrlAllowed, PlainUrl,
         Word, Spelled;
    RulesMean(ItemOf(fields));
    SeverityMeans(ItemOf(fields).severity);
    FieldSaid(e, spans, fields, Id);
    FieldSaid(e, spans, fields, Kind);
    FieldSaid(e, spans, fields, Date);
    FieldSaid(e, spans, fields, Title);
    FieldSaid(e, spans, fields, Summary);
    FieldSaid(e, spans, fields, Url);
    FieldSaid(e, spans, fields, Severity);
  }

  lemma AllSaid(e: seq<byte>, spans: seq<Span>, it: NewsItem, f: Field)
    requires IsItem(e, spans, it)
    ensures var fields := SaidFields(e, spans, it);
            if f in fields then Says(e, spans, NameOf(f), Capacity(f), fields[f]) else Silent(e, spans, NameOf(f))
  {
    hide Says, Silent, PlainId, PlainDate, NoControls, PlainUrl, Spelled;
  }

  lemma SaidIsAcceptable(e: seq<byte>, spans: seq<Span>, it: NewsItem)
    requires IsItem(e, spans, it)
    ensures Acceptable(SaidFields(e, spans, it)) && ItemOf(SaidFields(e, spans, it)) == it
  {
    hide Says, Silent, ValidId, PlainId, ValidDate, PlainDate, PlainText, NoControls, UrlAllowed, PlainUrl, Word,
         Spelled;
    RulesMean(it);
    SeverityMeans(it.severity);
    if Silent(e, spans, "severity") && it.severity != [] {
      SaysNotSilent(e, spans, "severity", 12, it.severity);
    }
  }

  lemma SaysNotSilent(e: seq<byte>, spans: seq<Span>, name: string, z: nat, text: seq<byte>)
    ensures Says(e, spans, name, z, text) ==> !Silent(e, spans, name)
  {
  }

  lemma ItemFills(e: seq<byte>, spans: seq<Span>, it: NewsItem)
    requires Inside(e, spans) && DistinctNames(e, spans) && IsItem(e, spans, it)
    ensures var fields := SaidFields(e, spans, it);
            Filled(e, spans, fields) && Acceptable(fields) && it == ItemOf(fields)
  {
    hide FieldNamed, SpanText, Spelled, DistinctNames, SaidFields, IsItem, Acceptable, ItemOf, NameOf, Capacity;
    var fields := SaidFields(e, spans, it);
    SaidIsAcceptable(e, spans, it);
    forall k | 0 <= k < |spans| ensures Fills(e, spans[k], fields) {
      var f := FieldNamed(RawName(e, spans[k]));
      if f.Some? {
        NamesMean(RawName(e, spans[k]), f.value);
        AllSaid(e, spans, it, f.value);
        SaidOnce(e, spans, f.value, fields[f.value], k);
      }
    }
    forall f | f in fields ensures exists k :: 0 <= k < |spans| && FieldNamed(RawName(e, spans[k])) == Some(f) {
      AllSaid(e, spans, it, f);
      var k :| 0 <= k < |spans| && Spelled(RawName(e, spans[k]), NameOf(f));
      NamesMean(RawName(e, spans[k]), f);
    }
  }

  /** Reading an element as an item is exactly this. */
  lemma ReadsAsMeans(e: seq<byte>, it: NewsItem)
    ensures ReadsAs(e, it) <==> PlainItem(e, it)
  {
    hide OuterObject, SkipWs, Filled, Acceptable, ItemOf, IsItem, DistinctNames, Inside;
    if ReadsAs(e, it) {
      var spans := OuterObject(e).spans;
      var fields :| Filled(e, spans, fields) && Acceptable(fields) && it == ItemOf(fields);
      FilledIsItem(e, spans, fields);
    }
    if PlainItem(e, it) {
      ItemFills(e, OuterObject(e).spans, it);
    }
  }

  /** Exactly the items of these four types are shown. */
  lemma KnownKindMeans(it: NewsItem)
    ensures KnownKind(it) <==>
              || Spelled(it.kind, "release") || Spelled(it.kind, "progress") || Spelled(it.kind, "announcement")
              || Spelled(it.kind, "security")
  {
    WordSpells(it.kind, "release");
    WordSpells(it.kind, "progress");
    WordSpells(it.kind, "announcement");
    WordSpells(it.kind, "security");
  }

  // ---- Dates ------------------------------------------------------------------------------

  /** Dates compare as their days do. */
  lemma DatesCompare(a: seq<byte>, b: seq<byte>)
    requires DateShaped(a) && DateShaped(b)
    ensures Compare(a, b) < 0 <==> Day(a) < Day(b)
    ensures Compare(a, b) > 0 <==> Day(a) > Day(b)
    ensures a == b <==> Day(a) == Day(b)
  {
    CompareMeans(a, b);
    if Before(a, b) {
      EarlierDay(a, b);
    } else if a != b {
      EarlierDay(b, a);
    }
  }

  lemma EarlierDay(a: seq<byte>, b: seq<byte>)
    requires DateShaped(a) && DateShaped(b) && Before(a, b)
    ensures Day(a) < Day(b)
  {
    if |a| < |b| { assert false; }
    var k :| 0 <= k < |a| && k < |b| && a[..k] == b[..k] && a[k] < b[k];
    assert forall j :: 0 <= j < k ==> a[j] == a[..k][j] && b[j] == b[..k][j];
  }
}
