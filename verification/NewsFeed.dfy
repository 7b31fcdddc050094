/** `le_news_parse`: a document is a feed or it is not, and a feed has one answer. */
module NewsFeed {
  import opened Bytes
  import opened JsonGrammar
  import opened JsonRecogniser
  import opened JsonCorrect
  import opened JsonCursor
  import opened JsonScanners
  import opened JsonMembers
  import opened JsonStrings
  import opened NewsOrder
  import opened News
  import opened NewsPlain

  // ---- Elements of an array, by the scanner -----------------------------------------------

  function ValueList(items: Items): seq<Value> {
    if items.NoItems? then [] else [items.value] + ValueList(items.rest)
  }

  function ElementValues(v: Value): seq<Value> {
    if v.Array? then ValueList(v.items) else []
  }

  /** Between `pos` and the items still to come there is nothing but white space and commas. */
  ghost predicate Ahead(a: seq<byte>, pos: nat, w: seq<byte>, rest: Items) {
    && (forall k :: 0 <= k < |w| ==> IsSeparator(w[k])) && Occurs(a, pos, w) && pos + |w| < |a|
    && ItemsOk(rest)
    && (if rest.NoItems? then a[pos + |w|] == RBRACKET else Occurs(a, pos + |w|, RenderItems(rest)))
  }

  lemma {:induction false} SkipSeparatorsOver(a: seq<byte>, pos: nat, w: seq<byte>)
    requires Occurs(a, pos, w) && forall k :: 0 <= k < |w| ==> IsSeparator(w[k])
    requires pos + |w| < |a| && !IsSeparator(a[pos + |w|])
    ensures SkipSeparators(a, pos) == pos + |w|
    decreases |w|
  {
    if w != [] {
      OccursAt(a, pos, w, 0);
      assert a[pos + 1..pos + |w|] == (a[pos..pos + |w|])[1..];
      SkipSeparatorsOver(a, pos + 1, w[1..]);
    }
  }

  lemma NoMoreElements(a: seq<byte>, pos: nat, w: seq<byte>, rest: Items)
    requires Ahead(a, pos, w, rest) && rest.NoItems?
    ensures pos <= |a| && ElementFrom(a, pos) == NoElement
  {
    SkipSeparatorsOver(a, pos, w);
  }

  /** Where the next value starts, and what stands behind it. */
  lemma NextValue(a: seq<byte>, pos: nat, w: seq<byte>, rest: Items) returns (start: nat, more: seq<byte>)
    requires Ahead(a, pos, w, rest) && rest.Item?
    ensures pos <= start < |a| && SkipSeparators(a, pos) == start && Occurs(a, start, Render(rest.value))
    ensures ValueOk(rest.value) && Render(rest.value) != [] && a[start] == Render(rest.value)[0]
    ensures start + |Render(rest.value)| <= |a| && Delimited(a, start + |Render(rest.value)|)
    ensures Ahead(a, start + |Render(rest.value)|, more, rest.rest)
  {
    hide Occurs, Render, RenderItems, AllWs;
    var i := pos + |w|;
    start := i + |rest.before|;
    var b := start + |Render(rest.value)|;
    var c := b + |rest.after|;
    OccursItem(a, i, rest, start, b, c);
    FirstByte(rest.value);
    OccursAt(a, start, Render(rest.value), 0);
    OccursConcat(a, pos, w, rest.before);
    WsIsSeparator(rest.before);
    WsIsSeparator(rest.after);
    SkipSeparatorsOver(a, pos, w + rest.before);
    DelimitedByWs(a, b, rest.after);
    if rest.rest.NoItems? {
      more := rest.after;
    } else {
      OccursOne(a, c, COMMA);
      OccursConcat(a, b, rest.after, [COMMA]);
      OccursBound(a, c + 1, RenderItems(rest.rest));
      ItemsNotEmpty(rest.rest);
      more := rest.after + [COMMA];
    }
  }

  lemma ItemsNotEmpty(items: Items)
    ensures RenderItems(items) != []
  {
    if items.Item? {
      ItemsNotEmpty(items.rest);
    }
  }

  lemma WsIsSeparator(w: seq<byte>)
    requires AllWs(w)
    ensures forall k :: 0 <= k < |w| ==> IsSeparator(w[k])
  {
  }

  /** A delimited value at a position has one text. */
  lemma SameText(a: seq<byte>, start: nat, u: Value, v: Value)
    requires ValueOk(u) && Occurs(a, start, Render(u))
    requires start + |Render(u)| <= |a| && Delimited(a, start + |Render(u)|)
    requires ValueOk(v) && Occurs(a, start, Render(v))
    requires start + |Render(v)| <= |a| && Delimited(a, start + |Render(v)|)
    ensures Render(u) == Render(v)
  {
    hide Render, CloseAt, ScanNumber, ScanString;
    FirstByte(u);
    FirstByte(v);
    OccursAt(a, start, Render(u), 0);
    OccursAt(a, start, Render(v), 0);
    ValueLength(a, start, u);
    ValueLength(a, start, v);
    assert Render(u) == a[start..start + |Render(u)|];
  }

  /** The length of a value's text, from the text alone. */
  lemma ValueLength(a: seq<byte>, start: nat, v: Value)
    requires ValueOk(v) && Occurs(a, start, Render(v))
    requires start + |Render(v)| <= |a| && Delimited(a, start + |Render(v)|)
    ensures v.Array? || v.Object? ==> CloseAt(Both, a, start, OUTSIDE) == At(start + |Render(v)|)
    ensures v.StringValue? ==> ScanString(a, start) == At(start + |Render(v)|)
    ensures v.NumberValue? ==> ScanNumber(a, start) == At(start + |Render(v)|)
    ensures v.Literal? ==> |Render(v)| == if v.text == FALSE then 5 else 4
  {
    match v
    case Literal(_) =>
    case NumberValue(n) => NumberComplete(a, start, n);
    case StringValue(cs) => StringComplete(a, start, cs);
    case Array(_, _) => ContainerEnds(Both, a, start, v);
    case Object(_, _) => ContainerEnds(Both, a, start, v);
  }

  ghost predicate SameTexts(us: seq<Value>, vs: seq<Value>) {
    |us| == |vs| && forall k :: 0 <= k < |us| ==> Render(us[k]) == Render(vs[k])
  }

  /** An array has one list of element texts. */
  lemma {:induction false} ElementsUnique(a: seq<byte>, pos: nat, w: seq<byte>, r: Items, x: seq<byte>, s: Items)
    requires Ahead(a, pos, w, r) && Ahead(a, pos, x, s)
    ensures SameTexts(ValueList(r), ValueList(s))
    decreases r
  {
    hide Render, RenderItems, Ahead;
    NoItemsAhead(a, pos, w, r);
    NoItemsAhead(a, pos, x, s);
    if r.Item? && s.Item? {
      var i, m := NextValue(a, pos, w, r);
      var j, n := NextValue(a, pos, x, s);
      SameText(a, i, r.value, s.value);
      ElementsUnique(a, i + |Render(r.value)|, m, r.rest, n, s.rest);
    }
  }

  lemma NoItemsAhead(a: seq<byte>, pos: nat, w: seq<byte>, rest: Items)
    requires Ahead(a, pos, w, rest)
    ensures pos <= |a| && SkipSeparators(a, pos) < |a|
    ensures rest.NoItems? <==> a[SkipSeparators(a, pos)] == RBRACKET
  {
    hide Render, RenderItems;
    if rest.NoItems? {
      SkipSeparatorsOver(a, pos, w);
    } else {
      var start, more := NextValue(a, pos, w, rest);
      FirstByte(rest.value);
    }
  }

  /** What the scanner makes of the next value: an object whole, anything else something that is no item. */
  lemma NextElementIs(a: seq<byte>, pos: nat, w: seq<byte>, rest: Items) returns (start: nat, more: seq<byte>)
    requires Ahead(a, pos, w, rest) && rest.Item?
    ensures pos <= start < |a|
    ensures var e := ElementFrom(a, pos);
            if rest.value.Object? then
              var end := start + |Render(rest.value)|;
              && e == Element(start, end) && a[start..end] == Render(rest.value) && Ahead(a, end, more, rest.rest)
            else
              && e != NoElement
              && (forall it: NewsItem :: !ReadsAs(Render(rest.value), it))
              && (e.Element? ==> forall it: NewsItem :: !ReadsAs(a[e.start..e.end], it))
  {
    hide Render, RenderItems, ReadsAs, Ahead;
    start, more := NextValue(a, pos, w, rest);
    var v := rest.value;
    FirstByte(v);
    if v.Object? {
      ContainerEnds(Both, a, start, v);
      OccursBound(a, start, Render(v));
    } else {
      NotAnItem(Render(v));
      var e := ElementFrom(a, pos);
      if e.Element? {
        assert a[e.start..e.end][0] == a[e.start];
        NotAnItem(a[e.start..e.end]);
      }
    }
  }

  lemma NotAnItem(e: seq<byte>)
    requires e != [] && !IsWs(e[0]) && e[0] != LBRACE
    ensures forall it: NewsItem :: !ReadsAs(e, it)
  {
    assert OuterObject(e) == NotObject;
  }

  // ---- The feed ---------------------------------------------------------------------------

  /** The items of the elements, one for one. */
  ghost predicate AllRead(values: seq<Value>, all: seq<NewsItem>) {
    |values| == |all| && forall k :: 0 <= k < |all| ==> ReadsAs(Render(values[k]), all[k])
  }

  /** The items of a known type, in document order. */
  function KnownOnly(all: seq<NewsItem>): seq<NewsItem> {
    if all == [] then []
    else KnownOnly(all[..|all| - 1]) + (if KnownKind(all[|all| - 1]) then [all[|all| - 1]] else [])
  }

  predicate DistinctIds(s: seq<NewsItem>) {
    forall i, j :: 0 <= i < j < |s| ==> s[i].id != s[j].id
  }

  /** The items that fit into the caller's buffer. */
  function Stored(known: seq<NewsItem>, max: nat): seq<NewsItem> {
    if |known| <= max then known else known[..max]
  }

  /** No item has the id of an earlier one that was stored. */
  predicate NoneRepeats(known: seq<NewsItem>, max: nat) {
    forall i, j :: 0 <= i < j < |known| && i < max ==> known[i].id != known[j].id
  }

  /** `items` is the content of the array that the document's only `items` member holds. */
  ghost predicate FeedArray(doc: seq<byte>, at: nat, v: Value) {
    && |doc| <= 32768 && ValidDocument(doc) && v.Array? && ValueOk(v) && Occurs(doc, at, Render(v))
    && OuterObject(doc).Listed?
    && var spans := OuterObject(doc).spans;
       && !TwoSpell(doc, spans, Word("schema")) && !TwoSpell(doc, spans, Word("items"))
       && Inside(doc, spans) && FirstNamed(doc, spans, Word("items")) == At(at)
       && FirstNamed(doc, spans, Word("schema")).At?
       && Decode(doc, FirstNamed(doc, spans, Word("schema")).next) == Text(Word("libreecho-news-v1"))
  }

  /** The elements read as `all`: not too many, and none repeats the id of one that was stored. */
  ghost predicate Reads(values: seq<Value>, all: seq<NewsItem>, max: nat) {
    AllRead(values, all) && |all| <= 20 && NoneRepeats(KnownOnly(all), max)
  }

  /** A feed, for a buffer of `max` items, whose elements read as `all`. */
  ghost predicate Feed(doc: seq<byte>, all: seq<NewsItem>, max: nat) {
    exists at: nat, v :: FeedArray(doc, at, v) && Reads(ElementValues(v), all, max)
  }

  /** Between two elements: what has been read, and what the rest of the text still holds. */
  ghost predicate LoopState(a: seq<byte>, pos: nat, w: seq<byte>, values: seq<Value>, rest: Items, all: seq<NewsItem>) {
    && |all| <= |values| && pos <= |a|
    && values[|all|..] == ValueList(rest) && Ahead(a, pos, w, rest)
    && AllRead(values[..|all|], all)
  }

  lemma NoReading(values: seq<Value>, all: seq<NewsItem>, n: nat, max: nat)
    requires n == |all| < |values| && AllRead(values[..n], all)
    requires forall it: NewsItem :: !ReadsAs(Render(values[n]), it)
    ensures forall more :: !Reads(values, more, max)
  {
    forall more | Reads(values, more, max) ensures false {
      ReadingAt(values, more, n);
    }
  }

  lemma ReadingAt(values: seq<Value>, all: seq<NewsItem>, n: nat)
    requires AllRead(values, all) && n < |values|
    ensures |all| == |values| && ReadsAs(Render(values[n]), all[n])
  {
  }

  /** Elements that have been read read no other way. */
  lemma ReadingUnique(values: seq<Value>, all: seq<NewsItem>, more: seq<NewsItem>)
    requires |all| <= |values| && AllRead(values[..|all|], all) && AllRead(values, more)
    ensures |all| <= |more| && more[..|all|] == all
  {
    hide ReadsAs;
    forall k | 0 <= k < |all| ensures more[k] == all[k] {
      assert ReadsAs(Render(values[..|all|][k]), all[k]) && ReadsAs(Render(values[k]), more[k]);
      ReadsAsUnique(Render(values[k]), all[k], more[k]);
    }
  }

  /** Known items keep their order, so a repeated id among the first is one among all. */
  lemma {:induction false} KnownPrefix(all: seq<NewsItem>, n: nat)
    requires n <= |all|
    ensures KnownOnly(all[..n]) <= KnownOnly(all)
    decreases |all|
  {
    if n < |all| {
      KnownPrefix(all[..|all| - 1], n);
      assert all[..|all| - 1][..n] == all[..n];
    } else {
      assert all[..n] == all;
    }
  }

  lemma SameReading(us: seq<Value>, vs: seq<Value>, all: seq<NewsItem>, max: nat)
    requires SameTexts(us, vs)
    ensures Reads(us, all, max) <==> Reads(vs, all, max)
  {
  }

  /** The array text behind its bracket. */
  lemma ArrayOpens(doc: seq<byte>, at: nat, v: Value) returns (w: seq<byte>)
    requires v.Array? && ValueOk(v) && Occurs(doc, at, Render(v))
    ensures Ahead(doc, at + 1, w, v.items)
  {
    hide RenderItems;
    if v.items.NoItems? {
      w := v.blank;
      OccursConcat(doc, at, [LBRACKET], v.blank + [RBRACKET]);
      OccursConcat(doc, at + 1, v.blank, [RBRACKET]);
      OccursOne(doc, at + 1 + |v.blank|, RBRACKET);
      WsIsSeparator(v.blank);
    } else {
      w := [];
      OccursConcat(doc, at, [LBRACKET], RenderItems(v.items));
      OccursBound(doc, at + 1, RenderItems(v.items));
      ItemsNotEmpty(v.items);
    }
  }

  /** A document has one array of items. */
  lemma FeedArrayUnique(doc: seq<byte>, at: nat, u: Value, bt: nat, v: Value)
    requires FeedArray(doc, at, u) && FeedArray(doc, bt, v)
    ensures at == bt && SameTexts(ElementValues(u), ElementValues(v))
  {
    hide ValidDocument, OuterObject, Decode, TwoSpell, Inside, Render, ValueOk;
    var w := ArrayOpens(doc, at, u);
    var x := ArrayOpens(doc, bt, v);
    ElementsUnique(doc, at + 1, w, u.items, x, v.items);
  }

  /** Every reading of the document is a reading of the array that was found. */
  lemma FeedMeans(doc: seq<byte>, at: nat, v: Value, more: seq<NewsItem>, max: nat)
    requires FeedArray(doc, at, v) && Feed(doc, more, max)
    ensures Reads(ElementValues(v), more, max)
  {
    hide FeedArray, AllRead, NoneRepeats, KnownOnly, Reads;
    var bt: nat, u :| FeedArray(doc, bt, u) && Reads(ElementValues(u), more, max);
    FeedArrayUnique(doc, at, v, bt, u);
    SameReading(ElementValues(v), ElementValues(u), more, max);
  }

  lemma WordIsAscii(s: string)
    requires forall k :: 0 <= k < |s| ==> 0 < s[k] as int < 0x80
    ensures Ascii(Word(s))
  {
  }

  /** The checks before the elements: where the array of items is, if the document can be a feed. */
  method FindItems(doc: seq<byte>) returns (ok: bool, at: nat, end: nat, ghost v: Value)
    ensures ok ==> FeedArray(doc, at, v) && end == at + |Render(v)| <= |doc|
    ensures !ok ==> forall all, max: nat :: !Feed(doc, all, max)
  {
    hide ValidDocument, OuterObject, Decode, TwoSpell, Render, ValueOk, FirstNamed, TopLevelKey, Occurs, SkipWs, Ascii;
    v := Literal(NULL);
    ok, at, end := false, 0, 0;
    if |doc| == 0 { NotADocument(doc); return; }
    if |doc| > MAX_BYTES { return; }
    var valid := ValidObject(doc);
    if !valid { return; }
    ListsIffGrammar(doc);
    WordIsAscii("schema");
    WordIsAscii("items");
    var twice := DuplicateKey(doc, Word("schema"));
    if twice { return; }
    twice := DuplicateKey(doc, Word("items"));
    if twice { return; }
    TopLevelKeyIsFirst(doc, Word("schema"));
    TopLevelKeyIsFirst(doc, Word("items"));
    var schema := FindTopLevelKey(doc, Word("schema"));
    if schema.Fail? { return; }
    var text := StringAt(doc, schema.next, 32);
    if text != Text(Word("libreecho-news-v1")) { SchemaLength(); return; }
    var list := FindTopLevelKey(doc, Word("items"));
    if list.Fail? { return; }
    NoArrayHere(doc, list.next);
    if list.next >= |doc| || doc[list.next] != LBRACKET { return; }
    var c := new Cursor(doc, list.next);
    ok := c.ParseArray();
    ListedValueScans(doc, Word("items"));
    if !ok { return; }
    v := ArraySound(doc, list.next, 0);
    return true, list.next, c.i, v;
  }

  /** Every listed value is one the recogniser accepts. */
  lemma {:induction false} SpansScan(s: seq<byte>, i: nat)
    requires i <= |s| && ScanMembers(s, i, 0).At?
    ensures forall k :: 0 <= k < |Spans(s, i)| ==>
              var span := Spans(s, i)[k];
              span.valueStart <= |s| && ScanValue(s, span.valueStart, 0) == At(span.valueEnd)
    decreases |s| - i
  {
    hide ScanMembers, ScanValue, ScanString, SkipWs, Spans;
    Unfold(s, i);
    var One(span, j) := MemberAt(s, i);
    if s[j] == COMMA {
      SpansScan(s, SkipWs(s, j + 1));
    }
  }

  lemma {:induction false} FirstNamedIsOne(s: seq<byte>, spans: seq<Span>, key: seq<byte>)
    requires Inside(s, spans) && FirstNamed(s, spans, key).At?
    ensures exists k :: 0 <= k < |spans| && FirstNamed(s, spans, key).next == spans[k].valueStart
    decreases |spans|
  {
    if RawName(s, spans[0]) != key {
      FirstNamedIsOne(s, spans[1..], key);
      var k :| 0 <= k < |spans[1..]| && FirstNamed(s, spans[1..], key).next == spans[1..][k].valueStart;
      assert spans[1..][k] == spans[k + 1];
    }
  }

  lemma ListedValueScans(doc: seq<byte>, key: seq<byte>)
    requires OuterObject(doc).Listed? && Inside(doc, OuterObject(doc).spans)
    requires FirstNamed(doc, OuterObject(doc).spans, key).At?
    ensures var at := FirstNamed(doc, OuterObject(doc).spans, key).next;
            at < |doc| && doc[at] == LBRACKET ==> ScanArray(doc, at, 0).At?
  {
    hide FirstNamed, ScanArray, ScanMembers, Spans, Inside;
    var spans := OuterObject(doc).spans;
    FirstNamedIsOne(doc, spans, key);
    var i := SkipWs(doc, SkipWs(doc, 0) + 1);
    if ScanMembers(doc, i, 0).At? {
      SpansScan(doc, i);
    }
  }

  lemma SchemaLength()
    ensures |Word("libreecho-news-v1")| + 1 <= 32
  {
  }

  lemma NotADocument(doc: seq<byte>)
    requires |doc| == 0
    ensures !ValidDocument(doc)
  {
    AcceptsIffGrammar(doc);
  }

  lemma NoArrayHere(doc: seq<byte>, at: nat)
    ensures at >= |doc| || doc[at] != LBRACKET ==> forall v :: FeedArray(doc, at, v) ==> false
  {
    forall v | FeedArray(doc, at, v) ensures at < |doc| && doc[at] == LBRACKET {
      FirstByte(v);
      OccursAt(doc, at, Render(v), 0);
    }
  }

  /** No reading of the array, no reading of the document. */
  lemma NoFeed(doc: seq<byte>, at: nat, v: Value, max: nat)
    requires FeedArray(doc, at, v) && forall more :: !Reads(ElementValues(v), more, max)
    ensures forall all :: !Feed(doc, all, max)
  {
    hide FeedArray, Reads, Feed;
    forall all | Feed(doc, all, max) ensures false {
      FeedMeans(doc, at, v, all, max);
    }
  }

  lemma IsFeed(doc: seq<byte>, at: nat, v: Value, all: seq<NewsItem>, max: nat)
    requires FeedArray(doc, at, v) && AllRead(ElementValues(v), all)
    requires |all| <= MAX_ITEMS && NoneRepeats(KnownOnly(all), max)
    ensures Feed(doc, all, max)
  {
    hide FeedArray, AllRead, NoneRepeats;
    assert Reads(ElementValues(v), all, max);
  }

  lemma TooMany(values: seq<Value>)
    requires |values| > MAX_ITEMS
    ensures forall more, max: nat :: !Reads(values, more, max)
  {
  }

  lemma NothingRead(values: seq<Value>, max: nat)
    ensures AllRead(values[..0], []) && Stored(KnownOnly([]), max) == [] && NoneRepeats(KnownOnly([]), max)
  {
  }

  lemma ReadOneItem(values: seq<Value>, all: seq<NewsItem>, it: NewsItem)
    requires |all| < |values| && AllRead(values[..|all|], all) && ReadsAs(Render(values[|all|]), it)
    ensures AllRead(values[..|all| + 1], all + [it])
  {
    hide ReadsAs, Render;
    var more := all + [it];
    forall k | 0 <= k < |more| ensures ReadsAs(Render(values[..|more|][k]), more[k]) {
      if k < |all| { assert ReadsAs(Render(values[..|all|][k]), all[k]); }
    }
  }

  lemma KnownOneMore(all: seq<NewsItem>, it: NewsItem)
    ensures KnownOnly(all + [it]) == if KnownKind(it) then KnownOnly(all) + [it] else KnownOnly(all)
  {
    assert (all + [it])[..|all|] == all;
  }

  /** One more known item: whether it may come, and whether there is room for it. */
  lemma StoredOneMore(known: seq<NewsItem>, it: NewsItem, max: nat)
    requires NoneRepeats(known, max)
    ensures var stored := Stored(known, max);
            && (NoneRepeats(known + [it], max) <==> forall k :: 0 <= k < |stored| ==> stored[k].id != it.id)
            && Stored(known + [it], max) == if |stored| < max then stored + [it] else stored
  {
    var more := known + [it];
    assert forall k :: 0 <= k < |known| ==> more[k] == known[k];
    assert forall k :: 0 <= k < |Stored(known, max)| ==> Stored(known, max)[k] == more[k];
    if forall k :: 0 <= k < |Stored(known, max)| ==> Stored(known, max)[k].id != it.id {
      assert forall k :: 0 <= k < |known| && k < max ==> Stored(known, max)[k] == known[k];
    }
    if NoneRepeats(more, max) {
      assert forall k :: 0 <= k < |known| && k < max ==> more[k].id != more[|known|].id;
    }
  }

  lemma UnrepeatedPrefix(s: seq<NewsItem>, t: seq<NewsItem>, max: nat)
    requires s <= t && NoneRepeats(t, max)
    ensures NoneRepeats(s, max)
  {
  }

  /** An id that comes back rejects the whole document. */
  lemma RepeatedId(values: seq<Value>, all: seq<NewsItem>, max: nat)
    requires |all| <= |values| && AllRead(values[..|all|], all)
    requires !NoneRepeats(KnownOnly(all), max)
    ensures forall more :: !Reads(values, more, max)
  {
    hide AllRead, KnownOnly;
    forall more | Reads(values, more, max) ensures false {
      ReadingUnique(values, all, more);
      KnownPrefix(more, |all|);
      UnrepeatedPrefix(KnownOnly(all), KnownOnly(more), max);
    }
  }

  /** The next value of the tree is the next value to be read. */
  lemma RestValues(values: seq<Value>, n: nat, rest: Items)
    requires n <= |values| && values[n..] == ValueList(rest) && rest.Item?
    ensures n < |values| && values[n] == rest.value && values[n + 1..] == ValueList(rest.rest)
  {
    assert values[n] == values[n..][0];
    assert values[n + 1..] == values[n..][1..];
  }

  /** The array's text alone. */
  lemma ArrayText(doc: seq<byte>, at: nat, v: Value, a: seq<byte>) returns (w: seq<byte>)
    requires v.Array? && ValueOk(v) && Occurs(doc, at, Render(v)) && at + |Render(v)| <= |doc|
    requires a == doc[at..at + |Render(v)|]
    ensures |a| >= 2 && Ahead(a, 1, w, v.items)
  {
    hide Render, Ahead;
    OccursWhole(a);
    w := ArrayOpens(a, 0, v);
    AheadLength(a, 1, w, v.items);
  }

  lemma AheadLength(a: seq<byte>, pos: nat, w: seq<byte>, rest: Items)
    requires Ahead(a, pos, w, rest)
    ensures pos < |a|
  {
  }

  /** The answer for a feed: the first known items that fit, newest first. */
  ghost predicate Answers(result: seq<NewsItem>, all: seq<NewsItem>, max: nat) {
    Sorted(result) && multiset(result) == multiset(Stored(KnownOnly(all), max))
  }

  /** `le_news_parse`: accepts exactly the feeds, and answers with their known items in order. */
  method NewsParse(doc: seq<byte>, items: array<NewsItem>) returns (ok: bool, count: nat)
    modifies items
    ensures ok <==> exists all :: Feed(doc, all, items.Length)
    ensures ok ==>
              && count <= items.Length
              && exists all :: Feed(doc, all, items.Length) && Answers(items[..count], all, items.Length)
  {
    hide FeedArray, Feed, Ahead, ReadsAs, Render, ElementFrom, KnownKind, AllRead, Reads, KnownOnly, ValueList,
         NoneRepeats, Stored;
    count := 0;
    var at, end;
    ghost var v;
    ok, at, end, v := FindItems(doc);
    if !ok { return; }
    ArrayFound(doc, at, v);
    var a := doc[at..end];
    ghost var w := ArrayText(doc, at, v, a);
    ghost var max, values, rest := items.Length, ElementValues(v), v.items;
    var pos, seen := 1, 0;
    ghost var all: seq<NewsItem> := [];
    NothingRead(values, max);
    assert items[..0] == [] && values[0..] == values;
    while true
      invariant LoopState(a, pos, w, values, rest, all) && |all| == seen <= MAX_ITEMS
      invariant count <= max && items[..count] == Stored(KnownOnly(all), max)
      invariant NoneRepeats(KnownOnly(all), max)
      decreases |values| - |all|
    {
      var e := NextElement(a, pos);
      ghost var n := |all|;
      ghost var start: nat, more: seq<byte> := 0, [];
      if rest.Item? {
        start, more := NextElementIs(a, pos, w, rest);
        RestValues(values, n, rest);
      } else {
        NoMoreElements(a, pos, w, rest);
        NoneLeft(values, n, rest);
      }
      if e.NoElement? { break; }
      if e.Broken? {
        NoReading(values, all, n, max);
        NoFeed(doc, at, v, max);
        return false, count;
      }
      seen := seen + 1;
      if seen > MAX_ITEMS {
        TooMany(values);
        NoFeed(doc, at, v, max);
        return false, count;
      }
      var it;
      ok, it := ParseItem(a[e.start..e.end]);
      if !ok {
        NoReading(values, all, n, max);
        NoFeed(doc, at, v, max);
        return false, count;
      }
      ReadOneItem(values, all, it);
      ok, count := Take(items, count, it, all);
      all, w, rest, pos := all + [it], more, rest.rest, e.end;
      if !ok {
        RepeatedId(values, all, max);
        NoFeed(doc, at, v, max);
        return false, count;
      }
    }
    assert values[..|all|] == values;
    IsFeed(doc, at, v, all, max);
    SortItems(items, count);
    return true, count;
  }

  /** One more item that was read: known or not, new or repeated. */
  method Take(items: array<NewsItem>, count: nat, it: NewsItem, ghost all: seq<NewsItem>) returns (ok: bool, more: nat)
    requires count <= items.Length && items[..count] == Stored(KnownOnly(all), items.Length)
    requires NoneRepeats(KnownOnly(all), items.Length)
    modifies items
    ensures more <= items.Length && ok == NoneRepeats(KnownOnly(all + [it]), items.Length)
    ensures ok ==> items[..more] == Stored(KnownOnly(all + [it]), items.Length)
  {
    hide KnownKind, KnownOnly, NoneRepeats, Stored;
    KnownOneMore(all, it);
    StoredOneMore(KnownOnly(all), it, items.Length);
    if !KnownKind(it) { return true, count; }
    var repeated := HasId(items, count, it.id);
    if repeated { return false, count; }
    more := Store(items, count, it);
    return true, more;
  }

  /** One more item, if there is room for it. */
  method Store(items: array<NewsItem>, count: nat, it: NewsItem) returns (more: nat)
    requires count <= items.Length
    modifies items
    ensures more <= items.Length
    ensures items[..more] == if count < items.Length then old(items[..count]) + [it] else old(items[..count])
  {
    if count < items.Length {
      items[count] := it;
      return count + 1;
    }
    return count;
  }

  method HasId(items: array<NewsItem>, count: nat, id: seq<byte>) returns (found: bool)
    requires count <= items.Length
    ensures found <==> exists k :: 0 <= k < count && items[k].id == id
  {
    var i := 0;
    while i < count
      invariant i <= count && forall k :: 0 <= k < i ==> items[k].id != id
    {
      if items[i].id == id { return true; }
      i := i + 1;
    }
    return false;
  }

  lemma ArrayFound(doc: seq<byte>, at: nat, v: Value)
    requires FeedArray(doc, at, v)
    ensures v.Array? && ValueOk(v) && Occurs(doc, at, Render(v)) && ElementValues(v) == ValueList(v.items)
  {
  }

  lemma NoneLeft(values: seq<Value>, n: nat, rest: Items)
    requires n <= |values| && values[n..] == ValueList(rest) && rest.NoItems?
    ensures |values| == n
  {
    assert |values[n..]| == 0;
  }

  /**
   * The answer for a feed: every item on an earlier day than the one before it, or on the same day with an id that
   * comes later in the order of bytes.
   */
  lemma AnswerOrder(doc: seq<byte>, all: seq<NewsItem>, max: nat, result: seq<NewsItem>, i: nat, j: nat)
    requires Feed(doc, all, max) && Answers(result, all, max) && i < j < |result|
    ensures PlainDate(result[i].date) && PlainDate(result[j].date)
    ensures || Day(result[i].date) > Day(result[j].date)
            || (Day(result[i].date) == Day(result[j].date) && Before(result[i].id, result[j].id))
  {
    hide FeedArray, AllRead, KnownOnly, AtMost, PlainDate, Day;
    DistinctInMultiset(Stored(KnownOnly(all), max), result, i, j);
    DistinctIdsSortStrictly(result, i, j);
    AnswerDated(doc, all, max, result, i);
    AnswerDated(doc, all, max, result, j);
    DatesCompare(result[i].date, result[j].date);
    CompareMeans(result[i].id, result[j].id);
  }

  /** Every item of an answer was read from an element of the document, and is of a known type. */
  lemma AnswerDated(doc: seq<byte>, all: seq<NewsItem>, max: nat, result: seq<NewsItem>, i: nat)
    requires Feed(doc, all, max) && Answers(result, all, max) && i < |result|
    ensures result[i] in all && KnownKind(result[i]) && PlainDate(result[i].date) && DateShaped(result[i].date)
  {
    hide FeedArray, ReadsAs, KnownKind;
    var known := KnownOnly(all);
    assert result[i] in multiset(Stored(known, max));
    assert result[i] in known;
    KnownIn(all, result[i]);
    var k :| 0 <= k < |all| && all[k] == result[i];
    var at: nat, v :| FeedArray(doc, at, v) && Reads(ElementValues(v), all, max);
    ReadsAsMeans(Render(ElementValues(v)[k]), all[k]);
  }

  lemma {:induction false} KnownIn(all: seq<NewsItem>, it: NewsItem)
    ensures it in KnownOnly(all) <==> it in all && KnownKind(it)
    decreases |all|
  {
    hide KnownKind;
    if all != [] {
      var front := all[..|all| - 1];
      KnownIn(front, it);
      assert all == front + [all[|all| - 1]];
    }
  }

  /** With room for every item a feed may have, its known ids are all different and nothing is cut off. */
  lemma RoomForAll(doc: seq<byte>, all: seq<NewsItem>, max: nat)
    requires Feed(doc, all, max) && 20 <= max
    ensures DistinctIds(KnownOnly(all)) && Stored(KnownOnly(all), max) == KnownOnly(all)
  {
    hide FeedArray, AllRead;
    KnownAtMost(all);
  }

  lemma {:induction false} KnownAtMost(all: seq<NewsItem>)
    ensures |KnownOnly(all)| <= |all|
    decreases |all|
  {
    if all != [] {
      KnownAtMost(all[..|all| - 1]);
    }
  }

  /** Reordering keeps ids distinct. */
  lemma DistinctInMultiset(s: seq<NewsItem>, t: seq<NewsItem>, i: nat, j: nat)
    requires DistinctIds(s) && multiset(s) == multiset(t) && i < j < |t|
    ensures t[i].id != t[j].id
  {
    if t[i].id == t[j].id {
      assert t[i] in multiset(s) && t[j] in multiset(s);
      var p :| 0 <= p < |s| && s[p] == t[i];
      var q :| 0 <= q < |s| && s[q] == t[j];
      assert p == q;
      TwiceInMultiset(t, i, j);
      OnceInMultiset(s, p);
    }
  }

  lemma TwiceInMultiset(t: seq<NewsItem>, i: nat, j: nat)
    requires i < j < |t| && t[i] == t[j]
    ensures multiset(t)[t[i]] >= 2
  {
    assert t == t[..j] + [t[j]] + t[j + 1..];
    assert t[i] in multiset(t[..j]);
  }

  lemma OnceInMultiset(s: seq<NewsItem>, p: nat)
    requires DistinctIds(s) && p < |s|
    ensures multiset(s)[s[p]] == 1
  {
    assert s == s[..p] + [s[p]] + s[p + 1..];
    assert s[p] !in s[..p] && s[p] !in s[p + 1..];
  }
}
