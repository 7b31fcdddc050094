/**
 * The stderr of a failed update in `http_server.c`: the tail that is kept of it, and the reason that is
 * read from the tail.
 */
module UpdateStderr {
  import opened Bytes

  const TAIL: nat := 65536
  const TOKEN: nat := 64
  /** "ERROR:" */
  const MARKER: seq<byte> := [0x45, 0x52, 0x52, 0x4F, 0x52, 0x3A]

  function Last(s: seq<byte>, n: nat): seq<byte> {
    if |s| <= n then s else s[|s| - n..]
  }

  // ---- The tail ---------------------------------------------------------------------------

  class StderrTail {
    const buffer: array<byte>
    var captured: nat
    /** Everything that came in, oldest first. */
    ghost var all: seq<byte>

    ghost predicate Valid()
      reads this, buffer
    {
      buffer.Length == TAIL && captured <= TAIL && buffer[..captured] == Last(all, TAIL)
    }

    constructor ()
      ensures Valid() && fresh(buffer) && all == []
    {
      buffer := new byte[TAIL](_ => 0);
      captured, all := 0, [];
      new;
      assert buffer[..0] == [];
    }

    lemma TailIs()
      requires Valid()
      ensures captured <= buffer.Length && buffer[..captured] == Last(all, TAIL)
    {
    }

    /** One read: the buffer keeps the last 65536 bytes of all that came in, however it was cut up. */
    method Capture(chunk: seq<byte>)
      requires Valid()
      modifies this, buffer
      ensures Valid() && all == old(all) + chunk
    {
      ghost var was := buffer[..captured];
      all := all + chunk;
      if captured + |chunk| <= TAIL {
        forall k | 0 <= k < |chunk| { buffer[captured + k] := chunk[k]; }
        captured := captured + |chunk|;
        assert buffer[..captured] == was + chunk;
      } else {
        Slide(chunk, captured + |chunk| - TAIL);
        assert buffer[..captured] == Last(was + chunk, TAIL);
      }
    }

    /** The part of `Capture` that drops the oldest bytes. */
    method Slide(chunk: seq<byte>, drop: nat)
      requires buffer.Length == TAIL && captured <= TAIL && drop > 0 && captured + |chunk| == TAIL + drop
      modifies this`captured, buffer
      ensures captured == TAIL && buffer[..captured] == old(buffer[..captured] + chunk)[drop..]
    {
      ghost var was := buffer[..captured];
      if drop >= captured {
        var keep := if TAIL < |chunk| then TAIL else |chunk|;
        forall k | 0 <= k < keep { buffer[k] := chunk[|chunk| - keep + k]; }
        captured := keep;
        assert buffer[..captured] == chunk[|chunk| - keep..];
      } else {
        var kept := captured - drop;
        forall k | 0 <= k < kept { buffer[k] := buffer[k + drop]; }
        assert buffer[..kept] == was[drop..];
        forall k | 0 <= k < |chunk| { buffer[kept + k] := chunk[k]; }
        captured := TAIL;
        assert buffer[..captured] == was[drop..] + chunk;
      }
    }
  }

  // ---- The reason -------------------------------------------------------------------------

  predicate TokenByte(c: byte) {
    0x61 <= c <= 0x7A || 0x30 <= c <= 0x39 || c == 0x5F || c == 0x2D
  }

  predicate MarkerEnds(s: seq<byte>, n: nat)
    requires n <= |s|
  {
    n >= 6 && s[n - 6..n] == MARKER
  }

  /** Where the last marker up to `n` ends; 0 if there is none. */
  function LastEnd(s: seq<byte>, n: nat): (e: nat)
    requires n <= |s|
    ensures e <= n && (e > 0 ==> MarkerEnds(s, e)) && forall k :: e < k <= n ==> !MarkerEnds(s, k)
  {
    if n == 0 || MarkerEnds(s, n) then n else LastEnd(s, n - 1)
  }

  /** The end of the run of token bytes from `e`. */
  function TokenEnd(s: seq<byte>, e: nat): (t: nat)
    requires e <= |s|
    ensures e <= t <= |s| && (forall k :: e <= k < t ==> TokenByte(s[k])) && (t < |s| ==> !TokenByte(s[t]))
    decreases |s| - e
  {
    if e == |s| || !TokenByte(s[e]) then e else TokenEnd(s, e + 1)
  }

  function Cut(s: seq<byte>, n: nat): seq<byte> {
    if |s| <= n then s else s[..n]
  }

  /** The token behind the last marker, cut to the token buffer and the caller's buffer. */
  function Reason(s: seq<byte>, cap: nat): seq<byte> {
    var e := LastEnd(s, |s|);
    if e == 0 || cap == 0 then [] else Cut(Cut(s[e..TokenEnd(s, e)], TOKEN - 1), cap - 1)
  }

  /** The scanner's variables. */
  datatype Scan = Scan(collecting: bool, token: seq<byte>, window: seq<byte>, out: seq<byte>)

  /** What they hold once `seen` has been read. */
  ghost predicate Holds(sc: Scan, seen: seq<byte>, cap: nat) {
    var e := LastEnd(seen, |seen|);
    var t := TokenEnd(seen, e);
    && (sc.collecting <==> e > 0 && t == |seen|)
    && (sc.collecting ==> sc.window == [] && sc.token == Cut(seen[e..], TOKEN - 1))
    && (!sc.collecting ==> sc.out == Reason(seen, cap) && sc.window == Last(seen[if e > 0 then t else 0..], 6))
    && (cap == 0 ==> sc.out == []) && sc.window != MARKER && |sc.token| < TOKEN
  }

  function Emitted(sc: Scan, cap: nat): seq<byte> {
    if cap > 0 then Cut(sc.token, cap - 1) else sc.out
  }

  function Pushed(sc: Scan, c: byte): Scan {
    var window := Last(sc.window + [c], 6);
    if window == MARKER then sc.(collecting := true, token := [], window := []) else sc.(window := window)
  }

  /** One byte of the loop. */
  function Fed(sc: Scan, c: byte, cap: nat): Scan {
    if sc.collecting && TokenByte(c) then sc.(token := Cut(sc.token + [c], TOKEN - 1))
    else if sc.collecting then Pushed(sc.(out := Emitted(sc, cap), collecting := false, token := []), c)
    else Pushed(sc, c)
  }

  class ReasonScanner {
    const cap: nat
    const token: array<byte>
    const window: array<byte>
    var tokenLen: nat
    var windowLen: nat
    var collecting: bool
    var out: seq<byte>
    /** The bytes read so far. */
    ghost var seen: seq<byte>

    ghost predicate Sized()
      reads this
    {
      token.Length == TOKEN && window.Length == 6 && tokenLen < TOKEN && windowLen <= 6
    }

    ghost function Abstract(): Scan
      requires Sized()
      reads this, token, window
    {
      Scan(collecting, token[..tokenLen], window[..windowLen], out)
    }

    ghost predicate Valid()
      reads this, token, window
    {
      Sized() && Holds(Abstract(), seen, cap)
    }

    constructor (cap: nat)
      ensures Valid() && seen == [] && this.cap == cap && fresh(token) && fresh(window)
    {
      this.cap := cap;
      token, window := new byte[TOKEN](_ => 0), new byte[6](_ => 0);
      tokenLen, windowLen, collecting, out, seen := 0, 0, false, [], [];
      new;
      assert window[..0] == [];
    }

    /** What becomes of the collected token. */
    method Emit()
      requires Sized()
      modifies this`out
      ensures out == old(Emitted(Abstract(), cap))
    {
      if cap > 0 {
        var copy := if tokenLen < cap - 1 then tokenLen else cap - 1;
        out := token[..copy];
      }
    }

    /** The window after one more byte; a full marker in it begins a token. */
    method Push(c: byte)
      requires Sized()
      modifies this`windowLen, this`collecting, this`tokenLen, window
      ensures Sized() && Abstract() == old(Pushed(Abstract(), c))
    {
      ghost var was := window[..windowLen];
      if windowLen < 6 {
        window[windowLen] := c;
        windowLen := windowLen + 1;
      } else {
        forall k | 0 <= k < 5 { window[k] := window[k + 1]; }
        window[5] := c;
      }
      assert window[..windowLen] == Last(was + [c], 6);
      if windowLen == 6 && window[..] == MARKER {
        collecting, tokenLen, windowLen := true, 0, 0;
      }
    }

    /** One byte of the loop. */
    method Feed(c: byte)
      requires Valid()
      modifies this, token, window
      ensures Valid() && seen == old(seen) + [c]
    {
      hide Holds, Pushed;
      FedHolds(Abstract(), seen, c, cap);
      ghost var sc := Abstract();
      seen := seen + [c];
      if collecting {
        if TokenByte(c) {
          if tokenLen + 1 < TOKEN {
            token[tokenLen] := c;
            tokenLen := tokenLen + 1;
          }
          assert Abstract() == Fed(sc, c, cap);
          return;
        }
        Emit();
        collecting, tokenLen := false, 0;
      }
      Push(c);
    }

    /** The end of the input. */
    method Finish() returns (r: seq<byte>)
      requires Valid()
      modifies this`out
      ensures r == Reason(seen, cap)
    {
      hide LastEnd, TokenEnd, Cut;
      ghost var e := LastEnd(seen, |seen|);
      assert seen[e..|seen|] == seen[e..];
      assert collecting ==> TokenEnd(seen, e) == |seen|;
      if collecting { Emit(); }
      return out;
    }
  }

  /** `update_failure_reason`: however the reads cut the input up, the reason is that of the whole. */
  method UpdateFailureReason(chunks: seq<seq<byte>>, cap: nat) returns (r: seq<byte>)
    ensures r == Reason(Concat(chunks), cap)
  {
    hide ReasonScanner.Valid, Reason;
    var scanner := new ReasonScanner(cap);
    ghost var whole := Concat(chunks);
    assert chunks[0..] == chunks && [] + whole == whole;
    for i := 0 to |chunks|
      invariant scanner.Valid() && scanner.cap == cap && fresh(scanner) && fresh(scanner.token) && fresh(scanner.window)
      invariant scanner.seen + Concat(chunks[i..]) == whole
    {
      ghost var before, rest := scanner.seen, Concat(chunks[i + 1..]);
      assert chunks[i..][1..] == chunks[i + 1..];
      assert (before + chunks[i]) + rest == whole;
      for j := 0 to |chunks[i]|
        invariant scanner.Valid() && scanner.seen == before + chunks[i][..j]
      {
        assert chunks[i][..j + 1] == chunks[i][..j] + [chunks[i][j]];
        scanner.Feed(chunks[i][j]);
      }
      assert chunks[i][..|chunks[i]|] == chunks[i];
    }
    assert scanner.seen == whole;
    r := scanner.Finish();
  }

  lemma ConcatOne(chunk: seq<byte>)
    ensures Concat([chunk]) == chunk
  {
    assert [chunk][1..] == [];
  }

  /** The whole way: the stderr of the update in any chunks, its tail in any chunks, the reason in the reply. */
  method ReportedReason(stderr: seq<seq<byte>>) returns (r: seq<byte>)
    ensures r == Reason(Last(Concat(stderr), TAIL), TOKEN)
  {
    hide Reason, StderrTail.Valid;
    var tail := new StderrTail();
    assert stderr[0..] == stderr && [] + Concat(stderr) == Concat(stderr);
    for i := 0 to |stderr|
      invariant tail.Valid() && fresh(tail) && fresh(tail.buffer) && tail.all + Concat(stderr[i..]) == Concat(stderr)
    {
      assert stderr[i..][1..] == stderr[i + 1..];
      assert (tail.all + stderr[i]) + Concat(stderr[i + 1..]) == Concat(stderr);
      tail.Capture(stderr[i]);
    }
    assert tail.all == Concat(stderr);
    tail.TailIs();
    var kept := tail.buffer[..tail.captured];
    ConcatOne(kept);
    r := UpdateFailureReason([kept], TOKEN);
  }

  // ---- Why the scanner finds every marker -------------------------------------------------

  lemma MarkerBytes(s: seq<byte>, n: nat)
    requires n <= |s| && MarkerEnds(s, n)
    ensures forall k :: n - 6 <= k < n ==> s[k] == MARKER[k - (n - 6)]
  {
    forall k | n - 6 <= k < n ensures s[k] == MARKER[k - (n - 6)] {
      assert s[n - 6..n][k - (n - 6)] == s[k];
    }
  }

  /** Two markers never overlap. */
  lemma MarkersApart(s: seq<byte>, e: nat, n: nat)
    requires e < n <= |s| && MarkerEnds(s, e) && MarkerEnds(s, n)
    ensures e + 6 <= n
  {
    MarkerBytes(s, e);
    MarkerBytes(s, n);
    assert s[e - 1] == 0x3A;
  }

  /** No byte of a marker is one of a token. */
  lemma MarkerHasNoToken(s: seq<byte>, n: nat)
    requires n <= |s| && MarkerEnds(s, n)
    ensures forall k :: n - 6 <= k < n ==> !TokenByte(s[k])
  {
    MarkerBytes(s, n);
  }

  /** A marker that ends with this byte lies behind the last token. */
  lemma MarkerBehindToken(s: seq<byte>, c: byte)
    requires MarkerEnds(s + [c], |s| + 1) && LastEnd(s, |s|) > 0
    ensures TokenEnd(s, LastEnd(s, |s|)) + 6 <= |s| + 1
  {
    hide TokenByte, LastEnd, TokenEnd, MarkerEnds;
    var all, e := s + [c], LastEnd(s, |s|);
    var t, n := TokenEnd(s, e), |s| + 1;
    SameMarker(s, c, e);
    MarkersApart(all, e, n);
    MarkerHasNoToken(all, n);
    if t > e {
      TokenByteAt(s, e, t - 1);
      assert all[t - 1] == s[t - 1];
    }
  }

  lemma SameMarker(s: seq<byte>, c: byte, e: nat)
    requires e <= |s| && MarkerEnds(s, e)
    ensures MarkerEnds(s + [c], e)
  {
    assert (s + [c])[e - 6..e] == s[e - 6..e];
  }

  lemma TokenByteAt(s: seq<byte>, e: nat, k: nat)
    requires e <= |s| && e <= k < TokenEnd(s, e)
    ensures TokenByte(s[k])
  {
  }

  lemma FedHolds(sc: Scan, s: seq<byte>, c: byte, cap: nat)
    requires Holds(sc, s, cap)
    ensures Holds(Fed(sc, c, cap), s + [c], cap)
  {
    hide LastEnd, TokenEnd;
    Extended(s, c);
    if sc.collecting {
      if TokenByte(c) { FedToken(sc, s, c, cap); } else { FedTokenEnd(sc, s, c, cap); }
    } else {
      FedOutside(sc, s, c, cap);
    }
  }

  lemma FedToken(sc: Scan, s: seq<byte>, c: byte, cap: nat)
    requires Holds(sc, s, cap) && sc.collecting && TokenByte(c)
    ensures Holds(Fed(sc, c, cap), s + [c], cap)
  {
    hide LastEnd, TokenEnd;
    Extended(s, c);
    var all, e := s + [c], LastEnd(s, |s|);
    assert all[|s|] == c;
    if MarkerEnds(all, |all|) { MarkerHasNoToken(all, |all|); }
    assert all[e..] == s[e..] + [c];
    CutMore(s[e..], c);
  }

  lemma CutMore(s: seq<byte>, c: byte)
    ensures Cut(Cut(s, TOKEN - 1) + [c], TOKEN - 1) == Cut(s + [c], TOKEN - 1)
  {
  }

  lemma FedTokenEnd(sc: Scan, s: seq<byte>, c: byte, cap: nat)
    requires Holds(sc, s, cap) && sc.collecting && !TokenByte(c)
    ensures Holds(Fed(sc, c, cap), s + [c], cap)
  {
    hide LastEnd, TokenEnd;
    Extended(s, c);
    var all, e := s + [c], LastEnd(s, |s|);
    if MarkerEnds(all, |all|) { MarkerBehindToken(s, c); }
    assert all[|s|..] == [c] && all[e..|s|] == s[e..];
  }

  lemma FedOutside(sc: Scan, s: seq<byte>, c: byte, cap: nat)
    requires Holds(sc, s, cap) && !sc.collecting
    ensures Holds(Fed(sc, c, cap), s + [c], cap)
  {
    hide LastEnd, TokenEnd, Reason, Cut;
    Extended(s, c);
    var all, e := s + [c], LastEnd(s, |s|);
    var b := if e > 0 then TokenEnd(s, e) else 0;
    PushedWindow(s, c, b);
    if MarkerEnds(all, |all|) {
      if e > 0 { MarkerBehindToken(s, c); }
      TokenEndAtEnd(all);
      EmptyToken(all);
    } else {
      SameReason(s, c, cap);
    }
  }

  /** The window is a marker exactly when one ends here. */
  lemma PushedWindow(s: seq<byte>, c: byte, b: nat)
    requires b <= |s|
    ensures Last(Last(s[b..], 6) + [c], 6) == Last((s + [c])[b..], 6)
    ensures b + 6 <= |s| + 1 ==> (Last((s + [c])[b..], 6) == MARKER <==> MarkerEnds(s + [c], |s| + 1))
    ensures b + 6 > |s| + 1 ==> Last((s + [c])[b..], 6) != MARKER
  {
    hide MARKER, MarkerEnds;
    var all := s + [c];
    assert all[b..] == s[b..] + [c];
    LastMore(s[b..], c);
    LastSix(all, b);
  }

  lemma LastMore(s: seq<byte>, c: byte)
    ensures Last(Last(s, 6) + [c], 6) == Last(s + [c], 6)
  {
  }

  lemma LastSix(s: seq<byte>, b: nat)
    requires b <= |s|
    ensures b + 6 <= |s| ==> (Last(s[b..], 6) == MARKER <==> MarkerEnds(s, |s|))
    ensures b + 6 > |s| ==> Last(s[b..], 6) != MARKER
  {
    if b + 6 <= |s| {
      assert Last(s[b..], 6) == s[|s| - 6..|s|];
    } else {
      assert |Last(s[b..], 6)| < 6 == |MARKER|;
    }
  }

  lemma EmptyToken(s: seq<byte>)
    ensures Cut(s[|s|..], TOKEN - 1) == []
  {
  }

  lemma SameReason(s: seq<byte>, c: byte, cap: nat)
    requires !MarkerEnds(s + [c], |s| + 1) && (LastEnd(s, |s|) > 0 ==> TokenEnd(s, LastEnd(s, |s|)) < |s|)
    ensures Reason(s + [c], cap) == Reason(s, cap)
  {
    hide LastEnd, TokenEnd, Cut, MarkerEnds;
    Extended(s, c);
    var e := LastEnd(s, |s|);
    if e > 0 {
      assert (s + [c])[e..TokenEnd(s, e)] == s[e..TokenEnd(s, e)];
    }
  }

  lemma TokenEndAtEnd(s: seq<byte>)
    ensures TokenEnd(s, |s|) == |s|
  {
  }

  /** What one more byte changes. */
  lemma Extended(s: seq<byte>, c: byte)
    ensures var all := s + [c]; var e := LastEnd(s, |s|); var n := |all|;
            && LastEnd(all, n) == (if MarkerEnds(all, n) then n else e)
            && TokenEnd(all, e) == (if TokenEnd(s, e) == |s| && TokenByte(c) then n else TokenEnd(s, e))
  {
    LastEndPrefix(s, c, |s|);
    TokenEndPrefix(s, c, LastEnd(s, |s|));
  }

  lemma {:induction false} LastEndPrefix(s: seq<byte>, c: byte, n: nat)
    requires n <= |s|
    ensures LastEnd(s + [c], n) == LastEnd(s, n)
  {
    assert n >= 6 ==> (s + [c])[n - 6..n] == s[n - 6..n];
    if n > 0 { LastEndPrefix(s, c, n - 1); }
  }

  lemma {:induction false} TokenEndPrefix(s: seq<byte>, c: byte, e: nat)
    requires e <= |s|
    ensures TokenEnd(s + [c], e) == if TokenEnd(s, e) == |s| && TokenByte(c) then |s| + 1 else TokenEnd(s, e)
    decreases |s| - e
  {
    if e < |s| { TokenEndPrefix(s, c, e + 1); }
  }

  // ---- What the tail loses ----------------------------------------------------------------

  lemma {:induction false} LastEndDropped(s: seq<byte>, d: nat, n: nat)
    requires d + 6 <= n <= |s|
    ensures LastEnd(s, n) >= d + 6 ==> LastEnd(s[d..], n - d) == LastEnd(s, n) - d
    decreases n
  {
    assert s[d..][n - d - 6..n - d] == s[n - 6..n];
    if !MarkerEnds(s, n) && LastEnd(s, n) >= d + 6 {
      LastEndDropped(s, d, n - 1);
    }
  }

  lemma {:induction false} TokenEndDropped(s: seq<byte>, d: nat, e: nat)
    requires d <= e <= |s|
    ensures TokenEnd(s[d..], e - d) == TokenEnd(s, e) - d
    decreases |s| - e
  {
    if e < |s| {
      assert s[d..][e - d] == s[e];
      TokenEndDropped(s, d, e + 1);
    }
  }

  lemma DroppedReason(s: seq<byte>, d: nat, cap: nat)
    requires d <= |s| && d + 6 <= LastEnd(s, |s|)
    ensures Reason(s[d..], cap) == Reason(s, cap)
  {
    hide LastEnd, TokenEnd, Cut, MarkerEnds, Reason;
    var e := LastEnd(s, |s|);
    var t := TokenEnd(s, e);
    LastEndDropped(s, d, |s|);
    TokenEndDropped(s, d, e);
    assert s[d..][e - d..t - d] == s[e..t];
    ReasonIs(s, cap, s[e..t]);
    ReasonIs(s[d..], cap, s[e..t]);
  }

  lemma ReasonIs(s: seq<byte>, cap: nat, token: seq<byte>)
    requires LastEnd(s, |s|) > 0 && token == s[LastEnd(s, |s|)..TokenEnd(s, LastEnd(s, |s|))]
    ensures Reason(s, cap) == if cap == 0 then [] else Cut(Cut(token, TOKEN - 1), cap - 1)
  {
    hide LastEnd, TokenEnd, Cut;
  }

  /** The tail gives the reason of the whole stderr as long as the last marker is in it, whole. */
  lemma TailKeepsReason(s: seq<byte>, cap: nat)
    requires LastEnd(s, |s|) > 0 && |s| - (LastEnd(s, |s|) - 6) <= TAIL
    ensures Reason(Last(s, TAIL), cap) == Reason(s, cap)
  {
    hide LastEnd, Reason;
    if |s| > TAIL {
      DroppedReason(s, |s| - TAIL, cap);
    }
  }

  // ---- In plain terms ---------------------------------------------------------------------

  /** `ERROR:` stands at `k`. */
  predicate MarkerAt(s: seq<byte>, k: nat) {
    && k + 6 <= |s| && s[k] == 'E' as int && s[k + 1] == 'R' as int && s[k + 2] == 'R' as int
    && s[k + 3] == 'O' as int && s[k + 4] == 'R' as int && s[k + 5] == ':' as int
  }

  lemma MarkerMeans(s: seq<byte>, n: nat)
    requires n <= |s|
    ensures MarkerEnds(s, n) <==> n >= 6 && MarkerAt(s, n - 6)
  {
    if n >= 6 {
      var w := s[n - 6..n];
      assert w[0] == s[n - 6] && w[1] == s[n - 5] && w[2] == s[n - 4];
      assert w[3] == s[n - 3] && w[4] == s[n - 2] && w[5] == s[n - 1];
    }
  }

  /** The bytes a reason is made of. */
  lemma TokenBytesMean(c: byte)
    ensures TokenByte(c) <==>
              || 'a' as int <= c <= 'z' as int || '0' as int <= c <= '9' as int
              || c == '_' as int || c == '-' as int
  {
  }

  /**
   * The reason is the token right behind the last marker, up to the first byte that is none, and never more than
   * 63 bytes or what the caller has room for.
   */
  lemma ReasonMeans(s: seq<byte>, at: nat, end: nat, cap: nat)
    requires MarkerAt(s, at) && forall k :: at < k < |s| ==> !MarkerAt(s, k)
    requires at + 6 <= end <= |s| && forall k :: at + 6 <= k < end ==> TokenByte(s[k])
    requires end < |s| ==> !TokenByte(s[end])
    ensures var room := if cap == 0 then 0 else if cap < 64 then cap - 1 else 63;
            Reason(s, cap) == s[at + 6..if end - (at + 6) <= room then end else at + 6 + room]
  {
    hide TokenByte, MarkerAt, MarkerEnds;
    var e := at + 6;
    MarkerMeans(s, e);
    var last := LastEnd(s, |s|);
    MarkerMeans(s, last);
    assert last == e;
    assert TokenEnd(s, e) == end;
    var token := s[e..end];
    assert Cut(token, 63) == s[e..if end - e <= 63 then end else e + 63];
  }

  /** Without a marker there is no reason. */
  lemma NoReason(s: seq<byte>, cap: nat)
    requires forall k :: 0 <= k < |s| ==> !MarkerAt(s, k)
    ensures Reason(s, cap) == []
  {
    hide MarkerAt, MarkerEnds;
    MarkerMeans(s, LastEnd(s, |s|));
  }
}
