/**
 * The session table of `auth.c` with its persisted file, as `api.c` drives it: what one request
 * does to table and file, and what whole runs with restarts keep.
 */
module Sessions {
  import opened Wrappers

  const MAX_SESSIONS: nat := 8
  const SESSION_SECONDS: nat := 12 * 60 * 60

  /** A slot; an empty token marks it free. */
  datatype Session = Session(token: string, user: string, expires: int, persisted: bool)

  const EMPTY := Session("", "", 0, false)

  /** A line of the session file. */
  datatype Row = Row(token: string, user: string, expires: int)

  /** `path`: a session file is configured; `https`: the HTTPS listener is up. */
  datatype State = State(slots: seq<Session>, evicted: bool, file: seq<Row>, users: set<string>, https: bool,
                         path: bool)

  /**
   * How a boot ends with the HTTPS listener: serving; off, because it was not asked for or was given up;
   * or skipped, where `api_set_https_active` is never called.
   */
  datatype Boot = Serving | Off | Skipped

  /**
   * What a boot finds: the saved feature flag, `--tls-port` (0 when it is not given), the port of HTTP, and
   * whether a certificate is there and readable, a socket can be had, it can be bound, and the relay comes up.
   */
  datatype Setup = Setup(feature: bool, tlsPort: int, port: int, certificate: bool, readable: bool, socket: bool,
                         bound: bool, relay: bool)

  const DEFAULT_TLS_PORT := 8443

  /** The port HTTPS is asked for on: 0 for not at all. */
  function AskedPort(b: Setup): int {
    if b.tlsPort == 0 && b.feature then DEFAULT_TLS_PORT else b.tlsPort
  }

  /** HTTPS is asked for on a port of its own, and everything it takes works. */
  predicate CanServe(b: Setup) {
    && (b.feature || b.tlsPort != 0)
    && (if b.tlsPort == 0 then b.port != 8443 else 1 <= b.tlsPort <= 65535 && b.tlsPort != b.port)
    && b.certificate && b.readable && b.socket && b.bound && b.relay
  }

  /** HTTPS is asked for on a port that is none, or gets no socket. */
  predicate NoCall(b: Setup) {
    b.tlsPort < 0 || ((b.feature || b.tlsPort > 0) && b.certificate && b.readable && !b.socket)
  }

  /** How such a boot ends; `None` is a process that refuses to start. */
  function BootOf(b: Setup): Option<Boot> {
    var port := AskedPort(b);
    if port > 0 && (port > 65535 || port == b.port) then None
    else if port < 0 || (port > 0 && b.certificate && b.readable && !b.socket) then Some(Skipped)
    else if port > 0 && b.certificate && b.readable && b.bound && b.relay then Some(Serving)
    else Some(Off)
  }

  datatype Action =
    | Login(overHttps: bool, user: string, token: string, saved: bool)
    | Logout(token: string, saved: bool)
    | RemoveUser(user: string, saved: bool)
    | AddUser(user: string)
    | Check(token: string)
    | Restart(boot: Boot)

  datatype Admission = Refused | Admitted(user: string, expires: int)

  // ---- What each operation does -----------------------------------------------------------

  predicate Live(e: Session, now: int) {
    e.token != "" && e.expires > now
  }

  function FirstFree(s: seq<Session>, now: int, i: nat): (k: nat)
    requires i <= |s|
    ensures i <= k <= |s| && (k < |s| ==> !Live(s[k], now))
    ensures forall j :: i <= j < k ==> Live(s[j], now)
    decreases |s| - i
  {
    if i == |s| || !Live(s[i], now) then i else FirstFree(s, now, i + 1)
  }

  function FindToken(s: seq<Session>, token: string, i: nat): (k: nat)
    requires i <= |s|
    ensures i <= k <= |s| && (k < |s| ==> s[k].token == token)
    ensures forall j :: i <= j < k ==> s[j].token != token
    decreases |s| - i
  {
    if i == |s| || s[i].token == token then i else FindToken(s, token, i + 1)
  }

  /** The first session that is not expired and has this token. */
  function FindLive(s: seq<Session>, token: string, now: int, i: nat): (k: nat)
    requires i <= |s|
    ensures i <= k <= |s| && (k < |s| ==> s[k].token == token && s[k].expires > now)
    ensures forall j :: i <= j < k ==> s[j].token != token || s[j].expires <= now
    decreases |s| - i
  {
    if i == |s| || (s[i].expires > now && s[i].token == token) then i else FindLive(s, token, now, i + 1)
  }

  function Slot(s: seq<Session>, now: int): (k: nat)
    requires |s| == MAX_SESSIONS
    ensures k < MAX_SESSIONS
  {
    var k := FirstFree(s, now, 0);
    if k < MAX_SESSIONS then k else 0
  }

  /** The rows `save_sessions` writes when only persisted sessions are asked for. */
  function Persisted(s: seq<Session>): (rows: seq<Row>)
    ensures |rows| <= |s|
  {
    if s == [] then []
    else
      var e := s[|s| - 1];
      Persisted(s[..|s| - 1]) + (if e.token != "" && e.persisted then [Row(e.token, e.user, e.expires)] else [])
  }

  function Save(st: State, saved: bool): State {
    if saved then st.(file := Persisted(st.slots)) else st
  }

  /** `issue_token` */
  function Issue(st: State, now: int, user: string, token: string): State
    requires |st.slots| == MAX_SESSIONS
  {
    var k := Slot(st.slots, now);
    var was := st.slots[k];
    st.(slots := st.slots[k := Session(token, user, now + SESSION_SECONDS, false)],
        evicted := was.token != "" && was.persisted)
  }

  /** `le_auth_save_issued_session` */
  function SaveIssued(st: State, token: string, saved: bool): State {
    var k := FindToken(st.slots, token, 0);
    if k == |st.slots| || !saved then st
    else
      var slots := st.slots[k := st.slots[k].(persisted := true)];
      st.(slots := slots, file := Persisted(slots))
  }

  /** The part of `auth_login_json` after the password was accepted. */
  function LoginStep(st: State, now: int, overHttps: bool, user: string, token: string, saved: bool): State
    requires |st.slots| == MAX_SESSIONS
  {
    var issued := Issue(st, now, user, token);
    if overHttps && st.path then
      if saved then SaveIssued(issued, token, true).(evicted := false) else issued
    else if !overHttps && st.https && st.path && issued.evicted then
      if saved then Save(issued, true).(evicted := false) else issued
    else
      issued.(evicted := false)
  }

  function ClearToken(s: seq<Session>, token: string): (t: seq<Session>)
    ensures |t| == |s|
    ensures forall i :: 0 <= i < |s| ==> t[i] == if s[i].token == token then s[i].(token := "") else s[i]
  {
    if s == [] then []
    else
      var e := s[|s| - 1];
      ClearToken(s[..|s| - 1], token) + [if e.token == token then e.(token := "") else e]
  }

  function ClearUser(s: seq<Session>, user: string): (t: seq<Session>)
    ensures |t| == |s|
    ensures forall i :: 0 <= i < |s| ==> t[i] == if s[i].user == user then s[i].(token := "") else s[i]
  {
    if s == [] then []
    else
      var e := s[|s| - 1];
      ClearUser(s[..|s| - 1], user) + [if e.user == user then e.(token := "") else e]
  }

  function SaveIfPersisting(st: State, saved: bool): State {
    if st.https && st.path then Save(st, saved) else st
  }

  /** `le_auth_session`: expired sessions in front of the match are cleared on the way. */
  function CheckSlots(s: seq<Session>, now: int, upTo: nat): (t: seq<Session>)
    requires upTo <= |s|
    ensures |t| == |s|
    ensures forall i :: 0 <= i < |s| ==> t[i] == if i < upTo && s[i].expires <= now then s[i].(token := "") else s[i]
  {
    if upTo == 0 then s
    else
      var t := CheckSlots(s, now, upTo - 1);
      if s[upTo - 1].expires <= now then t[upTo - 1 := s[upTo - 1].(token := "")] else t
  }

  function CheckStep(st: State, now: int, token: string): State {
    if st.users == {} || token == "" then st
    else st.(slots := CheckSlots(st.slots, now, FindLive(st.slots, token, now, 0)))
  }

  /** What `le_auth_session` answers. */
  function Admit(st: State, now: int, token: string): Admission {
    if st.users == {} || token == "" then Refused
    else
      var k := FindLive(st.slots, token, now, 0);
      if k < |st.slots| then Admitted(st.slots[k].user, st.slots[k].expires) else Refused
  }

  predicate Loadable(r: Row, users: set<string>, now: int) {
    r.expires > now && r.user in users
  }

  /** `le_auth_load_sessions` with `room` slots left. */
  function Load(rows: seq<Row>, users: set<string>, now: int, room: nat): (s: seq<Session>)
    ensures |s| <= room
  {
    if rows == [] || room == 0 then []
    else if Loadable(rows[0], users, now) then
      [Session(rows[0].token, rows[0].user, rows[0].expires, true)] + Load(rows[1..], users, now, room - 1)
    else Load(rows[1..], users, now, room)
  }

  function Blank(n: nat): (s: seq<Session>)
    ensures |s| == n && forall i :: 0 <= i < n ==> s[i] == EMPTY
  {
    seq(n, _ => EMPTY)
  }

  function Loaded(rows: seq<Row>, users: set<string>, now: int): (s: seq<Session>)
    ensures |s| == MAX_SESSIONS
  {
    var l := Load(rows, users, now, MAX_SESSIONS);
    l + Blank(MAX_SESSIONS - |l|)
  }

  /** A new process: empty slots, then `api_set_https_active` as the boot calls it, if it does. */
  function RestartStep(st: State, now: int, boot: Boot): State {
    var blank := st.(slots := Blank(MAX_SESSIONS), evicted := false, https := boot.Serving?);
    if !st.path then blank
    else match boot
      case Serving => blank.(slots := Loaded(st.file, st.users, now))
      case Off => blank.(file := [])
      case Skipped => blank
  }

  /** What a step needs: a password that was accepted, a new token, HTTPS only through its listener. */
  predicate Possible(st: State, a: Action) {
    match a
    case Login(overHttps, user, token, _) =>
      user in st.users && token != "" && (overHttps ==> st.https)
      && (forall i :: 0 <= i < |st.slots| ==> st.slots[i].token != token)
      && (forall i :: 0 <= i < |st.file| ==> st.file[i].token != token)
    case RemoveUser(user, _) => user in st.users && |st.users| > 1
    case _ => true
  }

  function Next(st: State, now: int, a: Action): (after: State)
    requires |st.slots| == MAX_SESSIONS
    ensures |after.slots| == MAX_SESSIONS
  {
    match a
    case Login(overHttps, user, token, saved) => LoginStep(st, now, overHttps, user, token, saved)
    case Logout(token, saved) => SaveIfPersisting(st.(slots := ClearToken(st.slots, token)), saved)
    case RemoveUser(user, saved) =>
      SaveIfPersisting(st.(slots := ClearUser(st.slots, user), users := st.users - {user}), saved)
    case AddUser(user) => st.(users := st.users + {user})
    case Check(token) => CheckStep(st, now, token)
    case Restart(boot) => RestartStep(st, now, boot)
  }

  // ---- The table in place -----------------------------------------------------------------

  class Table {
    const sessions: array<Session>
    const path: bool
    var evicted: bool
    var file: seq<Row>
    var users: set<string>
    var https: bool

    ghost predicate Valid()
      reads this
    {
      sessions.Length == MAX_SESSIONS
    }

    ghost function Abstract(): State
      reads this, sessions
    {
      State(sessions[..], evicted, file, users, https, path)
    }

    constructor (path: bool, users: set<string>, file: seq<Row>)
      ensures Valid() && fresh(sessions) && Abstract() == State(Blank(MAX_SESSIONS), false, file, users, false, path)
    {
      sessions := new Session[MAX_SESSIONS](_ => EMPTY);
      this.path, this.users, this.file := path, users, file;
      evicted, https := false, false;
      new;
      assert sessions[..] == Blank(MAX_SESSIONS);
    }

    /** `issue_token`, with the token the random bytes gave. */
    method IssueToken(now: int, user: string, token: string)
      requires Valid()
      modifies this`evicted, sessions
      ensures Abstract() == Issue(old(Abstract()), now, user, token)
    {
      var slot := MAX_SESSIONS;
      var i := 0;
      while i < MAX_SESSIONS && slot == MAX_SESSIONS
        invariant i <= MAX_SESSIONS && slot <= MAX_SESSIONS
        invariant FirstFree(sessions[..], now, 0)
               == if slot < MAX_SESSIONS then slot else FirstFree(sessions[..], now, i)
      {
        if sessions[i].token == "" || sessions[i].expires <= now { slot := i; }
        i := i + 1;
      }
      if slot == MAX_SESSIONS { slot := 0; }
      evicted := sessions[slot].token != "" && sessions[slot].persisted;
      sessions[slot] := Session(token, user, now + SESSION_SECONDS, false);
    }

    /** `save_sessions`, persisted ones only; `saved` is whether the file could be replaced. */
    method SavePersisted(saved: bool)
      requires Valid()
      modifies this`file
      ensures Abstract() == Save(old(Abstract()), saved)
    {
      var rows: seq<Row> := [];
      for i := 0 to MAX_SESSIONS
        invariant rows == Persisted(sessions[..i])
      {
        assert sessions[..i + 1][..i] == sessions[..i];
        if sessions[i].token != "" && sessions[i].persisted {
          rows := rows + [Row(sessions[i].token, sessions[i].user, sessions[i].expires)];
        }
      }
      assert sessions[..MAX_SESSIONS] == sessions[..];
      if saved { file := rows; }
    }

    /** `le_auth_save_issued_session` */
    method SaveIssuedSession(token: string, saved: bool)
      requires Valid()
      modifies this`file, sessions
      ensures Abstract() == SaveIssued(old(Abstract()), token, saved)
    {
      hide Persisted;
      for i := 0 to MAX_SESSIONS
        invariant sessions[..] == old(sessions[..]) && file == old(file)
        invariant FindToken(sessions[..], token, 0) == FindToken(sessions[..], token, i)
      {
        if sessions[i].token == token {
          var previous := sessions[i].persisted;
          sessions[i] := sessions[i].(persisted := true);
          SavePersisted(saved);
          if !saved { sessions[i] := sessions[i].(persisted := previous); }
          return;
        }
      }
    }

    /** `auth_login_json` after the password was accepted; `saved` is how a save would end. */
    method LogIn(now: int, overHttps: bool, user: string, token: string, saved: bool)
      requires Valid() && Possible(Abstract(), Login(overHttps, user, token, saved))
      modifies this`evicted, this`file, sessions
      ensures Abstract() == Next(old(Abstract()), now, Login(overHttps, user, token, saved))
    {
      hide Persisted, FirstFree, Slot;
      IssueToken(now, user, token);
      if overHttps && path {
        SaveIssuedSession(token, saved);
        if !saved { return; }
      }
      if !overHttps && https && path && evicted {
        SavePersisted(saved);
        if !saved { return; }
      }
      evicted := false;
    }

    /** `le_auth_logout` and the save behind it. */
    method LogOut(token: string, saved: bool)
      requires Valid()
      modifies this`file, sessions
      ensures forall now :: Abstract() == Next(old(Abstract()), now, Logout(token, saved))
    {
      hide Persisted, ClearToken;
      ghost var s, was := sessions[..], ClearToken(sessions[..], token);
      for i := 0 to MAX_SESSIONS
        invariant file == old(file) && Valid()
        invariant forall k :: 0 <= k < i ==> sessions[k] == was[k]
        invariant forall k :: i <= k < MAX_SESSIONS ==> sessions[k] == s[k]
      {
        if sessions[i].token == token { sessions[i] := sessions[i].(token := ""); }
      }
      assert sessions[..] == was;
      if https && path { SavePersisted(saved); }
    }

    /** The session part of `le_auth_remove_user`, once the user file was written. */
    method RemoveKnownUser(user: string, saved: bool)
      requires Valid()
      modifies this`file, this`users, sessions
      ensures forall now :: Abstract() == Next(old(Abstract()), now, RemoveUser(user, saved))
    {
      hide Persisted, ClearUser;
      ghost var s, was := sessions[..], ClearUser(sessions[..], user);
      users := users - {user};
      for i := 0 to MAX_SESSIONS
        invariant file == old(file) && users == old(users) - {user}
        invariant forall k :: 0 <= k < i ==> sessions[k] == was[k]
        invariant forall k :: i <= k < MAX_SESSIONS ==> sessions[k] == s[k]
      {
        if sessions[i].user == user { sessions[i] := sessions[i].(token := ""); }
      }
      assert sessions[..] == was;
      if https && path { SavePersisted(saved); }
    }

    /** `le_auth_session` */
    method CheckToken(now: int, token: string) returns (r: Admission)
      requires Valid()
      modifies sessions
      ensures Abstract() == Next(old(Abstract()), now, Check(token))
      ensures r == Admit(old(Abstract()), now, token)
    {
      if users == {} || token == "" { return Refused; }
      ghost var s := sessions[..];
      for i := 0 to MAX_SESSIONS
        invariant sessions[..] == CheckSlots(s, now, i)
        invariant FindLive(s, token, now, 0) == FindLive(s, token, now, i)
      {
        assert sessions[i] == s[i];
        if sessions[i].expires <= now {
          sessions[i] := sessions[i].(token := "");
        } else if sessions[i].token == token {
          return Admitted(sessions[i].user, sessions[i].expires);
        }
      }
      return Refused;
    }

    /** `le_auth_load_sessions` on a table that is still empty. */
    method LoadSessions(now: int)
      requires Valid() && sessions[..] == Blank(MAX_SESSIONS)
      modifies sessions
      ensures sessions[..] == Loaded(file, users, now)
    {
      hide Loaded, LoadedSoFar, Loadable;
      ghost var taken: seq<Session> := [];
      var slot, i := 0, 0;
      LoadBegins(file, users, now);
      while slot < MAX_SESSIONS && i < |file|
        invariant |taken| == slot <= MAX_SESSIONS && i <= |file| && LoadedSoFar(file, users, now, i, taken)
        invariant forall k :: 0 <= k < slot ==> sessions[k] == taken[k]
        invariant forall k :: slot <= k < MAX_SESSIONS ==> sessions[k] == EMPTY
      {
        var row := file[i];
        LoadOne(file, users, now, i, taken);
        if Loadable(row, users, now) {
          sessions[slot] := Session(row.token, row.user, row.expires, true);
          taken := taken + [sessions[slot]];
          slot := slot + 1;
        }
        i := i + 1;
      }
      LoadEnds(file, users, now, i, taken);
      assert sessions[..] == taken + Blank(MAX_SESSIONS - slot);
    }

    /** `api_set_https_active`, called once while the table is empty. */
    method SetHttpsActive(now: int, active: bool)
      requires Valid() && sessions[..] == Blank(MAX_SESSIONS) && !evicted
      modifies this`https, this`file, sessions
      ensures Abstract() == RestartStep(old(Abstract()), now, if active then Serving else Off)
    {
      hide Loaded, Blank;
      https := active;
      if active && path {
        LoadSessions(now);
      } else if !active && path {
        file := [];
      }
    }

    /** The boot, from `main` to the listeners: what the file becomes depends on which of the calls it reaches. */
    method Boot(b: Setup, now: int) returns (started: bool)
      requires Valid() && sessions[..] == Blank(MAX_SESSIONS) && !evicted && !https
      modifies this`https, this`file, sessions
      ensures started <==> !(b.tlsPort > 65535 || (b.tlsPort > 0 && b.tlsPort == b.port)
                             || (b.tlsPort == 0 && b.feature && b.port == 8443))
      ensures started == BootOf(b).Some?
      ensures CanServe(b) ==> started && https
      ensures !https && started && !NoCall(b) && path ==> file == []
      ensures CanServe(b) && path && Sound(old(Abstract())) ==>
                forall r :: r in old(file) && r.expires > now && r.user in users ==>
                  Admit(Abstract(), now, r.token) == Admitted(r.user, r.expires)
      ensures Abstract() == if started then RestartStep(old(Abstract()), now, BootOf(b).value) else old(Abstract())
    {
      hide Loaded, Blank, Sound, Admit, BootOf;
      BootMeans(b);
      ghost var was := Abstract();
      if Sound(was) && path { ServedAdmits(was, now); }
      var tls := b.tlsPort;
      if !b.feature && tls == 0 { SetHttpsActive(now, false); }
      if tls == 0 && b.feature { tls := DEFAULT_TLS_PORT; }
      if tls > 0 {
        if tls > 65535 || tls == b.port { return false; }
        if !b.certificate {
          SetHttpsActive(now, false);
          tls := 0;
        }
        if tls > 0 && !b.readable {
          SetHttpsActive(now, false);
          tls := 0;
        }
      }
      if tls > 0 && b.socket {
        if !b.bound {
          SetHttpsActive(now, false);
        } else if !b.relay {
          SetHttpsActive(now, false);
        } else {
          SetHttpsActive(now, true);
        }
      }
      return true;
    }
  }

  /** What has been taken from the first `i` rows; the rest of the load follows it. */
  ghost predicate LoadedSoFar(rows: seq<Row>, users: set<string>, now: int, i: nat, taken: seq<Session>) {
    && i <= |rows| && |taken| <= MAX_SESSIONS
    && taken + Load(rows[i..], users, now, MAX_SESSIONS - |taken|) == Load(rows, users, now, MAX_SESSIONS)
  }

  lemma LoadBegins(rows: seq<Row>, users: set<string>, now: int)
    ensures LoadedSoFar(rows, users, now, 0, [])
  {
    hide Load;
    assert rows[0..] == rows;
  }

  lemma LoadOne(rows: seq<Row>, users: set<string>, now: int, i: nat, taken: seq<Session>)
    requires LoadedSoFar(rows, users, now, i, taken) && i < |rows| && |taken| < MAX_SESSIONS
    ensures var r := rows[i];
            var more := if Loadable(r, users, now) then taken + [Session(r.token, r.user, r.expires, true)] else taken;
            LoadedSoFar(rows, users, now, i + 1, more)
  {
    hide Loadable;
    var r, rest := rows[i], rows[i + 1..];
    assert rows[i..][1..] == rest;
    if Loadable(r, users, now) {
      var one := [Session(r.token, r.user, r.expires, true)];
      var more := Load(rest, users, now, MAX_SESSIONS - |taken| - 1);
      assert taken + (one + more) == (taken + one) + more;
    }
  }

  lemma LoadEnds(rows: seq<Row>, users: set<string>, now: int, i: nat, taken: seq<Session>)
    requires LoadedSoFar(rows, users, now, i, taken) && (i == |rows| || |taken| == MAX_SESSIONS)
    ensures Loaded(rows, users, now) == taken + Blank(MAX_SESSIONS - |taken|)
  {
    assert taken + [] == taken;
  }

  // ---- What every run keeps ---------------------------------------------------------------

  function RowOf(e: Session): Row {
    Row(e.token, e.user, e.expires)
  }

  ghost predicate Unique(s: seq<Session>) {
    forall i, j :: 0 <= i < j < |s| && s[i].token != "" ==> s[i].token != s[j].token
  }

  ghost predicate UniqueRows(rows: seq<Row>) {
    && (forall i :: 0 <= i < |rows| ==> rows[i].token != "")
    && (forall i, j :: 0 <= i < j < |rows| ==> rows[i].token != rows[j].token)
  }

  /** A session that shares its token with a row is that row's session, and marked as persisted. */
  ghost predicate Marked(s: seq<Session>, rows: seq<Row>) {
    forall e, r :: e in s && r in rows && e.token == r.token ==> e.persisted && RowOf(e) == r
  }

  /** Every session marked as persisted has its row. */
  ghost predicate Stored(s: seq<Session>, rows: seq<Row>) {
    forall e :: e in s && e.token != "" && e.persisted ==> RowOf(e) in rows
  }

  /** Holds in every reachable state, whether saves succeed or not. */
  ghost predicate Sound(st: State) {
    && |st.slots| == MAX_SESSIONS && |st.file| <= MAX_SESSIONS
    && Unique(st.slots) && UniqueRows(st.file)
    && (st.path ==> Marked(st.slots, st.file))
    && (st.path ==> Stored(st.slots, st.file))
    && (!st.https ==> forall e :: e in st.slots ==> !e.persisted)
    && Owned(st.slots, st.users)
  }

  /** Sessions belong to users. */
  ghost predicate Owned(s: seq<Session>, users: set<string>) {
    forall e :: e in s && e.token != "" ==> e.user in users
  }

  lemma {:induction false} PersistedRows(s: seq<Session>, r: Row)
    ensures r in Persisted(s) <==> exists e :: e in s && e.token != "" && e.persisted && RowOf(e) == r
    decreases |s|
  {
    if s != [] {
      var front, e := s[..|s| - 1], s[|s| - 1];
      PersistedRows(front, r);
      assert s == front + [e];
    }
  }

  lemma {:induction false} PersistedUnique(s: seq<Session>)
    requires Unique(s)
    ensures UniqueRows(Persisted(s))
    decreases |s|
  {
    if s != [] {
      var front, e := s[..|s| - 1], s[|s| - 1];
      PersistedUnique(front);
      var rows := Persisted(front);
      forall i | 0 <= i < |rows| ensures rows[i].token != e.token {
        PersistedRows(front, rows[i]);
      }
    }
  }

  /** What a successful save leaves. */
  lemma SavedRows(s: seq<Session>)
    requires Unique(s)
    ensures UniqueRows(Persisted(s)) && Marked(s, Persisted(s)) && Stored(s, Persisted(s))
    ensures forall r :: r in Persisted(s) ==> Session(r.token, r.user, r.expires, true) in s && r.token != ""
  {
    hide Persisted;
    PersistedUnique(s);
    forall e | e in s && e.token != "" && e.persisted ensures RowOf(e) in Persisted(s) {
      PersistedRows(s, RowOf(e));
    }
    forall r | r in Persisted(s) ensures Session(r.token, r.user, r.expires, true) in s && r.token != "" {
      PersistedRows(s, r);
    }
    forall e, r | e in s && r in Persisted(s) && e.token == r.token ensures e.persisted && RowOf(e) == r {
      var f := Session(r.token, r.user, r.expires, true);
      assert f in s;
      SameToken(s, e, f);
    }
  }

  lemma SameToken(s: seq<Session>, e: Session, f: Session)
    requires Unique(s) && e in s && f in s && e.token == f.token != ""
    ensures e == f
  {
    var i :| 0 <= i < |s| && s[i] == e;
    var j :| 0 <= j < |s| && s[j] == f;
  }

  // ---- Loading ----------------------------------------------------------------------------

  function SessionOf(r: Row): Session {
    Session(r.token, r.user, r.expires, true)
  }

  lemma {:induction false} LoadTakes(rows: seq<Row>, users: set<string>, now: int, room: nat, e: Session)
    requires e in Load(rows, users, now, room)
    ensures e == SessionOf(RowOf(e)) && RowOf(e) in rows && Loadable(RowOf(e), users, now)
    decreases |rows|
  {
    if rows != [] && room > 0 {
      if Loadable(rows[0], users, now) {
        if e != SessionOf(rows[0]) {
          LoadTakes(rows[1..], users, now, room - 1, e);
        }
      } else {
        LoadTakes(rows[1..], users, now, room, e);
      }
    }
  }

  lemma {:induction false} LoadKeeps(rows: seq<Row>, users: set<string>, now: int, room: nat, r: Row)
    requires r in rows && Loadable(r, users, now) && |rows| <= room
    ensures SessionOf(r) in Load(rows, users, now, room)
    decreases |rows|
  {
    if r != rows[0] {
      assert r in rows[1..];
      LoadKeeps(rows[1..], users, now, if Loadable(rows[0], users, now) then room - 1 else room, r);
    }
  }

  lemma {:induction false} LoadUnique(rows: seq<Row>, users: set<string>, now: int, room: nat)
    requires UniqueRows(rows)
    ensures Unique(Load(rows, users, now, room))
    decreases |rows|
  {
    if rows != [] && room > 0 {
      var loadable := Loadable(rows[0], users, now);
      var rest := Load(rows[1..], users, now, if loadable then room - 1 else room);
      LoadUnique(rows[1..], users, now, if loadable then room - 1 else room);
      forall j | loadable && 0 <= j < |rest| ensures rest[j].token != rows[0].token {
        LoadTakes(rows[1..], users, now, room - 1, rest[j]);
      }
    }
  }

  /** The table after a restart that serves HTTPS. */
  lemma LoadedIs(rows: seq<Row>, users: set<string>, now: int)
    requires UniqueRows(rows) && |rows| <= MAX_SESSIONS
    ensures var s := Loaded(rows, users, now);
            && Unique(s) && Marked(s, rows) && Stored(s, rows)
            && (forall e :: e in s && e.token != "" ==>
                  e.persisted && RowOf(e) in rows && Loadable(RowOf(e), users, now))
            && (forall r :: r in rows && Loadable(r, users, now) ==> SessionOf(r) in s)
  {
    hide Load, Loadable;
    var l, s := Load(rows, users, now, MAX_SESSIONS), Loaded(rows, users, now);
    LoadUnique(rows, users, now, MAX_SESSIONS);
    forall e | e in s && e.token != ""
      ensures e in l && e.persisted && RowOf(e) in rows && Loadable(RowOf(e), users, now)
    {
      LoadTakes(rows, users, now, MAX_SESSIONS, e);
    }
    forall r | r in rows && Loadable(r, users, now) ensures SessionOf(r) in s {
      LoadKeeps(rows, users, now, MAX_SESSIONS, r);
    }
    forall e, r | e in s && r in rows && e.token == r.token ensures e.persisted && RowOf(e) == r {
      RowsApart(rows, r, RowOf(e));
    }
  }

  lemma RowsApart(rows: seq<Row>, r: Row, q: Row)
    requires UniqueRows(rows) && r in rows
    ensures r.token != ""
    ensures q in rows && q.token == r.token ==> q == r
  {
    var i :| 0 <= i < |rows| && rows[i] == r;
    if q in rows && q.token == r.token {
      var j :| 0 <= j < |rows| && rows[j] == q;
    }
  }

  // ---- Soundness, step by step ------------------------------------------------------------

  /** The slots after a login: one slot has the new session, whichever way the saves go. */
  lemma LoginSlots(st: State, now: int, overHttps: bool, user: string, token: string, saved: bool)
    requires |st.slots| == MAX_SESSIONS && Possible(st, Login(overHttps, user, token, saved))
    ensures var k, after := Slot(st.slots, now), LoginStep(st, now, overHttps, user, token, saved);
            && after.slots == st.slots[k := Session(token, user, now + SESSION_SECONDS, overHttps && st.path && saved)]
            && after.(slots := st.slots, file := st.file, evicted := st.evicted) == st
            && after.file ==
               if st.path && saved && (overHttps || (st.https && st.slots[k].token != "" && st.slots[k].persisted))
               then Persisted(after.slots) else st.file
  {
    hide Persisted, Slot;
    var k, issued := Slot(st.slots, now), Issue(st, now, user, token);
    assert issued.slots[k].token == token;
    assert FindToken(issued.slots, token, 0) == k;
  }

  lemma IssueUnique(s: seq<Session>, k: nat, e: Session)
    requires k < |s| && Unique(s) && forall i :: 0 <= i < |s| ==> s[i].token != e.token
    ensures Unique(s[k := e])
  {
  }

  lemma LoginSound(st: State, now: int, overHttps: bool, user: string, token: string, saved: bool)
    requires Sound(st) && Possible(st, Login(overHttps, user, token, saved))
    ensures Sound(LoginStep(st, now, overHttps, user, token, saved))
  {
    hide Persisted, Slot, LoginStep, Unique, UniqueRows, Marked, Stored;
    LoginSlots(st, now, overHttps, user, token, saved);
    var k, after := Slot(st.slots, now), LoginStep(st, now, overHttps, user, token, saved);
    var e := after.slots[k];
    IssueUnique(st.slots, k, e);
    if after.file != st.file || (overHttps && st.path && saved) {
      SavedRows(after.slots);
    } else {
      NewKeepsRows(st.slots, st.file, k, e);
    }
    assert forall f :: f in after.slots ==> f == e || f in st.slots;
  }

  /** A slot taken over by a new session that is not marked leaves the file as good as it was. */
  lemma NewKeepsRows(s: seq<Session>, rows: seq<Row>, k: nat, e: Session)
    requires k < |s| && !e.persisted && forall i :: 0 <= i < |rows| ==> rows[i].token != e.token
    ensures Marked(s, rows) ==> Marked(s[k := e], rows)
    ensures Stored(s, rows) ==> Stored(s[k := e], rows)
  {
    assert forall f :: f in s[k := e] ==> f == e || f in s;
  }

  /** `t` is `s` with some tokens cleared. */
  ghost predicate Cleared(s: seq<Session>, t: seq<Session>) {
    |t| == |s| && forall i :: 0 <= i < |s| ==> t[i] == s[i] || t[i] == s[i].(token := "")
  }

  lemma ClearedSound(st: State, t: seq<Session>, users: set<string>, saved: bool)
    requires Sound(st) && Cleared(st.slots, t) && Owned(t, users)
    ensures Sound(SaveIfPersisting(st.(slots := t, users := users), saved)) && Sound(st.(slots := t))
    ensures forall e :: e in t && e.token != "" ==> e in st.slots
  {
    hide Persisted;
    assert Unique(t);
    SavedRows(t);
    forall e | e in t ensures (e.token != "" ==> e in st.slots) && (!st.https ==> !e.persisted) {
      var i :| 0 <= i < |t| && t[i] == e;
      assert st.slots[i] in st.slots;
    }
    forall e, r | st.path && e in t && r in st.file && e.token == r.token ensures e.persisted && RowOf(e) == r {
      RowsApart(st.file, r, r);
    }
  }

  lemma ClearedOwned(st: State, t: seq<Session>)
    requires Sound(st) && Cleared(st.slots, t)
    ensures Owned(t, st.users)
  {
    forall e | e in t && e.token != "" ensures e.user in st.users {
      var i :| 0 <= i < |t| && t[i] == e;
      assert st.slots[i] in st.slots;
    }
  }

  lemma RemovedOwned(st: State, user: string)
    requires Sound(st)
    ensures Owned(ClearUser(st.slots, user), st.users - {user})
  {
    var t := ClearUser(st.slots, user);
    forall e | e in t && e.token != "" ensures e.user in st.users - {user} {
      var i :| 0 <= i < |t| && t[i] == e;
      assert st.slots[i] in st.slots;
    }
  }

  lemma RestartSound(st: State, now: int, boot: Boot)
    requires Sound(st)
    ensures Sound(RestartStep(st, now, boot))
  {
    hide Loaded;
    LoadedIs(st.file, st.users, now);
    forall e, r | e in Blank(MAX_SESSIONS) && r in st.file ensures e.token != r.token {
      RowsApart(st.file, r, r);
    }
  }

  lemma SoundStep(st: State, now: int, a: Action)
    requires Sound(st) && Possible(st, a)
    ensures Sound(Next(st, now, a))
  {
    hide LoginStep, RestartStep, Sound, SaveIfPersisting, ClearToken, ClearUser, CheckSlots, FindLive;
    SlotCount(st);
    match a
    case Login(overHttps, user, token, saved) => LoginSound(st, now, overHttps, user, token, saved);
    case Logout(token, saved) =>
      ClearedOwned(st, ClearToken(st.slots, token));
      ClearedSound(st, ClearToken(st.slots, token), st.users, saved);
    case RemoveUser(user, saved) =>
      RemovedOwned(st, user);
      ClearedSound(st, ClearUser(st.slots, user), st.users - {user}, saved);
    case AddUser(user) => OtherUsers(st, st.users + {user});
    case Check(token) =>
      if token != "" {
        ClearedOwned(st, CheckSlots(st.slots, now, FindLive(st.slots, token, now, 0)));
        ClearedSound(st, CheckSlots(st.slots, now, FindLive(st.slots, token, now, 0)), st.users, false);
      }
    case Restart(boot) => RestartSound(st, now, boot);
  }

  lemma SlotCount(st: State)
    requires Sound(st)
    ensures |st.slots| == MAX_SESSIONS
  {
  }

  lemma OtherUsers(st: State, users: set<string>)
    requires Sound(st) && st.users <= users
    ensures Sound(st.(users := users))
  {
  }

  // ---- Runs -------------------------------------------------------------------------------

  datatype Event = Event(now: int, action: Action)

  function Run(st: State, run: seq<Event>): (after: State)
    requires |st.slots| == MAX_SESSIONS
    ensures |after.slots| == MAX_SESSIONS
    decreases |run|
  {
    if run == [] then st else Run(Next(st, run[0].now, run[0].action), run[1..])
  }

  /** The clock at the end of a run. */
  function EndOf(now: int, run: seq<Event>): int {
    if run == [] then now else run[|run| - 1].now
  }

  /** Every step is possible where it happens, and the clock never goes back. */
  predicate PossibleRun(st: State, now: int, run: seq<Event>)
    requires |st.slots| == MAX_SESSIONS
    decreases |run|
  {
    run == [] || (
      && run[0].now >= now && Possible(st, run[0].action)
      && PossibleRun(Next(st, run[0].now, run[0].action), run[0].now, run[1..]))
  }

  predicate SaveSucceeds(a: Action) {
    match a
    case Login(_, _, _, saved) => saved
    case Logout(_, saved) => saved
    case RemoveUser(_, saved) => saved
    case _ => true
  }

  // ---- The file mirrors the table ---------------------------------------------------------

  /** Every unexpired row is a persisted session in memory. */
  ghost predicate Backed(st: State, now: int) {
    forall r :: r in st.file && r.expires > now ==> SessionOf(r) in st.slots
  }

  /** The table backs the file; while HTTPS is not up that means a file without unexpired rows. */
  ghost predicate Safe(st: State, now: int) {
    Sound(st) && (st.path ==> Backed(st, now))
  }

  lemma SafeLogin(st: State, was: int, now: int, overHttps: bool, user: string, token: string)
    requires Safe(st, was) && now >= was && Possible(st, Login(overHttps, user, token, true))
    ensures Safe(LoginStep(st, now, overHttps, user, token, true), now)
  {
    hide Persisted, LoginStep, Sound, Marked, Stored, Unique, UniqueRows;
    SlotCount(st);
    LoginSlots(st, now, overHttps, user, token, true);
    LoginSound(st, now, overHttps, user, token, true);
    var k, after := Slot(st.slots, now), LoginStep(st, now, overHttps, user, token, true);
    if after.file == Persisted(after.slots) {
      SavedIsBacked(after, now);
    } else {
      forall r | st.path && r in st.file && r.expires > now ensures SessionOf(r) in after.slots {
        TokenOf(st, r);
        NoneMarked(st);
        var i :| 0 <= i < MAX_SESSIONS && st.slots[i] == SessionOf(r);
        if i != k {
          assert after.slots[i] == SessionOf(r);
        }
      }
    }
    assert forall f :: f in after.slots ==> f == after.slots[k] || f in st.slots;
  }

  lemma NoneMarked(st: State)
    requires Sound(st)
    ensures !st.https ==> forall e :: e in st.slots ==> !e.persisted
  {
  }

  lemma TokenOf(st: State, r: Row)
    requires Sound(st) && r in st.file
    ensures r.token != ""
  {
  }

  lemma SavedIsBacked(st: State, now: int)
    requires Sound(st) && st.file == Persisted(st.slots)
    ensures Backed(st, now)
  {
    hide Persisted;
    SavedRows(st.slots);
  }

  lemma SafeCleared(st: State, was: int, now: int, t: seq<Session>, users: set<string>)
    requires Safe(st, was) && now >= was && Cleared(st.slots, t) && Owned(t, users)
    ensures Safe(SaveIfPersisting(st.(slots := t, users := users), true), now)
  {
    hide Persisted, Sound;
    ClearedSound(st, t, users, true);
    NoneMarked(st);
    var after := SaveIfPersisting(st.(slots := t, users := users), true);
    if st.https && st.path {
      SavedIsBacked(after, now);
    } else {
      forall r | st.path && r in st.file ensures r.expires <= now { }
    }
  }

  lemma SafeCheck(st: State, was: int, now: int, token: string)
    requires Safe(st, was) && now >= was
    ensures Safe(CheckStep(st, now, token), now)
  {
    hide Persisted, Sound, FindLive;
    SlotCount(st);
    var k := FindLive(st.slots, token, now, 0);
    var t := CheckSlots(st.slots, now, k);
    ClearedOwned(st, t);
    ClearedSound(st, t, st.users, false);
    forall r | st.path && r in st.file && r.expires > now ensures SessionOf(r) in t {
      var i :| 0 <= i < MAX_SESSIONS && st.slots[i] == SessionOf(r);
      assert t[i] == st.slots[i];
    }
  }

  lemma SafeRestart(st: State, was: int, now: int, boot: Boot)
    requires Safe(st, was) && now >= was
    ensures Safe(RestartStep(st, now, boot), now) <==> !LeavesRows(st, now, Restart(boot))
  {
    hide Persisted, Marked, Stored, Unique, UniqueRows, Loaded, Owned;
    RestartSound(st, now, boot);
    LoadedIs(st.file, st.users, now);
    NotBlank();
    forall r | st.path && r in st.file && r.expires > now ensures Loadable(r, st.users, now) {
      TokenOf(st, r);
      OwnerOf(st, SessionOf(r));
    }
    var after := RestartStep(st, now, boot);
    match boot
    case Serving => assert st.path ==> Backed(after, now);
    case Off => assert st.path ==> after.file == [];
    case Skipped =>
      forall r | st.path && r in st.file && r.expires > now ensures SessionOf(r) !in after.slots && r in after.file { }
  }

  lemma NotBlank()
    ensures forall e :: e in Blank(MAX_SESSIONS) ==> !e.persisted
  {
  }

  lemma OwnerOf(st: State, e: Session)
    requires Sound(st) && e in st.slots && e.token != ""
    ensures e.user in st.users
  {
  }

  /** A boot that makes no call, on a file that still has an unexpired row. */
  predicate LeavesRows(st: State, now: int, a: Action) {
    a == Restart(Skipped) && st.path && exists r :: r in st.file && r.expires > now
  }

  /** With its save succeeding, every step keeps the table and its file together, save that one boot. */
  lemma {:induction false} SafeStep(st: State, was: int, now: int, a: Action)
    requires Safe(st, was) && now >= was && Possible(st, a) && SaveSucceeds(a)
    ensures |st.slots| == MAX_SESSIONS && (Safe(Next(st, now, a), now) <==> !LeavesRows(st, now, a))
  {
    hide LoginStep, RestartStep, CheckStep, Safe, SaveIfPersisting, ClearToken, ClearUser, CheckSlots, FindLive;
    SafeParts(st, was, now);
    match a
    case Login(overHttps, user, token, saved) => SafeLogin(st, was, now, overHttps, user, token);
    case Logout(token, saved) =>
      var t := ClearToken(st.slots, token);
      ClearedOwned(st, t);
      SafeCleared(st, was, now, t, st.users);
    case RemoveUser(user, saved) =>
      RemovedOwned(st, user);
      SafeCleared(st, was, now, ClearUser(st.slots, user), st.users - {user});
    case AddUser(user) => SafeOtherUsers(st, was, now, st.users + {user});
    case Check(token) => SafeCheck(st, was, now, token);
    case Restart(boot) => SafeRestart(st, was, now, boot);
  }

  lemma SafeParts(st: State, was: int, now: int)
    requires Safe(st, was) && now >= was
    ensures |st.slots| == MAX_SESSIONS && Sound(st)
  {
  }

  lemma SafeOtherUsers(st: State, was: int, now: int, users: set<string>)
    requires Safe(st, was) && now >= was && st.users <= users
    ensures Safe(st.(users := users), now)
  {
    hide Sound;
    OtherUsers(st, users);
  }

  /** No boot of the run makes no call on a file that still has an unexpired row. */
  predicate NoRowsLeft(st: State, run: seq<Event>)
    requires |st.slots| == MAX_SESSIONS
    decreases |run|
  {
    run == [] || (
      && !LeavesRows(st, run[0].now, run[0].action)
      && NoRowsLeft(Next(st, run[0].now, run[0].action), run[1..]))
  }

  lemma {:induction false} RunUnfolds(st: State, now: int, run: seq<Event>, n: nat)
    requires |st.slots| == MAX_SESSIONS && 0 < n <= |run|
    ensures var next := Next(st, run[0].now, run[0].action);
            && Run(st, run[..n]) == Run(next, run[1..][..n - 1])
            && EndOf(now, run[..n]) == EndOf(run[0].now, run[1..][..n - 1])
  {
    hide Next;
    assert run[..n][1..] == run[1..][..n - 1] && run[..n][0] == run[0];
  }

  /**
   * With successful saves, throughout any run of logins over HTTP and HTTPS, logouts, checks, user changes and
   * restarts, HTTPS served or not asked for or given up: every unexpired row of the file is a persisted session
   * in memory. That fails exactly if a boot that makes no call finds an unexpired row.
   */
  lemma {:induction false} RunStaysSafe(st: State, now: int, run: seq<Event>)
    requires Safe(st, now) && |st.slots| == MAX_SESSIONS && PossibleRun(st, now, run)
    requires forall e :: e in run ==> SaveSucceeds(e.action)
    ensures (forall n :: 0 <= n <= |run| ==> Safe(Run(st, run[..n]), EndOf(now, run[..n]))) <==> NoRowsLeft(st, run)
    decreases |run|
  {
    hide Safe, Next, Possible, LeavesRows;
    if run == [] {
      assert forall n :: 0 <= n <= |run| ==> run[..n] == [];
    } else {
      var first, rest := run[0], run[1..];
      var next := Next(st, first.now, first.action);
      assert run[..0] == [] && rest[..0] == [] && run[0] in run;
      assert forall e :: e in rest ==> e in run;
      SafeStep(st, now, first.now, first.action);
      forall n | 1 <= n <= |run|
        ensures Safe(Run(st, run[..n]), EndOf(now, run[..n]))
           <==> Safe(Run(next, rest[..n - 1]), EndOf(first.now, rest[..n - 1]))
      {
        RunUnfolds(st, now, run, n);
      }
      if Safe(next, first.now) {
        RunStaysSafe(next, first.now, rest);
        forall n | 0 <= n <= |rest|
          ensures Safe(Run(st, run[..n + 1]), EndOf(now, run[..n + 1]))
             <==> Safe(Run(next, rest[..n]), EndOf(first.now, rest[..n]))
        {
          RunUnfolds(st, now, run, n + 1);
        }
      } else {
        assert !Safe(Run(st, run[..1]), EndOf(now, run[..1]));
      }
    }
  }

  /** The very first boot: nothing saved yet. */
  lemma FirstBootIsSafe(users: set<string>, path: bool, now: int)
    ensures Safe(State(Blank(MAX_SESSIONS), false, [], users, false, path), now)
  {
  }

  /** From the very first boot on, every unexpired row is a persisted session in memory. */
  lemma {:induction false} RunFromFirstBoot(users: set<string>, path: bool, now: int, run: seq<Event>)
    requires var first := State(Blank(MAX_SESSIONS), false, [], users, false, path);
             PossibleRun(first, now, run) && NoRowsLeft(first, run)
    requires forall e :: e in run ==> SaveSucceeds(e.action)
    ensures var after := Run(State(Blank(MAX_SESSIONS), false, [], users, false, path), run);
            forall r :: path && r in after.file && r.expires > EndOf(now, run) ==> SessionOf(r) in after.slots
  {
    hide Sound, Next, Possible, LeavesRows;
    var first := State(Blank(MAX_SESSIONS), false, [], users, false, path);
    FirstBootIsSafe(users, path, now);
    RunStaysSafe(first, now, run);
    RunKeepsPath(first, run);
    assert run[..|run|] == run;
  }

  lemma {:induction false} RunKeepsPath(st: State, run: seq<Event>)
    requires |st.slots| == MAX_SESSIONS
    ensures Run(st, run).path == st.path
    decreases |run|
  {
    hide Persisted, Slot, FindToken, Loaded;
    if run != [] { RunKeepsPath(Next(st, run[0].now, run[0].action), run[1..]); }
  }

  /** Which boots refuse to start, and among the others which serve, which make no call, and which turn HTTPS off. */
  lemma BootMeans(b: Setup)
    ensures BootOf(b).None? <==> b.tlsPort > 65535 || (b.tlsPort > 0 && b.tlsPort == b.port)
                                 || (b.tlsPort == 0 && b.feature && b.port == 8443)
    ensures BootOf(b) == Some(Serving) <==> CanServe(b)
    ensures BootOf(b) == Some(Skipped) <==> BootOf(b).Some? && NoCall(b)
    ensures !b.feature && b.tlsPort == 0 ==> BootOf(b) == Some(Off)
  {
  }

  // ---- Restarts ---------------------------------------------------------------------------

  /** Tokens are unique, so the first match is the only one. */
  lemma AdmitIs(st: State, now: int, token: string, user: string, expires: int)
    requires Sound(st)
    ensures Admit(st, now, token) == Admitted(user, expires) <==>
      token != "" && st.users != {} && expires > now
      && (Session(token, user, expires, true) in st.slots || Session(token, user, expires, false) in st.slots)
  {
    hide Marked, Stored, UniqueRows;
    var k := FindLive(st.slots, token, now, 0);
    forall e | e in st.slots && e.token == token && token != "" && e.expires > now
      ensures k < |st.slots| && st.slots[k] == e
    {
      SameToken(st.slots, e, st.slots[k]);
    }
    if k < |st.slots| {
      var e := st.slots[k];
      assert e == Session(e.token, e.user, e.expires, true) || e == Session(e.token, e.user, e.expires, false);
    }
  }

  /**
   * A restart that serves HTTPS admits exactly the unexpired persisted sessions from before it, each for
   * the user and with the expiry it had, so it admits nothing that was not admitted before.
   */
  lemma RestartAdmits(st: State, was: int, now: int, token: string, user: string, expires: int)
    requires Safe(st, was) && now >= was && st.path
    ensures var after := RestartStep(st, now, Serving);
            && (Admit(after, now, token) == Admitted(user, expires)
                <==> token != "" && st.https && expires > now && Session(token, user, expires, true) in st.slots)
            && (Admit(after, now, token) == Admitted(user, expires) ==>
                  Admit(st, now, token) == Admitted(user, expires))
  {
    hide Unique, UniqueRows, Marked, Stored, Loaded, Admit;
    var after := RestartStep(st, now, Serving);
    RestartSound(st, now, Serving);
    LoadedIs(st.file, st.users, now);
    AdmitIs(after, now, token, user, expires);
    AdmitIs(st, now, token, user, expires);
    var e, r := Session(token, user, expires, true), Row(token, user, expires);
    if st.https && e in st.slots && token != "" && expires > now {
      StoredHas(st, e);
      assert Loadable(r, st.users, now) && SessionOf(r) == e;
    }
    if e in after.slots && token != "" {
      assert RowOf(e) == r;
      assert SessionOf(r) == e;
    }
  }

  /** Once HTTPS is served, every unexpired row of a known user is admitted. */
  lemma ServedAdmits(st: State, now: int)
    requires Sound(st) && st.path
    ensures forall r :: r in st.file && r.expires > now && r.user in st.users ==>
              Admit(RestartStep(st, now, Serving), now, r.token) == Admitted(r.user, r.expires)
  {
    hide Unique, UniqueRows, Marked, Stored, Loaded, Admit;
    var after := RestartStep(st, now, Serving);
    RestartSound(st, now, Serving);
    SoundFile(st);
    LoadedIs(st.file, st.users, now);
    forall r | r in st.file && r.expires > now && r.user in st.users
      ensures Admit(after, now, r.token) == Admitted(r.user, r.expires)
    {
      TokenOf(st, r);
      assert Loadable(r, st.users, now) && SessionOf(r) in after.slots;
      AdmitIs(after, now, r.token, r.user, r.expires);
    }
  }

  lemma StoredHas(st: State, e: Session)
    requires Sound(st) && st.path && e in st.slots && e.token != "" && e.persisted
    ensures RowOf(e) in st.file
  {
  }

  // ---- Displacement -----------------------------------------------------------------------

  /** A login takes one slot. It ends a live session exactly when all eight are live: then the first one. */
  lemma LoginDisplaces(st: State, now: int, overHttps: bool, user: string, token: string, saved: bool)
    requires Sound(st) && Possible(st, Login(overHttps, user, token, saved))
    ensures var after := LoginStep(st, now, overHttps, user, token, saved);
            && (forall i :: 0 <= i < MAX_SESSIONS && Live(st.slots[i], now) && st.slots[i] !in after.slots
                  ==> i == 0 && forall j :: 0 <= j < MAX_SESSIONS ==> Live(st.slots[j], now))
            && ((forall j :: 0 <= j < MAX_SESSIONS ==> Live(st.slots[j], now)) ==> st.slots[0] !in after.slots)
            && Admit(after, now, token) == Admitted(user, now + SESSION_SECONDS)
  {
    hide Persisted, LoginStep, Marked, Stored, UniqueRows, Admit;
    LoginSlots(st, now, overHttps, user, token, saved);
    LoginSound(st, now, overHttps, user, token, saved);
    var k, after := Slot(st.slots, now), LoginStep(st, now, overHttps, user, token, saved);
    assert after.slots[k] in after.slots;
    AdmitIs(after, now, token, user, now + SESSION_SECONDS);
    forall i | 0 <= i < MAX_SESSIONS && i != k ensures st.slots[i] in after.slots {
      assert after.slots[i] == st.slots[i];
    }
  }

  /** A live session is one whose token is admitted. */
  lemma LiveIsAdmitted(st: State, now: int, i: nat)
    requires Sound(st) && st.users != {} && i < MAX_SESSIONS
    ensures |st.slots| == MAX_SESSIONS
    ensures Live(st.slots[i], now) <==> Admit(st, now, st.slots[i].token).Admitted?
  {
    hide Marked, Stored, UniqueRows, Owned;
    var e := st.slots[i];
    if Admit(st, now, e.token).Admitted? {
      var k := FindLive(st.slots, e.token, now, 0);
      SameToken(st.slots, e, st.slots[k]);
    }
  }

  /**
   * What a login does to other users of the API: a token that was admitted is refused after it exactly if all
   * eight slots held admitted tokens and it was the one in the first. The new token is admitted for twelve hours.
   */
  lemma LoginRefuses(st: State, now: int, overHttps: bool, user: string, token: string, saved: bool, other: string)
    requires Sound(st) && Possible(st, Login(overHttps, user, token, saved)) && other != token
    requires Admit(st, now, other).Admitted?
    ensures |st.slots| == 8
    ensures var after := LoginStep(st, now, overHttps, user, token, saved);
            && Admit(after, now, token) == Admitted(user, now + 43200)
            && (Admit(after, now, other) == Refused <==>
                  other == st.slots[0].token
                  && forall i :: 0 <= i < 8 ==> Admit(st, now, st.slots[i].token).Admitted?)
  {
    hide Persisted, LoginStep, Marked, Stored, UniqueRows, Owned, Live, FindLive;
    var k, after := Slot(st.slots, now), LoginStep(st, now, overHttps, user, token, saved);
    LoginSlots(st, now, overHttps, user, token, saved);
    LoginDisplaces(st, now, overHttps, user, token, saved);
    forall i | 0 <= i < 8 ensures Live(st.slots[i], now) <==> Admit(st, now, st.slots[i].token).Admitted? {
      LiveIsAdmitted(st, now, i);
    }
    OtherToken(st, now, overHttps, user, token, saved, other);
  }

  /** Another token is refused after the login exactly if its live session was in the slot that was taken. */
  lemma OtherToken(st: State, now: int, overHttps: bool, user: string, token: string, saved: bool, other: string)
    requires Sound(st) && Possible(st, Login(overHttps, user, token, saved)) && other != token
    requires Admit(st, now, other).Admitted?
    ensures var after := LoginStep(st, now, overHttps, user, token, saved);
            |st.slots| == 8 && |after.slots| == 8
            && (Admit(after, now, other) == Refused <==>
                  other == st.slots[0].token && forall i :: 0 <= i < 8 ==> Live(st.slots[i], now))
  {
    hide Persisted, LoginStep, Marked, Stored, UniqueRows, Owned;
    LoginSlots(st, now, overHttps, user, token, saved);
    var k, after := Slot(st.slots, now), LoginStep(st, now, overHttps, user, token, saved);
    var i := FindLive(st.slots, other, now, 0);
    if i != k {
      assert after.slots[i] == st.slots[i];
    }
    if st.slots[k].token == other {
      SameToken(st.slots, st.slots[i], st.slots[k]);
    }
  }

  // ---- No session comes back --------------------------------------------------------------

  /** Nothing in the table or in the file can admit this token at this time or later. */
  ghost predicate Gone(st: State, token: string, now: int) {
    && (forall e :: e in st.slots && e.token == token ==> e.expires <= now)
    && (st.path ==> forall r :: r in st.file && r.token == token ==> r.expires <= now)
  }

  predicate Issues(a: Action, token: string) {
    a.Login? && a.token == token
  }

  lemma GoneRefused(st: State, token: string, was: int, now: int)
    requires Gone(st, token, was) && now >= was
    ensures Admit(st, now, token) == Refused
  {
  }

  lemma GoneSave(st: State, token: string, now: int, saved: bool)
    requires Gone(st, token, now)
    ensures Gone(SaveIfPersisting(st, saved), token, now) && Gone(Save(st, saved), token, now)
  {
    hide Persisted;
    forall r | r in Persisted(st.slots) && r.token == token ensures r.expires <= now {
      PersistedRows(st.slots, r);
    }
  }

  lemma {:induction false} GoneStep(st: State, token: string, was: int, now: int, a: Action)
    requires Gone(st, token, was) && now >= was && token != "" && !Issues(a, token) && Sound(st) && Possible(st, a)
    ensures Gone(Next(st, now, a), token, now)
  {
    hide Persisted, LoginStep, Loaded, FindLive, ClearToken, ClearUser, CheckSlots, Marked, Stored, Unique, UniqueRows;
    var after := Next(st, now, a);
    match a
    case Login(overHttps, user, t, saved) =>
      LoginSlots(st, now, overHttps, user, t, saved);
      var k := Slot(st.slots, now);
      assert forall f :: f in after.slots ==> f == after.slots[k] || f in st.slots;
      GoneSave(st.(slots := after.slots), token, now, true);
    case Logout(t, saved) => GoneCleared(st, token, now, ClearToken(st.slots, t), st.users, saved);
    case RemoveUser(user, saved) => GoneCleared(st, token, now, ClearUser(st.slots, user), st.users - {user}, saved);
    case AddUser(user) =>
    case Check(t) =>
      GoneCleared(st, token, now, CheckSlots(st.slots, now, FindLive(st.slots, t, now, 0)), st.users, false);
    case Restart(boot) =>
      SoundFile(st);
      LoadedIs(st.file, st.users, now);
  }

  lemma SoundFile(st: State)
    requires Sound(st)
    ensures UniqueRows(st.file) && |st.file| <= MAX_SESSIONS
  {
  }

  lemma GoneCleared(st: State, token: string, now: int, t: seq<Session>, users: set<string>, saved: bool)
    requires Gone(st, token, now) && Cleared(st.slots, t) && token != ""
    ensures Gone(SaveIfPersisting(st.(slots := t, users := users), saved), token, now)
    ensures Gone(st.(slots := t), token, now)
  {
    hide Persisted;
    forall e | e in t && e.token == token ensures e.expires <= now {
      var i :| 0 <= i < |t| && t[i] == e;
      assert st.slots[i] in st.slots;
    }
    GoneSave(st.(slots := t, users := users), token, now, saved);
  }

  lemma {:induction false} GoneForever(st: State, token: string, now: int, run: seq<Event>)
    requires Sound(st) && |st.slots| == MAX_SESSIONS && Gone(st, token, now) && token != "" && PossibleRun(st, now, run)
    requires forall e :: e in run ==> !Issues(e.action, token)
    ensures Gone(Run(st, run), token, EndOf(now, run))
    decreases |run|
  {
    hide Gone, Sound, Next, Possible;
    if run != [] {
      assert forall e :: e in run[1..] ==> e in run;
      GoneStep(st, token, now, run[0].now, run[0].action);
      SoundStep(st, run[0].now, run[0].action);
      GoneForever(Next(st, run[0].now, run[0].action), token, run[0].now, run[1..]);
    }
  }

  /** The step that ends a session, if its save succeeds, ends it in the file as well. */
  lemma {:induction false} EndedIsGone(st: State, token: string, was: int, now: int, a: Action)
    requires Sound(st) && Possible(st, a) && now >= was && SaveSucceeds(a) && a != Restart(Skipped)
    requires Admit(st, was, token).Admitted? && Admit(Next(st, now, a), now, token) == Refused
    ensures Gone(Next(st, now, a), token, now) && Next(st, now, a).users != {} && token != ""
  {
    hide Persisted, LoginStep, Loaded, ClearToken, ClearUser, CheckSlots, Unique, UniqueRows, Stored;
    SoundStep(st, now, a);
    var after := Next(st, now, a);
    if a.RemoveUser? { StillUsers(st.users, a.user); }
    if a.Login? { LoginSlots(st, now, a.overHttps, a.user, a.token, a.saved); }
    assert after.users != {};
    var e := st.slots[FindLive(st.slots, token, was, 0)];
    assert forall f :: f in after.slots && f.token == token ==> f.expires <= now;
    forall r | st.path && r in after.file && r.token == token ensures r.expires <= now {
      if r in st.file {
        assert r == RowOf(e) && e.persisted;
        EndedSaves(st, e, now, a);
      }
      if after.file == Persisted(after.slots) {
        PersistedRows(after.slots, r);
      }
    }
  }

  lemma StillUsers(users: set<string>, user: string)
    requires |users| > 1
    ensures users - {user} != {}
  {
    assert |users - {user}| >= |users| - 1;
  }

  /** A step that drops a persisted session that has not expired saves the table. */
  lemma {:induction false} EndedSaves(st: State, e: Session, now: int, a: Action)
    requires Sound(st) && Possible(st, a) && SaveSucceeds(a) && st.path && a != Restart(Skipped)
    requires e in st.slots && e.token != "" && e.persisted && st.https
    ensures var after := Next(st, now, a);
            e.expires <= now || e in after.slots || after.file == Persisted(after.slots)
  {
    hide Persisted, LoginStep, ClearToken, ClearUser, CheckSlots, Unique, UniqueRows, Stored, Marked;
    var after := Next(st, now, a);
    var i :| 0 <= i < |st.slots| && st.slots[i] == e;
    if a.Login? {
      LoginSlots(st, now, a.overHttps, a.user, a.token, a.saved);
      if i != Slot(st.slots, now) { assert after.slots[i] == e; }
    } else if a.Check? || a.AddUser? {
      if e.expires > now { assert after.slots[i] == e; }
    } else if a.Restart? {
      BlankSavesNothing();
      if a.boot.Serving? && e.expires > now { ServedKeeps(st, e, now); }
    }
  }

  /** A persisted session that has not expired is there again once HTTPS is served. */
  lemma ServedKeeps(st: State, e: Session, now: int)
    requires Sound(st) && st.path && e in st.slots && e.token != "" && e.persisted && e.expires > now
    ensures e in Loaded(st.file, st.users, now)
  {
    hide Loaded, Unique, UniqueRows, Marked;
    SoundFile(st);
    StoredHas(st, e);
    LoadedIs(st.file, st.users, now);
    assert Loadable(RowOf(e), st.users, now) && SessionOf(RowOf(e)) == e;
  }

  lemma BlankSavesNothing()
    ensures Persisted(Blank(MAX_SESSIONS)) == []
  {
    if Persisted(Blank(MAX_SESSIONS)) != [] {
      var r := Persisted(Blank(MAX_SESSIONS))[0];
      PersistedRows(Blank(MAX_SESSIONS), r);
    }
  }

  /** After this run, in which no login issues the token, it is admitted. */
  ghost predicate ComesBack(st: State, token: string, now: int, run: seq<Event>, later: int) {
    && |st.slots| == MAX_SESSIONS && PossibleRun(st, now, run) && (forall e :: e in run ==> !Issues(e.action, token))
    && later >= EndOf(now, run) && Admit(Run(st, run), later, token).Admitted?
  }

  ghost predicate CanComeBack(st: State, token: string, now: int) {
    exists run, later :: ComesBack(st, token, now, run, later)
  }

  predicate HasLiveRow(st: State, token: string, now: int) {
    exists r :: r in st.file && r.token == token && r.expires > now
  }

  /** A row brings its session back at the next boot that serves HTTPS, once its user exists. */
  lemma {:induction false} RowComesBack(st: State, r: Row, now: int)
    requires Sound(st) && |st.slots| == MAX_SESSIONS && st.path && r in st.file && r.expires > now
    ensures ComesBack(st, r.token, now, [Event(now, AddUser(r.user)), Event(now, Restart(Serving))], now)
  {
    hide Loaded, Marked, Stored, Unique;
    var e1, e2 := Event(now, AddUser(r.user)), Event(now, Restart(Serving));
    var added := Next(st, now, e1.action);
    var served := Next(added, now, e2.action);
    assert [e1, e2][1..] == [e2] && [e2][1..] == [];
    assert Run(served, []) == served && Run(added, [e2]) == served && Run(st, [e1, e2]) == served;
    assert PossibleRun(served, now, []) && PossibleRun(added, now, [e2]);
    SoundFile(st);
    RowsApart(st.file, r, r);
    LoadedIs(st.file, added.users, now);
    assert Loadable(r, added.users, now);
    assert SessionOf(r) in served.slots;
  }

  /**
   * Exactly when a refused token can be admitted again without being issued again, by any further steps and
   * restarts, saves failing or not: when the file has an unexpired row for it.
   */
  lemma {:induction false} ComesBackIff(st: State, token: string, now: int)
    requires Sound(st) && st.users != {} && token != "" && Admit(st, now, token) == Refused
    ensures CanComeBack(st, token, now) <==> st.path && HasLiveRow(st, token, now)
  {
    hide Sound, ComesBack;
    SlotCount(st);
    if st.path && HasLiveRow(st, token, now) {
      var r :| r in st.file && r.token == token && r.expires > now;
      RowComesBack(st, r, now);
    } else {
      RefusedIsGone(st, token, now);
      forall run, later | ComesBack(st, token, now, run, later) ensures false {
        GoneStaysGone(st, token, now, run, later);
      }
    }
  }

  lemma RefusedIsGone(st: State, token: string, now: int)
    requires st.users != {} && token != "" && Admit(st, now, token) == Refused
    requires !(st.path && HasLiveRow(st, token, now))
    ensures Gone(st, token, now)
  {
  }

  lemma {:induction false} GoneStaysGone(st: State, token: string, now: int, run: seq<Event>, later: int)
    requires Sound(st) && token != "" && Gone(st, token, now)
    ensures !ComesBack(st, token, now, run, later)
  {
    hide Sound, Gone, Next, Possible, Admit;
    if ComesBack(st, token, now, run, later) {
      GoneForever(st, token, now, run);
      GoneRefused(Run(st, run), token, EndOf(now, run), later);
    }
  }

  /**
   * No session comes back. Once an admitted session ends, by logout, displacement, expiry, removal of its user
   * or a boot, with the save of that step succeeding, its token is refused ever after: across any further steps
   * and restarts, failed saves included. The one exception is a boot that makes no call on a file that still
   * has an unexpired row for it.
   */
  lemma {:induction false} NoSessionComesBack(st: State, token: string, was: int, now: int, a: Action)
    requires Sound(st) && Possible(st, a) && now >= was && SaveSucceeds(a)
    requires Admit(st, was, token).Admitted? && Admit(Next(st, now, a), now, token) == Refused
    ensures CanComeBack(Next(st, now, a), token, now) <==>
              a == Restart(Skipped) && st.path && HasLiveRow(st, token, now)
  {
    hide Persisted, LoginStep, Sound, Possible, CanComeBack;
    SlotCount(st);
    SoundStep(st, now, a);
    if a != Restart(Skipped) {
      EndedIsGone(st, token, was, now, a);
    }
    ComesBackIff(Next(st, now, a), token, now);
  }

  /**
   * Such a boot refuses every token but leaves the file. A token can be admitted again after it exactly if its
   * session was persisted and has not expired.
   */
  lemma {:induction false} SkippedBootForgetsNothing(st: State, token: string, now: int)
    requires Safe(st, now) && st.path && st.users != {} && token != ""
    ensures var skipped := RestartStep(st, now, Skipped);
            && Admit(skipped, now, token) == Refused
            && (CanComeBack(skipped, token, now) <==>
                  exists e :: e in st.slots && e.token == token && e.persisted && e.expires > now)
  {
    hide Unique, UniqueRows, Marked, Loaded, ComesBack;
    var skipped := RestartStep(st, now, Skipped);
    RestartSound(st, now, Skipped);
    ComesBackIff(skipped, token, now);
    forall e | e in st.slots && e.token == token && e.persisted && e.expires > now
      ensures HasLiveRow(skipped, token, now)
    {
      StoredHas(st, e);
    }
    forall r | r in st.file && r.token == token && r.expires > now ensures SessionOf(r) in st.slots { }
  }
}
