// A side of a hop as an address, and back: an engine on one server, its
// user, the reference to its password, host, port and databases
// (`migkit/addresses.py`). No options in the address.
module Addresses {
  import opened LastEvent
  import opened Percent
  import opened Text

  // Whether the first name in the path is what to connect to, the databases
  // after it; or the databases come first; or none are read.
  datatype Kind = ConnectsTo | Databases | NoDatabases

  // `first` is what to connect to; port 0 is none.
  datatype Side = Side(user: string, password: string, host: string, port: nat, first: string, dbs: seq<string>)

  // What an address was read into, refused, or not read here: more servers
  // than one, or options.
  datatype Parsed = Read(user: string, password: string, host: Option<string>, port: nat, first: string, dbs: seq<string>)
                  | PasswordRefused | PortRefused | Several | WithOptions

  // ---- References a password may be written as

  const REFERENCES: seq<string> := ["env:", "${", "file:", "vault:", "aws-sm:", "gcp-sm:", "azure-kv:", "keyring:"]

  predicate IsReference(s: string) { exists r :: r in REFERENCES && r <= s }

  // What a quoted reference keeps as it is.
  const KEPT: string := ":${}"

  // ---- Numbers

  function Decimal(n: nat): string {
    (if n < 10 then [] else Decimal(n / 10)) + [('0' as int + n % 10) as char]
  }

  predicate IsDigits(s: string) { forall c :: c in s ==> '0' <= c <= '9' }

  lemma {:induction false} DigitsPart(s: string)
    requires IsDigits(s) && s != []
    ensures IsDigits(s[..|s| - 1]) && '0' <= s[|s| - 1] <= '9'
  {
    assert s[|s| - 1] in s;
    var less := s[..|s| - 1];
    assert forall c :: c in less ==> c in s;
  }

  function Value(s: string): nat
    requires IsDigits(s)
  {
    if s == [] then 0
    else
      DigitsPart(s);
      Value(s[..|s| - 1]) * 10 + (s[|s| - 1] as int - '0' as int)
  }

  // ---- Reading

  // Where the first of the three is that can end a user's name.
  function EndOfUser(s: string): (i: nat)
    ensures i <= |s| && forall k :: 0 <= k < i ==> s[k] !in "/@:"
    ensures i < |s| ==> s[i] in "/@:"
  {
    if s == [] || s[0] in "/@:" then 0 else 1 + EndOfUser(s[1..])
  }

  // `user:<a reference>@` may hold slashes, so it is read before the path is
  // split off.
  function Authority(rest: string): (string, string) {
    var i := EndOfUser(rest);
    if i < |rest| && rest[i] == ':' && IsReference(rest[i + 1..]) && '@' in rest[i + 1..] then
      var reference, after := Head(rest[i + 1..], '@'), Tail(rest[i + 1..], '@');
      (rest[..i] + [':'] + reference + ['@'] + Head(after, '/'), Tail(after, '/'))
    else (Head(rest, '/'), Tail(rest, '/'))
  }

  datatype Server = Server(host: string, port: nat) | BadPort

  function ReadServer(part: string): Server {
    var (host, port) :=
      if part != [] && part[0] == '[' then
        var rest := Tail(part[1..], ']');
        (Head(part[1..], ']'), if rest != [] && rest[0] == ':' then rest[1..] else [])
      else if ':' in part then (LastHead(part, ':'), LastTail(part, ':'))
      else (part, []);
    if port != [] && !IsDigits(port) then BadPort
    else Server(Unquote(host), Value(port))
  }

  function Servers(hostlist: string): (r: seq<Server>) {
    var parts := NonEmpty(Split(hostlist, ','));
    seq(|parts|, i requires 0 <= i < |parts| => ReadServer(parts[i]))
  }

  // The servers one after another, refused at the first bad port.
  method Hosts(hostlist: string) returns (out: seq<Server>, bad: bool)
    ensures bad <==> BadPort in Servers(hostlist)
    ensures !bad ==> out == Servers(hostlist)
  {
    var parts := NonEmpty(Split(hostlist, ','));
    out, bad := [], false;
    for i := 0 to |parts|
      invariant out == Servers(hostlist)[..i] && BadPort !in out
    {
      var server := ReadServer(parts[i]);
      if server == BadPort {
        assert Servers(hostlist)[i] == BadPort;
        return out, true;
      }
      out := out + [server];
    }
    assert out == Servers(hostlist);
  }

  function Segments(path: string): (r: seq<string>) {
    var parts := NonEmpty(Split(path, '/'));
    seq(|parts|, i requires 0 <= i < |parts| => Unquote(parts[i]))
  }

  function Listed(segment: string): seq<string> { NonEmpty(Split(segment, ',')) }

  function FirstOf(kind: Kind, segments: seq<string>): string {
    if kind == ConnectsTo && segments != [] then segments[0] else []
  }

  function DatabasesOf(kind: Kind, segments: seq<string>): seq<string> {
    match kind
    case ConnectsTo => if |segments| > 1 then Listed(segments[1]) else []
    case Databases => if segments != [] then Listed(segments[0]) else []
    case NoDatabases => []
  }

  function ReadSide(kind: Kind, user: string, password: string, servers: seq<Server>, segments: seq<string>, query: string): Parsed {
    if password != [] && !IsReference(password) then PasswordRefused
    else if BadPort in servers then PortRefused
    else if |servers| > 1 then Several
    else if query != [] then WithOptions
    else if servers == [] then Read(user, password, None, 0, FirstOf(kind, segments), DatabasesOf(kind, segments))
    else
      assert servers[0] in servers;
      Read(user, password, Some(servers[0].host), servers[0].port, FirstOf(kind, segments), DatabasesOf(kind, segments))
  }

  function Parse(kind: Kind, text: string): Parsed {
    var (authority, path) := Authority(Head(text, '?'));
    var userinfo, hostlist := LastHead(authority, '@'), LastTail(authority, '@');
    ReadSide(kind, Unquote(Head(userinfo, ':')), Unquote(Tail(userinfo, ':')), Servers(hostlist), Segments(path), Tail(text, '?'))
  }

  // ---- Writing

  predicate IsText(s: Side) {
    Bytes(s.user) && Bytes(s.password) && Bytes(s.first) && forall d :: d in s.dbs ==> Bytes(d)
  }

  function Quoted(parts: seq<string>): (r: seq<string>)
    requires forall d :: d in parts ==> Bytes(d)
    ensures |r| == |parts| && forall i :: 0 <= i < |r| ==> Bytes(parts[i]) && r[i] == Quote(parts[i], [])
  {
    seq(|parts|, i requires 0 <= i < |parts| => assert parts[i] in parts; Quote(parts[i], []))
  }

  function UserText(user: string, password: string): string {
    if user == [] && password == [] then [] else user + (if password == [] then [] else [':'] + password) + ['@']
  }

  function UserPart(s: Side): string
    requires IsText(s)
  {
    UserText(Quote(s.user, []), Quote(s.password, KEPT))
  }

  // A port as it is written, or nothing.
  function PortText(port: nat, default: nat): string {
    if port != 0 && port != default then [':'] + Decimal(port) else []
  }

  function ServerPart(host: string, port: nat, default: nat): string {
    (if ':' in host then ['['] + host + [']'] else host) + PortText(port, default)
  }

  function PathText(kind: Kind, s: Side): string
    requires IsText(s)
  {
    if kind == ConnectsTo then
      if s.first == [] then []
      else if s.dbs == [] then Quote(s.first, [])
      else Quote(s.first, []) + ['/'] + Join(Quoted(s.dbs), ',')
    else Join(Quoted(s.dbs), ',')
  }

  function PathPart(kind: Kind, s: Side): string
    requires IsText(s)
  {
    if (if kind == ConnectsTo then s.first == [] else s.dbs == []) then [] else ['/'] + PathText(kind, s)
  }

  // The address after `scheme://`; None where one cannot carry the side. A
  // side naming port 0, where the engine has a port of its own, cannot be said.
  function Render(kind: Kind, s: Side, names: bool, default: nat): Option<string>
    requires IsText(s)
  {
    if s.password != [] && !IsReference(s.password) then None
    else if s.host == [] then None
    else if names && s.port == 0 && default != 0 then None
    else if kind == ConnectsTo && s.first == [] && s.dbs != [] then None
    else Some(UserPart(s) + ServerPart(s.host, s.port, default) + PathPart(kind, s))
  }

  // ---- Each part reads back

  lemma {:induction false} DecimalReadsBack(n: nat)
    ensures IsDigits(Decimal(n)) && Value(Decimal(n)) == n && Decimal(n) != []
    decreases n
  {
    var d := ('0' as int + n % 10) as char;
    var before := if n < 10 then [] else Decimal(n / 10);
    if n >= 10 {
      DecimalReadsBack(n / 10);
    }
    LastDigitOf(before, d);
  }

  lemma {:induction false} LastDigitOf(before: string, d: char)
    requires IsDigits(before) && '0' <= d <= '9'
    ensures IsDigits(before + [d]) && Value(before + [d]) == Value(before) * 10 + (d as int - '0' as int)
  {
    assert (before + [d])[..|before|] == before;
  }

  // A host with no character an address reads otherwise.
  predicate PlainHost(host: string) { host != [] && forall c :: c in host ==> c !in "/?@,[]%" }

  // None of the characters.
  predicate Without(s: string, cs: string) { forall c :: c in s ==> c !in cs }

  lemma {:induction false} DigitsWithout(s: string)
    requires IsDigits(s)
    ensures Without(s, "/@:?,[]")
  {
  }

  lemma {:induction false} PortReadsBack(port: nat, default: nat)
    ensures var t := PortText(port, default);
            && (t != [] ==> t[0] == ':' && IsDigits(t[1..]) && ':' !in t[1..] && t[1..] != [])
            && IsDigits([]) && Value([]) == 0
            && (if t == [] then port == 0 || port == default else port != default && Value(t[1..]) == port)
  {
    DecimalReadsBack(port);
    DigitsWithout(Decimal(port));
    var t := PortText(port, default);
    if t != [] {
      assert t[1..] == Decimal(port);
    }
  }

  lemma {:induction false} BracketedReads(host: string, tail: string)
    requires PlainHost(host) && (tail != [] ==> tail[0] == ':' && IsDigits(tail[1..]))
    ensures IsDigits([])
    ensures ReadServer(['['] + host + [']'] + tail) == Server(host, if tail == [] then Value([]) else Value(tail[1..]))
  {
    NothingToUnquote(host);
    var part := ['['] + host + [']'] + tail;
    assert part[1..] == host + [']'] + tail;
    Cuts(host, ']', tail);
  }

  lemma {:induction false} NamedReads(host: string, tail: string)
    requires PlainHost(host) && ':' !in host && (tail != [] ==> tail[0] == ':' && IsDigits(tail[1..]) && ':' !in tail[1..])
    ensures IsDigits([])
    ensures ReadServer(host + tail) == Server(host, if tail == [] then Value([]) else Value(tail[1..]))
  {
    NothingToUnquote(host);
    assert host[0] in host && (host + tail)[0] == host[0];
    if tail != [] {
      CutsLast(host, ':', tail[1..]);
      assert host + tail == host + [':'] + tail[1..];
      assert (host + tail)[|host|] == ':';
    } else {
      assert host + tail == host;
    }
  }

  lemma {:induction false} ServerReadsBack(host: string, port: nat, default: nat)
    requires PlainHost(host)
    ensures ReadServer(ServerPart(host, port, default)) == Server(host, if port != default then port else 0)
  {
    PortReadsBack(port, default);
    if ':' in host {
      BracketedReads(host, PortText(port, default));
    } else {
      NamedReads(host, PortText(port, default));
    }
  }

  lemma {:induction false} BothWithout(a: string, b: string, cs: string)
    requires Without(a, cs) && Without(b, cs)
    ensures Without(a + b, cs)
  {
  }

  lemma {:induction false} MildIsNot(c: char)
    ensures Mild(c, []) ==> c !in "/@:?,[]"
    ensures Mild(c, KEPT) ==> c !in "/@?,[]"
  {
    assert c in "/@:?,[]" ==> !Unreserved(c) && c != '%';
  }

  lemma {:induction false} QuoteWithout(s: string)
    requires Bytes(s)
    ensures Without(Quote(s, []), "/@:?,[]") && Without(Quote(s, KEPT), "/@?,[]")
    ensures s != [] ==> Quote(s, []) != [] && Quote(s, KEPT) != []
  {
    QuoteIsMild(s, []);
    QuoteIsMild(s, KEPT);
    forall c ensures c in Quote(s, []) ==> c !in "/@:?,[]" {
      MildIsNot(c);
    }
    forall c ensures c in Quote(s, KEPT) ==> c !in "/@?,[]" {
      MildIsNot(c);
    }
  }

  lemma {:induction false} PortWithout(port: nat, default: nat)
    ensures Without(PortText(port, default), "/@?,")
  {
    DecimalReadsBack(port);
    DigitsWithout(Decimal(port));
  }

  lemma {:induction false} ServerWithout(host: string, port: nat, default: nat)
    requires PlainHost(host)
    ensures Without(ServerPart(host, port, default), "/@?,") && ServerPart(host, port, default) != []
  {
    PortWithout(port, default);
    var named := if ':' in host then ['['] + host + [']'] else host;
    assert forall c :: c in named ==> c in host || c == '[' || c == ']';
    BothWithout(named, PortText(port, default), "/@?,");
  }

  lemma {:induction false} JoinedWithout(parts: seq<string>)
    requires forall p :: p in parts ==> Without(p, "/@?")
    ensures Without(Join(parts, ','), "/@?")
  {
    if parts != [] {
      assert parts[0] in parts;
      forall p | p in parts[1..] ensures Without(p, "/@?") { assert p in parts; }
      JoinedWithout(parts[1..]);
    }
  }

  lemma {:induction false} QuotedWithout(parts: seq<string>)
    requires forall d :: d in parts ==> Bytes(d)
    ensures Without(Join(Quoted(parts), ','), "/@?")
  {
    forall q | q in Quoted(parts) ensures Without(q, "/@?") {
      var i :| 0 <= i < |parts| && Quoted(parts)[i] == q;
      QuoteWithout(parts[i]);
    }
    JoinedWithout(Quoted(parts));
  }

  lemma {:induction false} PathWithout(kind: Kind, s: Side)
    requires IsText(s)
    ensures Without(PathPart(kind, s), "@?") && (PathPart(kind, s) == [] || PathPart(kind, s)[0] == '/')
  {
    QuoteWithout(s.first);
    QuotedWithout(s.dbs);
  }

  // ---- The authority is what it was written as

  lemma {:induction false} EndOfUserIs(a: string, b: string)
    requires Without(a, "/@:") && (b != [] ==> b[0] in "/@:")
    ensures EndOfUser(a + b) == |a|
  {
    if a == [] {
      assert a + b == b;
    } else {
      assert a[0] in a && (a + b)[1..] == a[1..] + b;
      EndOfUserIs(a[1..], b);
    }
  }

  lemma {:induction false} SplitAtPath(w: string, path: string)
    requires '/' !in w && (path == [] || path[0] == '/')
    ensures Head(w + path, '/') == w && Tail(w + path, '/') == if path == [] then [] else path[1..]
  {
    if path == [] {
      Cuts(w, '/', []);
      assert w + path == w;
    } else {
      Cuts(w, '/', path[1..]);
      assert w + path == w + ['/'] + path[1..];
    }
  }

  // A reference for a password, whatever slashes are in it.
  lemma {:induction false} ReferenceAuthority(user: string, reference: string, w: string, path: string)
    requires Without(user, "/@:") && '@' !in reference && '/' !in w && (path == [] || path[0] == '/')
    requires IsReference(reference)
    ensures Authority(user + [':'] + reference + ['@'] + w + path)
            == (user + [':'] + reference + ['@'] + w, if path == [] then [] else path[1..])
  {
    var rest := user + [':'] + reference + ['@'] + w + path;
    var tail := reference + ['@'] + (w + path);
    assert rest == user + ([':'] + tail);
    EndOfUserIs(user, [':'] + tail);
    assert rest[|user| + 1..] == tail && rest[..|user|] == user;
    assert tail[|reference|] == '@';
    Cuts(reference, '@', w + path);
    var r :| r in REFERENCES && r <= reference;
    assert r <= tail;
    SplitAtPath(w, path);
  }

  // A user alone.
  lemma {:induction false} UserAuthority(user: string, w: string, path: string)
    requires Without(user, "/@:") && Without(w, "/@") && (path == [] || path[0] == '/')
    ensures Authority(user + ['@'] + w + path) == (user + ['@'] + w, if path == [] then [] else path[1..])
  {
    var rest := user + ['@'] + w + path;
    assert rest == user + (['@'] + w + path);
    EndOfUserIs(user, ['@'] + w + path);
    SplitAtPath(user + ['@'] + w, path);
  }

  // Nobody: no reference is read where there is no `@`.
  lemma {:induction false} NoneToRead(rest: string)
    requires '@' !in rest
    ensures Authority(rest) == (Head(rest, '/'), Tail(rest, '/'))
  {
    var i := EndOfUser(rest);
    if i < |rest| {
      var after := rest[i + 1..];
      assert forall c :: c in after ==> c in rest;
    }
  }

  lemma {:induction false} NobodyAuthority(w: string, path: string)
    requires Without(w, "/@") && Without(path, "@") && (path == [] || path[0] == '/')
    ensures Authority(w + path) == (w, if path == [] then [] else path[1..])
  {
    SplitAtPath(w, path);
    assert '@' !in w && '@' !in path;
    NoneToRead(w + path);
  }

  lemma {:induction false} ReferenceStays(password: string)
    requires Bytes(password) && IsReference(password)
    ensures IsReference(Quote(password, KEPT))
  {
    var r :| r in REFERENCES && r <= password;
    assert Bytes(r) by { assert forall c :: c in r ==> c in password; }
    var rest := password[|r|..];
    assert password == r + rest;
    SafeStays(r, rest, KEPT);
    assert r <= Quote(password, KEPT);
  }

  lemma {:induction false} AuthorityIs(user: string, password: string, w: string, path: string)
    requires Without(user, "/@:") && '@' !in password && (password == [] || IsReference(password))
    requires Without(w, "/@") && Without(path, "@") && (path == [] || path[0] == '/')
    ensures Authority(UserText(user, password) + w + path) == (UserText(user, password) + w, if path == [] then [] else path[1..])
  {
    if password != [] {
      ReferenceAuthority(user, password, w, path);
      assert UserText(user, password) == user + [':'] + password + ['@'];
    } else if user != [] {
      UserAuthority(user, w, path);
      assert UserText(user, password) == user + ['@'];
    } else {
      NobodyAuthority(w, path);
      assert UserText(user, password) + w == w;
    }
  }

  // The user and the reference as they stand before the `@`.
  function Info(user: string, password: string): string { if password == [] then user else user + [':'] + password }

  lemma {:induction false} UserTextIs(user: string, password: string, w: string)
    ensures UserText(user, password) + w == if user == [] && password == [] then w else Info(user, password) + ['@'] + w
  {
    if password == [] {
      assert user + [] + ['@'] == user + ['@'];
    } else {
      assert user + ([':'] + password) + ['@'] == user + [':'] + password + ['@'];
    }
  }

  lemma {:induction false} UserTextCuts(user: string, password: string, w: string)
    requires ':' !in user && '@' !in w
    ensures var info := LastHead(UserText(user, password) + w, '@');
            Head(info, ':') == user && Tail(info, ':') == password
    ensures LastTail(UserText(user, password) + w, '@') == w
  {
    UserTextIs(user, password, w);
    CutsLast(Info(user, password), '@', w);
    Cuts(user, ':', password);
  }

  lemma {:induction false} UserReadsBack(s: Side)
    requires IsText(s)
    ensures Unquote(Quote(s.user, [])) == s.user && Unquote(Quote(s.password, KEPT)) == s.password
  {
    QuoteReadsBack(s.user, [], []);
    QuoteReadsBack(s.password, KEPT, []);
    assert Quote(s.user, []) + [] == Quote(s.user, []) && Quote(s.password, KEPT) + [] == Quote(s.password, KEPT);
    assert Unquote([]) == [] && s.user + [] == s.user && s.password + [] == s.password;
  }

  lemma {:induction false} OnePart(s: string, c: char)
    requires c !in s
    ensures NonEmpty(Split(s, c)) == if s == [] then [] else [s]
  {
  }

  lemma {:induction false} ServersReadBack(host: string, port: nat, default: nat)
    requires PlainHost(host)
    ensures Servers(ServerPart(host, port, default)) == [Server(host, if port != default then port else 0)]
  {
    ServerWithout(host, port, default);
    ServerReadsBack(host, port, default);
    OnePart(ServerPart(host, port, default), ',');
  }

  // A port that is neither empty nor a number is refused, and no other.
  lemma {:induction false} BadPortExactly(host: string, port: string)
    requires PlainHost(host) && ':' !in host && ':' !in port
    ensures ReadServer(host + [':'] + port) == BadPort <==> port != [] && exists c :: c in port && !('0' <= c <= '9')
  {
    assert host[0] in host && (host + [':'] + port)[0] == host[0];
    assert (host + [':'] + port)[|host|] == ':';
    CutsLast(host, ':', port);
  }

  // Servers listed one after another, as each is written.
  function ServerTexts(list: seq<Server>, default: nat): (texts: seq<string>)
    requires forall s :: s in list ==> s.Server?
    ensures |texts| == |list| && forall i :: 0 <= i < |list| ==> texts[i] == ServerPart(list[i].host, list[i].port, default)
  {
    seq(|list|, i requires 0 <= i < |list| => assert list[i] in list; ServerPart(list[i].host, list[i].port, default))
  }

  lemma {:induction false} NoneEmpty(parts: seq<string>)
    requires forall p :: p in parts ==> p != []
    ensures NonEmpty(parts) == parts
  {
    if parts != [] {
      assert parts[0] in parts && forall p :: p in parts[1..] ==> p in parts;
      NoneEmpty(parts[1..]);
      assert parts == [parts[0]] + parts[1..];
    }
  }

  lemma {:induction false} TextsApart(list: seq<Server>, default: nat)
    requires forall s :: s in list ==> s.Server? && PlainHost(s.host)
    ensures forall t :: t in ServerTexts(list, default) ==> t != [] && ',' !in t
  {
    var texts := ServerTexts(list, default);
    forall t | t in texts ensures t != [] && ',' !in t {
      var i :| 0 <= i < |texts| && texts[i] == t;
      assert list[i] in list;
      ServerWithout(list[i].host, list[i].port, default);
    }
  }

  lemma {:induction false} ListSplits(list: seq<Server>, default: nat)
    requires list != [] && forall s :: s in list ==> s.Server? && PlainHost(s.host)
    ensures NonEmpty(Split(Join(ServerTexts(list, default), ','), ',')) == ServerTexts(list, default)
  {
    TextsApart(list, default);
    JoinSplits(ServerTexts(list, default), ',');
    NoneEmpty(ServerTexts(list, default));
  }

  // They read back in their order, each its host and its port.
  lemma {:induction false} ListReadsBack(list: seq<Server>, default: nat, i: nat)
    requires i < |list| && forall s :: s in list ==> s.Server? && PlainHost(s.host)
    ensures var read := Servers(Join(ServerTexts(list, default), ','));
            |read| == |list| && read[i] == Server(list[i].host, if list[i].port != default then list[i].port else 0)
  {
    ListSplits(list, default);
    assert list[i] in list;
    ServerReadsBack(list[i].host, list[i].port, default);
  }

  lemma {:induction false} NameReadsBack(name: string)
    requires Bytes(name)
    ensures Unquote(Quote(name, [])) == name
  {
    QuoteReadsBack(name, [], []);
    assert Quote(name, []) + [] == Quote(name, []) && name + Unquote([]) == name;
  }

  lemma {:induction false} FirstOfMany(name: string, rest: string)
    requires Bytes(name)
    ensures Unquote(Quote(name, []) + [','] + rest) == name + [','] + Unquote(rest)
  {
    QuoteReadsBack(name, [], [','] + rest);
    assert Quote(name, []) + ([','] + rest) == Quote(name, []) + [','] + rest;
    assert ([','] + rest)[1..] == rest;
    assert name + ([','] + Unquote(rest)) == name + [','] + Unquote(rest);
  }

  lemma {:induction false} JoinedReadsBack(dbs: seq<string>)
    requires forall d :: d in dbs ==> Bytes(d)
    ensures Unquote(Join(Quoted(dbs), ',')) == Join(dbs, ',')
  {
    if |dbs| == 1 {
      assert dbs[0] in dbs;
      NameReadsBack(dbs[0]);
    } else if |dbs| > 1 {
      assert dbs[0] in dbs;
      forall d | d in dbs[1..] ensures Bytes(d) { assert d in dbs; }
      JoinedReadsBack(dbs[1..]);
      FirstOfMany(dbs[0], Join(Quoted(dbs[1..]), ','));
      assert Quoted(dbs)[1..] == Quoted(dbs[1..]);
    }
  }

  // The segments of a path of one or two, each quoted.
  lemma {:induction false} OneSegment(a: string)
    requires '/' !in a
    ensures Segments(a) == if a == [] then [] else [Unquote(a)]
  {
    OnePart(a, '/');
  }

  lemma {:induction false} TwoSegments(a: string, b: string)
    requires '/' !in a && '/' !in b && a != []
    ensures Segments(a + ['/'] + b) == [Unquote(a)] + if b == [] then [] else [Unquote(b)]
  {
    var parts := [a, b];
    assert parts[1..] == [b];
    assert Join(parts, '/') == a + ['/'] + b;
    JoinSplits(parts, '/');
    assert NonEmpty(parts) == [a] + NonEmpty([b]);
    assert NonEmpty([b]) == if b == [] then [] else [b];
  }

  lemma {:induction false} NoneListed()
    ensures Listed([]) == []
  {
    OnePart([], ',');
  }

  // One path after another's quoting, of a first name and the names joined.
  lemma {:induction false} DatabasesReadBack(kind: Kind, joined: string, names: string)
    requires '/' !in joined && Unquote(joined) == names && kind != ConnectsTo
    ensures FirstOf(kind, Segments(joined)) == []
    ensures DatabasesOf(kind, Segments(joined)) == if kind == NoDatabases then [] else Listed(names)
  {
    OneSegment(joined);
    NoneListed();
  }

  lemma {:induction false} FirstReadsBack(first: string, name: string, joined: string, names: string)
    requires '/' !in first && first != [] && Unquote(first) == name && '/' !in joined && Unquote(joined) == names
    ensures var alone, both := Segments(first), Segments(first + ['/'] + joined);
            && FirstOf(ConnectsTo, alone) == name && DatabasesOf(ConnectsTo, alone) == []
            && FirstOf(ConnectsTo, both) == name && DatabasesOf(ConnectsTo, both) == Listed(names)
  {
    OneSegment(first);
    TwoSegments(first, joined);
    NoneListed();
  }

  lemma {:induction false} PathTextIs(kind: Kind, s: Side)
    requires IsText(s)
    ensures (if PathPart(kind, s) == [] then [] else PathPart(kind, s)[1..]) == PathText(kind, s)
  {
    var path := PathPart(kind, s);
    if path != [] {
      assert path[1..] == PathText(kind, s);
    }
  }

  lemma {:induction false} PathReadsBack(kind: Kind, s: Side)
    requires IsText(s) && (if kind == ConnectsTo then s.first == [] ==> s.dbs == [] else s.first == [])
    ensures FirstOf(kind, Segments(PathText(kind, s))) == s.first
    ensures DatabasesOf(kind, Segments(PathText(kind, s))) == if kind == NoDatabases then [] else Listed(Join(s.dbs, ','))
  {
    var joined, first := Join(Quoted(s.dbs), ','), Quote(s.first, []);
    QuoteWithout(s.first);
    QuotedWithout(s.dbs);
    JoinedReadsBack(s.dbs);
    NoneListed();
    if kind != ConnectsTo {
      DatabasesReadBack(kind, joined, Join(s.dbs, ','));
    } else if s.first == [] {
      OneSegment([]);
    } else {
      NameReadsBack(s.first);
      FirstReadsBack(first, s.first, joined, Join(s.dbs, ','));
    }
  }

  lemma {:induction false} NoQuery(kind: Kind, s: Side, default: nat)
    requires IsText(s) && PlainHost(s.host)
    ensures var text := UserPart(s) + ServerPart(s.host, s.port, default) + PathPart(kind, s);
            Head(text, '?') == text && Tail(text, '?') == []
  {
    QuoteWithout(s.user);
    QuoteWithout(s.password);
    ServerWithout(s.host, s.port, default);
    PathWithout(kind, s);
    Cuts(UserPart(s) + ServerPart(s.host, s.port, default) + PathPart(kind, s), '?', []);
  }

  lemma {:induction false} TextReads(kind: Kind, s: Side, default: nat)
    requires IsText(s) && PlainHost(s.host) && (s.password == [] || IsReference(s.password))
    ensures var w := ServerPart(s.host, s.port, default);
            Parse(kind, UserPart(s) + w + PathPart(kind, s))
            == ReadSide(kind, Unquote(Quote(s.user, [])), Unquote(Quote(s.password, KEPT)), Servers(w), Segments(PathText(kind, s)), [])
  {
    var w := ServerPart(s.host, s.port, default);
    NoQuery(kind, s, default);
    QuoteWithout(s.user);
    QuoteWithout(s.password);
    if s.password != [] {
      ReferenceStays(s.password);
    }
    ServerWithout(s.host, s.port, default);
    PathWithout(kind, s);
    AuthorityIs(Quote(s.user, []), Quote(s.password, KEPT), w, PathPart(kind, s));
    UserTextCuts(Quote(s.user, []), Quote(s.password, KEPT), w);
    PathTextIs(kind, s);
  }

  // An address reads back: the user, the reference - slashes in it or not -
  // the host, an IPv6 one in brackets, the port where it is not the engine's
  // own, what it connects to, and the databases, less the empty ones and
  // each cut at its commas.
  lemma {:induction false} AddressReadsBack(kind: Kind, s: Side, names: bool, default: nat)
    requires IsText(s) && PlainHost(s.host) && (kind != ConnectsTo ==> s.first == []) && Render(kind, s, names, default).Some?
    ensures Parse(kind, Render(kind, s, names, default).value)
            == Read(s.user, s.password, Some(s.host), if s.port != default then s.port else 0, s.first,
                    if kind == NoDatabases then [] else Listed(Join(s.dbs, ',')))
  {
    var w := ServerPart(s.host, s.port, default);
    NoQuery(kind, s, default);
    TextReads(kind, s, default);
    UserReadsBack(s);
    ServersReadBack(s.host, s.port, default);
    PathReadsBack(kind, s);
  }

  // And so the side itself comes back exactly where no database is empty or
  // holds a comma - none at all, where the engine reads none.
  lemma {:induction false} SideReadsBackExactly(kind: Kind, s: Side, names: bool, default: nat)
    requires IsText(s) && PlainHost(s.host) && (kind != ConnectsTo ==> s.first == []) && Render(kind, s, names, default).Some?
    ensures Parse(kind, Render(kind, s, names, default).value)
            == Read(s.user, s.password, Some(s.host), if s.port != default then s.port else 0, s.first, s.dbs)
            <==> if kind == NoDatabases then s.dbs == [] else forall d :: d in s.dbs ==> d != [] && ',' !in d
  {
    AddressReadsBack(kind, s, names, default);
    PartsBackExactly(s.dbs, ',');
  }

  // A reference written as it is, unquoted, reads the same.
  lemma {:induction false} RawReferenceReads(kind: Kind, user: string, reference: string, host: string, port: nat)
    requires Bytes(user) && IsReference(reference) && Without(reference, "@?%") && PlainHost(host)
    ensures Parse(kind, UserText(Quote(user, []), reference) + ServerPart(host, port, 0)) == Read(user, reference, Some(host), port, [], [])
  {
    var w, quoted := ServerPart(host, port, 0), Quote(user, []);
    QuoteWithout(user);
    ServerWithout(host, port, 0);
    RawText(kind, quoted, reference, w);
    RawReads(user, reference);
    ServersReadBack(host, port, 0);
    OneSegment([]);
    NoneListed();
  }

  lemma {:induction false} RawText(kind: Kind, quoted: string, reference: string, w: string)
    requires Without(quoted, "/@:?") && IsReference(reference) && Without(reference, "@?") && Without(w, "/@?")
    ensures Parse(kind, UserText(quoted, reference) + w)
            == ReadSide(kind, Unquote(quoted), Unquote(reference), Servers(w), Segments([]), [])
  {
    var text := UserText(quoted, reference) + w;
    Cuts(text, '?', []);
    AuthorityIs(quoted, reference, w, []);
    assert text + [] == text;
    UserTextCuts(quoted, reference, w);
  }

  lemma {:induction false} RawReads(user: string, reference: string)
    requires Bytes(user) && '%' !in reference
    ensures Unquote(Quote(user, [])) == user && Unquote(reference) == reference
  {
    QuoteReadsBack(user, [], []);
    assert Quote(user, []) + [] == Quote(user, []) && user + Unquote([]) == user;
    NothingToUnquote(reference);
  }
}
