/** Worker ids: how one is built from a worker's fields, how a target string is parsed, and which workers it selects. */
module WorkerIds {
  import opened Bytes

  // ----- decimal numbers -----

  function Digits(n: nat): (s: string)
    ensures s != [] && forall c :: c in s ==> '0' <= c <= '9'
  {
    if n < 10 then [('0' as int + n) as char] else Digits(n / 10) + [('0' as int + n % 10) as char]
  }

  function Itoa(n: int): string {
    if n < 0 then "-" + Digits(-n) else Digits(n)
  }

  predicate IsDigit(c: char) {
    '0' <= c <= '9'
  }

  function DigitValue(c: char): nat
    requires IsDigit(c)
  {
    c as int - '0' as int
  }

  function DigitsValue(s: string): Option<nat> {
    if s == [] then Some(0)
    else if !IsDigit(s[|s| - 1]) then None
    else
      match DigitsValue(s[..|s| - 1])
      case None => None
      case Some(v) => Some(10 * v + DigitValue(s[|s| - 1]))
  }

  const MIN_INT := -0x8000_0000_0000_0000
  const MAX_INT := 0x7fff_ffff_ffff_ffff

  /** `strconv.Atoi`: an optional sign, at least one digit and nothing else, and a value that fits 64 bits. */
  function Atoi(s: string): Option<int> {
    var signed := s != [] && (s[0] == '-' || s[0] == '+');
    var digits := if signed then s[1..] else s;
    if digits == [] then None
    else
      match DigitsValue(digits)
      case None => None
      case Some(v) =>
        var m: int := v;
        var n := if signed && s[0] == '-' then -m else m;
        if MIN_INT <= n <= MAX_INT then Some(n) else None
  }

  lemma {:induction false} DigitsRead(n: nat)
    ensures DigitsValue(Digits(n)) == Some(n)
  {
    if n >= 10 {
      DigitsRead(n / 10);
      assert Digits(n)[..|Digits(n)| - 1] == Digits(n / 10);
    } else {
      assert Digits(n)[..0] == [];
    }
  }

  /** A number reads back as itself, and not at all when it does not fit 64 bits. */
  lemma AtoiItoa(n: int)
    ensures Atoi(Itoa(n)) == if -9223372036854775808 <= n <= 9223372036854775807 then Some(n) else None
  {
    DigitsRead(if n < 0 then -n else n);
    if n < 0 {
      assert Itoa(n)[1..] == Digits(-n);
    } else {
      assert Digits(n)[0] in Digits(n);
    }
  }

  // ----- splitting -----

  function IndexOf(s: string, c: char): (i: nat)
    ensures i <= |s| && c !in s[..i]
    ensures i < |s| <==> c in s
    ensures i < |s| ==> s[i] == c
  {
    if s == [] || s[0] == c then 0 else 1 + IndexOf(s[1..], c)
  }

  /** `strings.SplitN` with a one-character separator. */
  function SplitN(s: string, c: char, n: nat): (parts: seq<string>)
    requires n > 0
    ensures 1 <= |parts| <= n
    decreases n
  {
    if n == 1 || c !in s then [s] else [s[..IndexOf(s, c)]] + SplitN(s[IndexOf(s, c) + 1..], c, n - 1)
  }

  lemma {:induction false} IndexOfFirst(a: string, c: char, b: string)
    requires c !in a
    ensures IndexOf(a + [c] + b, c) == |a|
  {
    if a != [] {
      IndexOfFirst(a[1..], c, b);
      assert (a + [c] + b)[1..] == a[1..] + [c] + b;
    }
  }

  lemma SplitFirst(a: string, c: char, b: string, n: nat)
    requires c !in a && n >= 2
    ensures SplitN(a + [c] + b, c, n) == [a] + SplitN(b, c, n - 1)
  {
    var s := a + [c] + b;
    IndexOfFirst(a, c, b);
    assert s[|a|] == c;
    assert s[..|a|] == a && s[|a| + 1..] == b;
  }

  // ----- ids and targets -----

  datatype Fields = Fields(username: string, host: string, serverPort: int, remotePort: int)

  function ProcessKey(f: Fields): string {
    f.username + "@" + (f.host + ":" + (Itoa(f.serverPort) + ":" + Itoa(f.remotePort)))
  }

  /** A key reads `user@host:port:port`, the ports in decimal. */
  lemma KeyLayout(f: Fields)
    ensures ProcessKey(f) == f.username + "@" + f.host + ":" + Itoa(f.serverPort) + ":" + Itoa(f.remotePort)
    ensures Itoa(22) == "22" && Itoa(8080) == "8080" && Itoa(0) == "0" && Itoa(-5) == "-5"
  {
    assert Digits(22) == Digits(2) + "2" && Digits(80) == Digits(8) + "0";
    assert Digits(808) == Digits(80) + "8" && Digits(8080) == Digits(808) + "0";
  }

  datatype Target = All(username: string) | Single(username: string, server: string, serverPort: int, remotePort: int)

  function PortOf(s: string): int {
    match Atoi(s)
    case None => 0
    case Some(n) => n
  }

  /** What follows the `@`. A part that is missing, or is not a number, stays zero. */
  function ParseServer(username: string, server: string): Target {
    if server == "all" then All(username)
    else if ':' !in server then Single(username, server, 0, 0)
    else
      var hostPort := SplitN(server, ':', 3);
      var serverPort := if |hostPort| > 1 then PortOf(hostPort[1]) else 0;
      Single(username, hostPort[0], serverPort, if |hostPort| > 2 then PortOf(hostPort[2]) else 0)
  }

  function ParseTarget(target: string): Target {
    if '@' !in target then Single(target, "", 0, 0)
    else
      var parts := SplitN(target, '@', 2);
      if |parts| < 2 then Single(parts[0], "", 0, 0) else ParseServer(parts[0], parts[1])
  }

  predicate PortsFit(f: Fields) {
    MIN_INT <= f.serverPort <= MAX_INT && MIN_INT <= f.remotePort <= MAX_INT
  }

  lemma DigitsOnly(n: int, c: char)
    requires !IsDigit(c) && c != '-'
    ensures c !in Itoa(n)
  {
  }

  lemma FirstPartLacks(s: string, c: char, n: nat)
    requires n >= 2
    ensures c !in SplitN(s, c, n)[0]
  {
  }

  /** Host and ports are read back exactly when the host has no colon of its own. */
  lemma ServerRoundTrip(username: string, host: string, serverPort: string, remotePort: string)
    requires ':' !in serverPort && ':' !in remotePort
    ensures var t := ParseServer(username, host + ":" + (serverPort + ":" + remotePort));
      && t.Single? && t.username == username
      && (if ':' in host then t.server != host
          else t == Single(username, host, PortOf(serverPort), PortOf(remotePort)))
  {
    var s := host + ":" + (serverPort + ":" + remotePort);
    assert s[|host|] == ':' && ':' !in "all";
    FirstPartLacks(s, ':', 3);
    if ':' !in host {
      SplitFirst(host, ':', serverPort + ":" + remotePort, 3);
      SplitFirst(serverPort, ':', remotePort, 2);
    }
  }

  lemma TargetUsername(username: string, server: string)
    ensures '@' !in username ==> ParseTarget(username + "@" + server) == ParseServer(username, server)
    ensures '@' in username ==> ParseTarget(username + "@" + server).username != username
  {
    var s := username + "@" + server;
    assert s[|username|] == '@';
    FirstPartLacks(s, '@', 2);
    if '@' !in username {
      SplitFirst(username, '@', server, 2);
    }
  }

  /**
   * Parsing a worker's id gives back its fields exactly when the username has no `@` and the host no `:`,
   * whatever the ports.
   */
  lemma IdRoundTripExactly(f: Fields)
    requires PortsFit(f)
    ensures ParseTarget(ProcessKey(f)) == Single(f.username, f.host, f.serverPort, f.remotePort)
       <==> '@' !in f.username && ':' !in f.host
  {
    var serverPort, remotePort := Itoa(f.serverPort), Itoa(f.remotePort);
    DigitsOnly(f.serverPort, ':');
    DigitsOnly(f.remotePort, ':');
    AtoiItoa(f.serverPort);
    AtoiItoa(f.remotePort);
    ServerRoundTrip(f.username, f.host, serverPort, remotePort);
    TargetUsername(f.username, f.host + ":" + (serverPort + ":" + remotePort));
  }

  // ----- when ids are distinct -----

  /** A string has one last occurrence of a separator. */
  lemma LastSeparator(a: string, b: string, a': string, b': string, c: char)
    requires a + [c] + b == a' + [c] + b' && c !in b && c !in b'
    ensures a == a' && b == b'
  {
    var s, s' := a + [c] + b, a' + [c] + b';
    assert s[|a|] == c && s'[|a'|] == c;
    assert forall i :: |a| < i < |s| ==> s[i] == b[i - |a| - 1];
    assert forall i :: |a'| < i < |s'| ==> s'[i] == b'[i - |a'| - 1];
    assert |a| == |a'|;
    assert a == s[..|a|] && a' == s'[..|a'|] && b == s[|a| + 1..] && b' == s'[|a'| + 1..];
  }

  lemma ItoaInjective(m: int, n: int)
    requires Itoa(m) == Itoa(n)
    ensures m == n
  {
    DigitsRead(if m < 0 then -m else m);
    DigitsRead(if n < 0 then -n else n);
    assert Itoa(m)[0] == Itoa(n)[0] && (m >= 0 ==> Itoa(m)[0] in Digits(m)) && (n >= 0 ==> Itoa(n)[0] in Digits(n));
    if m < 0 {
      assert Itoa(m)[1..] == Digits(-m) && Itoa(n)[1..] == Digits(-n);
    }
  }

  /** Ids are distinct whatever the usernames and ports, as long as no host has an `@`. */
  lemma KeysInjective(f: Fields, g: Fields)
    requires '@' !in f.host && '@' !in g.host
    ensures ProcessKey(f) == ProcessKey(g) <==> f == g
  {
    if ProcessKey(f) == ProcessKey(g) {
      var fs, fr, gs, gr := Itoa(f.serverPort), Itoa(f.remotePort), Itoa(g.serverPort), Itoa(g.remotePort);
      DigitsOnly(f.serverPort, '@');
      DigitsOnly(f.remotePort, '@');
      DigitsOnly(g.serverPort, '@');
      DigitsOnly(g.remotePort, '@');
      LastSeparator(f.username, f.host + ":" + (fs + ":" + fr), g.username, g.host + ":" + (gs + ":" + gr), '@');
      TailInjective(f.host, f.serverPort, f.remotePort, g.host, g.serverPort, g.remotePort);
    }
  }

  lemma TailInjective(h: string, s: int, r: int, h': string, s': int, r': int)
    requires h + ":" + (Itoa(s) + ":" + Itoa(r)) == h' + ":" + (Itoa(s') + ":" + Itoa(r'))
    ensures h == h' && s == s' && r == r'
  {
    DigitsOnly(s, ':');
    DigitsOnly(r, ':');
    DigitsOnly(s', ':');
    DigitsOnly(r', ':');
    assert h + ":" + (Itoa(s) + ":" + Itoa(r)) == (h + ":" + Itoa(s)) + ":" + Itoa(r);
    assert h' + ":" + (Itoa(s') + ":" + Itoa(r')) == (h' + ":" + Itoa(s')) + ":" + Itoa(r');
    LastSeparator(h + ":" + Itoa(s), Itoa(r), h' + ":" + Itoa(s'), Itoa(r'), ':');
    LastSeparator(h, Itoa(s), h', Itoa(s'), ':');
    ItoaInjective(s, s');
    ItoaInjective(r, r');
  }

  /** An `@` can be read as the end of the username wherever it stands. */
  lemma MoveTheSeparator(a: string, b: string, c: string, serverPort: int, remotePort: int)
    ensures ProcessKey(Fields(a + "@" + b, c, serverPort, remotePort))
         == ProcessKey(Fields(a, b + "@" + c, serverPort, remotePort))
  {
    var ports := Itoa(serverPort) + ":" + Itoa(remotePort);
    assert (a + "@" + b) + "@" + (c + ":" + ports) == a + "@" + ((b + "@" + c) + ":" + ports);
  }

  lemma HostWithoutAt(f: Fields, g: Fields)
    requires ProcessKey(f) == ProcessKey(g) && '@' !in f.username && '@' !in f.host
    ensures '@' !in g.host
  {
    var key, at := ProcessKey(f), |g.username|;
    DigitsOnly(f.serverPort, '@');
    DigitsOnly(f.remotePort, '@');
    assert forall i :: 0 <= i < |key| && key[i] == '@' ==> i == |f.username| by {
      var tail := f.host + ":" + (Itoa(f.serverPort) + ":" + Itoa(f.remotePort));
      assert '@' !in tail;
      assert forall i :: |f.username| < i < |key| ==> key[i] == tail[i - |f.username| - 1];
    }
    assert ProcessKey(g)[at] == '@';
    assert forall j :: 0 <= j < |g.host| ==> ProcessKey(g)[at + 1 + j] == g.host[j];
  }

  /** Other fields with the same id: the username ends at another `@`. */
  lemma Rival(f: Fields) returns (g: Fields)
    requires '@' in f.username || '@' in f.host
    ensures g != f && ProcessKey(g) == ProcessKey(f)
  {
    if '@' in f.username {
      var i := IndexOf(f.username, '@');
      g := Fields(f.username[..i], f.username[i + 1..] + "@" + f.host, f.serverPort, f.remotePort);
      assert f.username == f.username[..i] + "@" + f.username[i + 1..] && |g.username| < |f.username|;
      MoveTheSeparator(f.username[..i], f.username[i + 1..], f.host, f.serverPort, f.remotePort);
    } else {
      var i := IndexOf(f.host, '@');
      g := Fields(f.username + "@" + f.host[..i], f.host[i + 1..], f.serverPort, f.remotePort);
      assert f.host == f.host[..i] + "@" + f.host[i + 1..] && |g.host| < |f.host|;
      MoveTheSeparator(f.username, f.host[..i], f.host[i + 1..], f.serverPort, f.remotePort);
    }
  }

  /** A worker's id is its own among all fields whatsoever exactly when neither its username nor its host has an `@`. */
  lemma KeyUniqueExactly(f: Fields)
    ensures (forall g: Fields :: ProcessKey(g) == ProcessKey(f) ==> g == f) <==> '@' !in f.username && '@' !in f.host
  {
    if '@' in f.username || '@' in f.host {
      var g := Rival(f);
    } else {
      forall g: Fields | ProcessKey(g) == ProcessKey(f) ensures g == f {
        HostWithoutAt(f, g);
        KeysInjective(f, g);
      }
    }
  }

  /** Two different workers with one id; a host like the second's never passes validation, but can be registered. */
  lemma KeysCollide() returns (f: Fields, g: Fields)
    ensures f != g && ProcessKey(f) == ProcessKey(g)
    ensures '@' !in g.username && ':' !in f.host && ':' !in g.host
  {
    f, g := Fields("a@b", "c", 22, 80), Fields("a", "b@c", 22, 80);
    MoveTheSeparator("a", "b", "c", 22, 80);
    assert "a" + "@" + "b" == "a@b" && "b" + "@" + "c" == "b@c";
  }

  // ----- selection -----

  /** The workers a single target selects. */
  predicate Matches(t: Target, w: Fields)
    requires t.Single?
  {
    && w.username == t.username
    && (t.server == "" || (w.host == t.server && (t.serverPort == 0 || w.serverPort == t.serverPort)))
    && (t.remotePort == 0 || w.remotePort == t.remotePort)
  }

  lemma ServerAndPort(username: string, host: string, serverPort: string)
    requires ':' !in host && ':' !in serverPort
    ensures ParseServer(username, host + ":" + serverPort) == Single(username, host, PortOf(serverPort), 0)
  {
    var s := host + ":" + serverPort;
    assert s[|host|] == ':' && ':' !in "all";
    SplitFirst(host, ':', serverPort, 3);
  }

  /**
   * A target names as much of a worker as it likes: a user, a user on a host, a user on a host and port. It selects
   * exactly the workers that agree in what it names; a port that is no number names nothing, and `@all` stands for all
   * of a user's.
   */
  lemma PartialTargets(user: string, host: string, port: int, junk: string, w: Fields)
    requires ':' !in junk && Atoi(junk) == None
    requires '@' !in user && host != "" && host != "all" && ':' !in host && 1 <= port <= 65535
    ensures ParseTarget(user).Single? && (Matches(ParseTarget(user), w) <==> w.username == user)
    ensures ParseTarget(user + "@" + host).Single?
    ensures Matches(ParseTarget(user + "@" + host), w) <==> w.username == user && w.host == host
    ensures ParseTarget(user + "@" + (host + ":" + Itoa(port))).Single?
    ensures Matches(ParseTarget(user + "@" + (host + ":" + Itoa(port))), w)
       <==> w.username == user && w.host == host && w.serverPort == port
    ensures ParseTarget(user + "@" + (host + ":" + junk)) == Single(user, host, 0, 0)
    ensures Matches(Single(user, host, 0, 0), w) <==> w.username == user && w.host == host
    ensures ParseTarget(user + "@" + "all") == All(user)
  {
    TargetUsername(user, host + ":" + junk);
    ServerAndPort(user, host, junk);
    TargetUsername(user, host);
    TargetUsername(user, host + ":" + Itoa(port));
    TargetUsername(user, "all");
    DigitsOnly(port, ':');
    AtoiItoa(port);
    ServerAndPort(user, host, Itoa(port));
  }

  /** The fields a started worker has, as far as its id depends on them. */
  predicate Startable(f: Fields) {
    f.host != "" && ':' !in f.host && 1 <= f.serverPort <= 65535 && 1 <= f.remotePort <= 65535
  }

  /** The id of a worker never reads as "all workers of a user". */
  lemma IdIsSingle(f: Fields)
    ensures ParseTarget(ProcessKey(f)).Single?
  {
    var key := ProcessKey(f);
    var at := IndexOf(key, '@');
    var colon := |f.username| + 1 + |f.host|;
    assert key[|f.username|] == '@' && key[colon] == ':';
    assert forall i :: 0 <= i < at ==> key[i] in key[..at];
    SuffixHas(key, at + 1, colon, ':');
  }

  lemma SuffixHas(s: string, from: nat, i: nat, c: char)
    requires from <= i < |s| && s[i] == c
    ensures c in s[from..]
  {
    assert s[from..][i - from] == c;
  }

  /** A worker's id as the target selects that worker, and no other, exactly when its username has no `@`. */
  lemma IdSelectsExactly(f: Fields)
    requires Startable(f)
    ensures ParseTarget(ProcessKey(f)).Single?
    ensures '@' !in f.username <==> forall w: Fields :: Matches(ParseTarget(ProcessKey(f)), w) <==> w == f
  {
    IdIsSingle(f);
    IdRoundTripExactly(f);
    if '@' in f.username {
      TargetUsername(f.username, f.host + ":" + (Itoa(f.serverPort) + ":" + Itoa(f.remotePort)));
      assert !Matches(ParseTarget(ProcessKey(f)), f);
    }
  }

  /** The keys of the table whose workers a target selects. */
  function Selected(table: map<string, Fields>, t: Target): set<string>
    requires t.Single?
  {
    set k | k in table && Matches(t, table[k])
  }

  /** On a table keyed by id, a command on a worker's id acts on that worker alone. */
  lemma CommandHitsOneWorker(table: map<string, Fields>, f: Fields)
    requires forall k :: k in table ==> k == ProcessKey(table[k])
    requires Startable(f) && '@' !in f.username && ProcessKey(f) in table && table[ProcessKey(f)] == f
    ensures ParseTarget(ProcessKey(f)).Single? && Selected(table, ParseTarget(ProcessKey(f))) == {ProcessKey(f)}
  {
    IdSelectsExactly(f);
  }
}
