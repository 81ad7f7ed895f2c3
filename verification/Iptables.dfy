/** The script that sends traffic to the proxies, what running it does to the nat table, and what that table does to
    packets. */
module Iptables {
  import opened Wrappers
  import opened Networks
  import opened Powers
  import opened Rules

  // ---------- packets and chains ----------

  datatype Protocol = Tcp | Udp | Other

  /** `eth0` tells whether the packet came in there. */
  datatype Packet = Packet(protocol: Protocol, dest: Addr, dport: nat, eth0: bool)

  datatype Target = Accept | Redirect(port: int)

  datatype Entry = Entry(eth0: bool, protocol: Protocol, dest: Option<Net>, dport: Option<nat>, target: Target)

  predicate Matches(e: Entry, p: Packet) {
    && (e.eth0 ==> p.eth0) && e.protocol == p.protocol
    && (e.dest.Some? ==> Contains(e.dest.value, p.dest)) && (e.dport.Some? ==> e.dport.value == p.dport)
  }

  datatype Verdict = Through | Accepted | Redirected(port: int)

  function Decide(target: Target): Verdict {
    if target.Accept? then Accepted else Redirected(target.port)
  }

  function One(e: Entry, p: Packet): Verdict {
    if Matches(e, p) then Decide(e.target) else Through
  }

  /** The first entry that matches decides. */
  function Walk(chain: seq<Entry>, p: Packet): Verdict {
    if chain == [] then Through
    else if Matches(chain[0], p) then Decide(chain[0].target)
    else Walk(chain[1..], p)
  }

  /** A built-in chain may jump to the sshtunnel chain. */
  datatype Item = Jump | Own(entry: Entry)

  function Enter(items: seq<Item>, sshtunnel: seq<Entry>, p: Packet): Verdict {
    if items == [] then Through
    else
      var v := if items[0].Jump? then Walk(sshtunnel, p) else One(items[0].entry, p);
      if v != Through then v else Enter(items[1..], sshtunnel, p)
  }

  /** A line of another table, or of another chain of the nat table: its chain, and whether it mentions sshtunnel. */
  datatype Line = Line(table: string, chain: string, mentions: bool)

  /** The chains of the nat table that the script writes, and everything else that is saved and restored. */
  datatype Tables = Tables(output: seq<Item>, prerouting: seq<Item>, sshtunnel: Option<seq<Entry>>, others: seq<Line>)

  // ---------- the script ----------

  datatype Command =
    | Restore                                  // save, drop what mentions sshtunnel or PREROUTING, restore
    | NewChain
    | FlushChain
    | JumpFromOutput
    | JumpFromPrerouting
    | AppendTunnel(entry: Entry)
    | AppendPrerouting(entry: Entry)

  function WithoutJumps(items: seq<Item>): seq<Item> {
    if items == [] then []
    else WithoutJumps(items[..|items| - 1]) + (if items[|items| - 1].Jump? then [] else [items[|items| - 1]])
  }

  /** The filter of the script's first line goes through all tables alike. */
  function Spared(lines: seq<Line>): seq<Line> {
    if lines == [] then []
    else
      var last := lines[|lines| - 1];
      Spared(lines[..|lines| - 1]) + (if last.mentions || last.chain == "PREROUTING" then [] else [last])
  }

  /** One command; None if it fails, which ends the script. */
  function Apply(t: Tables, c: Command): Option<Tables> {
    match c
    case Restore => Some(Tables(WithoutJumps(t.output), [], None, Spared(t.others)))
    case NewChain => if t.sshtunnel.Some? then None else Some(t.(sshtunnel := Some([])))
    case FlushChain => if t.sshtunnel.None? then None else Some(t.(sshtunnel := Some([])))
    case JumpFromOutput => if t.sshtunnel.None? then None else Some(t.(output := [Jump] + t.output))
    case JumpFromPrerouting => if t.sshtunnel.None? then None else Some(t.(prerouting := [Jump] + t.prerouting))
    case AppendTunnel(e) => if t.sshtunnel.None? then None else Some(t.(sshtunnel := Some(t.sshtunnel.value + [e])))
    case AppendPrerouting(e) => Some(t.(prerouting := t.prerouting + [Own(e)]))
  }

  function ApplyAll(t: Tables, script: seq<Command>): Option<Tables> {
    if script == [] then Some(t)
    else
      match ApplyAll(t, script[..|script| - 1])
      case None => None
      case Some(u) => Apply(u, script[|script| - 1])
  }

  datatype Proxy = Proxy(kind: string, port: int)

  predicate LastOfKind(proxies: seq<Proxy>, kind: string, i: nat) {
    i < |proxies| && proxies[i].kind == kind && forall j :: i < j < |proxies| ==> proxies[j].kind != kind
  }

  /** The port of the last proxy of this kind, or 0 if there is none. */
  ghost predicate IsPortOf(proxies: seq<Proxy>, kind: string, port: int) {
    || (exists i: nat :: LastOfKind(proxies, kind, i) && port == proxies[i].port)
    || (port == 0 && forall i :: 0 <= i < |proxies| ==> proxies[i].kind != kind)
  }

  lemma PortNext(proxies: seq<Proxy>, i: nat, kind: string, port: int)
    requires i < |proxies| && IsPortOf(proxies[..i], kind, port)
    ensures IsPortOf(proxies[..i + 1], kind, if proxies[i].kind == kind then proxies[i].port else port)
  {
    var front, next := proxies[..i], proxies[..i + 1];
    if proxies[i].kind == kind {
      assert LastOfKind(next, kind, i) && next[i].port == proxies[i].port;
    } else if k: nat :| LastOfKind(front, kind, k) && port == front[k].port {
      assert LastOfKind(next, kind, k) && port == next[k].port;
    }
  }

  function AcceptEntry(r: Rule): Entry {
    Entry(false, Tcp, Some(r.net), None, Accept)
  }

  function RedirectEntry(r: Rule, port: int): Entry {
    Entry(false, Tcp, Some(r.net), None, Redirect(port))
  }

  function DnsEntry(port: int): Entry {
    Entry(false, Udp, None, Some(53), Redirect(port))
  }

  predicate IsDirect(r: Rule) {
    r.dialer == "direct"
  }

  function Accepts(rules: seq<Rule>): seq<Entry> {
    if rules == [] then []
    else
      var n := |rules| - 1;
      Accepts(rules[..n]) + (if IsDirect(rules[n]) then [AcceptEntry(rules[n])] else [])
  }

  function Redirects(rules: seq<Rule>, port: int): seq<Entry> {
    if rules == [] then []
    else
      var n := |rules| - 1;
      Redirects(rules[..n], port) + (if IsDirect(rules[n]) then [] else [RedirectEntry(rules[n], port)])
  }

  function Dns(port: int): seq<Entry> {
    if port > 0 then [DnsEntry(port)] else []
  }

  /** The content of the sshtunnel chain. */
  function Chain(rules: seq<Rule>, transparentPort: int, dnsPort: int): seq<Entry> {
    Accepts(rules) + Redirects(rules, transparentPort) + Dns(dnsPort)
  }

  /** Two commands for each entry: one for the chain, and a copy for what comes in on eth0. */
  function Commands(entries: seq<Entry>): seq<Command> {
    if entries == [] then []
    else Commands(entries[..|entries| - 1]) + Both(entries[|entries| - 1])
  }

  function Both(e: Entry): seq<Command> {
    [AppendTunnel(e), AppendPrerouting(e.(eth0 := true))]
  }

  const SETUP := [Restore, NewChain, FlushChain, JumpFromOutput, JumpFromPrerouting]

  lemma {:induction false} CommandsConcat(a: seq<Entry>, b: seq<Entry>)
    ensures Commands(a + b) == Commands(a) + Commands(b)
  {
    if b == [] {
      assert a + b == a;
    } else {
      var s := a + b;
      assert s[..|s| - 1] == a + b[..|b| - 1];
      CommandsConcat(a, b[..|b| - 1]);
    }
  }

  lemma CommandsOne(e: Entry)
    ensures Commands([e]) == Both(e)
  {
    assert [e][..0] == [];
  }

  method PrintBoth(script: seq<Command>, e: Entry, ghost before: seq<Entry>) returns (r: seq<Command>)
    requires script == SETUP + Commands(before)
    ensures r == SETUP + Commands(before + [e])
  {
    r := script + [AppendTunnel(e)] + [AppendPrerouting(e.(eth0 := true))];
    CommandsConcat(before, [e]);
    CommandsOne(e);
  }

  method Ports(proxies: seq<Proxy>) returns (transparentPort: int, dnsPort: int)
    ensures IsPortOf(proxies, "transparent", transparentPort) && IsPortOf(proxies, "dns", dnsPort)
  {
    transparentPort, dnsPort := 0, 0;
    for i := 0 to |proxies|
      invariant IsPortOf(proxies[..i], "transparent", transparentPort) && IsPortOf(proxies[..i], "dns", dnsPort)
    {
      var proxy := proxies[i];
      PortNext(proxies, i, "transparent", transparentPort);
      PortNext(proxies, i, "dns", dnsPort);
      if proxy.kind == "transparent" {
        transparentPort := proxy.port;
      } else if proxy.kind == "dns" {
        dnsPort := proxy.port;
      }
    }
    assert proxies[..|proxies|] == proxies;
  }

  /** The script for these proxies and rules. */
  ghost predicate IsScript(proxies: seq<Proxy>, rules: seq<Rule>, script: seq<Command>) {
    exists transparentPort, dnsPort ::
      && IsPortOf(proxies, "transparent", transparentPort) && IsPortOf(proxies, "dns", dnsPort)
      && script == SETUP + Commands(Chain(rules, transparentPort, dnsPort))
  }

  /** The command; either list may fail to arrive. */
  method Execute(proxies: Option<seq<Proxy>>, rules: Option<seq<Rule>>) returns (script: seq<Command>, ok: bool)
    ensures ok <==> proxies.Some? && rules.Some?
    ensures if ok then IsScript(proxies.value, rules.value, script) else script == [Restore]
  {
    script := [Restore];
    if proxies.None? || rules.None? {
      return script, false;
    }
    var transparentPort, dnsPort := Ports(proxies.value);
    script := script + [NewChain, FlushChain, JumpFromOutput, JumpFromPrerouting];
    script := PrintDirect(script, rules.value);
    script := PrintOthers(script, rules.value, transparentPort, Accepts(rules.value));
    if dnsPort > 0 {
      script := PrintBoth(script, DnsEntry(dnsPort), Accepts(rules.value) + Redirects(rules.value, transparentPort));
    } else {
      assert Chain(rules.value, transparentPort, dnsPort)
          == Accepts(rules.value) + Redirects(rules.value, transparentPort);
    }
    ok := true;
  }

  /** The direct rules. */
  method PrintDirect(start: seq<Command>, rules: seq<Rule>) returns (script: seq<Command>)
    requires start == SETUP
    ensures script == SETUP + Commands(Accepts(rules))
  {
    script := start;
    for i := 0 to |rules|
      invariant script == SETUP + Commands(Accepts(rules[..i]))
    {
      AcceptsNext(rules, i);
      if IsDirect(rules[i]) {
        script := PrintBoth(script, AcceptEntry(rules[i]), Accepts(rules[..i]));
      }
    }
    assert rules[..|rules|] == rules;
  }

  /** All other rules. */
  method PrintOthers(start: seq<Command>, rules: seq<Rule>, port: int, ghost direct: seq<Entry>)
    returns (script: seq<Command>)
    requires start == SETUP + Commands(direct)
    ensures script == SETUP + Commands(direct + Redirects(rules, port))
  {
    script := start;
    assert direct + Redirects(rules[..0], port) == direct;
    for i := 0 to |rules|
      invariant script == SETUP + Commands(direct + Redirects(rules[..i], port))
    {
      RedirectsNext(rules, i, port, direct);
      if !IsDirect(rules[i]) {
        script := PrintBoth(script, RedirectEntry(rules[i], port), direct + Redirects(rules[..i], port));
      }
    }
    assert rules[..|rules|] == rules;
  }

  lemma AcceptsNext(rules: seq<Rule>, i: nat)
    requires i < |rules|
    ensures Accepts(rules[..i + 1])
            == if IsDirect(rules[i]) then Accepts(rules[..i]) + [AcceptEntry(rules[i])] else Accepts(rules[..i])
  {
    assert rules[..i + 1][..i] == rules[..i];
  }

  lemma RedirectsNext(rules: seq<Rule>, i: nat, port: int, direct: seq<Entry>)
    requires i < |rules|
    ensures direct + Redirects(rules[..i + 1], port)
            == if IsDirect(rules[i]) then direct + Redirects(rules[..i], port)
               else (direct + Redirects(rules[..i], port)) + [RedirectEntry(rules[i], port)]
  {
    assert rules[..i + 1][..i] == rules[..i];
  }

  // ---------- what the script installs ----------

  lemma {:induction false} ApplyConcat(t: Tables, a: seq<Command>, b: seq<Command>)
    ensures
      ApplyAll(t, a + b)
      == match ApplyAll(t, a) case None => None case Some(u) => ApplyAll(u, b)
  {
    if b == [] {
      assert a + b == a;
    } else {
      var s := a + b;
      assert s[..|s| - 1] == a + b[..|b| - 1] && s[|s| - 1] == b[|b| - 1];
      ApplyConcat(t, a, b[..|b| - 1]);
    }
  }

  function Copies(entries: seq<Entry>): seq<Item> {
    seq(|entries|, i requires 0 <= i < |entries| => Own(entries[i].(eth0 := true)))
  }

  function AndThen(t: Option<Tables>, c: Command): Option<Tables> {
    if t.None? then None else Apply(t.value, c)
  }

  lemma ApplyThen(t: Tables, s: seq<Command>, c: Command)
    ensures ApplyAll(t, s + [c]) == AndThen(ApplyAll(t, s), c)
  {
    var r := s + [c];
    assert r[..|r| - 1] == s && r[|r| - 1] == c;
  }

  lemma ApplyTwo(t: Tables, a: Command, b: Command)
    ensures ApplyAll(t, [a, b]) == AndThen(Apply(t, a), b)
  {
    ApplyThen(t, [], a);
    ApplyThen(t, [a], b);
    assert [] + [a] == [a] && [a] + [b] == [a, b];
  }

  lemma {:induction false} ApplyCommands(t: Tables, entries: seq<Entry>)
    requires t.sshtunnel.Some?
    ensures ApplyAll(t, Commands(entries))
            == Some(t.(sshtunnel := Some(t.sshtunnel.value + entries), prerouting := t.prerouting + Copies(entries)))
  {
    if entries == [] {
      assert t.sshtunnel.value + entries == t.sshtunnel.value && t.prerouting + Copies(entries) == t.prerouting;
    } else {
      var front, e := entries[..|entries| - 1], entries[|entries| - 1];
      ApplyCommands(t, front);
      ApplyConcat(t, Commands(front), Both(e));
      ApplyTwo(ApplyAll(t, Commands(front)).value, Both(e)[0], Both(e)[1]);
      assert t.sshtunnel.value + entries == (t.sshtunnel.value + front) + [e];
      assert t.prerouting + Copies(entries) == (t.prerouting + Copies(front)) + [Own(e.(eth0 := true))];
    }
  }

  lemma SetUp(t: Tables)
    ensures ApplyAll(t, SETUP) == Some(Tables([Jump] + WithoutJumps(t.output), [Jump], Some([]), Spared(t.others)))
  {
    ApplyTwo(t, Restore, NewChain);
    ApplyThen(t, [Restore, NewChain], FlushChain);
    ApplyThen(t, [Restore, NewChain, FlushChain], JumpFromOutput);
    ApplyThen(t, [Restore, NewChain, FlushChain, JumpFromOutput], JumpFromPrerouting);
    assert [Restore, NewChain] + [FlushChain] == [Restore, NewChain, FlushChain];
    assert [Restore, NewChain, FlushChain] + [JumpFromOutput] == [Restore, NewChain, FlushChain, JumpFromOutput];
    assert [Restore, NewChain, FlushChain, JumpFromOutput] + [JumpFromPrerouting] == SETUP;
    assert [Jump] + [] == [Jump];
  }

  function Installed(t: Tables, chain: seq<Entry>): Tables {
    Tables([Jump] + WithoutJumps(t.output), [Jump] + Copies(chain), Some(chain), Spared(t.others))
  }

  /** Whatever the tables hold, the script runs to its end, and this is what it leaves. */
  lemma ScriptInstalls(t: Tables, chain: seq<Entry>)
    ensures ApplyAll(t, SETUP + Commands(chain)) == Some(Installed(t, chain))
  {
    SetUp(t);
    ApplyConcat(t, SETUP, Commands(chain));
    ApplyCommands(ApplyAll(t, SETUP).value, chain);
    assert [] + chain == chain;
  }

  /** Both filters look at each line by itself and keep the order. */
  lemma {:induction false} JumpsKeepOrder(a: seq<Item>, b: seq<Item>)
    ensures WithoutJumps(a + b) == WithoutJumps(a) + WithoutJumps(b)
  {
    if b == [] {
      assert a + b == a;
    } else {
      var s, front := a + b, b[..|b| - 1];
      assert s[..|s| - 1] == a + front;
      JumpsKeepOrder(a, front);
    }
  }

  lemma {:induction false} SparedKeepsOrder(a: seq<Line>, b: seq<Line>)
    ensures Spared(a + b) == Spared(a) + Spared(b)
  {
    if b == [] {
      assert a + b == a;
    } else {
      var s, front := a + b, b[..|b| - 1];
      assert s[..|s| - 1] == a + front;
      SparedKeepsOrder(a, front);
    }
  }

  lemma {:induction false} NoJumpsLeft(items: seq<Item>)
    ensures WithoutJumps(WithoutJumps(items)) == WithoutJumps(items)
    ensures WithoutJumps([Jump] + items) == WithoutJumps(items)
  {
    JumpsKeepOrder([Jump], items);
    assert [Jump][..0] == [] && WithoutJumps([Jump]) == [];
    if items != [] {
      var n := |items| - 1;
      NoJumpsLeft(items[..n]);
      var w := WithoutJumps(items);
      if !items[n].Jump? {
        assert w[..|w| - 1] == WithoutJumps(items[..n]);
      } else {
        assert w == WithoutJumps(items[..n]);
      }
    }
  }

  /** What is left of a built-in chain decides as the whole did while the sshtunnel chain was empty. */
  lemma {:induction false} WithoutJumpsDecides(items: seq<Item>, chain: seq<Entry>, p: Packet)
    ensures Enter(WithoutJumps(items), chain, p) == Enter(items, [], p)
  {
    if items != [] {
      WithoutJumpsDecides(items[1..], chain, p);
      JumpsKeepOrder([items[0]], items[1..]);
      assert [items[0]] + items[1..] == items && [items[0]][..0] == [];
      var rest := WithoutJumps(items[1..]);
      if items[0].Jump? {
        assert WithoutJumps(items) == rest;
      } else {
        assert WithoutJumps(items) == [items[0]] + rest && ([items[0]] + rest)[1..] == rest;
      }
    }
  }

  lemma {:induction false} SparedTwice(lines: seq<Line>)
    ensures Spared(Spared(lines)) == Spared(lines)
  {
    if lines != [] {
      var front := lines[..|lines| - 1];
      SparedTwice(front);
      var s := Spared(lines);
      assert s != Spared(front) ==> s[..|s| - 1] == Spared(front);
      assert Spared(front) + [] == Spared(front);
    }
  }

  /** What other tables keep: every line outside their PREROUTING chains that does not mention sshtunnel, and no
      other. */
  lemma {:induction false} SparedExactly(lines: seq<Line>, line: Line)
    ensures line in Spared(lines) <==> line in lines && !line.mentions && line.chain != "PREROUTING"
  {
    if lines != [] {
      SparedExactly(lines[..|lines| - 1], line);
      assert lines == lines[..|lines| - 1] + [lines[|lines| - 1]];
    }
  }

  /** A later run replaces an earlier one: nothing of the earlier chain is left, and nothing piles up. */
  lemma RunAgain(t: Tables, earlier: seq<Entry>, chain: seq<Entry>)
    ensures ApplyAll(Installed(t, earlier), SETUP + Commands(chain)) == ApplyAll(t, SETUP + Commands(chain))
  {
    ScriptInstalls(t, chain);
    ScriptInstalls(Installed(t, earlier), chain);
    NoJumpsLeft(t.output);
    NoJumpsLeft(WithoutJumps(t.output));
    SparedTwice(t.others);
  }

  // ---------- what the chain does ----------

  lemma {:induction false} WalkConcat(a: seq<Entry>, b: seq<Entry>, p: Packet)
    ensures Walk(a + b, p) == if Walk(a, p) != Through then Walk(a, p) else Walk(b, p)
  {
    if a == [] {
      assert a + b == b;
    } else {
      assert (a + b)[1..] == a[1..] + b;
      WalkConcat(a[1..], b, p);
    }
  }

  lemma WalkSnoc(a: seq<Entry>, e: Entry, p: Packet)
    ensures Walk(a + [e], p)
            == if Walk(a, p) != Through then Walk(a, p) else One(e, p)
  {
    WalkConcat(a, [e], p);
    assert [e][1..] == [];
  }

  /** Some rule of this kind contains the address. */
  predicate Covered(rules: seq<Rule>, direct: bool, ip: Addr) {
    exists i :: 0 <= i < |rules| && IsDirect(rules[i]) == direct && Contains(rules[i].net, ip)
  }

  lemma CoveredSnoc(rules: seq<Rule>, direct: bool, ip: Addr)
    requires rules != []
    ensures
      var n := |rules| - 1;
      Covered(rules, direct, ip)
      <==> Covered(rules[..n], direct, ip) || (IsDirect(rules[n]) == direct && Contains(rules[n].net, ip))
  {
    var n := |rules| - 1;
    if Covered(rules[..n], direct, ip) {
      var i :| 0 <= i < n && IsDirect(rules[..n][i]) == direct && Contains(rules[..n][i].net, ip);
      assert rules[i] == rules[..n][i];
    }
    if Covered(rules, direct, ip) {
      var i :| 0 <= i < |rules| && IsDirect(rules[i]) == direct && Contains(rules[i].net, ip);
      assert i < n ==> rules[..n][i] == rules[i];
    }
  }

  lemma {:induction false} WalkAccepts(rules: seq<Rule>, p: Packet)
    ensures Walk(Accepts(rules), p) == if p.protocol == Tcp && Covered(rules, true, p.dest) then Accepted else Through
  {
    if rules != [] {
      var n := |rules| - 1;
      WalkAccepts(rules[..n], p);
      CoveredSnoc(rules, true, p.dest);
      WalkSnoc(Accepts(rules[..n]), AcceptEntry(rules[n]), p);
      assert Accepts(rules[..n]) + [] == Accepts(rules[..n]);
    }
  }

  lemma {:induction false} WalkRedirects(rules: seq<Rule>, port: int, p: Packet)
    ensures Walk(Redirects(rules, port), p)
            == if p.protocol == Tcp && Covered(rules, false, p.dest) then Redirected(port) else Through
  {
    if rules != [] {
      var n := |rules| - 1;
      WalkRedirects(rules[..n], port, p);
      CoveredSnoc(rules, false, p.dest);
      WalkSnoc(Redirects(rules[..n], port), RedirectEntry(rules[n], port), p);
      assert Redirects(rules[..n], port) + [] == Redirects(rules[..n], port);
    }
  }

  lemma WalkDns(port: int, p: Packet)
    ensures Walk(Dns(port), p) == if port > 0 && p.protocol == Udp && p.dport == 53 then Redirected(port) else Through
  {
    assert [DnsEntry(port)][1..] == [];
  }

  /** TCP is redirected if and only if some rule that is not direct contains the destination and no direct rule does;
      UDP only for name service, if there is a proxy for it. */
  lemma ChainVerdict(rules: seq<Rule>, transparentPort: int, dnsPort: int, p: Packet)
    ensures
      Walk(Chain(rules, transparentPort, dnsPort), p) ==
      match p.protocol
      case Tcp =>
        if Covered(rules, true, p.dest) then Accepted
        else if Covered(rules, false, p.dest) then Redirected(transparentPort)
        else Through
      case Udp => if dnsPort > 0 && p.dport == 53 then Redirected(dnsPort) else Through
      case Other => Through
  {
    WalkAccepts(rules, p);
    WalkRedirects(rules, transparentPort, p);
    WalkDns(dnsPort, p);
    WalkConcat(Accepts(rules), Redirects(rules, transparentPort), p);
    WalkConcat(Accepts(rules) + Redirects(rules, transparentPort), Dns(dnsPort), p);
  }

  /** By themselves the copies would decide what comes in on eth0 like the chain, and nothing else. */
  lemma {:induction false} CopiesDecide(chain: seq<Entry>, sshtunnel: seq<Entry>, p: Packet)
    ensures Enter(Copies(chain), sshtunnel, p) == if p.eth0 then Walk(chain, p) else Through
  {
    if chain != [] {
      assert Copies(chain)[1..] == Copies(chain[1..]);
      assert Copies(chain)[0] == Own(chain[0].(eth0 := true));
      CopiesDecide(chain[1..], sshtunnel, p);
    }
  }

  /** On the way in, the jump to the chain has decided before any of the copies for eth0 is reached: they change
      nothing. */
  lemma CopiesAreDead(t: Tables, chain: seq<Entry>, p: Packet)
    ensures Enter(Installed(t, chain).prerouting, chain, p) == Walk(chain, p)
  {
    var items := [Jump] + Copies(chain);
    assert items[1..] == Copies(chain);
    CopiesDecide(chain, chain, p);
  }

  /** On the way out, the entries that were there before decide what the chain lets through, and as they did before. */
  lemma OutputKeeps(t: Tables, chain: seq<Entry>, p: Packet)
    ensures Enter(Installed(t, chain).output, chain, p)
            == if Walk(chain, p) != Through then Walk(chain, p) else Enter(t.output, [], p)
  {
    assert ([Jump] + WithoutJumps(t.output))[1..] == WithoutJumps(t.output);
    WithoutJumpsDecides(t.output, chain, p);
  }

  // ---------- back through the rule set ----------

  /** What a redirected connection meets when the proxy dials its destination: the first rule that matches exists and
      is not direct, so it never falls through to a plain connection. */
  lemma RedirectedIsDialed(rules: seq<Rule>, transparentPort: int, dnsPort: int, p: Packet)
    requires p.protocol == Tcp && Walk(Chain(rules, transparentPort, dnsPort), p).Redirected?
    ensures exists i: nat :: FirstMatch(rules, p.dest, i) && !IsDirect(rules[i])
    ensures !Unmatched(rules, p.dest)
  {
    ChainVerdict(rules, transparentPort, dnsPort, p);
    var j :| 0 <= j < |rules| && !IsDirect(rules[j]) && Contains(rules[j].net, p.dest);
    FirstMatchExists(rules, p.dest, j);
    var i: nat :| FirstMatch(rules, p.dest, i);
    assert IsDirect(rules[i]) ==> Covered(rules, true, p.dest);
  }

  lemma {:induction false} FirstMatchExists(rules: seq<Rule>, ip: Addr, j: nat)
    requires j < |rules| && Contains(rules[j].net, ip)
    ensures exists i: nat :: FirstMatch(rules, ip, i)
  {
    if k: nat :| k < j && Contains(rules[k].net, ip) {
      FirstMatchExists(rules, ip, k);
    } else {
      assert FirstMatch(rules, ip, j);
    }
  }

  /** After the script, whatever the tables held before: a TCP packet that comes in is redirected if and only if a rule
      that is not direct and no direct rule contains its destination, and then the rule set has a dialer for it. */
  lemma IncomingTcp(t: Tables, rules: seq<Rule>, transparentPort: int, dnsPort: int, p: Packet)
    requires p.protocol == Tcp
    ensures
      var chain := Chain(rules, transparentPort, dnsPort);
      var t' := ApplyAll(t, SETUP + Commands(chain));
      && t'.Some? && t'.value.sshtunnel == Some(chain)
      && (Enter(t'.value.prerouting, chain, p).Redirected?
          <==> Covered(rules, false, p.dest) && !Covered(rules, true, p.dest))
      && (Enter(t'.value.prerouting, chain, p).Redirected?
          ==> Enter(t'.value.prerouting, chain, p).port == transparentPort && Tunnelled(rules, p.dest))
  {
    var chain := Chain(rules, transparentPort, dnsPort);
    ScriptInstalls(t, chain);
    CopiesAreDead(t, chain, p);
    ChainVerdict(rules, transparentPort, dnsPort, p);
    if Walk(chain, p).Redirected? {
      RedirectedIsDialed(rules, transparentPort, dnsPort, p);
    }
  }

  /** The rule set by itself would tunnel a connection to this address. */
  ghost predicate Tunnelled(rules: seq<Rule>, ip: Addr) {
    exists i: nat :: FirstMatch(rules, ip, i) && !IsDirect(rules[i])
  }

  /** A proxy for name service is running. */
  ghost predicate HasDns(proxies: seq<Proxy>, port: int) {
    exists i: nat :: LastOfKind(proxies, "dns", i) && port == proxies[i].port > 0
  }

  lemma DnsPort(proxies: seq<Proxy>, port: int)
    requires IsPortOf(proxies, "dns", port)
    ensures port > 0 ==> HasDns(proxies, port)
    ensures forall other :: HasDns(proxies, other) ==> other == port
  {
  }

  /** From the list of proxies to the packet, for the script that Execute makes and whatever the tables held before:
      redirected TCP goes to the last transparent proxy, and is then tunnelled; name service goes to the last DNS proxy
      if that has a port; nothing else is redirected. */
  lemma Incoming(t: Tables, proxies: seq<Proxy>, rules: seq<Rule>, script: seq<Command>, p: Packet)
    requires IsScript(proxies, rules, script)
    ensures ApplyAll(t, script).Some? && ApplyAll(t, script).value.sshtunnel.Some?
    ensures
      var t' := ApplyAll(t, script).value;
      var v := Enter(t'.prerouting, t'.sshtunnel.value, p);
      match p.protocol
      case Tcp =>
        if Covered(rules, false, p.dest) && !Covered(rules, true, p.dest) then
          v.Redirected? && IsPortOf(proxies, "transparent", v.port) && Tunnelled(rules, p.dest)
        else !v.Redirected?
      case Udp =>
        if p.dport == 53 && exists port :: HasDns(proxies, port) then v.Redirected? && HasDns(proxies, v.port)
        else v == Through
      case Other => v == Through
  {
    var transparentPort, dnsPort :|
      && IsPortOf(proxies, "transparent", transparentPort) && IsPortOf(proxies, "dns", dnsPort)
      && script == SETUP + Commands(Chain(rules, transparentPort, dnsPort));
    var chain := Chain(rules, transparentPort, dnsPort);
    ScriptInstalls(t, chain);
    CopiesAreDead(t, chain, p);
    ChainVerdict(rules, transparentPort, dnsPort, p);
    DnsPort(proxies, dnsPort);
    if p.protocol == Tcp {
      IncomingTcp(t, rules, transparentPort, dnsPort, p);
    }
  }

  /** Chain and rule set agree on an address exactly if no direct rule contains it behind a first match that is not
      direct: the chain looks at the direct rules first, the rule set at the first rule. */
  lemma Agreement(rules: seq<Rule>, transparentPort: int, dnsPort: int, p: Packet)
    requires p.protocol == Tcp
    ensures
      (Walk(Chain(rules, transparentPort, dnsPort), p).Redirected? <==> Tunnelled(rules, p.dest))
      <==> !(exists i: nat, j: nat ::
               && FirstMatch(rules, p.dest, i) && !IsDirect(rules[i])
               && i < j < |rules| && IsDirect(rules[j]) && Contains(rules[j].net, p.dest))
  {
    ChainVerdict(rules, transparentPort, dnsPort, p);
    if Walk(Chain(rules, transparentPort, dnsPort), p).Redirected? {
      RedirectedIsDialed(rules, transparentPort, dnsPort, p);
    } else if Tunnelled(rules, p.dest) {
      var i: nat :| FirstMatch(rules, p.dest, i) && !IsDirect(rules[i]);
      assert Covered(rules, false, p.dest);
      var j :| 0 <= j < |rules| && IsDirect(rules[j]) && Contains(rules[j].net, p.dest);
      assert i < j;
    }
  }

  /** Direct rules first: then chain and rule set agree everywhere. */
  lemma DirectFirstAgrees(rules: seq<Rule>, transparentPort: int, dnsPort: int, p: Packet)
    requires p.protocol == Tcp
    requires forall i, j :: 0 <= i < j < |rules| && IsDirect(rules[j]) ==> IsDirect(rules[i])
    ensures Walk(Chain(rules, transparentPort, dnsPort), p).Redirected? <==> Tunnelled(rules, p.dest)
  {
    Agreement(rules, transparentPort, dnsPort, p);
  }

  /** A direct rule behind a wider tunnel: the chain lets through what the rule set would tunnel. */
  lemma Disagreement()
    ensures
      var tunnel := Rule(Net(0x0A00_0000, 8), "default");
      var direct := Rule(Net(0x0A00_0001, 32), "direct");
      var rules, p := [tunnel, direct], Packet(Tcp, 0x0A00_0001, 443, false);
      && Canonical(tunnel.net) && Canonical(direct.net)
      && Walk(Chain(rules, 1080, 0), p) == Accepted && Tunnelled(rules, p.dest)
  {
    var tunnel := Rule(Net(0x0A00_0000, 8), "default");
    var direct := Rule(Net(0x0A00_0001, 32), "direct");
    var rules, p := [tunnel, direct], Packet(Tcp, 0x0A00_0001, 443, false);
    assert Size(8) == 0x100_0000 by { Pow2Sum(8, 16); Pow2Sum(8, 8); assert Pow2(8) == 256; }
    assert Contains(tunnel.net, p.dest) && Contains(direct.net, p.dest);
    assert IsDirect(rules[1]);
    assert Covered(rules, true, p.dest);
    ChainVerdict(rules, 1080, 0, p);
    assert FirstMatch(rules, p.dest, 0) && !IsDirect(rules[0]);
  }
}
