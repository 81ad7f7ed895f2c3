/** The rule set: networks bound to dialers, searched from the front. */
module Rules {
  import opened Wrappers
  import opened Networks

  datatype Rule = Rule(net: Net, dialer: string)

  /** The wire format; a CIDR text without a slash has no length. */
  datatype WireRule = WireRule(addr: Addr, len: Option<nat>, dialer: string)

  function Marshall(r: Rule): WireRule {
    WireRule(r.net.base, Some(r.net.len), r.dialer)
  }

  function UnMarshall(w: WireRule): (r: Result<Rule>)
    ensures r.Ok? <==> w.len.None? || w.len.value <= 32
    ensures r.Ok? ==> Canonical(r.value.net) && Contains(r.value.net, w.addr)
    ensures r.Ok? ==> r.value.net.len == if w.len.None? then 32 else w.len.value
    ensures r.Ok? ==> r.value.dialer == if w.dialer == "" then "default" else w.dialer
  {
    var len := if w.len.None? then 32 else w.len.value;
    if len > 32 then Err
    else
      SizeDivides(w.addr, len);
      Ok(Rule(Net(Masked(w.addr, len), len), if w.dialer == "" then "default" else w.dialer))
  }

  lemma SizeDivides(a: Addr, len: nat)
    requires len <= 32
    ensures Canonical(Net(Masked(a, len), len))
  {
    var s := Size(len);
    assert a - a % s == (a / s) * s;
    MultipleRest(a / s, s);
  }

  /** What is listed can be added back. */
  lemma RoundTrip(r: Rule)
    requires Canonical(r.net) && r.dialer != ""
    ensures UnMarshall(Marshall(r)) == Ok(r)
  {
  }

  predicate Unique(rules: seq<Rule>) {
    forall i, j :: 0 <= i < j < |rules| ==> rules[i].net != rules[j].net
  }

  // ---------- adding ----------

  /** The rule takes the place of the first one with the same network, or the last place. */
  function Added(rules: seq<Rule>, rule: Rule): (r: seq<Rule>) {
    if rules == [] then [rule]
    else if rules[0].net == rule.net then [rule] + rules[1..]
    else [rules[0]] + Added(rules[1..], rule)
  }

  /** What the rules say about a network. */
  function DialerOf(rules: seq<Rule>, net: Net): Option<string> {
    if rules == [] then None
    else if rules[0].net == net then Some(rules[0].dialer)
    else DialerOf(rules[1..], net)
  }

  function Nets(rules: seq<Rule>): seq<Net> {
    seq(|rules|, i requires 0 <= i < |rules| => rules[i].net)
  }

  lemma {:induction false} AddedSplit(front: seq<Rule>, rest: seq<Rule>, rule: Rule)
    requires forall k :: 0 <= k < |front| ==> front[k].net != rule.net
    ensures Added(front + rest, rule) == front + Added(rest, rule)
  {
    if front == [] {
      assert front + rest == rest;
    } else {
      assert (front + rest)[1..] == front[1..] + rest;
      AddedSplit(front[1..], rest, rule);
    }
  }

  /** One network keeps its place, or a new network comes last. */
  lemma {:induction false} AddedPlaces(rules: seq<Rule>, rule: Rule)
    ensures Nets(Added(rules, rule)) == Nets(rules) + (if rule.net in Nets(rules) then [] else [rule.net])
  {
    if rules == [] {
    } else if rules[0].net == rule.net {
      assert Nets(rules)[0] == rule.net;
      assert Nets([rule] + rules[1..]) == Nets(rules) + [];
    } else {
      AddedPlaces(rules[1..], rule);
      assert Nets(rules) == [rules[0].net] + Nets(rules[1..]);
      assert Nets(Added(rules, rule)) == [rules[0].net] + Nets(Added(rules[1..], rule));
    }
  }

  /** The network gets the new dialer; nothing else changes. */
  lemma {:induction false} AddedDialer(rules: seq<Rule>, rule: Rule, net: Net)
    ensures DialerOf(Added(rules, rule), net)
            == if net == rule.net then Some(rule.dialer) else DialerOf(rules, net)
  {
    if rules != [] && rules[0].net != rule.net {
      AddedDialer(rules[1..], rule, net);
    }
  }

  lemma AddedUnique(rules: seq<Rule>, rule: Rule)
    requires Unique(rules)
    ensures Unique(Added(rules, rule))
  {
    AddedPlaces(rules, rule);
    var r := Added(rules, rule);
    forall i, j | 0 <= i < j < |r| ensures r[i].net != r[j].net {
      assert r[i].net == Nets(r)[i] && r[j].net == Nets(r)[j] && |r| == |Nets(r)|;
      assert rules[i].net == Nets(rules)[i];
      assert j < |rules| ==> rules[j].net == Nets(rules)[j];
    }
  }

  /** The rules after a history of additions. */
  function AddedAll(adds: seq<Rule>): seq<Rule> {
    if adds == [] then [] else Added(AddedAll(adds[..|adds| - 1]), adds[|adds| - 1])
  }

  /** The dialer given to a network last. */
  function LastDialer(adds: seq<Rule>, net: Net): Option<string> {
    if adds == [] then None
    else if adds[|adds| - 1].net == net then Some(adds[|adds| - 1].dialer)
    else LastDialer(adds[..|adds| - 1], net)
  }

  /** The networks in the order in which they were first mentioned. */
  function FirstMentions(adds: seq<Rule>): seq<Net> {
    if adds == [] then []
    else
      var before := FirstMentions(adds[..|adds| - 1]);
      if adds[|adds| - 1].net in before then before else before + [adds[|adds| - 1].net]
  }

  /** Any history of additions leaves one rule for each network, with its latest dialer and in its first place. */
  lemma {:induction false} HistoryOfRules(adds: seq<Rule>, net: Net)
    ensures Unique(AddedAll(adds)) && Nets(AddedAll(adds)) == FirstMentions(adds)
    ensures DialerOf(AddedAll(adds), net) == LastDialer(adds, net)
  {
    if adds != [] {
      var before, rule := adds[..|adds| - 1], adds[|adds| - 1];
      HistoryOfRules(before, net);
      AddedUnique(AddedAll(before), rule);
      AddedPlaces(AddedAll(before), rule);
      AddedDialer(AddedAll(before), rule, net);
    }
  }

  lemma {:induction false} MentionsFromHistory(adds: seq<Rule>, n: Net)
    requires n in FirstMentions(adds)
    ensures exists k :: 0 <= k < |adds| && adds[k].net == n
  {
    var last := |adds| - 1;
    if n in FirstMentions(adds[..last]) {
      MentionsFromHistory(adds[..last], n);
      var k :| 0 <= k < last && adds[..last][k].net == n;
      assert adds[k].net == n;
    } else {
      assert adds[last].net == n;
    }
  }

  /** No two rules of a rule set stand for the same addresses, whatever was added in whatever order. */
  lemma NoRuleTwice(adds: seq<Rule>, i: nat, j: nat)
    requires forall k :: 0 <= k < |adds| ==> Canonical(adds[k].net)
    requires i < j < |AddedAll(adds)|
    ensures !SameAddresses(AddedAll(adds)[i].net, AddedAll(adds)[j].net)
  {
    var rules := AddedAll(adds);
    HistoryOfRules(adds, rules[i].net);
    assert rules[i].net == Nets(rules)[i] && rules[j].net == Nets(rules)[j];
    MentionsFromHistory(adds, rules[i].net);
    MentionsFromHistory(adds, rules[j].net);
    SameNetwork(rules[i].net, rules[j].net);
  }

  // ---------- dialing ----------

  predicate FirstMatch(rules: seq<Rule>, ip: Addr, i: nat) {
    i < |rules| && Contains(rules[i].net, ip) && forall k :: 0 <= k < i ==> !Contains(rules[k].net, ip)
  }

  predicate Unmatched(rules: seq<Rule>, ip: Addr) {
    forall k :: 0 <= k < |rules| ==> !Contains(rules[k].net, ip)
  }

  /** A rule inside an earlier, wider one is never the first to match. */
  lemma Shadowed(rules: seq<Rule>, i: nat, j: nat, a: Addr, ip: Addr)
    requires i < j < |rules| && Canonical(rules[i].net) && Canonical(rules[j].net)
    requires rules[i].net.len <= rules[j].net.len && Contains(rules[i].net, a) && Contains(rules[j].net, a)
    ensures !FirstMatch(rules, ip, j)
  {
    if Contains(rules[j].net, ip) {
      Nested(rules[i].net, rules[j].net, a, ip);
    }
  }

  /** Where a connection goes: through a dialer, nowhere (the name is not registered), or out directly. */
  datatype Way = Via(dialer: string) | Nowhere(dialer: string) | Plain

  class RuleSet {
    var rules: seq<Rule>

    constructor ()
      ensures rules == []
    {
      rules := [];
    }

    method AddRule(rule: Rule)
      modifies this
      ensures rules == Added(old(rules), rule)
    {
      for i := 0 to |rules|
        invariant rules == old(rules)
        invariant forall k :: 0 <= k < i ==> rules[k].net != rule.net
      {
        if rules[i].net == rule.net {
          AddedSplit(rules[..i], rules[i..], rule);
          assert rules[..i] + rules[i..] == rules && rules[i..][1..] == rules[i + 1..];
          rules := rules[i := rule];
          return;
        }
      }
      AddedSplit(rules, [], rule);
      assert rules + [] == rules;
      rules := rules + [rule];
    }

    /** The server's AddRule: a text that cannot be parsed changes nothing. */
    method AddWireRule(w: WireRule) returns (ok: bool)
      modifies this
      ensures ok <==> UnMarshall(w).Ok?
      ensures rules == if ok then Added(old(rules), UnMarshall(w).value) else old(rules)
    {
      match UnMarshall(w)
      case Err => ok := false;
      case Ok(r) =>
        AddRule(r);
        ok := true;
    }

    /** The server's ListRules. */
    method ListRules() returns (result: seq<WireRule>)
      ensures |result| == |rules|
      ensures forall i :: 0 <= i < |rules| ==>
                result[i] == WireRule(rules[i].net.base, Some(rules[i].net.len), rules[i].dialer)
    {
      result := [];
      for i := 0 to |rules|
        invariant |result| == i && forall k :: 0 <= k < i ==> result[k] == Marshall(rules[k])
      {
        result := result + [Marshall(rules[i])];
      }
    }

    /** `resolved` is the address if the name could be resolved, `registered` the names of the known dialers. */
    method Dial(resolved: Option<Addr>, registered: set<string>) returns (way: Way)
      ensures way == Plain <==> resolved.None? || Unmatched(rules, resolved.value)
      ensures !way.Plain? ==> exists i: nat :: FirstMatch(rules, resolved.value, i) && rules[i].dialer == way.dialer
      ensures !way.Plain? ==> (way.Via? <==> way.dialer in registered)
    {
      if resolved.Some? {
        for i := 0 to |rules|
          invariant forall k :: 0 <= k < i ==> !Contains(rules[k].net, resolved.value)
        {
          if Contains(rules[i].net, resolved.value) {
            assert FirstMatch(rules, resolved.value, i);
            return if rules[i].dialer in registered then Via(rules[i].dialer) else Nowhere(rules[i].dialer);
          }
        }
      }
      return Plain;
    }
  }
}
