/**
  The firewall script (scripts/server/apply-firewall.sh): an ordered chain of rules
  edited in place by `iptables -D` and `iptables -A`, for any list of ports and peers.
 */
module Firewall {
  import opened Wrappers

  type Ip = nat

  datatype Target = Accept | Drop | Return | Log

  /** A rule: every option it has must match. `more` are options the script never uses. */
  datatype Rule = Rule(tcp: bool, iface: Option<string>, dport: Option<nat>, source: Option<Ip>,
                       more: set<string>, target: Target)

  datatype Packet = Packet(tcp: bool, iface: string, dport: nat, source: Ip, traits: set<string>)

  datatype Verdict = Accepted | Dropped | PassedOn

  predicate Matches(r: Rule, p: Packet) {
    && (r.tcp ==> p.tcp)
    && (r.iface.Some? ==> r.iface.value == p.iface)
    && (r.dport.Some? ==> r.dport.value == p.dport)
    && (r.source.Some? ==> r.source.value == p.source)
    && r.more <= p.traits
  }

  predicate Settles(r: Rule, p: Packet) { Matches(r, p) && !r.target.Log? }

  /** First match; a packet that returns or matches nothing passes on to the next chain. */
  function VerdictOn(chain: seq<Rule>, p: Packet): Verdict {
    if chain == [] then PassedOn
    else if !Settles(chain[0], p) then VerdictOn(chain[1..], p)
    else match chain[0].target case Accept => Accepted case Drop => Dropped case _ => PassedOn
  }

  // ---------- commands ----------

  datatype Command = Delete(rule: Rule) | Append(rule: Rule)

  /** `-D` with a rule specification: the first equal rule goes, if there is one. */
  function RemoveFirst(chain: seq<Rule>, r: Rule): seq<Rule> {
    if chain == [] then []
    else if chain[0] == r then chain[1..]
    else [chain[0]] + RemoveFirst(chain[1..], r)
  }

  function Apply(chain: seq<Rule>, c: Command): seq<Rule> {
    match c case Delete(r) => RemoveFirst(chain, r) case Append(r) => chain + [r]
  }

  function Exec(chain: seq<Rule>, commands: seq<Command>): seq<Rule>
    decreases |commands|
  {
    if commands == [] then chain else Exec(Apply(chain, commands[0]), commands[1..])
  }

  // ---------- the script ----------

  datatype Cluster = Cluster(extIf: string, peers: seq<Ip>)

  function OldDrop(port: nat): Rule { Rule(true, None, Some(port), None, {}, Drop) }
  function OldAccept(port: nat, peer: Ip): Rule { Rule(true, None, Some(port), Some(peer), {}, Accept) }
  function NewDrop(cl: Cluster, port: nat): Rule { Rule(true, Some(cl.extIf), Some(port), None, {}, Drop) }
  function NewAccept(cl: Cluster, port: nat, peer: Ip): Rule {
    Rule(true, Some(cl.extIf), Some(port), Some(peer), {}, Accept)
  }

  function OldAccepts(cl: Cluster, port: nat): (rs: seq<Rule>)
    ensures |rs| == |cl.peers| && forall i :: 0 <= i < |rs| ==> rs[i] == OldAccept(port, cl.peers[i])
  {
    seq(|cl.peers|, i requires 0 <= i < |cl.peers| => OldAccept(port, cl.peers[i]))
  }

  function NewAccepts(cl: Cluster, port: nat): (rs: seq<Rule>)
    ensures |rs| == |cl.peers| && forall i :: 0 <= i < |rs| ==> rs[i] == NewAccept(cl, port, cl.peers[i])
  {
    seq(|cl.peers|, i requires 0 <= i < |cl.peers| => NewAccept(cl, port, cl.peers[i]))
  }

  /** The rules that one pass deletes, in its order. */
  function ManagedBy(cl: Cluster, port: nat): seq<Rule> {
    [OldDrop(port)] + OldAccepts(cl, port) + [NewDrop(cl, port)] + NewAccepts(cl, port)
  }

  /** The rules that one pass appends, in its order. */
  function Block(cl: Cluster, port: nat): seq<Rule> {
    NewAccepts(cl, port) + [NewDrop(cl, port)]
  }

  function Deletes(rules: seq<Rule>): (cs: seq<Command>)
    ensures |cs| == |rules| && forall i :: 0 <= i < |cs| ==> cs[i] == Delete(rules[i])
  {
    seq(|rules|, i requires 0 <= i < |rules| => Delete(rules[i]))
  }

  function Appends(rules: seq<Rule>): (cs: seq<Command>)
    ensures |cs| == |rules| && forall i :: 0 <= i < |cs| ==> cs[i] == Append(rules[i])
  {
    seq(|rules|, i requires 0 <= i < |rules| => Append(rules[i]))
  }

  function Pass(cl: Cluster, port: nat): seq<Command> {
    Deletes(ManagedBy(cl, port)) + Appends(Block(cl, port))
  }

  function Program(cl: Cluster, ports: seq<nat>): seq<Command> {
    if ports == [] then [] else Pass(cl, ports[0]) + Program(cl, ports[1..])
  }

  function Blocks(cl: Cluster, ports: seq<nat>): seq<Rule> {
    if ports == [] then [] else Block(cl, ports[0]) + Blocks(cl, ports[1..])
  }

  predicate Managed(cl: Cluster, ports: seq<nat>, r: Rule) {
    r.dport.Some? && r.dport.value in ports && r in ManagedBy(cl, r.dport.value)
  }

  function Unmanaged(cl: Cluster, ports: seq<nat>, chain: seq<Rule>): seq<Rule> {
    Filter(chain, r => !Managed(cl, ports, r))
  }

  /** What a complete run is meant to leave behind. */
  function Canonical(cl: Cluster, ports: seq<nat>, chain: seq<Rule>): seq<Rule> {
    Unmanaged(cl, ports, chain) + Blocks(cl, ports)
  }

  ghost predicate Distinct<T(!new)>(s: seq<T>) {
    forall i, j :: 0 <= i < j < |s| ==> s[i] != s[j]
  }

  ghost predicate SingleCopies(cl: Cluster, ports: seq<nat>, chain: seq<Rule>) {
    forall r | Managed(cl, ports, r) :: multiset(chain)[r] <= 1
  }

  // ---------- filtering ----------

  function Filter(chain: seq<Rule>, keep: Rule -> bool): seq<Rule> {
    if chain == [] then []
    else if keep(chain[0]) then [chain[0]] + Filter(chain[1..], keep)
    else Filter(chain[1..], keep)
  }

  function FilterCommands(commands: seq<Command>, keep: Rule -> bool): seq<Command> {
    if commands == [] then []
    else if keep(commands[0].rule) then [commands[0]] + FilterCommands(commands[1..], keep)
    else FilterCommands(commands[1..], keep)
  }

  lemma {:induction false} FilterConcat(a: seq<Rule>, b: seq<Rule>, keep: Rule -> bool)
    ensures Filter(a + b, keep) == Filter(a, keep) + Filter(b, keep)
  {
    if a == [] {
      assert a + b == b;
    } else {
      assert (a + b)[1..] == a[1..] + b;
      FilterConcat(a[1..], b, keep);
    }
  }

  lemma {:induction false} FilterCommandsConcat(a: seq<Command>, b: seq<Command>, keep: Rule -> bool)
    ensures FilterCommands(a + b, keep) == FilterCommands(a, keep) + FilterCommands(b, keep)
  {
    if a == [] {
      assert a + b == b;
    } else {
      assert (a + b)[1..] == a[1..] + b;
      FilterCommandsConcat(a[1..], b, keep);
    }
  }

  lemma {:induction false} FilterRemove(chain: seq<Rule>, r: Rule, keep: Rule -> bool)
    ensures Filter(RemoveFirst(chain, r), keep)
         == if keep(r) then RemoveFirst(Filter(chain, keep), r) else Filter(chain, keep)
  {
    if chain != [] && chain[0] != r {
      var tail := RemoveFirst(chain[1..], r);
      assert ([chain[0]] + tail)[1..] == tail;
      FilterRemove(chain[1..], r, keep);
      if keep(chain[0]) {
        assert ([chain[0]] + Filter(chain[1..], keep))[1..] == Filter(chain[1..], keep);
      }
    } else if chain != [] && keep(r) {
      assert ([chain[0]] + Filter(chain[1..], keep))[1..] == Filter(chain[1..], keep);
    }
  }

  /** To see what a schedule of commands does to some of the rules, look only at the
      commands for these rules. */
  lemma {:induction false} FilterExec(chain: seq<Rule>, commands: seq<Command>, keep: Rule -> bool)
    ensures Filter(Exec(chain, commands), keep)
         == Exec(Filter(chain, keep), FilterCommands(commands, keep))
    decreases |commands|
  {
    if commands != [] {
      var c, rest := commands[0], commands[1..];
      FilterExec(Apply(chain, c), rest, keep);
      FilterApply(chain, c, keep);
      if keep(c.rule) {
        var kept := FilterCommands(rest, keep);
        assert FilterCommands(commands, keep) == [c] + kept;
        assert ([c] + kept)[1..] == kept;
      }
    }
  }

  lemma FilterApply(chain: seq<Rule>, c: Command, keep: Rule -> bool)
    ensures Filter(Apply(chain, c), keep)
         == if keep(c.rule) then Apply(Filter(chain, keep), c) else Filter(chain, keep)
  {
    match c
    case Delete(r) => FilterRemove(chain, r, keep);
    case Append(r) =>
      FilterConcat(chain, [r], keep);
      assert [r][1..] == [];
  }

  lemma {:induction false} ExecConcat(chain: seq<Rule>, a: seq<Command>, b: seq<Command>)
    ensures Exec(chain, a + b) == Exec(Exec(chain, a), b)
    decreases |a|
  {
    if a == [] {
      assert a + b == b;
    } else {
      assert (a + b)[1..] == a[1..] + b;
      ExecConcat(Apply(chain, a[0]), a[1..], b);
    }
  }

  lemma {:induction false} FilterKeepsAll(chain: seq<Rule>, keep: Rule -> bool)
    requires forall r :: r in chain ==> keep(r)
    ensures Filter(chain, keep) == chain
  {
    if chain != [] { FilterKeepsAll(chain[1..], keep); }
  }

  lemma {:induction false} FilterKeepsNone(chain: seq<Rule>, keep: Rule -> bool)
    requires forall r :: r in chain ==> !keep(r)
    ensures Filter(chain, keep) == []
  {
    if chain != [] { FilterKeepsNone(chain[1..], keep); }
  }

  lemma {:induction false} FilterCounts(chain: seq<Rule>, keep: Rule -> bool, r: Rule)
    ensures multiset(Filter(chain, keep))[r] == if keep(r) then multiset(chain)[r] else 0
  {
    if chain != [] {
      assert chain == [chain[0]] + chain[1..];
      FilterCounts(chain[1..], keep, r);
    }
  }
}
