/** What holds while the firewall script runs, and what packets meet afterwards. */
module FirewallSafety {
  import opened Wrappers
  import opened Firewall
  import opened FirewallRun

  // ---------- rules and verdicts as the kernel reads them ----------

  /** The first rule that settles a packet decides it; a LOG rule settles none, and a packet
      that no rule settles passes on, as does one that returns. */
  lemma {:induction false} FirstSettlingRuleDecides(chain: seq<Rule>, p: Packet, i: nat)
    requires i <= |chain| && forall j :: 0 <= j < i ==> !Matches(chain[j], p) || chain[j].target == Log
    requires i < |chain| ==> Matches(chain[i], p) && chain[i].target != Log
    ensures VerdictOn(chain, p)
         == if i == |chain| || chain[i].target == Return then PassedOn
            else if chain[i].target == Accept then Accepted else Dropped
  {
    if i > 0 {
      forall j | 0 <= j < i - 1 ensures !Matches(chain[1..][j], p) || chain[1..][j].target == Log {
        assert chain[1..][j] == chain[j + 1];
      }
      FirstSettlingRuleDecides(chain[1..], p, i - 1);
    }
  }

  /** Every option of a rule narrows the packets that it matches. */
  lemma OptionsNarrow(target: Target, p: Packet, iface: string, dport: nat, source: Ip,
                      option: string, more: set<string>)
    ensures Matches(Rule(false, None, None, None, {}, target), p)
    ensures Matches(Rule(true, Some(iface), Some(dport), Some(source), {option} + more, target), p)
        <==> p.tcp && p.iface == iface && p.dport == dport && p.source == source
             && option in p.traits && more <= p.traits
  {
  }

  /** One pass of the script for three peers, as it is written. */
  lemma PassAsWritten(eth: string, a: Ip, b: Ip, c: Ip, port: nat)
    ensures Pass(Cluster(eth, [a, b, c]), port) ==
            [Delete(Rule(true, None, Some(port), None, {}, Drop)),
             Delete(Rule(true, None, Some(port), Some(a), {}, Accept)),
             Delete(Rule(true, None, Some(port), Some(b), {}, Accept)),
             Delete(Rule(true, None, Some(port), Some(c), {}, Accept)),
             Delete(Rule(true, Some(eth), Some(port), None, {}, Drop)),
             Delete(Rule(true, Some(eth), Some(port), Some(a), {}, Accept)),
             Delete(Rule(true, Some(eth), Some(port), Some(b), {}, Accept)),
             Delete(Rule(true, Some(eth), Some(port), Some(c), {}, Accept)),
             Append(Rule(true, Some(eth), Some(port), Some(a), {}, Accept)),
             Append(Rule(true, Some(eth), Some(port), Some(b), {}, Accept)),
             Append(Rule(true, Some(eth), Some(port), Some(c), {}, Accept)),
             Append(Rule(true, Some(eth), Some(port), None, {}, Drop))]
  {
    var cl := Cluster(eth, [a, b, c]);
    assert OldAccepts(cl, port) == [OldAccept(port, a), OldAccept(port, b), OldAccept(port, c)];
    assert NewAccepts(cl, port) == [NewAccept(cl, port, a), NewAccept(cl, port, b), NewAccept(cl, port, c)];
  }

  /** The four ports in their order, each with its pass. */
  lemma ProgramAsWritten(cl: Cluster)
    ensures Program(cl, [5432, 8008, 2379, 2380])
         == Pass(cl, 5432) + (Pass(cl, 8008) + (Pass(cl, 2379) + Pass(cl, 2380)))
  {
    hide Pass;
    var four: seq<nat>, three: seq<nat>, two: seq<nat>, one: seq<nat> :=
      [5432, 8008, 2379, 2380], [8008, 2379, 2380], [2379, 2380], [2380];
    assert four[1..] == three && three[1..] == two && two[1..] == one && one[1..] == [];
    assert Program(cl, one) == Pass(cl, 2380) + [] == Pass(cl, 2380);
    assert Program(cl, two) == Pass(cl, 2379) + Program(cl, one);
    assert Program(cl, three) == Pass(cl, 8008) + Program(cl, two);
    assert Program(cl, four) == Pass(cl, 5432) + Program(cl, three);
  }

  // ---------- the commands that concern some rules ----------

  lemma {:induction false} FilterDeletes(rules: seq<Rule>, keep: Rule -> bool)
    ensures FilterCommands(Deletes(rules), keep) == Deletes(Filter(rules, keep))
    ensures FilterCommands(Appends(rules), keep) == Appends(Filter(rules, keep))
  {
    if rules != [] {
      assert Deletes(rules)[1..] == Deletes(rules[1..]) && Appends(rules)[1..] == Appends(rules[1..]);
      FilterDeletes(rules[1..], keep);
    }
  }

  lemma {:induction false} NoCommandsFor(cl: Cluster, ports: seq<nat>, port: nat, keep: Rule -> bool)
    requires port !in ports && forall r :: keep(r) ==> r.dport == Some(port)
    ensures FilterCommands(Program(cl, ports), keep) == []
  {
    forall i | 0 <= i < |Program(cl, ports)| ensures !keep(Program(cl, ports)[i].rule) {
      ProgramIsManaged(cl, ports, i);
    }
    NoCommands(Program(cl, ports), keep);
  }

  /** Only the pass of its own port touches a rule. */
  lemma {:induction false} CommandsFor(cl: Cluster, ports: seq<nat>, port: nat, keep: Rule -> bool)
    requires Distinct(ports) && port in ports && forall r :: keep(r) ==> r.dport == Some(port)
    ensures FilterCommands(Program(cl, ports), keep)
         == Deletes(Filter(ManagedBy(cl, port), keep)) + Appends(Filter(Block(cl, port), keep))
  {
    var first, rest := ports[0], ports[1..];
    FilterCommandsConcat(Pass(cl, first), Program(cl, rest), keep);
    if first == port {
      FilterCommandsConcat(Deletes(ManagedBy(cl, port)), Appends(Block(cl, port)), keep);
      FilterDeletes(ManagedBy(cl, port), keep);
      FilterDeletes(Block(cl, port), keep);
      NoCommandsFor(cl, rest, port, keep);
      assert FilterCommands(Pass(cl, first), keep) + [] == FilterCommands(Pass(cl, first), keep);
    } else {
      forall i | 0 <= i < |Pass(cl, first)| ensures !keep(Pass(cl, first)[i].rule) { PassIsManaged(cl, first, i); }
      NoCommands(Pass(cl, first), keep);
      CommandsFor(cl, rest, port, keep);
      assert [] + FilterCommands(Program(cl, rest), keep) == FilterCommands(Program(cl, rest), keep);
    }
  }

  lemma {:induction false} FilterToOne(rules: seq<Rule>, keep: Rule -> bool, r: Rule)
    requires Distinct(rules) && r in rules && forall x :: x in rules ==> (keep(x) <==> x == r)
    ensures Filter(rules, keep) == [r]
  {
    if rules[0] == r {
      forall x | x in rules[1..] ensures !keep(x) {}
      FilterKeepsNone(rules[1..], keep);
    } else {
      FilterToOne(rules[1..], keep, r);
    }
  }

  lemma FilterPrefix(commands: seq<Command>, k: nat, keep: Rule -> bool)
    requires k <= |commands|
    ensures FilterCommands(commands[..k], keep) <= FilterCommands(commands, keep)
  {
    hide FilterCommands;
    var first, rest := commands[..k], commands[k..];
    FilterCommandsConcat(first, rest, keep);
    Rejoined(commands, k);
    assert FilterCommands(commands, keep) == FilterCommands(first, keep) + FilterCommands(rest, keep);
    PrefixOfConcat(FilterCommands(first, keep), FilterCommands(rest, keep));
  }

  lemma Rejoined(commands: seq<Command>, k: nat)
    requires k <= |commands|
    ensures commands[..k] + commands[k..] == commands
  {
  }

  lemma PrefixOfConcat(a: seq<Command>, b: seq<Command>)
    ensures a <= a + b
  {
  }

  /** Every prefix of the filtered commands comes from a prefix of the commands. */
  lemma {:induction false} PrefixReached(commands: seq<Command>, j: nat, keep: Rule -> bool) returns (k: nat)
    requires j <= |FilterCommands(commands, keep)|
    ensures k <= |commands| && FilterCommands(commands[..k], keep) == FilterCommands(commands, keep)[..j]
  {
    if j == |FilterCommands(commands, keep)| {
      k := |commands|;
      assert commands[..k] == commands;
    } else {
      var last := |commands| - 1;
      assert commands == commands[..last] + [commands[last]];
      FilterCommandsConcat(commands[..last], [commands[last]], keep);
      assert [commands[last]][1..] == [];
      k := PrefixReached(commands[..last], j, keep);
      assert commands[..last][..k] == commands[..k];
    }
  }

  // ---------- a run that is cut short ----------

  lemma CopiesDuringRun(cl: Cluster, ports: seq<nat>, chain: seq<Rule>, k: nat, r: Rule)
    requires Distinct(ports) && Distinct(cl.peers) && k <= |Program(cl, ports)|
    requires Managed(cl, ports, r) && multiset(chain)[r] <= 1
    ensures multiset(Exec(chain, Program(cl, ports)[..k]))[r] <= 1
  {
    var keep := x => x == r;
    var port := r.dport.value;
    var commands := Program(cl, ports);
    ManagedByIsDistinct(cl, port);
    FilterToOne(ManagedBy(cl, port), keep, r);
    if r in Block(cl, port) { FilterToOne(Block(cl, port), keep, r); } else { FilterKeepsNone(Block(cl, port), keep); }
    CommandsFor(cl, ports, port, keep);
    FilterPrefix(commands, k, keep);
    FilterExec(chain, commands[..k], keep);
    FilterCounts(chain, keep, r);
    FilterCounts(Exec(chain, commands[..k]), keep, r);
    AtMostDeleteThenAppend(Filter(chain, keep), FilterCommands(commands[..k], keep), r);
  }

  lemma AtMostDeleteThenAppend(chain: seq<Rule>, commands: seq<Command>, r: Rule)
    requires multiset(chain)[r] <= 1 && commands <= [Delete(r), Append(r)]
    ensures multiset(Exec(chain, commands))[r] <= 1
  {
    RemoveCount(chain, r);
    if |commands| == 1 {
      assert commands == [Delete(r)] && commands[1..] == [];
    } else if |commands| == 2 {
      assert commands == [Delete(r), Append(r)] && commands[1..] == [Append(r)] && [Append(r)][1..] == [];
      assert Exec(RemoveFirst(chain, r), [Append(r)]) == Exec(RemoveFirst(chain, r) + [r], [Append(r)][1..]);
    }
  }

  /** There is a point of a run at which a managed rule has been deleted once and not yet
      appended. */
  lemma CutBehindDelete(cl: Cluster, ports: seq<nat>, chain: seq<Rule>, r: Rule) returns (k: nat)
    requires Distinct(ports) && Distinct(cl.peers) && Managed(cl, ports, r)
    ensures k <= |Program(cl, ports)|
    ensures multiset(Exec(chain, Program(cl, ports)[..k]))[r] == Less1(multiset(chain)[r])
  {
    var keep := x => x == r;
    var port := r.dport.value;
    var commands := Program(cl, ports);
    ManagedByIsDistinct(cl, port);
    FilterToOne(ManagedBy(cl, port), keep, r);
    CommandsFor(cl, ports, port, keep);
    assert FilterCommands(commands, keep)[..1] == [Delete(r)];
    k := PrefixReached(commands, 1, keep);
    FilterExec(chain, commands[..k], keep);
    FilterCounts(chain, keep, r);
    FilterCounts(Exec(chain, commands[..k]), keep, r);
    assert [Delete(r)][1..] == [];
    RemoveCount(Filter(chain, keep), r);
    assert Exec(Filter(chain, keep), [Delete(r)]) == Exec(RemoveFirst(Filter(chain, keep), r), [Delete(r)][1..]);
  }

  /** A run stopped behind command `k`, then a complete one, leave what one run leaves. */
  predicate Recovers(cl: Cluster, ports: seq<nat>, chain: seq<Rule>, k: nat)
    requires k <= |Program(cl, ports)|
  {
    Exec(Exec(chain, Program(cl, ports)[..k]), Program(cl, ports)) == Exec(chain, Program(cl, ports))
  }

  /** A run stopped after any command, then a complete run, give the same chain as without
      the interruption, if and only if no managed rule was there twice. */
  lemma InterruptedRunConverges(cl: Cluster, ports: seq<nat>, chain: seq<Rule>)
    requires Distinct(ports) && Distinct(cl.peers)
    ensures (forall k :: 0 <= k <= |Program(cl, ports)| ==> Recovers(cl, ports, chain, k))
            <==> SingleCopies(cl, ports, chain)
  {
    hide Recovers, Program, Managed;
    forall k | 0 <= k <= |Program(cl, ports)| && SingleCopies(cl, ports, chain) ensures Recovers(cl, ports, chain, k) {
      CutRunConverges(cl, ports, chain, k);
    }
    forall r | Managed(cl, ports, r) && multiset(chain)[r] > 1
      ensures exists k :: 0 <= k <= |Program(cl, ports)| && !Recovers(cl, ports, chain, k)
    {
      var k := DuplicateIsLost(cl, ports, chain, r);
    }
  }

  lemma DuplicateIsLost(cl: Cluster, ports: seq<nat>, chain: seq<Rule>, r: Rule) returns (k: nat)
    requires Distinct(ports) && Distinct(cl.peers) && Managed(cl, ports, r) && multiset(chain)[r] > 1
    ensures k <= |Program(cl, ports)| && !Recovers(cl, ports, chain, k)
  {
    hide Exec, Program;
    k := CutBehindDelete(cl, ports, chain, r);
    CopiesAfterRun(cl, ports, chain, r);
    CopiesAfterRun(cl, ports, Exec(chain, Program(cl, ports)[..k]), r);
  }

  lemma CutRunConverges(cl: Cluster, ports: seq<nat>, chain: seq<Rule>, k: nat)
    requires Distinct(ports) && Distinct(cl.peers) && SingleCopies(cl, ports, chain)
    requires k <= |Program(cl, ports)|
    ensures Recovers(cl, ports, chain, k)
  {
    var cut := Exec(chain, Program(cl, ports)[..k]);
    forall r | Managed(cl, ports, r) ensures multiset(cut)[r] <= 1 { CopiesDuringRun(cl, ports, chain, k, r); }
    UnmanagedUntouched(cl, ports, chain, Program(cl, ports)[..k]);
    RunIsCanonical(cl, ports, chain);
    RunIsCanonical(cl, ports, cut);
  }

  // ---------- verdicts ----------

  lemma {:induction false} VerdictIgnores(chain: seq<Rule>, keep: Rule -> bool, p: Packet)
    requires forall r :: r in chain && !keep(r) ==> !Settles(r, p)
    ensures VerdictOn(Filter(chain, keep), p) == VerdictOn(chain, p)
  {
    if chain != [] {
      VerdictIgnores(chain[1..], keep, p);
      if keep(chain[0]) {
        assert ([chain[0]] + Filter(chain[1..], keep))[1..] == Filter(chain[1..], keep);
      }
    }
  }

  ghost predicate Decides(chain: seq<Rule>, p: Packet) {
    exists i :: 0 <= i < |chain| && Settles(chain[i], p)
  }

  lemma {:induction false} VerdictConcat(a: seq<Rule>, b: seq<Rule>, p: Packet)
    ensures VerdictOn(a + b, p) == if Decides(a, p) then VerdictOn(a, p) else VerdictOn(b, p)
  {
    if a == [] {
      assert a + b == b;
    } else {
      assert (a + b)[1..] == a[1..] + b;
      VerdictConcat(a[1..], b, p);
      if Decides(a[1..], p) {
        var i :| 0 <= i < |a[1..]| && Settles(a[1..][i], p);
        assert Settles(a[i + 1], p);
      }
      if Decides(a, p) && !Settles(a[0], p) {
        var i :| 0 <= i < |a| && Settles(a[i], p);
        assert Settles(a[1..][i - 1], p);
      }
    }
  }

  /** Whom the script means to shut out. */
  predicate Guarded(cl: Cluster, ports: seq<nat>, p: Packet) {
    p.tcp && p.iface == cl.extIf && p.dport in ports
  }

  lemma {:induction false} AcceptsVerdict(cl: Cluster, port: nat, p: Packet, n: nat)
    requires n <= |cl.peers| && p.tcp && p.iface == cl.extIf && p.dport == port
    ensures VerdictOn(NewAccepts(cl, port)[n..] + [NewDrop(cl, port)], p)
         == if p.source in cl.peers[n..] then Accepted else Dropped
    decreases |cl.peers| - n
  {
    var rules := NewAccepts(cl, port)[n..] + [NewDrop(cl, port)];
    if n < |cl.peers| {
      AcceptsVerdict(cl, port, p, n + 1);
      assert rules[1..] == NewAccepts(cl, port)[n + 1..] + [NewDrop(cl, port)];
      assert cl.peers[n..] == [cl.peers[n]] + cl.peers[n + 1..];
    }
  }

  lemma {:induction false} BlocksVerdict(cl: Cluster, ports: seq<nat>, p: Packet)
    ensures VerdictOn(Blocks(cl, ports), p)
         == if !Guarded(cl, ports, p) then PassedOn else if p.source in cl.peers then Accepted else Dropped
  {
    if ports != [] {
      var block := Block(cl, ports[0]);
      BlocksVerdict(cl, ports[1..], p);
      VerdictConcat(block, Blocks(cl, ports[1..]), p);
      if Guarded(cl, [ports[0]], p) {
        AcceptsVerdict(cl, ports[0], p, 0);
        assert NewAccepts(cl, ports[0])[0..] == NewAccepts(cl, ports[0]) && cl.peers[0..] == cl.peers;
        assert Settles(block[|block| - 1], p);
      } else {
        assert !Decides(block, p);
      }
    }
  }

  /** After a run from any chain, what it left of that chain speaks first: the unmanaged
      rules and duplicates. What these leave open is decided by the source address on the
      guarded ports of the external interface, and passed on everywhere else. */
  lemma VerdictAfterRun(cl: Cluster, ports: seq<nat>, chain: seq<Rule>, p: Packet)
    requires Distinct(ports) && Distinct(cl.peers)
    ensures var front := Front(cl, ports, chain);
            && VerdictOn(Exec(chain, Program(cl, ports)), p)
               == (if Decides(front, p) then VerdictOn(front, p)
                   else if !Guarded(cl, ports, p) then PassedOn
                   else if p.source in cl.peers then Accepted else Dropped)
            && (SingleCopies(cl, ports, chain) ==> front == Unmanaged(cl, ports, chain))
  {
    var front := Front(cl, ports, chain);
    RunIsPrune(cl, ports, chain);
    VerdictConcat(front, Blocks(cl, ports), p);
    BlocksVerdict(cl, ports, p);
    if SingleCopies(cl, ports, chain) {
      RunIsCanonical(cl, ports, chain);
      SameFront(front, Unmanaged(cl, ports, chain), Blocks(cl, ports));
    }
  }

  /** From two copies of a port's DROP, a complete run leaves one in front of the ACCEPTs,
      and the peers are dropped as well. */
  lemma DuplicateDropShutsPeersOut(cl: Cluster, port: nat, peer: Ip)
    requires Distinct(cl.peers) && peer in cl.peers
    ensures var drop := NewDrop(cl, port);
            VerdictOn(Exec([drop, drop], Program(cl, [port])), Packet(true, cl.extIf, port, peer, {})) == Dropped
  {
    var drop := NewDrop(cl, port);
    var p := Packet(true, cl.extIf, port, peer, {});
    var front := Front(cl, [port], [drop, drop]);
    var rules := ManagedByAll(cl, [port]);
    ManagedByAllIsDistinct(cl, [port]);
    forall r ensures multiset(front)[r] == if r == drop then 1 else 0 {
      ManagedByAllIsManaged(cl, [port], r);
      assert drop in ManagedBy(cl, port);
      assert multiset([drop, drop])[r] == if r == drop then 2 else 0;
      PruneCount([drop, drop], rules, r);
    }
    OnlyRule(front, drop);
    VerdictAfterRun(cl, [port], [drop, drop], p);
    assert Settles(front[0], p);
  }

  lemma OnlyRule(rules: seq<Rule>, r: Rule)
    requires forall x :: multiset(rules)[x] == if x == r then 1 else 0
    ensures rules == [r]
  {
    assert multiset(rules) == multiset{r};
    assert |rules| == |multiset(rules)| == 1;
    assert rules[0] in multiset(rules);
  }

  /** A packet that is not TCP to a managed port meets the verdict it always met, after
      every single command. */
  lemma OtherTrafficUnaffected(cl: Cluster, ports: seq<nat>, chain: seq<Rule>, k: nat, p: Packet)
    requires k <= |Program(cl, ports)| && !(p.tcp && p.dport in ports)
    ensures VerdictOn(Exec(chain, Program(cl, ports)[..k]), p) == VerdictOn(chain, p)
  {
    var now := Exec(chain, Program(cl, ports)[..k]);
    UnmanagedUntouched(cl, ports, chain, Program(cl, ports)[..k]);
    VerdictIgnores(chain, r => !Managed(cl, ports, r), p);
    VerdictIgnores(now, r => !Managed(cl, ports, r), p);
  }

  /** The clause about earlier rules is needed: behind a RETURN for everything the appended
      rules are never reached, and no source is dropped. */
  lemma EarlierReturnDecides(cl: Cluster, port: nat, source: Ip)
    requires Distinct(cl.peers)
    ensures var everything := Rule(false, None, None, None, {}, Return);
            VerdictOn(Exec([everything], Program(cl, [port])), Packet(true, cl.extIf, port, source, {})) == PassedOn
  {
    var everything := Rule(false, None, None, None, {}, Return);
    var p := Packet(true, cl.extIf, port, source, {});
    forall r | Managed(cl, [port], r) ensures multiset([everything])[r] <= 1 {}
    VerdictAfterRun(cl, [port], [everything], p);
    assert [everything][1..] == [];
    FilterKeepsAll([everything], r => !Managed(cl, [port], r));
    assert Settles([everything][0], p);
  }

  // ---------- peers during a run ----------

  /** The verdict of the managed rules alone, as far as `keep` admits them. */
  function ManagedVerdict(cl: Cluster, ports: seq<nat>, chain: seq<Rule>, p: Packet, keep: Rule -> bool): Verdict {
    VerdictOn(Filter(chain, r => Managed(cl, ports, r) && keep(r)), p)
  }

  predicate AnyForm(r: Rule) { true }
  predicate ScopedForm(r: Rule) { r.iface.Some? }

  /** The four managed rules that match a peer's packet, as the script deletes them. */
  function Four(cl: Cluster, port: nat, peer: Ip): seq<Rule> {
    [OldDrop(port), OldAccept(port, peer), NewDrop(cl, port), NewAccept(cl, port, peer)]
  }

  lemma FourMatch(cl: Cluster, ports: seq<nat>, p: Packet, r: Rule)
    requires Guarded(cl, ports, p) && p.source in cl.peers
    ensures Managed(cl, ports, r) && Matches(r, p) <==> r in Four(cl, p.dport, p.source)
  {
    if r in Four(cl, p.dport, p.source) {
      var i :| 0 <= i < |cl.peers| && cl.peers[i] == p.source;
      assert OldAccepts(cl, p.dport)[i] == OldAccept(p.dport, p.source);
      assert NewAccepts(cl, p.dport)[i] == NewAccept(cl, p.dport, p.source);
    }
  }

  lemma FilterAccepts(cl: Cluster, port: nat, peer: Ip, keep: Rule -> bool)
    requires Distinct(cl.peers) && peer in cl.peers
    requires forall r :: keep(r) <==> r in Four(cl, port, peer)
    ensures Filter(OldAccepts(cl, port), keep) == [OldAccept(port, peer)]
    ensures Filter(NewAccepts(cl, port), keep) == [NewAccept(cl, port, peer)]
  {
    var i :| 0 <= i < |cl.peers| && cl.peers[i] == peer;
    assert OldAccepts(cl, port)[i] == OldAccept(port, peer) && NewAccepts(cl, port)[i] == NewAccept(cl, port, peer);
    FilterToOne(OldAccepts(cl, port), keep, OldAccept(port, peer));
    FilterToOne(NewAccepts(cl, port), keep, NewAccept(cl, port, peer));
  }

  lemma FilterToFour(cl: Cluster, port: nat, peer: Ip, keep: Rule -> bool)
    requires Distinct(cl.peers) && peer in cl.peers
    requires forall r :: keep(r) <==> r in Four(cl, port, peer)
    ensures Filter(ManagedBy(cl, port), keep) == Four(cl, port, peer)
    ensures Filter(Block(cl, port), keep) == [NewAccept(cl, port, peer), NewDrop(cl, port)]
  {
    FilterAccepts(cl, port, peer, keep);
    var oldDrop, newDrop := [OldDrop(port)], [NewDrop(cl, port)];
    FilterKeepsAll(oldDrop, keep);
    FilterKeepsAll(newDrop, keep);
    FilterConcat(oldDrop + OldAccepts(cl, port) + newDrop, NewAccepts(cl, port), keep);
    FilterConcat(oldDrop + OldAccepts(cl, port), newDrop, keep);
    FilterConcat(oldDrop, OldAccepts(cl, port), keep);
    FilterConcat(NewAccepts(cl, port), newDrop, keep);
  }

  /** What the script does to the four rules. */
  function SixCommands(four: seq<Rule>): seq<Command>
    requires |four| == 4
  {
    Deletes(four) + [Append(four[3]), Append(four[2])]
  }

  /** Among rules that all match: the first one is not a DROP. */
  predicate Lets(rules: seq<Rule>) { rules == [] || rules[0].target.Accept? }

  ghost predicate FourOnce(four: seq<Rule>, rules: seq<Rule>) {
    && |four| == 4 && Distinct(four)
    && four[0].target.Drop? && four[1].target.Accept? && four[2].target.Drop? && four[3].target.Accept?
    && forall r :: (r in rules ==> r in four) && multiset(rules)[r] <= 1
  }

  /** The four rules after `j` of their six commands. */
  lemma AfterSome(four: seq<Rule>, rules: seq<Rule>, j: nat)
    requires FourOnce(four, rules) && j <= 6
    ensures Exec(rules, SixCommands(four)[..j])
         == if j <= 4 then Filter(rules, r => r !in four[..j])
            else if j == 5 then [four[3]] else [four[3], four[2]]
  {
    var n := if j <= 4 then j else 4;
    PruneIsExec(rules, four[..n]);
    assert Distinct(four[..n]);
    PruneSingles(rules, four[..n]);
    assert Deletes(four[..n]) == SixCommands(four)[..n];
    if j > 4 {
      assert four[..4] == four;
      FilterKeepsNone(rules, r => r !in four[..4]);
      AppendIsExec([], if j == 5 then [four[3]] else [four[3], four[2]]);
      assert SixCommands(four)[..j]
          == SixCommands(four)[..4] + Appends(if j == 5 then [four[3]] else [four[3], four[2]]);
      ExecConcat(rules, SixCommands(four)[..4], Appends(if j == 5 then [four[3]] else [four[3], four[2]]));
    }
  }

  lemma {:induction false} FirstOf(rules: seq<Rule>, keep: Rule -> bool)
    ensures Filter(rules, keep) != [] ==> Filter(rules, keep)[0] in rules && keep(Filter(rules, keep)[0])
    ensures rules != [] && keep(rules[0]) ==> Filter(rules, keep) != [] && Filter(rules, keep)[0] == rules[0]
  {
    if rules != [] { FirstOf(rules[1..], keep); }
  }

  lemma LetsAfter(four: seq<Rule>, rules: seq<Rule>, j: nat)
    requires FourOnce(four, rules) && j <= 6
    ensures var now := Exec(rules, SixCommands(four)[..j]);
            match j
            case 0 => now == rules
            case 1 => Lets(rules) ==> Lets(now)
            case 2 => now == Filter(rules, r => r in four[2..])
            case _ => Lets(now)
  {
    AfterSome(four, rules, j);
    if j == 0 {
      FilterKeepsAll(rules, r => r !in four[..0]);
    } else if j == 2 {
      assert four == four[..2] + four[2..];
      SameFilter(rules, r => r !in four[..2], r => r in four[2..]);
    } else if j <= 4 {
      FirstOf(rules, r => r !in four[..j]);
      assert j >= 3 ==> forall r :: r in four && r !in four[..j] ==> r == four[3];
    }
  }

  /** The peer is let through at every point if and only if it is at the start, and would
      be if only the interface-scoped rules were there. */
  lemma LetThroughout(four: seq<Rule>, rules: seq<Rule>)
    requires FourOnce(four, rules)
    ensures (forall j :: 0 <= j <= 6 ==> Lets(Exec(rules, SixCommands(four)[..j])))
            <==> Lets(rules) && Lets(Filter(rules, r => r in four[2..]))
  {
    forall j | 0 <= j <= 6 && Lets(rules) && Lets(Filter(rules, r => r in four[2..]))
      ensures Lets(Exec(rules, SixCommands(four)[..j]))
    {
      LetsAfter(four, rules, j);
    }
    LetsAfter(four, rules, 0);
    LetsAfter(four, rules, 2);
  }

  lemma VerdictOfMatching(rules: seq<Rule>, p: Packet)
    requires forall r :: r in rules ==> Matches(r, p) && (r.target.Accept? || r.target.Drop?)
    ensures VerdictOn(rules, p) == Dropped <==> !Lets(rules)
  {
  }

  /** The managed verdict is decided by the four rules alone. */
  lemma VerdictOfFour(cl: Cluster, ports: seq<nat>, chain: seq<Rule>, p: Packet)
    requires Guarded(cl, ports, p) && p.source in cl.peers
    ensures var four := Four(cl, p.dport, p.source);
            var rules := Filter(chain, r => r in four);
            && (ManagedVerdict(cl, ports, chain, p, AnyForm) == Dropped <==> !Lets(rules))
            && (ManagedVerdict(cl, ports, chain, p, ScopedForm) == Dropped
                <==> !Lets(Filter(rules, r => r in four[2..])))
  {
    var four := Four(cl, p.dport, p.source);
    forall r ensures Managed(cl, ports, r) && Matches(r, p) <==> r in four { FourMatch(cl, ports, p, r); }
    OnlyMatching(cl, ports, chain, p, AnyForm, r => r in four);
    assert forall r :: r in four && ScopedForm(r) <==> r in four[2..];
    OnlyMatching(cl, ports, chain, p, ScopedForm, r => r in four[2..]);
    FilterTwice(chain, r => r in four, r => r in four[2..], r => r in four[2..]);
  }

  lemma OnlyMatching(cl: Cluster, ports: seq<nat>, chain: seq<Rule>, p: Packet, form: Rule -> bool, keep: Rule -> bool)
    requires forall r :: keep(r) <==> Managed(cl, ports, r) && Matches(r, p) && form(r)
    ensures ManagedVerdict(cl, ports, chain, p, form) == Dropped <==> !Lets(Filter(chain, keep))
  {
    var managed := Filter(chain, r => Managed(cl, ports, r) && form(r));
    FilterTwice(chain, r => Managed(cl, ports, r) && form(r), keep, keep);
    FilterMembers(chain, r => Managed(cl, ports, r) && form(r));
    VerdictIgnores(managed, keep, p);
    FilterMembers(chain, keep);
    VerdictOfMatching(Filter(chain, keep), p);
  }

  lemma {:induction false} FilterMembers(chain: seq<Rule>, keep: Rule -> bool)
    ensures forall r :: r in Filter(chain, keep) <==> r in chain && keep(r)
  {
    if chain != [] { FilterMembers(chain[1..], keep); }
  }

  lemma FourIsFourOnce(cl: Cluster, ports: seq<nat>, chain: seq<Rule>, p: Packet)
    requires SingleCopies(cl, ports, chain) && Guarded(cl, ports, p) && p.source in cl.peers
    ensures FourOnce(Four(cl, p.dport, p.source), Filter(chain, r => r in Four(cl, p.dport, p.source)))
  {
    var four := Four(cl, p.dport, p.source);
    var keep := r => r in four;
    FilterMembers(chain, keep);
    forall r ensures multiset(Filter(chain, keep))[r] <= 1 {
      FilterCounts(chain, keep, r);
      FourMatch(cl, ports, p, r);
    }
  }

  /** The four rules in the middle of a run, seen from the six commands. */
  lemma FourDuringRun(cl: Cluster, ports: seq<nat>, chain: seq<Rule>, k: nat, p: Packet) returns (j: nat)
    requires Distinct(ports) && Distinct(cl.peers) && k <= |Program(cl, ports)|
    requires Guarded(cl, ports, p) && p.source in cl.peers
    ensures var four := Four(cl, p.dport, p.source);
            var keep := r => r in four;
            && j <= 6
            && FilterCommands(Program(cl, ports)[..k], keep) == SixCommands(four)[..j]
            && Filter(Exec(chain, Program(cl, ports)[..k]), keep) == Exec(Filter(chain, keep), SixCommands(four)[..j])
  {
    var keep := r => r in Four(cl, p.dport, p.source);
    SixFor(cl, ports, p);
    FilterPrefix(Program(cl, ports), k, keep);
    FilterExec(chain, Program(cl, ports)[..k], keep);
    j := |FilterCommands(Program(cl, ports)[..k], keep)|;
  }

  lemma SixFor(cl: Cluster, ports: seq<nat>, p: Packet)
    requires Distinct(ports) && Distinct(cl.peers) && Guarded(cl, ports, p) && p.source in cl.peers
    ensures var four := Four(cl, p.dport, p.source);
            FilterCommands(Program(cl, ports), r => r in four) == SixCommands(four)
  {
    var four := Four(cl, p.dport, p.source);
    var keep := r => r in four;
    CommandsFor(cl, ports, p.dport, keep);
    FilterToFour(cl, p.dport, p.source, keep);
    assert Appends([four[3], four[2]]) == [Append(four[3]), Append(four[2])];
  }

  /** After `k` commands, the managed rules drop the packet. */
  predicate DropsAfter(cl: Cluster, ports: seq<nat>, chain: seq<Rule>, p: Packet, k: nat)
    requires k <= |Program(cl, ports)|
  {
    ManagedVerdict(cl, ports, Exec(chain, Program(cl, ports)[..k]), p, AnyForm) == Dropped
  }

  lemma StepSeenFromFour(cl: Cluster, ports: seq<nat>, chain: seq<Rule>, p: Packet, k: nat) returns (j: nat)
    requires Distinct(ports) && Distinct(cl.peers) && Guarded(cl, ports, p) && p.source in cl.peers
    requires k <= |Program(cl, ports)|
    ensures var four := Four(cl, p.dport, p.source);
            j <= 6
            && (DropsAfter(cl, ports, chain, p, k)
                <==> !Lets(Exec(Filter(chain, r => r in four), SixCommands(four)[..j])))
  {
    j := FourDuringRun(cl, ports, chain, k, p);
    VerdictOfFour(cl, ports, Exec(chain, Program(cl, ports)[..k]), p);
  }

  lemma StepOfFourSeen(cl: Cluster, ports: seq<nat>, chain: seq<Rule>, p: Packet, j: nat) returns (k: nat)
    requires Distinct(ports) && Distinct(cl.peers) && Guarded(cl, ports, p) && p.source in cl.peers
    requires j <= 6
    ensures var four := Four(cl, p.dport, p.source);
            k <= |Program(cl, ports)|
            && (DropsAfter(cl, ports, chain, p, k)
                <==> !Lets(Exec(Filter(chain, r => r in four), SixCommands(four)[..j])))
  {
    var keep := r => r in Four(cl, p.dport, p.source);
    SixFor(cl, ports, p);
    k := PrefixReached(Program(cl, ports), j, keep);
    FilterExec(chain, Program(cl, ports)[..k], keep);
    VerdictOfFour(cl, ports, Exec(chain, Program(cl, ports)[..k]), p);
  }

  /** The four rules that match the peer's packet, as they are in the chain, without the
      first copies of those that the script has deleted after `n` of its deletions. */
  function FourWithout(cl: Cluster, chain: seq<Rule>, p: Packet, n: nat): seq<Rule>
    requires n <= 4
  {
    var four := Four(cl, p.dport, p.source);
    Prune(Filter(chain, r => r in four), four[..n])
  }

  /** The deletions of the four rules decide; the ACCEPT is appended before the DROP. */
  lemma SixAreFive(four: seq<Rule>, rules: seq<Rule>)
    requires |four| == 4 && four[3].target.Accept?
    ensures (forall j :: 0 <= j <= 6 ==> Lets(Exec(rules, SixCommands(four)[..j])))
            <==> (forall n :: 0 <= n <= 4 ==> Lets(Prune(rules, four[..n])))
  {
    forall n | 0 <= n <= 4 ensures Exec(rules, SixCommands(four)[..n]) == Prune(rules, four[..n]) {
      assert SixCommands(four)[..n] == Deletes(four[..n]);
      PruneIsExec(rules, four[..n]);
    }
    forall j | 5 <= j <= 6
      ensures Lets(Exec(rules, SixCommands(four)[..j])) <==> Lets(Prune(rules, four[..4]))
    {
      var back := if j == 5 then [four[3]] else [four[3], four[2]];
      assert SixCommands(four)[..j] == SixCommands(four)[..4] + Appends(back);
      ExecConcat(rules, SixCommands(four)[..4], Appends(back));
      AppendIsExec(Exec(rules, SixCommands(four)[..4]), back);
    }
  }

  /** From any chain, duplicates included: at no point of a run do the managed rules drop a
      peer's packet, if and only if they do not at the start and after none of the four
      deletions that concern it. */
  lemma PeersDuringRun(cl: Cluster, ports: seq<nat>, chain: seq<Rule>, p: Packet)
    requires Distinct(ports) && Distinct(cl.peers) && Guarded(cl, ports, p) && p.source in cl.peers
    ensures (forall k :: 0 <= k <= |Program(cl, ports)| ==> !DropsAfter(cl, ports, chain, p, k))
            <==> (forall n :: 0 <= n <= 4 ==> Lets(FourWithout(cl, chain, p, n)))
  {
    hide DropsAfter, Program;
    var four := Four(cl, p.dport, p.source);
    var rules := Filter(chain, r => r in four);
    SixAreFive(four, rules);
    if forall j :: 0 <= j <= 6 ==> Lets(Exec(rules, SixCommands(four)[..j])) {
      forall k | 0 <= k <= |Program(cl, ports)| ensures !DropsAfter(cl, ports, chain, p, k) {
        var j := StepSeenFromFour(cl, ports, chain, p, k);
      }
    } else {
      var j: nat :| j <= 6 && !Lets(Exec(rules, SixCommands(four)[..j]));
      var k := StepOfFourSeen(cl, ports, chain, p, j);
    }
    assert forall n :: 0 <= n <= 4 ==> FourWithout(cl, chain, p, n) == Prune(rules, four[..n]);
  }

  /**
    Availability. At no point of a run do the managed rules drop a peer's packet on a
    guarded port, if and only if they do not drop it at the start and after none of the
    deletions that concern it. From single copies, that is if and only if they do not
    drop it at the start and the interface-scoped ones among them would not either:
    every DROP is deleted before the ACCEPTs of its form and appended after them.
   */
  lemma PeersStayReachable(cl: Cluster, ports: seq<nat>, chain: seq<Rule>, p: Packet)
    requires Distinct(ports) && Distinct(cl.peers)
    requires Guarded(cl, ports, p) && p.source in cl.peers
    ensures var always := forall k :: 0 <= k <= |Program(cl, ports)| ==> !DropsAfter(cl, ports, chain, p, k);
            && (always <==> forall n :: 0 <= n <= 4 ==> Lets(FourWithout(cl, chain, p, n)))
            && (SingleCopies(cl, ports, chain) ==>
                  (always <==> ManagedVerdict(cl, ports, chain, p, AnyForm) != Dropped
                               && ManagedVerdict(cl, ports, chain, p, ScopedForm) != Dropped))
  {
    hide DropsAfter, Program, ManagedVerdict, FourWithout;
    PeersDuringRun(cl, ports, chain, p);
    if SingleCopies(cl, ports, chain) { PeersFromSingles(cl, ports, chain, p); }
  }

  lemma PeersFromSingles(cl: Cluster, ports: seq<nat>, chain: seq<Rule>, p: Packet)
    requires Distinct(ports) && Distinct(cl.peers) && SingleCopies(cl, ports, chain)
    requires Guarded(cl, ports, p) && p.source in cl.peers
    ensures (forall n :: 0 <= n <= 4 ==> Lets(FourWithout(cl, chain, p, n)))
            <==> ManagedVerdict(cl, ports, chain, p, AnyForm) != Dropped
                 && ManagedVerdict(cl, ports, chain, p, ScopedForm) != Dropped
  {
    var four := Four(cl, p.dport, p.source);
    var rules := Filter(chain, r => r in four);
    FourIsFourOnce(cl, ports, chain, p);
    hide SingleCopies, ManagedVerdict, Managed;
    LetThroughout(four, rules);
    SixAreFive(four, rules);
    VerdictOfFour(cl, ports, chain, p);
    assert forall n :: 0 <= n <= 4 ==> FourWithout(cl, chain, p, n) == Prune(rules, four[..n]);
  }

  /** The condition can fail: here a peer is let in by the interface-agnostic ACCEPT, which
      is deleted while the interface-scoped DROP still stands before its ACCEPT. */
  lemma PeerIsDroppedDuringRun(cl: Cluster, port: nat, peer: Ip) returns (k: nat)
    requires Distinct(cl.peers) && peer in cl.peers
    ensures var chain := [OldAccept(port, peer), NewDrop(cl, port), NewAccept(cl, port, peer)];
            var p := Packet(true, cl.extIf, port, peer, {});
            && VerdictOn(chain, p) == Accepted
            && k <= |Program(cl, [port])| && DropsAfter(cl, [port], chain, p, k)
  {
    var chain := [OldAccept(port, peer), NewDrop(cl, port), NewAccept(cl, port, peer)];
    var p := Packet(true, cl.extIf, port, peer, {});
    var four := Four(cl, port, peer);
    FilterKeepsAll(chain, r => r in four);
    assert four[..2] == [OldDrop(port), OldAccept(port, peer)];
    assert four[..2][1..] == [OldAccept(port, peer)];
    assert FourWithout(cl, chain, p, 2) == Prune(chain, four[..2]);
    RemoveAbsent(chain, OldDrop(port));
    assert Prune(chain, four[..2]) == Prune(chain, [OldAccept(port, peer)]);
    assert [OldAccept(port, peer)][1..] == [];
    assert Prune(chain, [OldAccept(port, peer)]) == Prune(chain[1..], [OldAccept(port, peer)][1..]);
    assert FourWithout(cl, chain, p, 2) == chain[1..];
    PeersDuringRun(cl, [port], chain, p);
    k :| 0 <= k <= |Program(cl, [port])| && DropsAfter(cl, [port], chain, p, k);
  }

  // ---------- outsiders during a run ----------

  /** The two managed rules that match an outsider's packet, as the script deletes them. */
  function Two(cl: Cluster, port: nat): seq<Rule> { [OldDrop(port), NewDrop(cl, port)] }

  lemma TwoMatch(cl: Cluster, ports: seq<nat>, p: Packet, r: Rule)
    requires Guarded(cl, ports, p) && p.source !in cl.peers
    ensures Managed(cl, ports, r) && Matches(r, p) <==> r in Two(cl, p.dport)
  {
  }

  /** To an outsider the managed rules are those two, and each of them drops. */
  lemma VerdictOfTwo(cl: Cluster, ports: seq<nat>, chain: seq<Rule>, p: Packet)
    requires Guarded(cl, ports, p) && p.source !in cl.peers
    ensures ManagedVerdict(cl, ports, chain, p, AnyForm) == Dropped
            <==> Filter(chain, r => r in Two(cl, p.dport)) != []
  {
    var keep := r => r in Two(cl, p.dport);
    forall r ensures Managed(cl, ports, r) && Matches(r, p) <==> keep(r) { TwoMatch(cl, ports, p, r); }
    OnlyMatching(cl, ports, chain, p, AnyForm, keep);
    FilterMembers(chain, keep);
    var rules := Filter(chain, keep);
    assert rules != [] ==> rules[0] in rules;
  }

  lemma TwoInPass(cl: Cluster, port: nat)
    ensures Filter(ManagedBy(cl, port), r => r in Two(cl, port)) == Two(cl, port)
    ensures Filter(Block(cl, port), r => r in Two(cl, port)) == [NewDrop(cl, port)]
  {
    var keep := r => r in Two(cl, port);
    var oldDrop, newDrop := [OldDrop(port)], [NewDrop(cl, port)];
    FilterKeepsAll(oldDrop, keep);
    FilterKeepsAll(newDrop, keep);
    FilterKeepsNone(OldAccepts(cl, port), keep);
    FilterKeepsNone(NewAccepts(cl, port), keep);
    FilterConcat(oldDrop + OldAccepts(cl, port) + newDrop, NewAccepts(cl, port), keep);
    FilterConcat(oldDrop + OldAccepts(cl, port), newDrop, keep);
    FilterConcat(oldDrop, OldAccepts(cl, port), keep);
    FilterConcat(NewAccepts(cl, port), newDrop, keep);
  }

  /** There is a point of a run at which both DROPs of a port have been deleted once and
      none has been appended. */
  lemma CutBehindDrops(cl: Cluster, ports: seq<nat>, chain: seq<Rule>, port: nat) returns (k: nat)
    requires Distinct(ports) && port in ports
    ensures k <= |Program(cl, ports)|
    ensures var keep := r => r in Two(cl, port);
            Filter(Exec(chain, Program(cl, ports)[..k]), keep) == Prune(Filter(chain, keep), Two(cl, port))
  {
    var keep := r => r in Two(cl, port);
    var two, commands := Two(cl, port), Program(cl, ports);
    TwoInPass(cl, port);
    CommandsFor(cl, ports, port, keep);
    assert FilterCommands(commands, keep) == Deletes(two) + Appends([NewDrop(cl, port)]);
    k := PrefixReached(commands, 2, keep);
    assert FilterCommands(commands[..k], keep) == Deletes(two);
    FilterExec(chain, commands[..k], keep);
    PruneIsExec(Filter(chain, keep), two);
  }

  /** Of a rule that is there twice one copy is left at every point of a run. */
  lemma DuplicateRemains(cl: Cluster, ports: seq<nat>, chain: seq<Rule>, k: nat, r: Rule)
    requires Distinct(ports) && Distinct(cl.peers) && k <= |Program(cl, ports)|
    requires Managed(cl, ports, r) && multiset(chain)[r] >= 2
    ensures r in Exec(chain, Program(cl, ports)[..k])
  {
    var keep := x => x == r;
    var port, commands := r.dport.value, Program(cl, ports);
    ManagedByIsDistinct(cl, port);
    FilterToOne(ManagedBy(cl, port), keep, r);
    if r in Block(cl, port) { FilterToOne(Block(cl, port), keep, r); } else { FilterKeepsNone(Block(cl, port), keep); }
    CommandsFor(cl, ports, port, keep);
    FilterPrefix(commands, k, keep);
    FilterExec(chain, commands[..k], keep);
    FilterCounts(chain, keep, r);
    FilterCounts(Exec(chain, commands[..k]), keep, r);
    DeleteLeavesOne(Filter(chain, keep), FilterCommands(commands[..k], keep), r);
  }

  lemma DeleteLeavesOne(chain: seq<Rule>, commands: seq<Command>, r: Rule)
    requires multiset(chain)[r] >= 2 && commands <= [Delete(r), Append(r)]
    ensures multiset(Exec(chain, commands))[r] >= 1
  {
    RemoveCount(chain, r);
    if |commands| == 1 {
      assert commands == [Delete(r)] && commands[1..] == [];
    } else if |commands| == 2 {
      assert commands == [Delete(r), Append(r)] && commands[1..] == [Append(r)] && [Append(r)][1..] == [];
      assert Exec(RemoveFirst(chain, r), [Append(r)]) == Exec(RemoveFirst(chain, r) + [r], [Append(r)][1..]);
    }
  }

  /** Two copies of one of the port's DROPs. */
  predicate DropIsDuplicated(cl: Cluster, chain: seq<Rule>, port: nat) {
    multiset(chain)[OldDrop(port)] >= 2 || multiset(chain)[NewDrop(cl, port)] >= 2
  }

  /**
    The other side of availability. The managed rules drop an outsider's packet on a
    guarded port at every point of a run, if and only if one of the port's DROPs was there
    twice: otherwise both are gone between the deletions and the append.
   */
  lemma OutsidersDuringRun(cl: Cluster, ports: seq<nat>, chain: seq<Rule>, p: Packet)
    requires Distinct(ports) && Distinct(cl.peers) && Guarded(cl, ports, p) && p.source !in cl.peers
    ensures (forall k :: 0 <= k <= |Program(cl, ports)| ==> DropsAfter(cl, ports, chain, p, k))
            <==> DropIsDuplicated(cl, chain, p.dport)
  {
    hide Program, ManagedVerdict;
    if DropIsDuplicated(cl, chain, p.dport) {
      forall k | 0 <= k <= |Program(cl, ports)| ensures DropsAfter(cl, ports, chain, p, k) {
        DropRemains(cl, ports, chain, p, k);
      }
    } else {
      var k := NoDropLeft(cl, ports, chain, p);
    }
  }

  lemma DropRemains(cl: Cluster, ports: seq<nat>, chain: seq<Rule>, p: Packet, k: nat)
    requires Distinct(ports) && Distinct(cl.peers) && Guarded(cl, ports, p) && p.source !in cl.peers
    requires k <= |Program(cl, ports)| && DropIsDuplicated(cl, chain, p.dport)
    ensures DropsAfter(cl, ports, chain, p, k)
  {
    var r := if multiset(chain)[OldDrop(p.dport)] >= 2 then OldDrop(p.dport) else NewDrop(cl, p.dport);
    var now := Exec(chain, Program(cl, ports)[..k]);
    TwoMatch(cl, ports, p, r);
    DuplicateRemains(cl, ports, chain, k, r);
    VerdictOfTwo(cl, ports, now, p);
    FilterMembers(now, x => x in Two(cl, p.dport));
  }

  lemma NoDropLeft(cl: Cluster, ports: seq<nat>, chain: seq<Rule>, p: Packet) returns (k: nat)
    requires Distinct(ports) && Guarded(cl, ports, p) && p.source !in cl.peers
    requires !DropIsDuplicated(cl, chain, p.dport)
    ensures k <= |Program(cl, ports)| && !DropsAfter(cl, ports, chain, p, k)
  {
    var keep := r => r in Two(cl, p.dport);
    k := CutBehindDrops(cl, ports, chain, p.dport);
    VerdictOfTwo(cl, ports, Exec(chain, Program(cl, ports)[..k]), p);
    var left := Prune(Filter(chain, keep), Two(cl, p.dport));
    forall r ensures multiset(left)[r] == 0 {
      PruneCount(Filter(chain, keep), Two(cl, p.dport), r);
      FilterCounts(chain, keep, r);
    }
    assert multiset(left) == multiset{};
    assert |left| == |multiset(left)|;
  }

  /** From the chain that holds just the DROP, a run lets an outsider through for a while. */
  lemma OutsiderPassesDuringRun(cl: Cluster, port: nat, source: Ip) returns (k: nat)
    requires Distinct(cl.peers) && source !in cl.peers
    ensures var p := Packet(true, cl.extIf, port, source, {});
            && VerdictOn([NewDrop(cl, port)], p) == Dropped
            && k <= |Program(cl, [port])| && !DropsAfter(cl, [port], [NewDrop(cl, port)], p, k)
            && VerdictOn(Exec([NewDrop(cl, port)], Program(cl, [port])), p) == Dropped
  {
    var chain, p := [NewDrop(cl, port)], Packet(true, cl.extIf, port, source, {});
    assert multiset(chain)[NewDrop(cl, port)] == 1;
    k := NoDropLeft(cl, [port], chain, p);
    forall r | Managed(cl, [port], r) ensures multiset(chain)[r] <= 1 {}
    VerdictAfterRun(cl, [port], chain, p);
    assert NewDrop(cl, port) in ManagedBy(cl, port);
    FilterKeepsNone(chain, r => !Managed(cl, [port], r));
  }
}
