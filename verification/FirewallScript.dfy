/** The loop of the firewall script, editing the chain in place. */
module FirewallScript {
  import opened Firewall
  import opened FirewallRun

  class Chain {
    var rules: seq<Rule>

    constructor (rules: seq<Rule>)
      ensures this.rules == rules
    {
      this.rules := rules;
    }

    /** `iptables -D ... || true` */
    method Delete(r: Rule)
      modifies this
      ensures rules == RemoveFirst(old(rules), r)
      ensures multiset(rules) == multiset(old(rules)) - multiset{r}
    {
      RemoveCount(rules, r);
      var i := 0;
      while i < |rules| && rules[i] != r
        invariant 0 <= i <= |rules| && r !in rules[..i]
      {
        i := i + 1;
      }
      assert rules == rules[..i] + rules[i..];
      RemoveAt(rules[..i], rules[i..], r);
      if i < |rules| {
        rules := rules[..i] + rules[i + 1..];
      }
    }

    /** `iptables -A ...` */
    method Append(r: Rule)
      modifies this
      ensures rules == old(rules) + [r]
    {
      rules := rules + [r];
    }

    method DeleteAll(stale: seq<Rule>)
      modifies this
      ensures rules == Exec(old(rules), Deletes(stale))
    {
      assert Deletes(stale)[..0] == [];
      for i := 0 to |stale|
        invariant rules == Exec(old(rules), Deletes(stale)[..i])
      {
        Delete(stale[i]);
        ExecOneMore(old(rules), Deletes(stale), i);
      }
      assert Deletes(stale)[..|stale|] == Deletes(stale);
    }

    method AppendAll(block: seq<Rule>)
      modifies this
      ensures rules == Exec(old(rules), Appends(block))
    {
      assert Appends(block)[..0] == [];
      for i := 0 to |block|
        invariant rules == Exec(old(rules), Appends(block)[..i])
      {
        Append(block[i]);
        ExecOneMore(old(rules), Appends(block), i);
      }
      assert Appends(block)[..|block|] == Appends(block);
    }

    /** One pass per port. From single copies, the result is the canonical chain. */
    method ApplyFirewall(cl: Cluster, ports: seq<nat>)
      requires Distinct(ports) && Distinct(cl.peers)
      modifies this
      ensures rules == Exec(old(rules), Program(cl, ports))
      ensures SingleCopies(cl, ports, old(rules)) ==> rules == Canonical(cl, ports, old(rules))
    {
      for i := 0 to |ports|
        invariant rules == Exec(old(rules), Program(cl, ports[..i]))
      {
        var port := ports[i];
        label pass:
        DeleteAll([OldDrop(port)] + OldAccepts(cl, port) + [NewDrop(cl, port)] + NewAccepts(cl, port));
        AppendAll(NewAccepts(cl, port) + [NewDrop(cl, port)]);
        ExecConcat(old@pass(rules), Deletes(ManagedBy(cl, port)), Appends(Block(cl, port)));
        ProgramOneMore(cl, ports, i);
        ExecConcat(old(rules), Program(cl, ports[..i]), Pass(cl, port));
      }
      assert ports[..|ports|] == ports;
      RunIsCanonical(cl, ports, old(rules));
    }
  }

  lemma {:induction false} RemoveAt(before: seq<Rule>, rest: seq<Rule>, r: Rule)
    requires r !in before && (rest != [] ==> rest[0] == r)
    ensures RemoveFirst(before + rest, r) == before + (if rest == [] then [] else rest[1..])
  {
    if before == [] {
      assert before + rest == rest;
    } else {
      assert (before + rest)[1..] == before[1..] + rest;
      RemoveAt(before[1..], rest, r);
    }
  }

  lemma ExecOneMore(chain: seq<Rule>, commands: seq<Command>, i: nat)
    requires i < |commands|
    ensures Exec(chain, commands[..i + 1]) == Apply(Exec(chain, commands[..i]), commands[i])
  {
    assert commands[..i + 1] == commands[..i] + [commands[i]];
    ExecConcat(chain, commands[..i], [commands[i]]);
    assert [commands[i]][1..] == [];
  }

  lemma {:induction false} ProgramOneMore(cl: Cluster, ports: seq<nat>, i: nat)
    requires i < |ports|
    ensures Program(cl, ports[..i + 1]) == Program(cl, ports[..i]) + Pass(cl, ports[i])
  {
    if i == 0 {
      assert ports[..1][1..] == [];
    } else {
      assert ports[..i + 1][1..] == ports[1..][..i] && ports[..i][1..] == ports[1..][..i - 1];
      ProgramOneMore(cl, ports[1..], i - 1);
    }
  }
}
