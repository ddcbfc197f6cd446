/**
 * What the inventory transformer promises, proved about its specification
 * (Ec2Inventory.Generate, which GenerateInventory is proved to compute):
 * which instances are kept, the order of the hosts, the lock-step between the
 * hosts and the host variables, the constant records, and the document shape.
 */
module Ec2InventoryProperties {
  import opened Ec2Inventory

  /** Reference definition of the hosts: the public address of every kept
      instance, in order, with nothing removed or merged. */
  function Addresses(xs: seq<Instance>): (hosts: seq<string>)
    ensures |hosts| <= |xs|
    ensures forall h :: h in hosts ==> h != ""
  {
    if xs == [] then [] else KeptAddress(xs[0]) + Addresses(xs[1..])
  }

  /** The address an instance contributes: its own if it is kept, else none. */
  function KeptAddress(i: Instance): (kept: seq<string>)
  {
    if Qualifies(i) then [i.publicIpAddress.value] else []
  }

  predicate Distinct(s: seq<string>)
  {
    forall i, j :: 0 <= i < j < |s| ==> s[i] != s[j]
  }

  lemma {:induction false} AddressesConcat(xs: seq<Instance>, ys: seq<Instance>)
    ensures Addresses(xs + ys) == Addresses(xs) + Addresses(ys)
  {
    if xs == [] {
      assert xs + ys == ys;
    } else {
      calc {
        Addresses(xs + ys);
        { assert (xs + ys)[0] == xs[0]; }
        KeptAddress(xs[0]) + Addresses((xs + ys)[1..]);
        { assert (xs + ys)[1..] == xs[1..] + ys; }
        KeptAddress(xs[0]) + Addresses(xs[1..] + ys);
        { AddressesConcat(xs[1..], ys); }
        KeptAddress(xs[0]) + (Addresses(xs[1..]) + Addresses(ys));
        Addresses(xs) + Addresses(ys);
      }
    }
  }

  /** An address is among the hosts exactly when some kept instance has it. */
  lemma {:induction false} AddressesMembership(xs: seq<Instance>, h: string)
    ensures h in Addresses(xs) <==>
            exists k :: 0 <= k < |xs| && Qualifies(xs[k]) && xs[k].publicIpAddress == Some(h)
  {
    if xs != [] {
      AddressesMembership(xs[1..], h);
      if h in Addresses(xs) {
        if !(Qualifies(xs[0]) && xs[0].publicIpAddress == Some(h)) {
          var k :| 0 <= k < |xs[1..]| && Qualifies(xs[1..][k]) && xs[1..][k].publicIpAddress == Some(h);
          assert xs[k + 1] == xs[1..][k];
        }
      }
      if exists k :: 0 <= k < |xs| && Qualifies(xs[k]) && xs[k].publicIpAddress == Some(h) {
        var k :| 0 <= k < |xs| && Qualifies(xs[k]) && xs[k].publicIpAddress == Some(h);
        if k > 0 {
          assert xs[1..][k - 1] == xs[k];
        }
      }
    }
  }

  /** The hosts of the document are exactly the addresses of the kept
      instances, in the order the instances were seen. */
  lemma {:induction false} BuildHosts(xs: seq<Instance>)
    ensures Build(xs).ec2Hosts.hosts == Addresses(xs)
  {
    if xs != [] {
      var init, last := xs[..|xs| - 1], xs[|xs| - 1];
      BuildHosts(init);
      AddressesConcat(init, [last]);
      assert init + [last] == xs;
      assert [last][1..] == [];
    }
  }

  /** The invariant every step keeps: an address is a host exactly when it has
      host variables, every host-variable record is the constant one, and the
      group variables stay empty. */
  ghost predicate LockStep(inv: Inventory)
  {
    (forall h :: h in inv.ec2Hosts.hosts <==> h in inv.meta.hostvars) &&
    (forall h :: h in inv.meta.hostvars ==> inv.meta.hostvars[h] == ConnectionVars) &&
    inv.ec2Hosts.vars == map[]
  }

  lemma {:induction false} BuildLockStep(xs: seq<Instance>)
    ensures LockStep(Build(xs))
    ensures |Build(xs).meta.hostvars| <= |Build(xs).ec2Hosts.hosts|
    ensures Distinct(Build(xs).ec2Hosts.hosts) ==> |Build(xs).meta.hostvars| == |Build(xs).ec2Hosts.hosts|
  {
    if xs != [] {
      var init := xs[..|xs| - 1];
      var before := Build(init);
      BuildLockStep(init);
      var after := Build(xs);
      if after != before {
        var ip := xs[|xs| - 1].publicIpAddress.value;
        assert after.ec2Hosts.hosts == before.ec2Hosts.hosts + [ip];
        assert after.meta.hostvars == before.meta.hostvars[ip := ConnectionVars];
        if Distinct(after.ec2Hosts.hosts) {
          var n := |before.ec2Hosts.hosts|;
          assert Distinct(before.ec2Hosts.hosts) by {
            forall i, j | 0 <= i < j < n
              ensures before.ec2Hosts.hosts[i] != before.ec2Hosts.hosts[j]
            {
              assert after.ec2Hosts.hosts[i] == before.ec2Hosts.hosts[i];
              assert after.ec2Hosts.hosts[j] == before.ec2Hosts.hosts[j];
            }
          }
          assert ip !in before.ec2Hosts.hosts by {
            forall i | 0 <= i < n ensures before.ec2Hosts.hosts[i] != ip {
              assert after.ec2Hosts.hosts[i] == before.ec2Hosts.hosts[i];
              assert after.ec2Hosts.hosts[n] == ip;
            }
          }
        }
      }
    }
  }

  /** An instance that is not running, or whose address is absent or empty,
      leaves no trace: removing it from anywhere in the input changes nothing. */
  lemma {:induction false} ExcludedInstanceLeavesNoTrace(xs: seq<Instance>, i: Instance, ys: seq<Instance>)
    requires !Qualifies(i)
    ensures Build(xs + [i] + ys) == Build(xs + ys)
  {
    if ys == [] {
      assert xs + [i] + ys == xs + [i];
      assert (xs + [i])[..|xs|] == xs;
      assert xs + ys == xs;
    } else {
      var init := ys[..|ys| - 1];
      ExcludedInstanceLeavesNoTrace(xs, i, init);
      assert (xs + [i] + ys)[..|xs| + 1 + |init|] == xs + [i] + init;
      assert (xs + ys)[..|xs| + |init|] == xs + init;
    }
  }

  lemma {:induction false} FlattenConcat(rs1: seq<Reservation>, rs2: seq<Reservation>)
    requires HasInstancesKey(rs1) && HasInstancesKey(rs2)
    ensures HasInstancesKey(rs1 + rs2)
    ensures Flatten(rs1 + rs2) == Flatten(rs1) + Flatten(rs2)
  {
    if rs2 == [] {
      assert rs1 + rs2 == rs1;
    } else {
      var init := rs2[..|rs2| - 1];
      FlattenConcat(rs1, init);
      assert (rs1 + rs2)[..|rs1 + rs2| - 1] == rs1 + init;
    }
  }

  /** The hosts of the document are the kept addresses of the flattened input. */
  lemma GenerateHosts(rs: seq<Reservation>)
    requires HasInstancesKey(rs)
    ensures Generate(rs).ec2Hosts.hosts == Addresses(Flatten(rs))
  {
    BuildHosts(Flatten(rs));
  }

  /** Reservation order comes first: the hosts of a concatenation of
      reservation lists are the hosts of the first followed by those of the
      second. */
  lemma HostsFollowReservationOrder(rs1: seq<Reservation>, rs2: seq<Reservation>)
    requires HasInstancesKey(rs1) && HasInstancesKey(rs2)
    ensures HasInstancesKey(rs1 + rs2)
    ensures Generate(rs1 + rs2).ec2Hosts.hosts == Generate(rs1).ec2Hosts.hosts + Generate(rs2).ec2Hosts.hosts
  {
    FlattenConcat(rs1, rs2);
    GenerateHosts(rs1);
    GenerateHosts(rs2);
    GenerateHosts(rs1 + rs2);
    AddressesConcat(Flatten(rs1), Flatten(rs2));
  }

  /** An address is a host, and has host variables, exactly when some running
      instance in some reservation has it as its (non-empty) public address;
      its host variables are then the constant record. */
  lemma GenerateMembership(rs: seq<Reservation>, h: string)
    requires HasInstancesKey(rs)
    ensures h in Generate(rs).ec2Hosts.hosts <==>
            exists k :: 0 <= k < |Flatten(rs)| && Qualifies(Flatten(rs)[k]) && Flatten(rs)[k].publicIpAddress == Some(h)
    ensures h in Generate(rs).ec2Hosts.hosts <==> h in Generate(rs).meta.hostvars
    ensures h in Generate(rs).meta.hostvars ==> Generate(rs).meta.hostvars[h] == ConnectionVars
  {
    GenerateHosts(rs);
    AddressesMembership(Flatten(rs), h);
    BuildLockStep(Flatten(rs));
  }

  /** The document is the empty one exactly when no instance is kept; in
      particular an empty reservation list gives the empty document. */
  lemma GenerateEmpty(rs: seq<Reservation>)
    requires HasInstancesKey(rs)
    ensures Generate([]) == EmptyInventory
    ensures Generate(rs) == EmptyInventory <==> forall k :: 0 <= k < |Flatten(rs)| ==> !Qualifies(Flatten(rs)[k])
  {
    var xs := Flatten(rs);
    var inv := Generate(rs);
    GenerateHosts(rs);
    BuildLockStep(xs);
    if exists k :: 0 <= k < |xs| && Qualifies(xs[k]) {
      var k :| 0 <= k < |xs| && Qualifies(xs[k]);
      AddressesMembership(xs, xs[k].publicIpAddress.value);
      assert inv.ec2Hosts.hosts != [];
    } else {
      if inv.ec2Hosts.hosts != [] {
        AddressesMembership(xs, inv.ec2Hosts.hosts[0]);
        assert false;
      }
      assert inv.meta.hostvars == map[];
    }
  }

  /** Addresses are not de-duplicated: two kept instances with the same
      address, wherever they stand in the input, give that address twice in
      the hosts (with the hosts of the instances between them in the middle)
      and a single hostvars key holding the constant record. */
  lemma DuplicateAddressKept(xs: seq<Instance>, x: Instance, zs: seq<Instance>, y: Instance, ws: seq<Instance>)
    requires Qualifies(x) && Qualifies(y) && x.publicIpAddress == y.publicIpAddress
    ensures var ip := x.publicIpAddress.value;
            var inv := Build(xs + [x] + zs + [y] + ws);
            inv.ec2Hosts.hosts == Addresses(xs) + [ip] + Addresses(zs) + [ip] + Addresses(ws) &&
            (forall h :: h in inv.meta.hostvars <==>
               h == ip || h in Addresses(xs) || h in Addresses(zs) || h in Addresses(ws)) &&
            inv.meta.hostvars[ip] == ConnectionVars
  {
    var ip := x.publicIpAddress.value;
    var all := xs + [x] + zs + [y] + ws;
    var hosts := Addresses(xs) + [ip] + Addresses(zs) + [ip] + Addresses(ws);
    AddressesAroundDuplicate(xs, x, zs, y, ws);
    BuildHosts(all);
    BuildLockStep(all);
    assert ip in hosts by { assert hosts[|Addresses(xs)|] == ip; }
    forall h ensures h in hosts <==> h == ip || h in Addresses(xs) || h in Addresses(zs) || h in Addresses(ws) {
      assert h in hosts <==> h in Addresses(xs) + [ip] + Addresses(zs) + [ip] || h in Addresses(ws);
      assert h in Addresses(xs) + [ip] + Addresses(zs) + [ip] <==> h in Addresses(xs) + [ip] + Addresses(zs) || h == ip;
      assert h in Addresses(xs) + [ip] + Addresses(zs) <==> h in Addresses(xs) + [ip] || h in Addresses(zs);
    }
  }

  lemma AddressesAroundDuplicate(xs: seq<Instance>, x: Instance, zs: seq<Instance>, y: Instance, ws: seq<Instance>)
    requires Qualifies(x) && Qualifies(y) && x.publicIpAddress == y.publicIpAddress
    ensures var ip := x.publicIpAddress.value;
            Addresses(xs + [x] + zs + [y] + ws) == Addresses(xs) + [ip] + Addresses(zs) + [ip] + Addresses(ws)
  {
    var ip := x.publicIpAddress.value;
    var a := xs + [x];
    var b := a + zs;
    var c := b + [y];
    AddressesSingle(x);
    AddressesSingle(y);
    AddressesConcat(xs, [x]);
    assert Addresses(a) == Addresses(xs) + [ip];
    AddressesConcat(a, zs);
    assert Addresses(b) == Addresses(xs) + [ip] + Addresses(zs);
    AddressesConcat(b, [y]);
    assert Addresses(c) == Addresses(xs) + [ip] + Addresses(zs) + [ip];
    AddressesConcat(c, ws);
  }

  lemma AddressesSingle(x: Instance)
    ensures Addresses([x]) == KeptAddress(x)
  {
  }

  /** The document as JSON has exactly the keys "_meta" (holding only
      "hostvars") and "ec2_hosts" (holding "hosts" and an always empty
      "vars"); its hostvars keys are the hosts, each with the three constant
      connection settings. */
  lemma DocumentShape(rs: seq<Reservation>)
    requires HasInstancesKey(rs)
    ensures var d := ToJson(Generate(rs));
            d.JObject? && d.fields.Keys == {"_meta", "ec2_hosts"} &&
            d.fields["_meta"].JObject? && d.fields["_meta"].fields.Keys == {"hostvars"} &&
            d.fields["ec2_hosts"].JObject? && d.fields["ec2_hosts"].fields.Keys == {"hosts", "vars"} &&
            d.fields["ec2_hosts"].fields["vars"] == JObject(map[])
    ensures var hv := ToJson(Generate(rs)).fields["_meta"].fields["hostvars"];
            hv.JObject? &&
            (forall h :: h in hv.fields <==> h in Generate(rs).ec2Hosts.hosts) &&
            (forall h :: h in hv.fields ==>
               hv.fields[h] == JObject(map["ansible_connection" := JString("ssh"),
                                           "ansible_user" := JString("ubuntu"),
                                           "ansible_ssh_private_key_file" :=
                                             JString("/var/lib/jenkins/.ssh/legacy-java-app-key")]))
  {
    BuildLockStep(Flatten(rs));
  }

  /** Two reservations: a running instance with address 1.2.3.4 and a stopped
      one with 5.6.7.8, then a running one with no address. Only 1.2.3.4 is
      kept. */
  lemma EndToEndExample()
    ensures var running := Instance(Some(Some("running")), Some("1.2.3.4"));
            var stopped := Instance(Some(Some("stopped")), Some("5.6.7.8"));
            var noAddress := Instance(Some(Some("running")), None);
            var rs := [Reservation(Some([running, stopped])), Reservation(Some([noAddress]))];
            HasInstancesKey(rs) &&
            Generate(rs) == Inventory(Meta(map["1.2.3.4" := ConnectionVars]), HostGroup(["1.2.3.4"], map[]))
  {
    var running := Instance(Some(Some("running")), Some("1.2.3.4"));
    var stopped := Instance(Some(Some("stopped")), Some("5.6.7.8"));
    var noAddress := Instance(Some(Some("running")), None);
    var rs := [Reservation(Some([running, stopped])), Reservation(Some([noAddress]))];
    assert rs[..1] == [Reservation(Some([running, stopped]))];
    assert rs[..1][..0] == [];
    assert Flatten(rs[..1]) == [running, stopped];
    var xs := [running, stopped, noAddress];
    assert Flatten(rs) == Flatten(rs[..1]) + [noAddress];
    assert xs[..2] == [running, stopped];
    assert xs[..2][..1] == [running];
    assert [running][..0] == [];
    var kept := Inventory(Meta(map["1.2.3.4" := ConnectionVars]), HostGroup(["1.2.3.4"], map[]));
    assert Build([running]) == kept;
    assert Build([running, stopped]) == kept;
    assert Build(xs) == kept;
  }
}
