/**
 * The Ansible dynamic-inventory transformer for EC2: it turns the reservations
 * returned by an EC2 describe_instances call into the inventory document
 * Ansible reads, keeping only running instances that have a public address.
 *
 * The transformation is specified instance by instance (Step, folded by Build
 * over the flattened reservations) and implemented by GenerateInventory, the
 * nested loop of the original, which is proved equal to that specification.
 */
module Ec2Inventory {

  datatype Option<+T> = None | Some(value: T)

  /** An instance record; only the two attributes the transformer reads are kept.
      `state` is None when the record has no "State" entry and Some(None) when
      "State" has no "Name" entry. */
  datatype Instance = Instance(state: Option<Option<string>>, publicIpAddress: Option<string>)

  /** A reservation; `instances` is None when the record has no "Instances" entry. */
  datatype Reservation = Reservation(instances: Option<seq<Instance>>)

  /** The per-host variables Ansible uses to connect to a host. */
  datatype HostVars = HostVars(ansibleConnection: string, ansibleUser: string, ansibleSshPrivateKeyFile: string)

  /** The "_meta" entry of the document. */
  datatype Meta = Meta(hostvars: map<string, HostVars>)

  /** The "ec2_hosts" group of the document. */
  datatype HostGroup = HostGroup(hosts: seq<string>, vars: map<string, Json>)

  /** The inventory document: {"_meta": {"hostvars": ...}, "ec2_hosts": {"hosts": ..., "vars": ...}}. */
  datatype Inventory = Inventory(meta: Meta, ec2Hosts: HostGroup)

  const Running: string := "running"

  /** The one host-variable record every kept host receives. */
  const ConnectionVars: HostVars :=
    HostVars("ssh", "ubuntu", "/var/lib/jenkins/.ssh/legacy-java-app-key")

  /** The document before any instance is looked at. */
  const EmptyInventory: Inventory := Inventory(Meta(map[]), HostGroup([], map[]))

  /** The state name as read with defaults: a missing "State" reads as an empty
      record, and a missing "Name" reads as no value. */
  function StateName(i: Instance): (name: Option<string>)
  {
    match i.state
    case None => None
    case Some(name) => name
  }

  /** Truthiness of the address: absent and the empty string are both false. */
  predicate Truthy(ip: Option<string>)
  {
    ip.Some? && ip.value != ""
  }

  /** An instance is kept when its state name is exactly "running" and its
      public address is truthy. */
  predicate Qualifies(i: Instance)
  {
    StateName(i) == Some(Running) && Truthy(i.publicIpAddress)
  }

  /** Every reservation has an "Instances" entry (the transformer subscripts it). */
  predicate HasInstancesKey(rs: seq<Reservation>)
  {
    forall r :: r in rs ==> r.instances.Some?
  }

  /** All instances, reservation by reservation, each in its own order. */
  function Flatten(rs: seq<Reservation>): (xs: seq<Instance>)
    requires HasInstancesKey(rs)
  {
    if rs == [] then [] else Flatten(rs[..|rs| - 1]) + rs[|rs| - 1].instances.value
  }

  /** What one instance does to the document: nothing unless it is running and
      has a truthy address; otherwise the address is appended to the hosts and
      its host variables are set (overwriting an entry already there). */
  function Step(inv: Inventory, i: Instance): (next: Inventory)
  {
    if StateName(i) != Some(Running) then inv
    else if !Truthy(i.publicIpAddress) then inv
    else
      var ip := i.publicIpAddress.value;
      Inventory(Meta(inv.meta.hostvars[ip := ConnectionVars]),
                HostGroup(inv.ec2Hosts.hosts + [ip], inv.ec2Hosts.vars))
  }

  /** The document after processing `xs` in order, starting from the empty one. */
  function Build(xs: seq<Instance>): (inv: Inventory)
  {
    if xs == [] then EmptyInventory else Step(Build(xs[..|xs| - 1]), xs[|xs| - 1])
  }

  /** Processing one more instance is one more Step. */
  lemma BuildAppend(xs: seq<Instance>, i: Instance)
    ensures Build(xs + [i]) == Step(Build(xs), i)
  {
  }

  /** The document the transformer produces for `rs`. */
  function Generate(rs: seq<Reservation>): (inv: Inventory)
    requires HasInstancesKey(rs)
  {
    Build(Flatten(rs))
  }

  /** The transformer: a loop over reservations and, inside it, over their
      instances, appending to the hosts and filling in the host variables. */
  method GenerateInventory(reservations: seq<Reservation>) returns (inventory: Inventory)
    requires HasInstancesKey(reservations)
    ensures inventory == Generate(reservations)
  {
    var hosts: seq<string> := [];
    var hostvars: map<string, HostVars> := map[];
    for k := 0 to |reservations|
      invariant Inventory(Meta(hostvars), HostGroup(hosts, map[])) == Build(Flatten(reservations[..k]))
    {
      var instances := reservations[k].instances.value;
      ghost var done := Flatten(reservations[..k]);
      assert done + instances[..0] == done;
      for j := 0 to |instances|
        invariant Inventory(Meta(hostvars), HostGroup(hosts, map[])) == Build(done + instances[..j])
      {
        var instance := instances[j];
        assert done + instances[..j + 1] == (done + instances[..j]) + [instance];
        BuildAppend(done + instances[..j], instance);
        if StateName(instance) != Some(Running) {
          continue;
        }
        var ip := instance.publicIpAddress;
        if !Truthy(ip) {
          continue;
        }
        hosts := hosts + [ip.value];
        hostvars := hostvars[ip.value := ConnectionVars];
      }
      assert reservations[..k + 1][..k] == reservations[..k];
      assert instances[..|instances|] == instances;
    }
    assert reservations[..|reservations|] == reservations;
    inventory := Inventory(Meta(hostvars), HostGroup(hosts, map[]));
  }

  /** A JSON value, enough to show the document with its key names. */
  datatype Json = JString(str: string) | JArray(items: seq<Json>) | JObject(fields: map<string, Json>)

  function HostVarsJson(v: HostVars): (obj: Json)
  {
    JObject(map["ansible_connection" := JString(v.ansibleConnection),
                "ansible_user" := JString(v.ansibleUser),
                "ansible_ssh_private_key_file" := JString(v.ansibleSshPrivateKeyFile)])
  }

  /** The document as the JSON object the transformer returns. */
  function ToJson(inv: Inventory): (doc: Json)
  {
    var hostvars := inv.meta.hostvars;
    var hosts := inv.ec2Hosts.hosts;
    var vars := inv.ec2Hosts.vars;
    JObject(map[
      "_meta" := JObject(map["hostvars" := JObject(map h | h in hostvars :: HostVarsJson(hostvars[h]))]),
      "ec2_hosts" := JObject(map[
        "hosts" := JArray(seq(|hosts|, k requires 0 <= k < |hosts| => JString(hosts[k]))),
        "vars" := JObject(vars)])])
  }
}
