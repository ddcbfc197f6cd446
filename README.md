# EC2 dynamic inventory for Ansible — a Dafny model

The repository's Ansible inventory script asks EC2 for the instances of the
development environment and prints an Ansible dynamic-inventory document. Its
one piece of logic, `generate_inventory`, walks the reservations of the
describe_instances response and, for every instance whose `State.Name` is
exactly `"running"` and whose `PublicIpAddress` is truthy, appends that
address to the `ec2_hosts` group's `hosts` list and sets the address's entry
in `_meta.hostvars` to a constant SSH connection record
(`ansible_connection = "ssh"`, `ansible_user = "ubuntu"`,
`ansible_ssh_private_key_file = "/var/lib/jenkins/.ssh/legacy-java-app-key"`).
The group's `vars` stays an empty mapping.

This project models that transformer:

- `ec2_inventory.dfy`, module `Ec2Inventory`: the records read
  (`Instance`, whose `state` distinguishes a missing `State` from a missing
  `Name`; `Reservation`, whose `instances` is absent when the `Instances`
  entry is), the document (`Inventory`, `Meta`, `HostGroup`, `HostVars`), the
  specification of one loop iteration (`Step`) folded over the flattened
  reservations (`Build`, `Generate`), the transformer itself as a method with
  the original's two nested loops and `continue` guards (`GenerateInventory`),
  proved to compute `Generate`, and the document as a JSON object with its
  key names (`ToJson`).
- `ec2_inventory_properties.dfy`, module `Ec2InventoryProperties`: an
  independent reference for the hosts (`Addresses`, the filter of kept
  addresses) and the properties the transformer promises, proved about
  `Generate`.

A reservation without an `Instances` entry makes the original raise (it
subscripts the entry rather than reading it with a default); the model
states this as the precondition `HasInstancesKey`. Missing `State`, missing
`Name`, and an absent or empty `PublicIpAddress` are all read with defaults in
the original and simply exclude the instance; the model does the same. The
script is thus lenient for the instance fields and strict for `Instances`
(ansible/inventories/dev/ec2.py:11-14), and the model follows it.

## Model

| member | source | states |
|---|---|---|
| `Ec2Inventory.GenerateInventory` | ansible/inventories/dev/ec2.py:6-25 | the nested loop over reservations and their instances returns exactly the document `Generate` specifies: the fold, in input order, of "skip unless running with a truthy address, else append the address and set its host variables" |
| `Ec2InventoryProperties.Addresses` | ansible/inventories/dev/ec2.py:12-18 | the reference list of kept addresses is no longer than the input and every address in it is non-empty (an empty address is falsy and never kept) |
| `Ec2InventoryProperties.AddressesMembership` | ansible/inventories/dev/ec2.py:12-18 | an address is among the kept addresses if and only if some instance with state name "running" has it as its truthy public address |
| `Ec2InventoryProperties.BuildHosts` | ansible/inventories/dev/ec2.py:10-18 | the hosts built instance by instance are exactly the kept addresses in input order, with no de-duplication and no reordering |
| `Ec2InventoryProperties.BuildLockStep` | ansible/inventories/dev/ec2.py:7-23 | after any prefix of the input, an address is a host if and only if it has a hostvars entry, every hostvars entry is the constant ssh/ubuntu/key-file record, `vars` is empty, hostvars has at most as many entries as hosts, and exactly as many when the hosts are distinct |
| `Ec2InventoryProperties.ExcludedInstanceLeavesNoTrace` | ansible/inventories/dev/ec2.py:12-16 | an instance whose state name is not exactly "running" (including a missing State or Name) or whose address is absent or empty changes neither hosts nor hostvars: removing it from any position leaves the document unchanged |
| `Ec2InventoryProperties.FlattenConcat` | ansible/inventories/dev/ec2.py:10-11 | visiting a concatenation of reservation lists visits the instances of the first list, then those of the second |
| `Ec2InventoryProperties.GenerateHosts` | ansible/inventories/dev/ec2.py:10-18 | the document's hosts are the kept addresses of all instances, reservation by reservation, instance by instance |
| `Ec2InventoryProperties.HostsFollowReservationOrder` | ansible/inventories/dev/ec2.py:10-18 | the hosts for a concatenation of reservation lists are the hosts for the first list followed by those for the second |
| `Ec2InventoryProperties.GenerateMembership` | ansible/inventories/dev/ec2.py:12-23 | an address is a host if and only if some running instance has it as its truthy address, if and only if it is a hostvars key, and its hostvars value is the constant record |
| `Ec2InventoryProperties.GenerateEmpty` | ansible/inventories/dev/ec2.py:7-25 | no reservations give `{"_meta": {"hostvars": {}}, "ec2_hosts": {"hosts": [], "vars": {}}}`, and the document is that empty one if and only if no instance is kept |
| `Ec2InventoryProperties.DuplicateAddressKept` | ansible/inventories/dev/ec2.py:18-23 | two kept instances with the same address, at any positions in the input, put it twice in hosts (in input order, among the other kept addresses) while hostvars holds it as one key mapped to the constant record |
| `Ec2InventoryProperties.DocumentShape` | ansible/inventories/dev/ec2.py:7-25 | the returned object has exactly the keys `_meta` (holding only `hostvars`) and `ec2_hosts` (holding `hosts` and an empty `vars`); the hostvars keys are exactly the hosts, each mapped to `ansible_connection: ssh`, `ansible_user: ubuntu`, `ansible_ssh_private_key_file: /var/lib/jenkins/.ssh/legacy-java-app-key` |
| `Ec2InventoryProperties.EndToEndExample` | ansible/inventories/dev/ec2.py:6-25 | a running instance at 1.2.3.4, a stopped one at 5.6.7.8 and a running one without an address give hosts `["1.2.3.4"]` and one hostvars key, 1.2.3.4 |

## Left out

- `main` (ansible/inventories/dev/ec2.py:27-41): reading `AWS_REGION` from the environment, creating the EC2 client, the describe_instances network call with its two tag filters (applied by the service), and printing the document with `json.dumps(..., indent=4)`; these are I/O and library calls. The model stops at the structured document; `ToJson` gives its key names but no text serialisation.
- legacy-java-app/src/main/java/com/example/legacyapp/controller/MainController.java: a web controller whose responses are a constant string and a string built from the wall clock; nothing in it is part of this model.
- Records whose values have other types than the ones the script expects: a `State` entry that is present but null (the original then fails calling `.get` on it), a non-string state name or address, or a falsy non-string address. The model types `state` and `publicIpAddress` as optional strings.
- The partial effects of the failure on a missing `Instances` entry: the model excludes that input by precondition instead of modelling the exception, since the original discards the partly built document when it raises.
