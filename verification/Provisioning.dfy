/** Discovery scans and template application: idempotent provisioning under the uniqueness of
    host names per owner and of item keys per host. */
module Provisioning {
  import opened Common

  const MAX_SCAN_HOSTS := 1024

  // ---- Networks ----

  function Pow2(n: nat): (p: nat)
    ensures p >= 1 && (n > 0 ==> p >= 2)
  {
    if n == 0 then 1 else 2 * Pow2(n - 1)
  }

  /** A parsed CIDR block; host bits of the base are already cleared. */
  datatype Network = Network(v6: bool, base: nat, prefix: nat)
  {
    function Width(): nat { if v6 then 128 else 32 }

    predicate WellFormed() { prefix <= Width() }

    function Size(): nat
      requires WellFormed()
    {
      Pow2(Width() - prefix)
    }
  }

  function Range(from: int, count: nat): seq<int> { seq(count, i requires 0 <= i < count => from + i) }

  /** Usable addresses: all of a block of one or two; otherwise without the network address and,
      in IPv4, without the broadcast address. */
  function Hosts(n: Network): seq<int>
    requires n.WellFormed()
  {
    if n.prefix >= n.Width() - 1 then Range(n.base, n.Size())
    else if n.v6 then Range(n.base + 1, n.Size() - 1)
    else Range(n.base + 1, n.Size() - 2)
  }

  datatype DiscoveryMethod = Ping | Tcp

  datatype Rejection = InvalidCidr | TooManyHosts(count: nat) | PortRequired

  /** The validator of a rule: its own count, then the port. */
  function Validate(network: Option<Network>, kind: DiscoveryMethod, port: Option<int>): Option<Rejection>
    requires network.Some? ==> network.value.WellFormed()
  {
    if network.None? then Some(InvalidCidr)
    else
      var n := network.value;
      var count := if n.prefix >= n.Width() - 1 then n.Size() else |Hosts(n)|;
      if count > MAX_SCAN_HOSTS then Some(TooManyHosts(count))
      else if kind == Tcp && port.None? then Some(PortRequired)
      else None
  }

  /** The addresses a scan looks at. */
  function Scanned(n: Network): seq<int>
    requires n.WellFormed()
  {
    var hosts := Hosts(n);
    if |hosts| <= MAX_SCAN_HOSTS then hosts else hosts[..MAX_SCAN_HOSTS]
  }

  /** The same addresses as text; `show` renders one. */
  function Shown(addresses: seq<int>, show: int -> string): seq<string> {
    seq(|addresses|, i requires 0 <= i < |addresses| => show(addresses[i]))
  }

  ghost predicate Injective(show: int -> string) {
    forall a, b :: show(a) == show(b) ==> a == b
  }

  lemma ScannedDistinct(n: Network, show: int -> string)
    requires n.WellFormed() && Injective(show)
    ensures NoDuplicates(Shown(Scanned(n), show))
  {
    var addresses := Scanned(n);
    forall i, j | 0 <= i < j < |addresses| ensures show(addresses[i]) != show(addresses[j]) {
      assert addresses[i] != addresses[j];
    }
  }

  lemma {:induction false} Pow2Grows(a: nat, b: nat)
    requires a <= b
    ensures Pow2(a) <= Pow2(b)
  {
    if a < b { Pow2Grows(a, b - 1); }
  }

  /** A rule is accepted exactly when at most ten host bits are free and a TCP rule has a port; the
      scan cap then drops no usable address, and no address comes twice. */
  lemma AcceptedIff(n: Network, kind: DiscoveryMethod, port: Option<int>)
    requires n.WellFormed()
    ensures Validate(Some(n), kind, port).None? <==>
            (if n.v6 then 128 else 32) - n.prefix <= 10 && (kind == Tcp ==> port.Some?)
    ensures Validate(Some(n), kind, port).None? ==> Scanned(n) == Hosts(n) && NoDuplicates(Scanned(n))
  {
    var free := n.Width() - n.prefix;
    assert Pow2(10) == 1024 by { assert Pow2(5) == 32; }
    assert Pow2(11) == 2048;
    if free <= 10 { Pow2Grows(free, 10); } else { Pow2Grows(11, free); }
  }

  /** The usable addresses of a block with `free` host bits: of one or two addresses both, otherwise
      all but the first and, in IPv4, the last; each of them once, in ascending order. A scan looks at
      the first 1024. */
  lemma HostsRule(n: Network, a: int)
    requires n.WellFormed()
    ensures var free := (if n.v6 then 128 else 32) - n.prefix;
            a in Hosts(n) <==>
            && n.base <= a < n.base + Pow2(free)
            && (free > 1 ==> a != n.base && (n.v6 || a != n.base + Pow2(free) - 1))
    ensures forall i, j :: 0 <= i < j < |Hosts(n)| ==> Hosts(n)[i] < Hosts(n)[j]
    ensures |Scanned(n)| <= 1024 && Scanned(n) <= Hosts(n) && (|Hosts(n)| <= 1024 ==> Scanned(n) == Hosts(n))
  {
    var hosts := Hosts(n);
    if hosts != [] && hosts[0] <= a < hosts[0] + |hosts| {
      assert hosts[a - hosts[0]] == a;
    }
  }

  // ---- The inventory ----

  datatype Host = Host(owner: Id, name: string, address: Option<string>)

  datatype TemplateItem = TemplateItem(key: string, name: string, valueType: string, units: Option<string>, interval: int)

  datatype HostItem = HostItem(host: Id, key: string, name: string, valueType: string, units: Option<string>, interval: int)

  datatype Inventory = Inventory(hosts: map<Id, Host>, nextHost: Id, items: seq<HostItem>)

  predicate NameTaken(inv: Inventory, owner: Id, name: string) {
    exists h :: h in inv.hosts && inv.hosts[h].owner == owner && inv.hosts[h].name == name
  }

  function AddressesOf(inv: Inventory, owner: Id): set<string> {
    set h | h in inv.hosts && inv.hosts[h].owner == owner && inv.hosts[h].address.Some? :: inv.hosts[h].address.value
  }

  function KeysOf(items: seq<HostItem>, host: Id): seq<string> {
    if items == [] then []
    else
      var last := items[|items| - 1];
      KeysOf(items[..|items| - 1], host) + if last.host == host then [last.key] else []
  }

  function ItemFrom(t: TemplateItem, host: Id): HostItem {
    HostItem(host, t.key, t.name, t.valueType, t.units, t.interval)
  }

  /** The template items whose key the host does not have yet, as items of the host. */
  function Missing(template: seq<TemplateItem>, host: Id, existing: seq<string>): seq<HostItem> {
    if template == [] then []
    else
      var t := template[|template| - 1];
      Missing(template[..|template| - 1], host, existing)
      + if t.key in existing then [] else [ItemFrom(t, host)]
  }

  function Applied(inv: Inventory, template: seq<TemplateItem>, host: Id): Inventory {
    inv.(items := inv.items + Missing(template, host, KeysOf(inv.items, host)))
  }

  function Added(inv: Inventory, owner: Id, address: string): Inventory {
    inv.(hosts := inv.hosts[inv.nextHost := Host(owner, address, Some(address))], nextHost := inv.nextHost + 1)
  }

  /** One provisioned address. */
  function Provisioned(inv: Inventory, owner: Id, template: Option<seq<TemplateItem>>, address: string): Inventory {
    var added := Added(inv, owner, address);
    if template.None? then added else Applied(added, template.value, inv.nextHost)
  }

  /** Applying a template commits when it added something. */
  function Saved(inv: Inventory, committed: Inventory, one: Inventory): Inventory {
    if |one.items| > |inv.items| then one else committed
  }

  /** A result, counting `n` hosts created before it. */
  function After(n: nat, rest: (Inventory, Option<nat>)): (Inventory, Option<nat>) {
    (rest.0, if rest.1.None? then None else Some(n + rest.1.value))
  }

  /** Provision the addresses in order. A host name the owner already uses fails the flush, and
      what is left is the last commit. */
  function Provision(inv: Inventory, committed: Inventory, owner: Id, template: Option<seq<TemplateItem>>,
                     addresses: seq<string>): (Inventory, Option<nat>)
    decreases addresses
  {
    if addresses == [] then (inv, Some(0))
    else if NameTaken(inv, owner, addresses[0]) then (committed, None)
    else
      var one := Provisioned(inv, owner, template, addresses[0]);
      After(1, Provision(one, Saved(inv, committed, one), owner, template, addresses[1..]))
  }

  /** The scanned addresses that are not yet a host of the owner and answer. */
  function Candidates(inv: Inventory, owner: Id, addresses: seq<string>, reachable: string -> bool): seq<string> {
    if addresses == [] then []
    else
      var rest := Candidates(inv, owner, addresses[1..], reachable);
      if addresses[0] !in AddressesOf(inv, owner) && reachable(addresses[0]) then [addresses[0]] + rest else rest
  }

  /** A scan of `addresses`: what it leaves, and how many hosts it created. */
  function ScanOf(inv: Inventory, owner: Id, template: Option<seq<TemplateItem>>, addresses: seq<string>,
                  reachable: string -> bool): (Inventory, Option<nat>) {
    Provision(inv, inv, owner, template, Candidates(inv, owner, addresses, reachable))
  }

  /** The next address of a scan. */
  lemma ProvisionStep(inv: Inventory, committed: Inventory, owner: Id, template: Option<seq<TemplateItem>>,
                      todo: seq<string>, n: nat)
    requires n < |todo|
    ensures var one := Provisioned(inv, owner, template, todo[n]);
            Provision(inv, committed, owner, template, todo[n..])
            == if NameTaken(inv, owner, todo[n]) then (committed, None)
               else After(1, Provision(one, Saved(inv, committed, one), owner, template, todo[n + 1..]))
  {
    assert todo[n..][0] == todo[n] && todo[n..][1..] == todo[n + 1..];
  }

  // ---- The services ----

  class Rule {
    const owner: Id
    const network: Network
    const template: Option<Id>
    const intervalSeconds: int
    var lastRunAt: Option<int>

    constructor (owner: Id, network: Network, template: Option<Id>, intervalSeconds: int)
      requires network.WellFormed()
      ensures this.owner == owner && this.network == network && this.template == template
      ensures this.intervalSeconds == intervalSeconds && lastRunAt == None
    {
      this.owner, this.network, this.template := owner, network, template;
      this.intervalSeconds, lastRunAt := intervalSeconds, None;
    }

    predicate Due(now: int)
      reads this
    {
      lastRunAt.None? || now - lastRunAt.value >= intervalSeconds * SECOND
    }
  }

  /** A rule is due when it never ran, or its interval has passed since. */
  lemma DueRule(rule: Rule, now: int)
    ensures rule.Due(now) <==> rule.lastRunAt.None? || rule.lastRunAt.value + rule.intervalSeconds * 1_000_000 <= now
  {
  }

  class InventoryStore {
    var inv: Inventory
    var templates: map<Id, seq<TemplateItem>>

    constructor ()
      ensures inv == Inventory(map[], 0, []) && templates == map[]
    {
      inv, templates := Inventory(map[], 0, []), map[];
    }

    function TemplateItems(template: Id): seq<TemplateItem>
      reads this
    {
      if template in templates then templates[template] else []
    }

    method ApplyToHost(template: Id, host: Id) returns (created: nat, skipped: nat)
      modifies this`inv
      ensures inv == Applied(old(inv), TemplateItems(template), host)
      ensures created == |inv.items| - |old(inv).items| && created + skipped == |TemplateItems(template)|
    {
      var rows := TemplateItems(template);
      var existing := KeysOf(inv.items, host);
      created := 0;
      for i := 0 to |rows|
        invariant inv == old(inv).(items := old(inv).items + Missing(rows[..i], host, existing))
        invariant created == |Missing(rows[..i], host, existing)| <= i
      {
        assert rows[..i + 1][..i] == rows[..i];
        if rows[i].key in existing {
          assert Missing(rows[..i], host, existing) + [] == Missing(rows[..i], host, existing);
          continue;
        }
        inv := inv.(items := inv.items + [HostItem(host, rows[i].key, rows[i].name, rows[i].valueType, rows[i].units, rows[i].interval)]);
        created := created + 1;
      }
      assert rows[..|rows|] == rows;
      skipped := |rows| - created;
    }

    function TemplateOf(rule: Rule): Option<seq<TemplateItem>>
      reads this
    {
      if rule.template.None? then None else Some(TemplateItems(rule.template.value))
    }

    /** Add the host, then apply the rule's template to it. */
    method ProvisionOne(rule: Rule, address: string)
      modifies this`inv
      ensures inv == Provisioned(old(inv), rule.owner, TemplateOf(rule), address)
    {
      var host := inv.nextHost;
      inv := Added(inv, rule.owner, address);
      if rule.template.Some? {
        var _, _ := ApplyToHost(rule.template.value, host);
      }
    }

    /** One round of the loop: flush the host, apply the template, remember the last commit. */
    method ProvisionNext(rule: Rule, address: string, committed: Inventory) returns (failed: bool, saved: Inventory)
      modifies this`inv
      ensures failed <==> NameTaken(old(inv), rule.owner, address)
      ensures failed ==> inv == old(inv) && saved == committed
      ensures !failed ==> inv == Provisioned(old(inv), rule.owner, TemplateOf(rule), address)
      ensures !failed ==> saved == Saved(old(inv), committed, inv)
    {
      failed, saved := NameTaken(inv, rule.owner, address), committed;
      if !failed {
        var items := |inv.items|;
        ProvisionOne(rule, address);
        if |inv.items| > items {
          saved := inv;
        }
      }
    }

    /** None is the database error a taken host name raises; the inventory then rolls back. */
    method ProvisionAll(rule: Rule, todo: seq<string>) returns (created: Option<nat>)
      modifies this`inv
      ensures (inv, created) == Provision(old(inv), old(inv), rule.owner, TemplateOf(rule), todo)
    {
      ghost var template, whole := TemplateOf(rule), Provision(inv, inv, rule.owner, TemplateOf(rule), todo);
      var committed := inv;
      var count := 0;
      assert todo[0..] == todo;
      while count < |todo|
        invariant count <= |todo| && template == TemplateOf(rule)
        invariant whole == After(count, Provision(inv, committed, rule.owner, template, todo[count..]))
      {
        ProvisionStep(inv, committed, rule.owner, template, todo, count);
        var failed: bool;
        failed, committed := ProvisionNext(rule, todo[count], committed);
        if failed {
          inv := committed;
          return None;
        }
        count := count + 1;
      }
      created := Some(count);
    }

    method ScanRule(rule: Rule, show: int -> string, reachable: string -> bool,
                    now: int) returns (created: Option<nat>)
      requires rule.network.WellFormed()
      modifies this`inv, rule
      ensures (inv, created) == ScanOf(old(inv), rule.owner, TemplateOf(rule), Shown(Scanned(rule.network), show), reachable)
      ensures rule.lastRunAt == if created.Some? then Some(now) else old(rule.lastRunAt)
      ensures created.None? ==> (rule.Due(now) <==> old(rule.Due(now)))
      ensures created.Some? && rule.intervalSeconds > 0 ==> !rule.Due(now)
    {
      var addresses := Shown(Scanned(rule.network), show);
      created := ProvisionAll(rule, Candidates(inv, rule.owner, addresses, reachable));
      if created.Some? {
        rule.lastRunAt := Some(now);
      }
    }
  }

  // ---- Templates ----

  predicate UniqueKeys(template: seq<TemplateItem>) {
    forall i, j :: 0 <= i < j < |template| ==> template[i].key != template[j].key
  }

  predicate HasKey(template: seq<TemplateItem>, key: string) {
    exists i :: 0 <= i < |template| && template[i].key == key
  }

  lemma {:induction false} KeysOfAppend(a: seq<HostItem>, b: seq<HostItem>, host: Id)
    ensures KeysOf(a + b, host) == KeysOf(a, host) + KeysOf(b, host)
  {
    if b == [] {
      assert a + b == a;
    } else {
      assert (a + b)[..|a + b| - 1] == a + b[..|b| - 1];
      KeysOfAppend(a, b[..|b| - 1], host);
    }
  }

  lemma {:induction false} MissingElsewhere(template: seq<TemplateItem>, host: Id, existing: seq<string>, other: Id)
    requires other != host
    ensures KeysOf(Missing(template, host, existing), other) == []
  {
    if template != [] {
      var init, t := template[..|template| - 1], template[|template| - 1];
      MissingElsewhere(init, host, existing, other);
      var last := if t.key in existing then [] else [ItemFrom(t, host)];
      KeysOfAppend(Missing(init, host, existing), last, other);
      assert last != [] ==> last[..0] == [];
    }
  }

  lemma {:induction false} MissingUnfold(template: seq<TemplateItem>, host: Id, existing: seq<string>)
    requires template != []
    ensures var init, t := template[..|template| - 1], template[|template| - 1];
            KeysOf(Missing(template, host, existing), host)
            == KeysOf(Missing(init, host, existing), host) + if t.key in existing then [] else [t.key]
  {
    var init, t := template[..|template| - 1], template[|template| - 1];
    var last := if t.key in existing then [] else [ItemFrom(t, host)];
    KeysOfAppend(Missing(init, host, existing), last, host);
    assert last != [] ==> last[..0] == [];
  }

  lemma HasKeyUnfold(template: seq<TemplateItem>, key: string)
    requires template != []
    ensures HasKey(template, key) <==> HasKey(template[..|template| - 1], key) || template[|template| - 1].key == key
  {
    var init := template[..|template| - 1];
    if HasKey(template, key) {
      var i :| 0 <= i < |template| && template[i].key == key;
      if i < |init| { assert init[i].key == key; }
    }
    if HasKey(init, key) {
      var i :| 0 <= i < |init| && init[i].key == key;
      assert template[i].key == key;
    }
  }

  lemma DisjointAppend(a: seq<string>, b: seq<string>)
    requires NoDuplicates(a) && NoDuplicates(b) && forall x :: x in b ==> x !in a
    ensures NoDuplicates(a + b) && forall x :: x in a + b <==> x in a || x in b
  {
    forall i, j | 0 <= i < j < |a + b| ensures (a + b)[i] != (a + b)[j] {
      if i < |a| <= j { assert a[i] in a && b[j - |a|] in b; }
    }
  }

  /** The created items carry the template keys the host lacked, once each. */
  lemma {:induction false} MissingKeys(template: seq<TemplateItem>, host: Id, existing: seq<string>)
    requires UniqueKeys(template)
    ensures var keys := KeysOf(Missing(template, host, existing), host);
            NoDuplicates(keys) && forall k :: k in keys <==> k !in existing && HasKey(template, k)
  {
    if template != [] {
      var init, t := template[..|template| - 1], template[|template| - 1];
      MissingKeys(init, host, existing);
      MissingUnfold(template, host, existing);
      forall k ensures HasKey(template, k) <==> HasKey(init, k) || t.key == k {
        HasKeyUnfold(template, k);
      }
      if t.key !in existing {
        assert !HasKey(init, t.key);
        DisjointAppend(KeysOf(Missing(init, host, existing), host), [t.key]);
      }
    }
  }

  /** Each created item copies a template item whose key the host lacked. */
  lemma {:induction false} MissingCopies(template: seq<TemplateItem>, host: Id, existing: seq<string>, x: HostItem)
    ensures x in Missing(template, host, existing) <==>
            exists i :: 0 <= i < |template| && template[i].key !in existing
              && x == HostItem(host, template[i].key, template[i].name, template[i].valueType, template[i].units,
                               template[i].interval)
  {
    if template != [] {
      var init := template[..|template| - 1];
      MissingCopies(init, host, existing, x);
      assert forall i :: 0 <= i < |init| ==> init[i] == template[i];
    }
  }

  /** The keys of a host are those of the items that are its own. */
  lemma {:induction false} KeysAre(items: seq<HostItem>, host: Id, key: string)
    ensures key in KeysOf(items, host) <==> exists i :: 0 <= i < |items| && items[i].host == host && items[i].key == key
  {
    if items != [] {
      var init := items[..|items| - 1];
      KeysAre(init, host, key);
      assert forall i :: 0 <= i < |init| ==> init[i] == items[i];
    }
  }

  lemma {:induction false} NothingMissing(template: seq<TemplateItem>, host: Id, existing: seq<string>)
    requires forall i :: 0 <= i < |template| ==> template[i].key in existing
    ensures Missing(template, host, existing) == []
  {
    if template != [] { NothingMissing(template[..|template| - 1], host, existing); }
  }

  /** Applying a template gives the host every template key, keeps keys unique per host and touches
      no other host. */
  lemma {:induction false} TemplateApplies(inv: Inventory, template: seq<TemplateItem>, host: Id, other: Id)
    requires UniqueKeys(template) && NoDuplicates(KeysOf(inv.items, host)) && other != host
    ensures var after := Applied(inv, template, host);
            && NoDuplicates(KeysOf(after.items, host))
            && (forall k :: k in KeysOf(after.items, host) <==> k in KeysOf(inv.items, host) || HasKey(template, k))
            && KeysOf(after.items, other) == KeysOf(inv.items, other)
  {
    var existing := KeysOf(inv.items, host);
    var created := Missing(template, host, existing);
    MissingKeys(template, host, existing);
    MissingElsewhere(template, host, existing, other);
    KeysOfAppend(inv.items, created, host);
    KeysOfAppend(inv.items, created, other);
    DisjointAppend(existing, KeysOf(created, host));
  }

  /** Applying it again creates nothing. */
  lemma TemplateIdempotent(inv: Inventory, template: seq<TemplateItem>, host: Id)
    requires UniqueKeys(template) && NoDuplicates(KeysOf(inv.items, host))
    ensures var after := Applied(inv, template, host); Applied(after, template, host) == after
  {
    var after := Applied(inv, template, host);
    TemplateApplies(inv, template, host, host + 1);
    forall i | 0 <= i < |template| ensures template[i].key in KeysOf(after.items, host) {
      assert HasKey(template, template[i].key);
    }
    NothingMissing(template, host, KeysOf(after.items, host));
    assert after.items + [] == after.items;
  }

  // ---- Scans ----

  ghost predicate WellKeyed(inv: Inventory) {
    && (forall h :: h in inv.hosts ==> h < inv.nextHost)
    && (forall i :: 0 <= i < |inv.items| ==> inv.items[i].host < inv.nextHost)
  }

  ghost predicate TemplateOk(template: Option<seq<TemplateItem>>) {
    template.Some? ==> UniqueKeys(template.value)
  }

  lemma {:induction false} NoKeysYet(items: seq<HostItem>, host: Id)
    requires forall i :: 0 <= i < |items| ==> items[i].host < host
    ensures KeysOf(items, host) == []
  {
    if items != [] { NoKeysYet(items[..|items| - 1], host); }
  }

  lemma {:induction false} MissingHosts(template: seq<TemplateItem>, host: Id, existing: seq<string>)
    ensures forall i :: 0 <= i < |Missing(template, host, existing)| ==> Missing(template, host, existing)[i].host == host
  {
    if template != [] { MissingHosts(template[..|template| - 1], host, existing); }
  }

  /** The new host is the only change, and its keys are the template's, once each. */
  lemma ProvisionedOne(inv: Inventory, owner: Id, template: Option<seq<TemplateItem>>, address: string, other: Id)
    requires WellKeyed(inv) && TemplateOk(template) && other != inv.nextHost
    ensures var after := Provisioned(inv, owner, template, address);
            && WellKeyed(after) && after.nextHost == inv.nextHost + 1
            && after.hosts == inv.hosts[inv.nextHost := Host(owner, address, Some(address))]
            && NoDuplicates(KeysOf(after.items, inv.nextHost))
            && (forall k :: k in KeysOf(after.items, inv.nextHost) <==> template.Some? && HasKey(template.value, k))
            && KeysOf(after.items, other) == KeysOf(inv.items, other)
  {
    NoKeysYet(inv.items, inv.nextHost);
    if template.Some? {
      var added := Added(inv, owner, address);
      MissingHosts(template.value, inv.nextHost, KeysOf(added.items, inv.nextHost));
      TemplateApplies(added, template.value, inv.nextHost, other);
    }
  }

  lemma AddressesAfter(inv: Inventory, after: Inventory, owner: Id, address: string)
    requires WellKeyed(inv) && after.hosts == inv.hosts[inv.nextHost := Host(owner, address, Some(address))]
    ensures AddressesOf(after, owner) == AddressesOf(inv, owner) + {address}
    ensures forall name :: NameTaken(after, owner, name) <==> NameTaken(inv, owner, name) || name == address
  {
    assert after.hosts[inv.nextHost].address == Some(address);
    forall a ensures a in AddressesOf(after, owner) <==> a in AddressesOf(inv, owner) || a == address {
      if a in AddressesOf(inv, owner) {
        var h :| h in inv.hosts && inv.hosts[h].owner == owner && inv.hosts[h].address == Some(a);
        assert after.hosts[h] == inv.hosts[h];
      }
    }
    forall name ensures NameTaken(after, owner, name) <==> NameTaken(inv, owner, name) || name == address {
      if NameTaken(inv, owner, name) {
        var h :| h in inv.hosts && inv.hosts[h].owner == owner && inv.hosts[h].name == name;
        assert after.hosts[h] == inv.hosts[h];
      }
    }
  }

  lemma DistinctTail(addresses: seq<string>)
    requires addresses != [] && NoDuplicates(addresses)
    ensures NoDuplicates(addresses[1..]) && addresses[0] !in addresses[1..]
  {
  }

  lemma NoneTaken(inv: Inventory, owner: Id, addresses: seq<string>)
    ensures (!exists h :: h in inv.hosts && inv.hosts[h].owner == owner && inv.hosts[h].name in addresses)
       <==> forall a :: a in addresses ==> !NameTaken(inv, owner, a)
  {
  }

  /** Provisioning goes through exactly when none of the addresses is already the name of one of
      the owner's hosts, whatever template is applied on the way. */
  lemma {:induction false} ProvisionSucceedsIff(inv: Inventory, committed: Inventory, owner: Id,
                                               template: Option<seq<TemplateItem>>, addresses: seq<string>)
    requires WellKeyed(inv) && TemplateOk(template) && NoDuplicates(addresses)
    ensures Provision(inv, committed, owner, template, addresses).1.Some?
       <==> !exists h :: h in inv.hosts && inv.hosts[h].owner == owner && inv.hosts[h].name in addresses
    decreases addresses
  {
    if addresses != [] && !NameTaken(inv, owner, addresses[0]) {
      var after := Provisioned(inv, owner, template, addresses[0]);
      var saved := Saved(inv, committed, after);
      ProvisionedOne(inv, owner, template, addresses[0], inv.nextHost + 1);
      AddressesAfter(inv, after, owner, addresses[0]);
      DistinctTail(addresses);
      NoneTaken(inv, owner, addresses);
      NoneTaken(after, owner, addresses[1..]);
      ProvisionSucceedsIff(after, saved, owner, template, addresses[1..]);
      assert forall a :: a in addresses <==> a == addresses[0] || a in addresses[1..];
    } else if addresses != [] {
      NoneTaken(inv, owner, addresses);
    }
  }

  lemma SetOfTail(addresses: seq<string>)
    requires addresses != []
    ensures (set a | a in addresses) == {addresses[0]} + set a | a in addresses[1..]
  {
  }

  lemma {:induction false} ProvisionAddresses(inv: Inventory, committed: Inventory, owner: Id,
                                             template: Option<seq<TemplateItem>>, addresses: seq<string>)
    requires WellKeyed(inv) && TemplateOk(template)
    requires Provision(inv, committed, owner, template, addresses).1.Some?
    ensures var (after, created) := Provision(inv, committed, owner, template, addresses);
            && created == Some(|addresses|) && after.nextHost == inv.nextHost + |addresses| && WellKeyed(after)
            && AddressesOf(after, owner) == AddressesOf(inv, owner) + (set a | a in addresses)
    decreases addresses
  {
    if addresses != [] {
      var one := Provisioned(inv, owner, template, addresses[0]);
      var saved := Saved(inv, committed, one);
      ProvisionedOne(inv, owner, template, addresses[0], inv.nextHost + 1);
      AddressesAfter(inv, one, owner, addresses[0]);
      ProvisionAddresses(one, saved, owner, template, addresses[1..]);
      SetOfTail(addresses);
    }
  }

  /** Host `h` and its items are the same in both inventories. */
  ghost predicate SameHost(inv: Inventory, after: Inventory, h: Id) {
    && (h in inv.hosts ==> h in after.hosts && after.hosts[h] == inv.hosts[h])
    && KeysOf(after.items, h) == KeysOf(inv.items, h)
  }

  lemma {:induction false} ProvisionFrame(inv: Inventory, committed: Inventory, owner: Id,
                                         template: Option<seq<TemplateItem>>, addresses: seq<string>, h: Id)
    requires WellKeyed(inv) && TemplateOk(template) && h < inv.nextHost
    requires Provision(inv, committed, owner, template, addresses).1.Some?
    ensures SameHost(inv, Provision(inv, committed, owner, template, addresses).0, h)
    decreases addresses
  {
    if addresses != [] {
      var one := Provisioned(inv, owner, template, addresses[0]);
      var saved := Saved(inv, committed, one);
      ProvisionedOne(inv, owner, template, addresses[0], h);
      ProvisionFrame(one, saved, owner, template, addresses[1..], h);
    }
  }

  /** A new host of the owner at `address`, with the template's keys once each. */
  ghost predicate NewHost(after: Inventory, h: Id, owner: Id, template: Option<seq<TemplateItem>>, address: string) {
    && h in after.hosts && after.hosts[h] == Host(owner, address, Some(address))
    && NoDuplicates(KeysOf(after.items, h))
    && forall k :: k in KeysOf(after.items, h) <==> template.Some? && HasKey(template.value, k)
  }

  lemma OneIsNew(inv: Inventory, owner: Id, template: Option<seq<TemplateItem>>, address: string)
    requires WellKeyed(inv) && TemplateOk(template)
    ensures NewHost(Provisioned(inv, owner, template, address), inv.nextHost, owner, template, address)
  {
    ProvisionedOne(inv, owner, template, address, inv.nextHost + 1);
  }

  lemma StaysNew(one: Inventory, after: Inventory, h: Id, owner: Id, template: Option<seq<TemplateItem>>, address: string)
    requires NewHost(one, h, owner, template, address) && SameHost(one, after, h)
    ensures NewHost(after, h, owner, template, address)
  {
  }

  lemma {:induction false} ProvisionNew(inv: Inventory, committed: Inventory, owner: Id,
                                       template: Option<seq<TemplateItem>>, addresses: seq<string>, n: nat)
    requires WellKeyed(inv) && TemplateOk(template) && n < |addresses|
    requires Provision(inv, committed, owner, template, addresses).1.Some?
    ensures NewHost(Provision(inv, committed, owner, template, addresses).0, inv.nextHost + n, owner, template, addresses[n])
    decreases addresses
  {
    var one := Provisioned(inv, owner, template, addresses[0]);
    var saved := Saved(inv, committed, one);
    ProvisionedOne(inv, owner, template, addresses[0], inv.nextHost + 1);
    if n == 0 {
      OneIsNew(inv, owner, template, addresses[0]);
      ProvisionFrame(one, saved, owner, template, addresses[1..], inv.nextHost);
      StaysNew(one, Provision(one, saved, owner, template, addresses[1..]).0, inv.nextHost, owner, template, addresses[0]);
    } else {
      ProvisionNew(one, saved, owner, template, addresses[1..], n - 1);
    }
  }

  /** A successful scan adds one host per address, in order, with the template's keys once each,
      and changes neither the other hosts nor their items. */
  lemma ProvisionEffect(inv: Inventory, committed: Inventory, owner: Id,
                        template: Option<seq<TemplateItem>>, addresses: seq<string>)
    requires WellKeyed(inv) && TemplateOk(template)
    requires Provision(inv, committed, owner, template, addresses).1.Some?
    ensures var (after, created) := Provision(inv, committed, owner, template, addresses);
            && created == Some(|addresses|) && after.nextHost == inv.nextHost + |addresses| && WellKeyed(after)
            && AddressesOf(after, owner) == AddressesOf(inv, owner) + (set a | a in addresses)
            && (forall h: Id :: h < inv.nextHost ==> SameHost(inv, after, h))
            && (forall n: nat :: n < |addresses| ==> NewHost(after, inv.nextHost + n, owner, template, addresses[n]))
  {
    var after := Provision(inv, committed, owner, template, addresses).0;
    ProvisionAddresses(inv, committed, owner, template, addresses);
    forall h: Id | h < inv.nextHost ensures SameHost(inv, after, h) {
      ProvisionFrame(inv, committed, owner, template, addresses, h);
    }
    forall n: nat | n < |addresses| ensures NewHost(after, inv.nextHost + n, owner, template, addresses[n]) {
      ProvisionNew(inv, committed, owner, template, addresses, n);
    }
  }

  lemma {:induction false} CandidatesAre(inv: Inventory, owner: Id, addresses: seq<string>, reachable: string -> bool)
    ensures var found := Candidates(inv, owner, addresses, reachable);
            && (forall a :: a in found <==> a in addresses && a !in AddressesOf(inv, owner) && reachable(a))
            && (found == [] <==> forall a :: a in addresses && reachable(a) ==> a in AddressesOf(inv, owner))
            && (NoDuplicates(addresses) ==> NoDuplicates(found))
  {
    if addresses != [] {
      CandidatesAre(inv, owner, addresses[1..], reachable);
      assert forall a :: a in addresses <==> a == addresses[0] || a in addresses[1..];
      if NoDuplicates(addresses) { DistinctTail(addresses); }
    }
  }

  lemma ScanRepeats(inv: Inventory, owner: Id, template: Option<seq<TemplateItem>>,
                    addresses: seq<string>, reachable: string -> bool)
    requires WellKeyed(inv) && TemplateOk(template) && ScanOf(inv, owner, template, addresses, reachable).1.Some?
    ensures var (after, created) := ScanOf(inv, owner, template, addresses, reachable);
            && created.value == |Candidates(inv, owner, addresses, reachable)|
            && AddressesOf(after, owner) == AddressesOf(inv, owner) + (set a | a in addresses && reachable(a))
            && ScanOf(after, owner, template, addresses, reachable) == (after, Some(0))
  {
    var after := ScanOf(inv, owner, template, addresses, reachable).0;
    CandidatesAre(inv, owner, addresses, reachable);
    ProvisionAddresses(inv, inv, owner, template, Candidates(inv, owner, addresses, reachable));
    CandidatesAre(after, owner, addresses, reachable);
  }

  /** A scan of a network succeeds exactly when no newly reachable address is the name of a host
      the owner already has. It then makes the owner's addresses old plus reachable, with one new
      host per new address, and scanning again with the same reachability creates nothing. */
  lemma ScanIsIdempotent(inv: Inventory, owner: Id, template: Option<seq<TemplateItem>>,
                         n: Network, show: int -> string, reachable: string -> bool)
    requires WellKeyed(inv) && TemplateOk(template) && n.WellFormed() && Injective(show)
    ensures var addresses := Shown(Scanned(n), show);
            var (after, created) := ScanOf(inv, owner, template, addresses, reachable);
            && (created.Some? <==> !exists h :: h in inv.hosts && inv.hosts[h].owner == owner
                                                && inv.hosts[h].name in Candidates(inv, owner, addresses, reachable))
            && (created.Some? ==>
                  && created.value == |Candidates(inv, owner, addresses, reachable)|
                  && AddressesOf(after, owner) == AddressesOf(inv, owner) + (set a | a in addresses && reachable(a))
                  && ScanOf(after, owner, template, addresses, reachable) == (after, Some(0)))
  {
    var addresses := Shown(Scanned(n), show);
    ScannedDistinct(n, show);
    CandidatesAre(inv, owner, addresses, reachable);
    ProvisionSucceedsIff(inv, inv, owner, template, Candidates(inv, owner, addresses, reachable));
    if ScanOf(inv, owner, template, addresses, reachable).1.Some? {
      ScanRepeats(inv, owner, template, addresses, reachable);
    }
  }

  lemma TemplateAdds(inv: Inventory, owner: Id, template: seq<TemplateItem>, address: string)
    requires WellKeyed(inv) && UniqueKeys(template) && template != []
    ensures |Provisioned(inv, owner, Some(template), address).items| > |inv.items|
  {
    NoKeysYet(inv.items, inv.nextHost);
    assert KeysOf(Added(inv, owner, address).items, inv.nextHost) == [];
    var t := template[|template| - 1];
    assert t.key !in [];
  }

  /** A host of the owner with this address. */
  ghost predicate HasAddress(inv: Inventory, owner: Id, a: string) {
    exists h :: h in inv.hosts && inv.hosts[h].owner == owner && inv.hosts[h].address == Some(a)
  }

  lemma AddressesAre(inv: Inventory, owner: Id, a: string)
    ensures a in AddressesOf(inv, owner) <==> HasAddress(inv, owner, a)
  {
    if HasAddress(inv, owner, a) {
      var h :| h in inv.hosts && inv.hosts[h].owner == owner && inv.hosts[h].address == Some(a);
      assert inv.hosts[h].address.value in AddressesOf(inv, owner);
    }
    if a in AddressesOf(inv, owner) {
      var h :| h in inv.hosts && inv.hosts[h].owner == owner && inv.hosts[h].address.Some? && inv.hosts[h].address.value == a;
      assert inv.hosts[h].address == Some(a);
    }
  }

  /** A scan provisions the scanned addresses that answer and are not an address of one of the
      owner's hosts. */
  lemma {:induction false} CandidatesRule(inv: Inventory, owner: Id, addresses: seq<string>, reachable: string -> bool,
                                          a: string)
    ensures a in Candidates(inv, owner, addresses, reachable) <==>
            a in addresses && reachable(a) && !HasAddress(inv, owner, a)
    ensures a in AddressesOf(inv, owner) <==> HasAddress(inv, owner, a)
  {
    CandidatesAre(inv, owner, addresses, reachable);
    AddressesAre(inv, owner, a);
  }

  /** A host named like a reachable address that none of the owner's hosts has fails every scan. */
  lemma ClashFailsScan(inv: Inventory, owner: Id, template: Option<seq<TemplateItem>>, n: Network,
                       show: int -> string, reachable: string -> bool, h: Id)
    requires WellKeyed(inv) && TemplateOk(template) && n.WellFormed() && Injective(show)
    requires h in inv.hosts && inv.hosts[h].owner == owner && inv.hosts[h].name in Shown(Scanned(n), show)
    requires reachable(inv.hosts[h].name) && !HasAddress(inv, owner, inv.hosts[h].name)
    ensures ScanOf(inv, owner, template, Shown(Scanned(n), show), reachable).1 == None
  {
    CandidatesRule(inv, owner, Shown(Scanned(n), show), reachable, inv.hosts[h].name);
    ScanIsIdempotent(inv, owner, template, n, show, reachable);
  }

  /** An inventory whose only host is named like a reachable address but has another address or
      none: every scan of a network with that address fails. */
  lemma NamesakeFailsScan(owner: Id, template: Option<seq<TemplateItem>>, n: Network, show: int -> string,
                          reachable: string -> bool, i: nat, address: Option<string>)
    requires TemplateOk(template) && n.WellFormed() && Injective(show) && i < |Scanned(n)|
    requires reachable(show(Scanned(n)[i])) && address != Some(show(Scanned(n)[i]))
    ensures var name := show(Scanned(n)[i]);
            var inv := Inventory(map[0 := Host(owner, name, address)], 1, []);
            WellKeyed(inv) && ScanOf(inv, owner, template, Shown(Scanned(n), show), reachable).1 == None
  {
    var name := show(Scanned(n)[i]);
    var inv := Inventory(map[0 := Host(owner, name, address)], 1, []);
    assert Shown(Scanned(n), show)[i] == name && 0 in inv.hosts;
    ClashFailsScan(inv, owner, template, n, show, reachable, 0);
  }

  /** A failed scan leaves the last committed inventory: the whole old one when no template adds
      anything, otherwise all hosts up to the clash. */
  lemma {:induction false} FailureKeepsCommitted(inv: Inventory, owner: Id, template: Option<seq<TemplateItem>>,
                                                addresses: seq<string>, committed: Inventory)
    requires WellKeyed(inv) && TemplateOk(template) && Provision(inv, committed, owner, template, addresses).1.None?
    ensures template.None? || template.value == [] ==> Provision(inv, committed, owner, template, addresses).0 == committed
    ensures template.Some? && template.value != [] && committed == inv ==>
              exists n: nat :: n < |addresses| && Provision(inv, committed, owner, template, addresses).0
                               == Provision(inv, inv, owner, template, addresses[..n]).0
                               && Provision(inv, inv, owner, template, addresses[..n]).1.Some?
    decreases addresses
  {
    if NameTaken(inv, owner, addresses[0]) {
      assert Provision(inv, inv, owner, template, addresses[..0]) == (inv, Some(0));
    } else {
      var one := Provisioned(inv, owner, template, addresses[0]);
      var saved := Saved(inv, committed, one);
      ProvisionedOne(inv, owner, template, addresses[0], inv.nextHost + 1);
      if template.Some? && template.value != [] && committed == inv {
        TemplateAdds(inv, owner, template.value, addresses[0]);
        FailureKeepsCommitted(one, owner, template, addresses[1..], one);
        var n: nat :| n < |addresses[1..]| && Provision(one, one, owner, template, addresses[1..]).0
                      == Provision(one, one, owner, template, addresses[1..][..n]).0
                      && Provision(one, one, owner, template, addresses[1..][..n]).1.Some?;
        assert addresses[..n + 1][0] == addresses[0] && addresses[..n + 1][1..] == addresses[1..][..n];
        assert Provision(inv, inv, owner, template, addresses[..n + 1]).0
            == Provision(one, one, owner, template, addresses[1..][..n]).0;
      } else if template.None? || template.value == [] {
        FailureKeepsCommitted(one, owner, template, addresses[1..], saved);
      }
    }
  }
}
