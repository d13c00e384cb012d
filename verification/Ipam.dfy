/** IPv4 address accounting per VLAN: usable and free addresses, partition, duplicates. */
module Ipam {
  import opened Prelude
  import opened Text

  function Pow2(n: nat): (r: nat)
    ensures r >= 1
  {
    if n == 0 then 1 else 2 * Pow2(n - 1)
  }

  type Address = a: int | 0 <= a < 0x1_0000_0000

  type Prefix = p: nat | p <= 32

  /** A network, its host bits cleared. */
  datatype Net = Net(base: nat, prefix: Prefix) {
    function Size(): (r: nat)
      ensures r >= 1
    {
      Pow2(32 - prefix)
    }

    predicate Contains(a: nat) {
      base <= a < base + Size()
    }

    /** The first usable address: the network address is left out, except in /31 and /32. */
    function Lo(): nat { if prefix >= 31 then base else base + 1 }

    /** One past the last usable address: the broadcast address is left out, except in /31 and /32. */
    function Hi(): nat {
      if prefix >= 31 then base + Size() else base + Size() - 1
    }
  }

  lemma UsableCount(net: Net)
    ensures net.Hi() - net.Lo() == if net.prefix == 32 then 1 else if net.prefix == 31 then 2 else net.Size() - 2
    ensures net.Hi() - net.Lo() >= 1
  {
    if net.prefix <= 30 {
      assert Pow2(32 - net.prefix) == 2 * (2 * Pow2(30 - net.prefix));
    }
  }

  function Between(lo: nat, hi: nat): (r: set<nat>)
    ensures forall a :: a in r <==> lo <= a < hi
    decreases hi - lo
  {
    if lo >= hi then {} else Between(lo, hi - 1) + {hi - 1}
  }

  lemma {:induction false} BetweenSize(lo: nat, hi: nat)
    requires lo <= hi
    ensures |Between(lo, hi)| == hi - lo
    decreases hi - lo
  {
    if lo < hi {
      BetweenSize(lo, hi - 1);
    }
  }

  function Usable(net: Net): set<nat> {
    Between(net.Lo(), net.Hi())
  }

  /** The usable addresses are those of the network, without its first and last unless it has at most two. */
  lemma UsableInside(net: Net, a: nat)
    ensures a in Usable(net)
       <==> net.Contains(a) && (net.prefix >= 31 || (a != net.base && a != net.base + net.Size() - 1))
  {
  }

  /** An address is in the network exactly when it has the network's leading bits. */
  lemma ContainsByPrefix(net: Net, a: nat)
    requires net.base % net.Size() == 0
    ensures net.Contains(a) <==> a / net.Size() == net.base / net.Size()
  {
    var size, k := net.Size(), net.base / net.Size();
    assert net.base == k * size;
    Quotient(a, size, k);
  }

  lemma Quotient(a: nat, size: nat, k: nat)
    requires size >= 1
    ensures k * size <= a < k * size + size <==> a / size == k
  {
    var q, r := a / size, a % size;
    assert a == q * size + r && 0 <= r < size;
    if q < k {
      assert (q + 1) * size <= k * size;
    } else if q > k {
      assert (k + 1) * size <= q * size;
    }
  }

  lemma UsableSize(net: Net)
    ensures |Usable(net)| == net.Hi() - net.Lo()
  {
    UsableCount(net);
    BetweenSize(net.Lo(), net.Hi());
  }

  // ----- The next free address -----

  /** First usable address that is not in use. */
  method NextFree(net: Net, used: seq<nat>) returns (next: Option<nat>)
    ensures next.Some? ==> next.value in Usable(net) && next.value !in used
                           && forall a :: a in Usable(net) && a < next.value ==> a in used
    ensures next.None? <==> Usable(net) <= Elements(used)
  {
    var usedSet := Elements(used);
    var a := net.Lo();
    UsableCount(net);
    while a < net.Hi()
      invariant net.Lo() <= a <= net.Hi()
      invariant forall b :: net.Lo() <= b < a ==> b in usedSet
    {
      if a !in usedSet {
        return Some(a);
      }
      a := a + 1;
    }
    next := None;
  }

  // ----- Hosts -----

  /** address is None for a placeholder such as "dhcp" or anything else that does not parse. */
  datatype Host = Host(id: int, name: string, address: Option<Address>)

  predicate Inside(net: Net, h: Host) {
    h.address.Some? && net.Contains(h.address.value)
  }

  predicate Outside(net: Net, h: Host) {
    h.address.Some? && !net.Contains(h.address.value)
  }

  method PartitionHosts(net: Net, hosts: seq<Host>)
    returns (inSubnet: seq<(Host, Address)>, outOfSubnet: seq<Host>, unparsed: seq<Host>)
    ensures Map(inSubnet, (p: (Host, Address)) => p.0) == Filter(hosts, h => Inside(net, h))
    ensures forall p :: p in inSubnet ==> p.0.address == Some(p.1)
    ensures outOfSubnet == Filter(hosts, h => Outside(net, h))
    ensures unparsed == Filter(hosts, (h: Host) => h.address.None?)
  {
    inSubnet, outOfSubnet, unparsed := [], [], [];
    var i := 0;
    while i < |hosts|
      invariant 0 <= i <= |hosts|
      invariant Map(inSubnet, (p: (Host, Address)) => p.0) == Filter(hosts[..i], h => Inside(net, h))
      invariant forall p :: p in inSubnet ==> p.0.address == Some(p.1)
      invariant outOfSubnet == Filter(hosts[..i], h => Outside(net, h))
      invariant unparsed == Filter(hosts[..i], (h: Host) => h.address.None?)
    {
      assert Init(hosts[..i + 1]) == hosts[..i];
      var h := hosts[i];
      if h.address.None? {
        unparsed := unparsed + [h];
      } else if net.Contains(h.address.value) {
        inSubnet := inSubnet + [(h, h.address.value)];
      } else {
        outOfSubnet := outOfSubnet + [h];
      }
      i := i + 1;
    }
    assert hosts[..i] == hosts;
  }

  /** Three predicates of which exactly one holds split a list without loss. */
  lemma {:induction false} ThreeParts(hosts: seq<Host>, p: Host -> bool, q: Host -> bool, r: Host -> bool)
    requires forall h :: (p(h) && !q(h) && !r(h)) || (!p(h) && q(h) && !r(h)) || (!p(h) && !q(h) && r(h))
    ensures multiset(Filter(hosts, p)) + multiset(Filter(hosts, q)) + multiset(Filter(hosts, r)) == multiset(hosts)
  {
    if hosts != [] {
      ThreeParts(Init(hosts), p, q, r);
      assert hosts == Init(hosts) + [Last(hosts)];
    }
  }

  /** Every host lands in exactly one part, as often as it is listed. */
  lemma PartitionKeepsAll(net: Net, hosts: seq<Host>)
    ensures multiset(Filter(hosts, h => Inside(net, h))) + multiset(Filter(hosts, h => Outside(net, h)))
            + multiset(Filter(hosts, (h: Host) => h.address.None?)) == multiset(hosts)
  {
    ThreeParts(hosts, h => Inside(net, h), h => Outside(net, h), (h: Host) => h.address.None?);
  }

  // ----- Dotted quads -----

  function Octets(a: Address): seq<nat> {
    [a / 256 / 256 / 256, a / 256 / 256 % 256, a / 256 % 256, a % 256]
  }

  function Dotted(a: Address): string {
    var o := Octets(a);
    Decimal(o[0]) + "." + (Decimal(o[1]) + "." + (Decimal(o[2]) + "." + Decimal(o[3])))
  }

  lemma QuadSplit(a: Address)
    ensures Split(Dotted(a), '.') == Map(Octets(a), n => Decimal(n))
  {
    var o := Octets(a);
    var d := Map(o, n => Decimal(n));
    SplitNone(d[3], '.');
    SplitAt(d[2], d[3], '.');
    SplitAt(d[1], d[2] + ['.'] + d[3], '.');
    SplitAt(d[0], d[1] + ['.'] + (d[2] + ['.'] + d[3]), '.');
    assert Dotted(a) == d[0] + ['.'] + (d[1] + ['.'] + (d[2] + ['.'] + d[3]));
    assert [d[0]] + ([d[1]] + ([d[2]] + [d[3]])) == d;
  }

  ghost function FromOctets(o: seq<nat>): nat
    requires |o| == 4
  {
    ((o[0] * 256 + o[1]) * 256 + o[2]) * 256 + o[3]
  }

  /** Two addresses print alike only if they are the same, so grouping by text is grouping by address. */
  lemma DottedInjective(a: Address, b: Address)
    requires Dotted(a) == Dotted(b)
    ensures a == b
  {
    QuadSplit(a);
    QuadSplit(b);
    var x, y := Map(Octets(a), n => Decimal(n)), Map(Octets(b), n => Decimal(n));
    forall i | 0 <= i < 4 ensures Octets(a)[i] == Octets(b)[i] {
      assert x[i] == y[i];
      DecimalInjective(Octets(a)[i], Octets(b)[i]);
    }
    assert Octets(a) == Octets(b);
  }

  /** tuple(int(o) for o in ip.split(".")). */
  function SortKey(ip: string): seq<nat>
    requires forall p, i :: p in Split(ip, '.') && 0 <= i < |p| ==> IsDigit(p[i])
  {
    var parts := Split(ip, '.');
    seq(|parts|, i requires 0 <= i < |parts| =>
      assert forall c :: c in parts[i] ==> IsDigit(c); ParseDecimal(parts[i]))
  }

  predicate TupleLe(a: seq<nat>, b: seq<nat>) {
    a == [] || (b != [] && (a[0] < b[0] || (a[0] == b[0] && TupleLe(a[1..], b[1..]))))
  }

  /** The sort key of a printed address orders addresses as numbers. */
  lemma KeyOrdersAddresses(a: Address, b: Address)
    ensures forall p, i :: p in Split(Dotted(a), '.') && 0 <= i < |p| ==> IsDigit(p[i])
    ensures forall p, i :: p in Split(Dotted(b), '.') && 0 <= i < |p| ==> IsDigit(p[i])
    ensures TupleLe(SortKey(Dotted(a)), SortKey(Dotted(b))) <==> a <= b
  {
    KeyIsOctets(a);
    KeyIsOctets(b);
    QuadOrder(Octets(a), Octets(b));
  }

  lemma KeyIsOctets(a: Address)
    ensures forall p, i :: p in Split(Dotted(a), '.') && 0 <= i < |p| ==> IsDigit(p[i])
    ensures SortKey(Dotted(a)) == Octets(a)
  {
    QuadSplit(a);
    var parts := Split(Dotted(a), '.');
    forall k | 0 <= k < 4 ensures ParseDecimal(Decimal(Octets(a)[k])) == Octets(a)[k] {
      DecimalRoundTrip(Octets(a)[k]);
    }
    forall p, i | p in parts && 0 <= i < |p| ensures IsDigit(p[i]) {
      assert p[i] in p;
    }
  }

  lemma QuadOrder(a: seq<nat>, b: seq<nat>)
    requires |a| == |b| == 4 && forall i :: 0 <= i < 4 ==> a[i] < 256 && b[i] < 256
    ensures TupleLe(a, b) <==> FromOctets(a) <= FromOctets(b)
  {
    assert a[1..][1..] == a[2..] && a[2..][1..] == a[3..] && a[3..][1..] == [];
    assert b[1..][1..] == b[2..] && b[2..][1..] == b[3..] && b[3..][1..] == [];
    assert TupleLe(a[3..], b[3..]) <==> a[3] <= b[3];
    assert TupleLe(a[2..], b[2..]) <==> a[2] < b[2] || (a[2] == b[2] && a[3] <= b[3]);
    assert TupleLe(a[1..], b[1..]) <==> a[1] < b[1] || (a[1] == b[1] && TupleLe(a[2..], b[2..]));
  }

  // ----- Duplicates -----

  predicate PrintsAs(h: Host, ip: string) {
    h.address.Some? && Dotted(h.address.value) == ip
  }

  function WithIp(hosts: seq<Host>, ip: string): seq<Host> {
    Filter(hosts, h => PrintsAs(h, ip))
  }

  /** by_ip before the single members are dropped: hosts by printed address, in order. */
  method GroupByIp(hosts: seq<Host>) returns (byIp: map<string, seq<Host>>)
    ensures forall ip :: ip in byIp <==> WithIp(hosts, ip) != []
    ensures forall ip :: ip in byIp ==> byIp[ip] == WithIp(hosts, ip)
  {
    byIp := map[];
    var i := 0;
    while i < |hosts|
      invariant 0 <= i <= |hosts|
      invariant forall ip :: ip in byIp <==> WithIp(hosts[..i], ip) != []
      invariant forall ip :: ip in byIp ==> byIp[ip] == WithIp(hosts[..i], ip)
    {
      assert Init(hosts[..i + 1]) == hosts[..i];
      var h := hosts[i];
      if h.address.Some? {
        var ip := Dotted(h.address.value);
        var members := if ip in byIp then byIp[ip] else [];
        byIp := byIp[ip := members + [h]];
      }
      i := i + 1;
    }
    assert hosts[..i] == hosts;
  }

  /** The hosts beyond the first of every group. */
  ghost function Excess(groups: map<string, seq<Host>>): int {
    if groups == map[] then 0
    else
      var ip :| ip in groups;
      |groups[ip]| - 1 + Excess(groups - {ip})
  }

  lemma {:induction false} ExcessWithout(groups: map<string, seq<Host>>, ip: string)
    requires ip in groups
    ensures Excess(groups) == |groups[ip]| - 1 + Excess(groups - {ip})
    decreases |groups|
  {
    var first :| first in groups && Excess(groups) == |groups[first]| - 1 + Excess(groups - {first});
    if first != ip {
      ExcessWithout(groups - {first}, ip);
      assert (groups - {first}) - {ip} == (groups - {ip}) - {first};
      ExcessWithout(groups - {ip}, first);
    }
  }

  /** The groups of a host list, as a value. */
  function Groups(hosts: seq<Host>, least: nat): map<string, seq<Host>> {
    map ip | ip in Printed(hosts) && |WithIp(hosts, ip)| >= least :: WithIp(hosts, ip)
  }

  function Printed(hosts: seq<Host>): set<string> {
    if hosts == [] then {}
    else Printed(Init(hosts)) + (if Last(hosts).address.Some? then {Dotted(Last(hosts).address.value)} else {})
  }

  function Allocated(hosts: seq<Host>): set<nat> {
    if hosts == [] then {}
    else Allocated(Init(hosts)) + (if Last(hosts).address.Some? then {Last(hosts).address.value} else {})
  }

  lemma {:induction false} PrintedIffSome(hosts: seq<Host>, ip: string)
    ensures ip in Printed(hosts) <==> WithIp(hosts, ip) != []
  {
    if hosts != [] {
      PrintedIffSome(Init(hosts), ip);
    }
  }

  method GroupDuplicateIps(hosts: seq<Host>) returns (duplicates: map<string, seq<Host>>)
    ensures duplicates == Groups(hosts, 2)
  {
    var byIp := GroupByIp(hosts);
    duplicates := map ip | ip in byIp && |byIp[ip]| > 1 :: byIp[ip];
    forall ip ensures ip in Printed(hosts) <==> WithIp(hosts, ip) != [] {
      PrintedIffSome(hosts, ip);
    }
  }

  lemma {:induction false} SinglesAddNothing(groups: map<string, seq<Host>>)
    requires forall ip :: ip in groups ==> |groups[ip]| >= 1
    ensures Excess(groups) == Excess(map ip | ip in groups && |groups[ip]| >= 2 :: groups[ip])
    decreases |groups|
  {
    var large := map ip | ip in groups && |groups[ip]| >= 2 :: groups[ip];
    if groups != map[] {
      var ip :| ip in groups;
      var rest := groups - {ip};
      SinglesAddNothing(rest);
      ExcessWithout(groups, ip);
      var largeRest := map x | x in rest && |rest[x]| >= 2 :: rest[x];
      if |groups[ip]| >= 2 {
        assert large - {ip} == largeRest;
        ExcessWithout(large, ip);
      } else {
        assert large == largeRest;
      }
    } else {
      assert large == map[];
    }
  }

  ghost predicate AllAddressed(hosts: seq<Host>) {
    forall i :: 0 <= i < |hosts| ==> hosts[i].address.Some?
  }

  /** One more host with an address: a new group of one, or a larger group. */
  lemma {:induction false} AllAccounted(hosts: seq<Host>)
    requires AllAddressed(hosts)
    ensures |Printed(hosts)| + Excess(Groups(hosts, 1)) == |hosts|
  {
    if hosts == [] {
      assert Groups(hosts, 1) == map[];
    } else {
      assert hosts[|hosts| - 1].address.Some?;
      AllAccounted(Init(hosts));
      OneMoreAccounted(hosts);
    }
  }

  lemma OneMoreAccounted(hosts: seq<Host>)
    requires hosts != [] && Last(hosts).address.Some?
    ensures |Printed(hosts)| + Excess(Groups(hosts, 1))
         == |Printed(Init(hosts))| + Excess(Groups(Init(hosts), 1)) + 1
  {
    var ip := Dotted(Last(hosts).address.value);
    GroupsGrow(hosts);
    ExcessGrows(Groups(Init(hosts), 1), Groups(hosts, 1), ip);
    assert Printed(hosts) == Printed(Init(hosts)) + {ip};
    AddOne(Printed(Init(hosts)), ip, Printed(hosts));
  }

  lemma ExcessGrows(small: map<string, seq<Host>>, large: map<string, seq<Host>>, ip: string)
    requires ip in large && large - {ip} == small - {ip}
    requires |large[ip]| == 1 + (if ip in small then |small[ip]| else 0)
    ensures Excess(large) == Excess(small) + (if ip in small then 1 else 0)
  {
    ExcessWithout(large, ip);
    if ip in small {
      ExcessWithout(small, ip);
    } else {
      assert small - {ip} == small;
    }
  }

  lemma GroupsGrow(hosts: seq<Host>)
    requires hosts != [] && Last(hosts).address.Some?
    ensures var ip := Dotted(Last(hosts).address.value);
      var small, large := Groups(Init(hosts), 1), Groups(hosts, 1);
      && (ip in Printed(Init(hosts)) <==> ip in small)
      && ip in large && |large[ip]| == 1 + (if ip in small then |small[ip]| else 0)
      && large - {ip} == small - {ip}
  {
    var ip := Dotted(Last(hosts).address.value);
    PrintedIffSome(Init(hosts), ip);
    assert WithIp(hosts, ip) == WithIp(Init(hosts), ip) + [Last(hosts)];
    forall x | x != ip ensures WithIp(hosts, x) == WithIp(Init(hosts), x) {
    }
  }

  /** Allocated addresses plus the hosts beyond the first of every conflict are the hosts in the subnet. */
  lemma ConflictAccounting(hosts: seq<Host>)
    requires AllAddressed(hosts)
    ensures |Allocated(hosts)| + Excess(Groups(hosts, 2)) == |hosts|
  {
    AllAccounted(hosts);
    var groups := Groups(hosts, 1);
    SinglesAddNothing(groups);
    assert Groups(hosts, 2) == map ip | ip in groups && |groups[ip]| >= 2 :: groups[ip];
    SameCount(hosts);
  }

  lemma {:induction false} AllocatedIffPrinted(hosts: seq<Host>, a: Address)
    ensures a in Allocated(hosts) <==> Dotted(a) in Printed(hosts)
  {
    if hosts != [] {
      AllocatedIffPrinted(Init(hosts), a);
      if Last(hosts).address.Some? && Dotted(Last(hosts).address.value) == Dotted(a) {
        DottedInjective(Last(hosts).address.value, a);
      }
    }
  }

  /** As many addresses as printed addresses. */
  lemma {:induction false} SameCount(hosts: seq<Host>)
    ensures |Allocated(hosts)| == |Printed(hosts)|
  {
    if hosts != [] {
      SameCount(Init(hosts));
      if Last(hosts).address.Some? {
        var a := Last(hosts).address.value;
        AllocatedIffPrinted(Init(hosts), a);
        AddOne(Allocated(Init(hosts)), a, Allocated(hosts));
        AddOne(Printed(Init(hosts)), Dotted(a), Printed(hosts));
      }
    }
  }

  lemma AddOne<T>(s: set<T>, x: T, t: set<T>)
    requires t == s + {x}
    ensures |t| == |s| + (if x in s then 0 else 1)
  {
    if x in s {
      assert t == s;
    }
  }

  // ----- The summary -----

  datatype Summary = Summary(totalUsable: nat, allocatedCount: nat, freeCount: nat)

  function Summarise(net: Net, inSubnet: seq<Host>): Summary {
    UsableCount(net);
    var total := net.Hi() - net.Lo();
    var taken := |Allocated(inSubnet)|;
    Summary(total, taken, if total > taken then total - taken else 0)
  }

  /** Pigeonhole: a positive free count means some usable address is not allocated, so there is a next one. */
  lemma FreeMeansNext(net: Net, inSubnet: seq<Host>)
    ensures Summarise(net, inSubnet).freeCount > 0 ==> !(Usable(net) <= Allocated(inSubnet))
  {
    UsableSize(net);
    if Usable(net) <= Allocated(inSubnet) {
      SubsetSize(Usable(net), Allocated(inSubnet));
    }
  }

  /** The free count is the number of free usable addresses exactly when no host sits on the network or broadcast
      address, or nothing is free anyway. */
  lemma FreeCountExact(net: Net, inSubnet: seq<Host>)
    ensures Summarise(net, inSubnet).freeCount == |Usable(net) - Allocated(inSubnet)|
       <==> Allocated(inSubnet) <= Usable(net) || Usable(net) <= Allocated(inSubnet)
  {
    var u, a := Usable(net), Allocated(inSubnet);
    UsableSize(net);
    var both := u * a;
    assert u == both + (u - a) && |u| == |both| + |u - a|;
    assert a == both + (a - u) && |a| == |both| + |a - u|;
    assert a <= u <==> a - u == {};
    assert u <= a <==> u - a == {};
  }
}
