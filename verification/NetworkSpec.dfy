/** Validation of a managed network, against what an accepted network promises about its addresses. */
module NetworkSpec {
  import opened Wrappers
  import opened Text
  import opened Cidr

  datatype ManagedNetwork = ManagedNetwork(
    name: string,
    driver: string,
    parent: Option<string>,
    subnet: Option<string>,
    gateway: Option<string>,
    ipRange: Option<string>,
    vlan: Option<nat>,
    hostShim: bool,
    shimIp: Option<string>)

  datatype Iface = Iface(name: string, kind: string, bridgeMember: bool)

  datatype Refusal =
    | BadName | BadDriver
    | ShimNeedsMacvlan | ShimNeedsSubnet | ShimNeedsAddress | ShimOutsideSubnet | ShimIsGateway
    | BadVlan | ParentNotFound | ParentInBridge | ParentIsInfiniband | BridgeTakesNoParent | ParentRequired
    | BadSubnet | GatewayOutsideSubnet | RangeOutsideSubnet | SubnetRequired

  type Check = Result<(), Refusal>

  predicate NameChar(c: char) {
    'A' <= c <= 'Z' || 'a' <= c <= 'z' || '0' <= c <= '9' || c in "_-."
  }

  predicate GoodName(name: string) {
    0 < |name| <= 64 && forall i :: 0 <= i < |name| ==> NameChar(name[i])
  }

  /** The bare address of a shim given as address or as address/prefix. */
  function ShimAddress(shim: string): string {
    shim[..FirstOf(shim, '/')]
  }

  function FindIface(ifaces: seq<Iface>, name: string): Option<Iface> {
    if ifaces == [] then None
    else if ifaces[0].name == name then Some(ifaces[0])
    else FindIface(ifaces[1..], name)
  }

  // ---- The checks, in the order in which they are made ----

  function CheckShim(t: IpText, spec: ManagedNetwork): Check {
    if !spec.hostShim then Ok(())
    else if spec.driver != "macvlan" then Err(ShimNeedsMacvlan)
    else if spec.subnet.None? then Err(ShimNeedsSubnet)
    else if spec.shimIp.None? || |spec.shimIp.value| == 0 then Err(ShimNeedsAddress)
    else if CidrContainsIp(t, spec.subnet.value, ShimAddress(spec.shimIp.value)) != Some(true)
    then Err(ShimOutsideSubnet)
    else if spec.gateway == Some(ShimAddress(spec.shimIp.value)) then Err(ShimIsGateway)
    else Ok(())
  }

  function CheckParent(spec: ManagedNetwork, ifaces: seq<Iface>): Check {
    var needsParent := spec.driver == "macvlan" || spec.driver == "ipvlan";
    match spec.parent
    case Some(p) =>
      if !needsParent then Err(BridgeTakesNoParent)
      else if spec.vlan.Some? && !(1 <= spec.vlan.value <= 4094) then Err(BadVlan)
      else (
        match FindIface(ifaces, p)
        case None => Err(ParentNotFound)
        case Some(i) =>
          if i.bridgeMember then Err(ParentInBridge)
          else if i.kind == "infiniband" then Err(ParentIsInfiniband)
          else Ok(()))
    case None => if needsParent then Err(ParentRequired) else Ok(())
  }

  function CheckAddresses(t: IpText, spec: ManagedNetwork): Check {
    match spec.subnet
    case Some(subnet) =>
      if ParseCidr(t, subnet).None? then Err(BadSubnet)
      else if spec.gateway.Some? && CidrContainsIp(t, subnet, spec.gateway.value) != Some(true)
      then Err(GatewayOutsideSubnet)
      else if spec.ipRange.Some? && CidrContainsNet(t, subnet, spec.ipRange.value) != Some(true)
      then Err(RangeOutsideSubnet)
      else Ok(())
    case None => if spec.gateway.Some? || spec.ipRange.Some? then Err(SubnetRequired) else Ok(())
  }

  /** `validate_network_spec`. */
  function ValidateNetworkSpec(t: IpText, spec: ManagedNetwork, ifaces: seq<Iface>): Check {
    if !GoodName(spec.name) then Err(BadName)
    else if spec.driver !in {"bridge", "macvlan", "ipvlan"} then Err(BadDriver)
    else
      var shim := CheckShim(t, spec);
      if shim.Err? then shim else
      var parent := CheckParent(spec, ifaces);
      if parent.Err? then parent else CheckAddresses(t, spec)
  }

  // ---- What acceptance means ----

  /** `address` is the text of an address inside `block`. */
  ghost predicate Inside(t: IpText, block: Block, address: string) {
    ReadIp(t, address).Some? && block.Holds(ReadIp(t, address).value)
  }

  /** Every address of the network `range` is inside `block`. */
  ghost predicate RangeInside(t: IpText, block: Block, range: string) {
    ParseCidr(t, range).Some? && Within(ParseCidr(t, range).value, block)
  }

  /** Gateway and range, where given, lie in the subnet; without a subnet there are none. */
  ghost predicate SoundAddresses(t: IpText, spec: ManagedNetwork) {
    if spec.subnet.None? then
      spec.gateway.None? && spec.ipRange.None?
    else
      var block := ParseCidr(t, spec.subnet.value);
      && block.Some?
      && (spec.gateway.Some? ==> Inside(t, block.value, spec.gateway.value))
      && (spec.ipRange.Some? ==> RangeInside(t, block.value, spec.ipRange.value))
  }

  /** A host shim sits on a macvlan network, at an address of the subnet spelled unlike the gateway's. */
  ghost predicate SoundShim(t: IpText, spec: ManagedNetwork) {
    spec.hostShim ==>
      && spec.driver == "macvlan"
      && spec.subnet.Some?
      && ParseCidr(t, spec.subnet.value).Some?
      && spec.shimIp.Some?
      && |spec.shimIp.value| > 0
      && Inside(t, ParseCidr(t, spec.subnet.value).value, ShimAddress(spec.shimIp.value))
      && spec.gateway != Some(ShimAddress(spec.shimIp.value))
  }

  /** `i` is the first interface of that name. */
  ghost predicate FirstNamed(ifaces: seq<Iface>, i: nat, name: string) {
    i < |ifaces| && ifaces[i].name == name && forall j :: 0 <= j < i ==> ifaces[j].name != name
  }

  ghost predicate SoundParent(spec: ManagedNetwork, ifaces: seq<Iface>) {
    if spec.driver == "bridge" then spec.parent.None?
    else
      && spec.parent.Some?
      && (spec.vlan.Some? ==> 1 <= spec.vlan.value <= 4094)
      && exists i: nat ::
           FirstNamed(ifaces, i, spec.parent.value) && !ifaces[i].bridgeMember && ifaces[i].kind != "infiniband"
  }

  lemma {:induction false} FindIfaceIsFirst(ifaces: seq<Iface>, name: string)
    ensures FindIface(ifaces, name).None? <==> forall j :: 0 <= j < |ifaces| ==> ifaces[j].name != name
    ensures FindIface(ifaces, name).Some? ==>
              exists i: nat :: FirstNamed(ifaces, i, name) && FindIface(ifaces, name).value == ifaces[i]
  {
    if ifaces != [] {
      if ifaces[0].name == name {
        assert FirstNamed(ifaces, 0, name);
      } else {
        FindIfaceIsFirst(ifaces[1..], name);
        if FindIface(ifaces, name).Some? {
          var i: nat :| FirstNamed(ifaces[1..], i, name) && FindIface(ifaces[1..], name).value == ifaces[1..][i];
          assert FirstNamed(ifaces, i + 1, name);
        } else {
          assert forall j :: 0 < j < |ifaces| ==> ifaces[j] == ifaces[1..][j - 1];
        }
      }
    }
  }

  lemma ParentExact(spec: ManagedNetwork, ifaces: seq<Iface>)
    requires spec.driver in {"bridge", "macvlan", "ipvlan"}
    ensures CheckParent(spec, ifaces).Ok? <==> SoundParent(spec, ifaces)
  {
    if spec.driver != "bridge" && spec.parent.Some? {
      FindIfaceIsFirst(ifaces, spec.parent.value);
      if FindIface(ifaces, spec.parent.value).Some? {
        var found := FindIface(ifaces, spec.parent.value).value;
        var i: nat :| FirstNamed(ifaces, i, spec.parent.value) && found == ifaces[i];
        forall j: nat | FirstNamed(ifaces, j, spec.parent.value)
          ensures j == i
        {
        }
      }
    }
  }

  lemma InsideExact(t: IpText, cidr: string, address: string)
    requires t.Lawful()
    ensures CidrContainsIp(t, cidr, address) == Some(true) <==>
            ParseCidr(t, cidr).Some? && Inside(t, ParseCidr(t, cidr).value, address)
  {
    ContainsIpExact(t, cidr, address);
  }

  lemma RangeInsideExact(t: IpText, cidr: string, range: string)
    requires t.Lawful()
    ensures CidrContainsNet(t, cidr, range) == Some(true) <==>
            ParseCidr(t, cidr).Some? && RangeInside(t, ParseCidr(t, cidr).value, range)
  {
    ContainsNetExact(t, cidr, range);
  }

  lemma ShimExact(t: IpText, spec: ManagedNetwork)
    requires t.Lawful()
    ensures CheckShim(t, spec).Ok? <==> SoundShim(t, spec)
  {
    if spec.subnet.Some? && spec.shimIp.Some? {
      InsideExact(t, spec.subnet.value, ShimAddress(spec.shimIp.value));
    }
  }

  lemma AddressesExact(t: IpText, spec: ManagedNetwork)
    requires t.Lawful()
    ensures CheckAddresses(t, spec).Ok? <==> SoundAddresses(t, spec)
  {
    if spec.subnet.Some? {
      if spec.gateway.Some? {
        InsideExact(t, spec.subnet.value, spec.gateway.value);
      }
      if spec.ipRange.Some? {
        RangeInsideExact(t, spec.subnet.value, spec.ipRange.value);
      }
    }
  }

  /**
   A network is accepted exactly when its name, driver and parent are sound and every address it
   names - the gateway, each address of the range, the shim - belongs to its subnet.
   */
  lemma AcceptedIffSound(t: IpText, spec: ManagedNetwork, ifaces: seq<Iface>)
    requires t.Lawful()
    ensures ValidateNetworkSpec(t, spec, ifaces).Ok? <==>
            && GoodName(spec.name)
            && spec.driver in {"bridge", "macvlan", "ipvlan"}
            && SoundShim(t, spec)
            && SoundParent(spec, ifaces)
            && SoundAddresses(t, spec)
  {
    if spec.driver in {"bridge", "macvlan", "ipvlan"} {
      ParentExact(spec, ifaces);
    }
    ShimExact(t, spec);
    AddressesExact(t, spec);
  }

  // ---- Acceptance of addresses in printed form ----

  /** The addresses a network names; the shim with the prefix it is configured with. */
  datatype Addressing = Addressing(
    subnet: Option<Block>,
    gateway: Option<Ip>,
    range: Option<Block>,
    shim: Option<Block>)
  {
    ghost predicate Printable(t: IpText) {
      && (subnet.Some? ==> subnet.value.ip.Valid() && Plain(t, subnet.value.ip))
      && (gateway.Some? ==> gateway.value.Valid())
      && (range.Some? ==> range.value.ip.Valid() && Plain(t, range.value.ip))
      && (shim.Some? ==> shim.value.ip.Valid() && Plain(t, shim.value.ip))
    }
  }

  function PrintedBlock(t: IpText, b: Option<Block>): Option<string> {
    if b.None? then None else Some(t.show(b.value.ip) + "/" + Show(b.value.prefix))
  }

  /** The network gives its addresses in printed form. */
  predicate Writes(t: IpText, spec: ManagedNetwork, x: Addressing) {
    && spec.subnet == PrintedBlock(t, x.subnet) && spec.ipRange == PrintedBlock(t, x.range)
    && spec.gateway == (if x.gateway.None? then None else Some(t.show(x.gateway.value)))
    && spec.shimIp == PrintedBlock(t, x.shim)
  }

  /** The characters a network name can have. */
  predicate Allowed(c: char) {
    c in
    {'A', 'B', 'C', 'D', 'E', 'F', 'G', 'H', 'I', 'J', 'K', 'L', 'M', 'N', 'O', 'P', 'Q', 'R', 'S', 'T', 'U', 'V', 'W',
     'X', 'Y', 'Z', 'a', 'b', 'c', 'd', 'e', 'f', 'g', 'h', 'i', 'j', 'k', 'l', 'm', 'n', 'o', 'p', 'q', 'r', 's', 't',
     'u', 'v', 'w', 'x', 'y', 'z', '0', '1', '2', '3', '4', '5', '6', '7', '8', '9', '.', '_', '-'}
  }

  lemma NameCharIff(c: char)
    ensures NameChar(c) <==> Allowed(c)
  {
  }

  lemma GoodNameIff(name: string)
    ensures GoodName(name) <==> 1 <= |name| <= 64 && forall c :: c in name ==> Allowed(c)
  {
    forall c: char
      ensures NameChar(c) <==> Allowed(c)
    {
      NameCharIff(c);
    }
    hide NameChar, Allowed;
  }

  /** The family, and for each block a prefix no longer than an address of it. */
  predicate Fits(b: Block) {
    b.prefix <= (if b.ip.V4? then 32 else 128)
  }

  /** Gateway, range and shim, as far as the network has them, in the subnet; the shim not the gateway. */
  ghost predicate AddressesSound(x: Addressing, spec: ManagedNetwork) {
    && (x.subnet.None? ==> x.gateway.None? && x.range.None? && !spec.hostShim)
    && (x.subnet.Some? ==>
          && Fits(x.subnet.value)
          && (x.gateway.Some? ==> x.subnet.value.Holds(x.gateway.value))
          && (x.range.Some? ==> Fits(x.range.value) && Within(x.range.value, x.subnet.value)))
    && (spec.hostShim ==>
          && spec.driver == "macvlan" && x.subnet.Some? && x.shim.Some?
          && x.subnet.value.Holds(x.shim.value.ip) && x.gateway != Some(x.shim.value.ip))
  }

  lemma PrintedShim(t: IpText, b: Block)
    requires Plain(t, b.ip)
    ensures ShimAddress(t.show(b.ip) + "/" + Show(b.prefix)) == t.show(b.ip)
  {
    hide Show, FirstOf;
    CutAtSlash(t.show(b.ip), Show(b.prefix));
  }

  lemma PrintedApart(t: IpText, a: Ip, b: Ip)
    requires t.Lawful() && a.Valid() && b.Valid()
    ensures t.show(a) == t.show(b) <==> a == b
    ensures ReadIp(t, t.show(a)) == Some(a)
  {
    assert t.ReadsBack(a) && t.ReadsBack(b);
  }

  lemma PrintedShimExact(t: IpText, spec: ManagedNetwork, x: Addressing)
    requires t.Lawful() && Writes(t, spec, x) && x.Printable(t) && spec.hostShim
    requires x.subnet.Some? ==> Fits(x.subnet.value)
    ensures SoundShim(t, spec) <==>
            && spec.driver == "macvlan" && x.subnet.Some? && x.shim.Some?
            && x.subnet.value.Holds(x.shim.value.ip) && x.gateway != Some(x.shim.value.ip)
  {
    if x.subnet.Some? && x.shim.Some? {
      PrintedRead(t, x.subnet.value);
      PrintedShim(t, x.shim.value);
      PrintedApart(t, x.shim.value.ip, x.shim.value.ip);
      if x.gateway.Some? {
        PrintedApart(t, x.gateway.value, x.shim.value.ip);
      }
      hide ParseCidr, ShimAddress, ReadIp, Show;
    }
  }

  lemma PrintedAddressesExact(t: IpText, spec: ManagedNetwork, x: Addressing)
    requires t.Lawful() && Writes(t, spec, x) && x.Printable(t)
    ensures SoundAddresses(t, spec) <==>
            && (x.subnet.None? ==> x.gateway.None? && x.range.None?)
            && (x.subnet.Some? ==>
                  && Fits(x.subnet.value)
                  && (x.gateway.Some? ==> x.subnet.value.Holds(x.gateway.value))
                  && (x.range.Some? ==> Fits(x.range.value) && Within(x.range.value, x.subnet.value)))
  {
    if x.subnet.Some? {
      PrintedRead(t, x.subnet.value);
      if x.gateway.Some? {
        PrintedApart(t, x.gateway.value, x.gateway.value);
      }
      if x.range.Some? {
        PrintedRead(t, x.range.value);
      }
    }
    hide ParseCidr, ReadIp, Show, Within;
  }

  /**
   The same on the addresses themselves: a network that gives them in printed form is accepted exactly
   when they are sound, whatever way the text is taken apart.
   */
  lemma PrintedAcceptedIff(t: IpText, spec: ManagedNetwork, ifaces: seq<Iface>, x: Addressing)
    requires t.Lawful() && Writes(t, spec, x) && x.Printable(t)
    ensures ValidateNetworkSpec(t, spec, ifaces).Ok? <==>
            && 1 <= |spec.name| <= 64 && (forall c :: c in spec.name ==> Allowed(c))
            && spec.driver in {"bridge", "macvlan", "ipvlan"}
            && SoundParent(spec, ifaces)
            && AddressesSound(x, spec)
  {
    GoodNameIff(spec.name);
    AcceptedIffSound(t, spec, ifaces);
    PrintedAddressesExact(t, spec, x);
    if spec.hostShim && (x.subnet.Some? ==> Fits(x.subnet.value)) {
      PrintedShimExact(t, spec, x);
    }
    assert !spec.hostShim ==> SoundShim(t, spec);
    hide ValidateNetworkSpec, GoodName, SoundParent, SoundAddresses, SoundShim, Within;
  }

  // ---- The shim and the gateway ----

  /** `text` is how the standard library prints the address it reads as. */
  ghost predicate Canonical(t: IpText, text: string) {
    ReadIp(t, text).Some? && t.show(ReadIp(t, text).value) == text
  }

  lemma CanonicalDecides(t: IpText, a: string, b: string)
    requires Canonical(t, a) && Canonical(t, b)
    ensures a == b <==> ReadIp(t, a) == ReadIp(t, b)
  {
    hide ReadIp;
  }

  /** A shim on a macvlan network, at an address of the subnet: what the last shim check looks at. */
  ghost predicate ShimInSubnet(t: IpText, spec: ManagedNetwork, gateway: string, shim: string) {
    && spec.hostShim && spec.driver == "macvlan" && spec.subnet.Some?
    && spec.gateway == Some(gateway) && spec.shimIp.Some? && |spec.shimIp.value| > 0
    && shim == ShimAddress(spec.shimIp.value) && CidrContainsIp(t, spec.subnet.value, shim) == Some(true)
  }

  lemma ShimCheckIsText(t: IpText, spec: ManagedNetwork, gateway: string, shim: string)
    requires ShimInSubnet(t, spec, gateway, shim)
    ensures CheckShim(t, spec) == if gateway == shim then Err(ShimIsGateway) else Ok(())
  {
    hide CidrContainsIp, ShimAddress;
  }

  /**
   The shim is compared with the gateway as text. On addresses in printed form that is the comparison
   of the addresses: a shim inside the subnet is refused exactly when it is the gateway.
   */
  lemma CanonicalShimComparison(t: IpText, spec: ManagedNetwork, gateway: string, shim: string)
    requires ShimInSubnet(t, spec, gateway, shim) && Canonical(t, gateway) && Canonical(t, shim)
    ensures CheckShim(t, spec) == Err(ShimIsGateway) <==> ReadIp(t, gateway) == ReadIp(t, shim)
  {
    hide ReadIp, CheckShim, ShimInSubnet, Canonical;
    ShimCheckIsText(t, spec, gateway, shim);
    CanonicalDecides(t, gateway, shim);
  }

  lemma SameAddressSameAnswer(t: IpText, cidr: string, a: string, b: string)
    requires ReadIp(t, a) == ReadIp(t, b)
    ensures CidrContainsIp(t, cidr, a) == CidrContainsIp(t, cidr, b)
  {
    hide ReadIp, ParseCidr, SameNetwork;
  }

  /** Everything about the network is sound but for the shim, which sits at the gateway's own address. */
  ghost predicate ShimAtGateway(t: IpText, spec: ManagedNetwork, ifaces: seq<Iface>, gateway: string, shim: string) {
    && GoodName(spec.name) && CheckParent(spec, ifaces).Ok?
    && ShimInSubnet(t, spec, gateway, shim) && ReadIp(t, gateway) == ReadIp(t, shim)
    && (spec.ipRange.Some? ==> CidrContainsNet(t, spec.subnet.value, spec.ipRange.value) == Some(true))
  }

  lemma AddressesPass(t: IpText, spec: ManagedNetwork, ifaces: seq<Iface>, gateway: string, shim: string)
    requires ShimAtGateway(t, spec, ifaces, gateway, shim)
    ensures CheckAddresses(t, spec).Ok?
  {
    hide ReadIp, GoodName, CheckParent, ShimAddress, CidrContainsNet;
    SameAddressSameAnswer(t, spec.subnet.value, gateway, shim);
    ContainmentParses(t, spec.subnet.value, shim);
    hide CidrContainsIp, ParseCidr;
  }

  lemma ContainmentParses(t: IpText, cidr: string, ip: string)
    requires CidrContainsIp(t, cidr, ip).Some?
    ensures ParseCidr(t, cidr).Some?
  {
    hide ReadIp, ParseCidr, SameNetwork;
  }

  /** Such a network is refused exactly when shim and gateway are written alike; otherwise it is accepted. */
  lemma ShimAtGatewayPassesIff(t: IpText, spec: ManagedNetwork, ifaces: seq<Iface>, gateway: string, shim: string)
    requires ShimAtGateway(t, spec, ifaces, gateway, shim)
    ensures ValidateNetworkSpec(t, spec, ifaces) == if gateway == shim then Err(ShimIsGateway) else Ok(())
  {
    ShimCheckIsText(t, spec, gateway, shim);
    AddressesPass(t, spec, ifaces, gateway, shim);
    assert spec.driver in {"bridge", "macvlan", "ipvlan"};
    hide GoodName, CheckParent, CheckShim, CheckAddresses, ReadIp, CidrContainsIp, CidrContainsNet, ShimAddress;
  }

  /** A shim in printed form at the gateway's address is refused exactly when the gateway is in printed form too. */
  lemma PrintedShimRefusedIff(t: IpText, spec: ManagedNetwork, ifaces: seq<Iface>, gateway: string, shim: string)
    requires ShimAtGateway(t, spec, ifaces, gateway, shim) && Canonical(t, shim)
    ensures ValidateNetworkSpec(t, spec, ifaces).Err? <==> Canonical(t, gateway)
  {
    ShimAtGatewayPassesIff(t, spec, ifaces, gateway, shim);
    hide ValidateNetworkSpec, GoodName, CheckParent, ReadIp, CidrContainsIp, CidrContainsNet, ShimAddress;
  }

  /** Other spellings exist: a leading blank does not change the address. */
  lemma LeadingBlank(t: IpText, address: string)
    ensures " " + address != address && ReadIp(t, " " + address) == ReadIp(t, address)
  {
    assert |" " + address| != |address|;
    assert (" " + address)[1..] == address;
  }

  /** So a network whose gateway is its shim's address with a leading blank is accepted. */
  lemma BlankGatewayAccepted(t: IpText, spec: ManagedNetwork, ifaces: seq<Iface>, shim: string)
    requires GoodName(spec.name) && CheckParent(spec, ifaces).Ok? && ShimInSubnet(t, spec, " " + shim, shim)
    requires spec.ipRange.None?
    ensures ValidateNetworkSpec(t, spec, ifaces).Ok?
  {
    hide GoodName, CheckParent, ReadIp, ValidateNetworkSpec, CidrContainsIp;
    LeadingBlank(t, shim);
    ShimAtGatewayPassesIff(t, spec, ifaces, " " + shim, shim);
  }
}
