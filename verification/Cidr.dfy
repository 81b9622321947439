/**
 CIDR arithmetic for managed networks: masking by shifts, proved against the meaning of a prefix,
 which is agreement on the leading bits (section 3.1 of RFC 4632).
 */
module Cidr {
  import opened Wrappers
  import opened Text

  // ---- Shifts and bits ----

  function Pow2(k: nat): (p: nat)
    ensures p > 0
  {
    if k == 0 then 1 else 2 * Pow2(k - 1)
  }

  /** `n >> k`. */
  function Shr(n: nat, k: nat): nat {
    if k == 0 then n else Shr(n / 2, k - 1)
  }

  /** `n << k`, on unbounded numbers; `MaskFits` shows that the engine's use never overflows. */
  function Shl(n: nat, k: nat): nat
    decreases k
  {
    if k == 0 then n else Shl(2 * n, k - 1)
  }

  /** Bit `k` of `n`, counted from the low end. */
  function Bit(n: nat, k: nat): nat {
    Shr(n, k) % 2
  }

  ghost predicate AgreeFrom(a: nat, b: nat, low: nat, width: nat) {
    forall k :: low <= k < width ==> Bit(a, k) == Bit(b, k)
  }

  lemma {:induction false} ShiftOnce(n: nat, k: nat)
    ensures Shr(n, k + 1) == Shr(n, k) / 2
  {
    if k > 0 {
      ShiftOnce(n / 2, k - 1);
    }
  }

  lemma DoubleBounds(q: nat, p: nat, n: nat)
    requires q * p <= n / 2 < (q + 1) * p
    ensures q * (2 * p) <= n < (q + 1) * (2 * p)
  {
    assert q * (2 * p) == 2 * (q * p) && (q + 1) * (2 * p) == 2 * ((q + 1) * p);
  }

  /** Shifting right by `k` is dividing by two to the `k`. */
  lemma {:induction false} ShiftDivides(n: nat, k: nat)
    ensures Shr(n, k) * Pow2(k) <= n < (Shr(n, k) + 1) * Pow2(k)
  {
    if k > 0 {
      ShiftDivides(n / 2, k - 1);
      DoubleBounds(Shr(n / 2, k - 1), Pow2(k - 1), n);
    }
  }

  /** The bits are binary digits: each shift takes off the last one. */
  lemma BitsSpell(n: nat, k: nat)
    ensures Shr(n, 0) == n && (Bit(n, k) == 0 || Bit(n, k) == 1)
    ensures Shr(n, k) == 2 * Shr(n, k + 1) + Bit(n, k)
  {
    ShiftOnce(n, k);
  }

  lemma {:induction false} ShiftedOut(n: nat, width: nat)
    requires n < Pow2(width)
    ensures Shr(n, width) == 0
  {
    if width > 0 {
      ShiftedOut(n / 2, width - 1);
    }
  }

  /** Shifting the low bits away leaves equal numbers exactly when the remaining bits agree. */
  lemma {:induction false} HighBitsDecide(a: nat, b: nat, low: nat, width: nat)
    requires low <= width && a < Pow2(width) && b < Pow2(width)
    ensures Shr(a, low) == Shr(b, low) <==> AgreeFrom(a, b, low, width)
    decreases width - low
  {
    if low == width {
      ShiftedOut(a, width);
      ShiftedOut(b, width);
    } else {
      HighBitsDecide(a, b, low + 1, width);
      ShiftOnce(a, low);
      ShiftOnce(b, low);
      assert AgreeFrom(a, b, low, width) <==> Bit(a, low) == Bit(b, low) && AgreeFrom(a, b, low + 1, width);
    }
  }

  lemma {:induction false} ShlInjective(a: nat, b: nat, k: nat)
    requires Shl(a, k) == Shl(b, k)
    ensures a == b
    decreases k
  {
    if k > 0 {
      ShlInjective(2 * a, 2 * b, k - 1);
    }
  }

  lemma {:induction false} ShlLast(n: nat, k: nat)
    ensures Shl(2 * n, k) == 2 * Shl(n, k)
    decreases k
  {
    if k > 0 {
      ShlLast(2 * n, k - 1);
    }
  }

  lemma {:induction false} ShiftBack(n: nat, k: nat)
    ensures Shl(Shr(n, k), k) <= n
  {
    if k > 0 {
      ShiftBack(n / 2, k - 1);
      ShlLast(Shr(n, k), k - 1);
    }
  }

  /** `n` with bit `k` inverted. */
  function Flipped(n: nat, k: nat): nat {
    if k > 0 then 2 * Flipped(n / 2, k - 1) + n % 2
    else if n % 2 == 0 then n + 1
    else n - 1
  }

  lemma {:induction false} FlippedBits(n: nat, k: nat, width: nat)
    requires k < width && n < Pow2(width)
    ensures Flipped(n, k) < Pow2(width)
    ensures Bit(Flipped(n, k), k) != Bit(n, k)
    ensures Shr(Flipped(n, k), k + 1) == Shr(n, k + 1)
  {
    if k > 0 {
      FlippedBits(n / 2, k - 1, width - 1);
      assert Flipped(n, k) / 2 == Flipped(n / 2, k - 1);
    } else {
      assert Shr(n, 1) == Shr(n / 2, 0);
      assert Shr(Flipped(n, 0), 1) == Shr(Flipped(n, 0) / 2, 0);
    }
  }

  // ---- Addresses and blocks ----

  /** An address of either family, as the number its octets spell. */
  datatype Ip = V4(bits: nat) | V6(bits: nat) {
    function Width(): nat {
      if V4? then 32 else 128
    }

    ghost predicate Valid() {
      bits < Pow2(Width())
    }
  }

  /** Reading and printing of addresses, as the standard library does them. */
  datatype IpText = IpText(parse: string -> Option<Ip>, show: Ip -> string) {
    ghost predicate ReadsValid(s: string) {
      parse(s).Some? ==> parse(s).value.Valid()
    }

    ghost predicate ReadsBack(ip: Ip) {
      ip.Valid() ==> parse(Trim(show(ip))) == Some(ip)
    }

    ghost predicate Lawful() {
      (forall s :: ReadsValid(s)) && (forall ip: Ip :: ReadsBack(ip))
    }
  }

  datatype Block = Block(ip: Ip, prefix: nat) {
    ghost predicate Valid() {
      ip.Valid() && prefix <= ip.Width()
    }

    /** The addresses of the block: same family, same leading `prefix` bits. */
    ghost predicate Holds(a: Ip) {
      && a.Valid() && a.V4? == ip.V4?
      && (var w := ip.Width(); prefix <= w && AgreeFrom(a.bits, ip.bits, w - prefix, w))
    }
  }

  /** An address as the checks read it: blanks around it are ignored. */
  function ReadIp(t: IpText, s: string): Option<Ip> {
    t.parse(Trim(s))
  }

  /** `parse_cidr`. */
  function ParseCidr(t: IpText, s: string): (r: Option<Block>)
    ensures r.Some? ==> r.value.prefix <= r.value.ip.Width()
  {
    var slash := FirstOf(s, '/');
    if slash == |s| then None else
    var ip := ReadIp(t, s[..slash]);
    if ip.None? then None else
    var p := ParseUnsigned(Trim(s[slash + 1..]), 255);
    if p.None? || p.value > ip.value.Width() then None else Some(Block(ip.value, p.value))
  }

  /** `mask_ip`. */
  function MaskIp(ip: Ip, prefix: nat): nat
    requires prefix <= ip.Width()
  {
    var shift := ip.Width() - prefix;
    if prefix == 0 then 0 else Shl(Shr(ip.bits, shift), shift)
  }

  predicate SameNetwork(net: Block, addr: Ip)
    requires net.prefix <= net.ip.Width()
  {
    net.ip.V4? == addr.V4? && MaskIp(net.ip, net.prefix) == MaskIp(addr, net.prefix)
  }

  /** `cidr_contains_ip`. */
  function CidrContainsIp(t: IpText, cidr: string, ip: string): Option<bool> {
    var net := ParseCidr(t, cidr);
    if net.None? then None else
    var addr := ReadIp(t, ip);
    if addr.None? then None else Some(SameNetwork(net.value, addr.value))
  }

  /** `cidr_contains_net`. */
  function CidrContainsNet(t: IpText, outer: string, inner: string): Option<bool> {
    var out := ParseCidr(t, outer);
    if out.None? then None else
    var inn := ParseCidr(t, inner);
    if inn.None? then None
    else if inn.value.prefix < out.value.prefix then Some(false)
    else CidrContainsIp(t, outer, t.show(inn.value.ip))
  }

  // ---- What the arithmetic means ----

  /** The left shift stays within the width of the address, so no bit is lost in it. */
  lemma MaskFits(ip: Ip, prefix: nat)
    requires ip.Valid() && prefix <= ip.Width()
    ensures MaskIp(ip, prefix) < Pow2(ip.Width())
  {
    ShiftBack(ip.bits, ip.Width() - prefix);
  }

  lemma {:induction false} ShlBit(n: nat, k: nat, j: nat)
    ensures Bit(Shl(n, k), j) == if j < k then 0 else Bit(n, j - k)
    decreases k
  {
    if k > 0 {
      ShlBit(2 * n, k - 1, j);
    }
  }

  lemma {:induction false} ShrTwice(n: nat, a: nat, b: nat)
    ensures Shr(Shr(n, a), b) == Shr(n, a + b)
  {
    if a > 0 {
      ShrTwice(n / 2, a - 1, b);
    }
  }

  lemma {:induction false} NoBits(n: nat, width: nat, k: nat)
    requires n < Pow2(width) && width <= k
    ensures Bit(n, k) == 0
  {
    ShiftedOut(n, width);
    ShrTwice(n, width, k - width);
    ZeroShifted(k - width);
  }

  lemma {:induction false} ZeroShifted(k: nat)
    ensures Shr(0, k) == 0
  {
    if k > 0 {
      ZeroShifted(k - 1);
    }
  }

  /** The mask is the network address: the leading bits of the address, and zeros behind them. */
  lemma MaskIsNetwork(ip: Ip, prefix: nat, k: nat)
    requires ip.Valid() && prefix <= ip.Width()
    ensures Bit(MaskIp(ip, prefix), k) == if k < ip.Width() - prefix then 0 else Bit(ip.bits, k)
  {
    var shift := ip.Width() - prefix;
    if prefix == 0 {
      ZeroShifted(k);
      if k >= shift {
        NoBits(ip.bits, shift, k);
      }
    } else {
      ShlBit(Shr(ip.bits, shift), shift, k);
      if k >= shift {
        ShrTwice(ip.bits, shift, k - shift);
      }
    }
  }

  /** Equal masks mean: the same leading bits, for every prefix from 0 to the full width. */
  lemma MaskMeansPrefix(a: Ip, b: Ip, prefix: nat)
    requires a.Valid() && b.Valid() && a.V4? == b.V4? && prefix <= a.Width()
    ensures MaskIp(a, prefix) == MaskIp(b, prefix) <==> AgreeFrom(b.bits, a.bits, a.Width() - prefix, a.Width())
  {
    var shift := a.Width() - prefix;
    HighBitsDecide(b.bits, a.bits, shift, a.Width());
    if prefix > 0 && MaskIp(a, prefix) == MaskIp(b, prefix) {
      ShlInjective(Shr(a.bits, shift), Shr(b.bits, shift), shift);
    }
  }

  lemma ReadIsValid(t: IpText, s: string)
    requires t.Lawful()
    ensures ReadIp(t, s).Some? ==> ReadIp(t, s).value.Valid()
  {
    assert t.ReadsValid(Trim(s));
  }

  lemma ParsedIsValid(t: IpText, s: string)
    requires t.Lawful()
    ensures ParseCidr(t, s).Some? ==> ParseCidr(t, s).value.Valid()
  {
    ReadIsValid(t, s[..FirstOf(s, '/')]);
  }

  /** Membership: malformed text gives no answer, and otherwise the answer is block membership. */
  lemma ContainsIpExact(t: IpText, cidr: string, ip: string)
    requires t.Lawful()
    ensures CidrContainsIp(t, cidr, ip).None? <==> ParseCidr(t, cidr).None? || ReadIp(t, ip).None?
    ensures CidrContainsIp(t, cidr, ip) == Some(true) <==>
            ParseCidr(t, cidr).Some? && ReadIp(t, ip).Some? && ParseCidr(t, cidr).value.Holds(ReadIp(t, ip).value)
  {
    ParsedIsValid(t, cidr);
    ReadIsValid(t, ip);
    var net, addr := ParseCidr(t, cidr), ReadIp(t, ip);
    if net.Some? && addr.Some? && net.value.ip.V4? == addr.value.V4? {
      MaskMeansPrefix(net.value.ip, addr.value, net.value.prefix);
    }
  }

  /** A block with a longer prefix lies inside another as soon as its base address does. */
  lemma LongerPrefixInside(outer: Block, inner: Block, a: Ip)
    requires inner.Valid() && inner.prefix >= outer.prefix && outer.Holds(inner.ip) && inner.Holds(a)
    ensures outer.Holds(a)
  {
  }

  /** A block with a shorter prefix always has an address outside the other block. */
  lemma ShorterPrefixEscapes(outer: Block, inner: Block) returns (a: Ip)
    requires inner.Valid() && outer.Valid() && inner.prefix < outer.prefix
    ensures inner.Holds(a) && !outer.Holds(a)
  {
    a := inner.ip;
    if outer.Holds(a) {
      var w := inner.ip.Width();
      var k := w - inner.prefix - 1;
      FlippedBits(inner.ip.bits, k, w);
      var other := Flipped(inner.ip.bits, k);
      HighBitsDecide(other, inner.ip.bits, k + 1, w);
      a := if inner.ip.V4? then V4(other) else V6(other);
      assert Bit(inner.ip.bits, k) == Bit(outer.ip.bits, k);
    }
  }

  ghost predicate Within(inner: Block, outer: Block) {
    forall a: Ip :: inner.Holds(a) ==> outer.Holds(a)
  }

  lemma WithinIff(inner: Block, outer: Block)
    requires inner.Valid() && outer.Valid()
    ensures Within(inner, outer) <==> outer.prefix <= inner.prefix && outer.Holds(inner.ip)
  {
    assert inner.Holds(inner.ip);
    if inner.prefix < outer.prefix {
      var a := ShorterPrefixEscapes(outer, inner);
    } else if outer.Holds(inner.ip) {
      forall a: Ip | inner.Holds(a)
        ensures outer.Holds(a)
      {
        LongerPrefixInside(outer, inner, a);
      }
    }
  }

  /**
   Containment of networks: the prefix comparison and one membership test decide whether every
   address of the inner block lies in the outer one, across both families.
   */
  lemma ContainsNetExact(t: IpText, outer: string, inner: string)
    requires t.Lawful()
    ensures CidrContainsNet(t, outer, inner).None? <==> ParseCidr(t, outer).None? || ParseCidr(t, inner).None?
    ensures CidrContainsNet(t, outer, inner) == Some(true) <==>
            && ParseCidr(t, outer).Some? && ParseCidr(t, inner).Some?
            && Within(ParseCidr(t, inner).value, ParseCidr(t, outer).value)
  {
    ParsedIsValid(t, outer);
    ParsedIsValid(t, inner);
    if ParseCidr(t, outer).Some? && ParseCidr(t, inner).Some? {
      var out, inn := ParseCidr(t, outer).value, ParseCidr(t, inner).value;
      WithinIff(inn, out);
      ContainsIpExact(t, outer, t.show(inn.ip));
      assert t.ReadsBack(inn.ip);
    }
  }

  // ---- Blocks as text ----

  /** `text` is the decimal number `digits`, of one digit or more, perhaps behind a plus. */
  predicate Spells(text: string, digits: string) {
    && |digits| > 0 && AllDigits(digits)
    && (text == digits || (|text| > 0 && text[0] == '+' && text[1..] == digits))
  }

  lemma NumberRead(text: string, digits: string)
    requires Spells(text, digits)
    ensures ParseUnsigned(text, 255) == if DecimalValue(digits) <= 255 then Some(DecimalValue(digits)) else None
  {
    assert IsDigit(digits[0]);
  }

  lemma NoNumberRead(text: string)
    requires forall digits :: !Spells(text, digits)
    ensures ParseUnsigned(text, 255).None?
  {
    var digits := if |text| > 0 && text[0] == '+' then text[1..] else text;
    assert !Spells(text, digits);
  }

  /** Without a slash there is no block. */
  lemma NoSlashNoBlock(t: IpText, s: string)
    requires '/' !in s
    ensures ParseCidr(t, s) == None
  {
    FirstOfIsFirst(s, '/');
  }

  lemma CutAtSlash(address: string, number: string)
    requires '/' !in address
    ensures var s := address + "/" + number;
            && FirstOf(s, '/') == |address| < |s|
            && s[..|address|] == address && s[|address| + 1..] == number
  {
    assert address + "/" + number == address + ['/'] + number;
    FirstOfIs(address, '/', number);
    hide *;
  }

  lemma PartsRead(t: IpText, s: string, slash: nat)
    requires FirstOf(s, '/') == slash < |s|
    ensures var ip := t.parse(Trim(s[..slash]));
            var n := ParseUnsigned(Trim(s[slash + 1..]), 255);
            ParseCidr(t, s) ==
            if ip.Some? && n.Some? && n.value <= (if ip.value.V4? then 32 else 128)
            then Some(Block(ip.value, n.value)) else None
  {
    hide FirstOf, Trim, ParseUnsigned;
  }

  /**
   With one, the text before the first is the address and the rest the prefix, blanks around either
   ignored: a block exactly when the prefix fits the family.
   */
  lemma BlockRead(t: IpText, address: string, number: string, ip: Ip, digits: string)
    requires '/' !in address && t.parse(Trim(address)) == Some(ip) && Spells(Trim(number), digits)
    ensures ParseCidr(t, address + "/" + number) ==
            var n := DecimalValue(digits);
            if n <= (if ip.V4? then 32 else 128) then Some(Block(ip, n)) else None
  {
    hide FirstOf, Trim, ParseUnsigned, DecimalValue, ParseCidr, TrimStart, TrimEnd;
    CutAtSlash(address, number);
    PartsRead(t, address + "/" + number, |address|);
    NumberRead(Trim(number), digits);
    hide Spells;
  }

  /** A prefix that is no number, or an address that is none, gives no block. */
  lemma NoBlockRead(t: IpText, address: string, number: string)
    requires '/' !in address
    requires t.parse(Trim(address)).None? || forall digits :: !Spells(Trim(number), digits)
    ensures ParseCidr(t, address + "/" + number) == None
  {
    hide *;
    CutAtSlash(address, number);
    PartsRead(t, address + "/" + number, |address|);
    if t.parse(Trim(address)).Some? {
      NoNumberRead(Trim(number));
    }
  }

  /** A block in printed form. */
  function Printed(t: IpText, b: Block): string {
    t.show(b.ip) + "/" + Show(b.prefix)
  }

  /** The printed address holds no slash. */
  predicate Plain(t: IpText, ip: Ip) {
    '/' !in t.show(ip)
  }

  lemma ShowIsTrim(n: nat)
    ensures Trim(Show(n)) == Show(n)
  {
    ShowIsDecimal(n);
    hide Show, DecimalValue;
    var s := Show(n);
    assert IsDigit(s[0]) && IsDigit(s[|s| - 1]);
  }

  /** Printing a block and reading it gives the block, unless the prefix is too long for the family. */
  lemma PrintedRead(t: IpText, b: Block)
    requires t.Lawful() && b.ip.Valid() && Plain(t, b.ip)
    ensures ParseCidr(t, Printed(t, b)) == if b.prefix <= (if b.ip.V4? then 32 else 128) then Some(b) else None
  {
    assert t.ReadsBack(b.ip);
    ShowIsTrim(b.prefix);
    ShowIsDecimal(b.prefix);
    BlockRead(t, t.show(b.ip), Show(b.prefix), b.ip, Show(b.prefix));
  }

  /** On printed text, membership is agreement with the network on the leading bits. */
  lemma PrintedContainsIp(t: IpText, net: Block, a: Ip)
    requires t.Lawful() && net.Valid() && Plain(t, net.ip) && a.Valid()
    ensures var w := if net.ip.V4? then 32 else 128;
            CidrContainsIp(t, Printed(t, net), t.show(a)) ==
            Some(a.V4? == net.ip.V4? && AgreeFrom(a.bits, net.ip.bits, w - net.prefix, w))
  {
    PrintedRead(t, net);
    assert t.ReadsBack(a);
    ContainsIpExact(t, Printed(t, net), t.show(a));
    hide Printed, ParseCidr;
  }

  /** On printed text, containment of networks is containment of their addresses. */
  lemma PrintedContainsNet(t: IpText, outer: Block, inner: Block)
    requires t.Lawful() && outer.Valid() && inner.Valid() && Plain(t, outer.ip) && Plain(t, inner.ip)
    ensures var answer := CidrContainsNet(t, Printed(t, outer), Printed(t, inner));
            answer.Some? && (answer == Some(true) <==> Within(inner, outer))
  {
    PrintedRead(t, outer);
    PrintedRead(t, inner);
    ContainsNetExact(t, Printed(t, outer), Printed(t, inner));
    hide *;
  }
}
