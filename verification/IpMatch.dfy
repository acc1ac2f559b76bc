/** CIDR matching and client-IP binding (packages/auth/src/ipAllowlist.ts, packages/auth/src/ipBinding.ts). */
module IpMatch {
  import opened Prelude
  import opened Numerals
  import opened IpText
  import opened IpRoundTrip

  // ---- normalizeIp ---------------------------------------------------------------------------------------

  /** The white space and line terminators that trim() removes. */
  predicate IsSpace(c: char) {
    var n := c as int;
    9 <= n <= 13 || n == 32 || n == 0xA0 || n == 0x1680 || 0x2000 <= n <= 0x200A
    || n == 0x2028 || n == 0x2029 || n == 0x202F || n == 0x205F || n == 0x3000 || n == 0xFEFF
  }

  function TrimStart(s: string): string {
    if s != "" && IsSpace(s[0]) then TrimStart(s[1..]) else s
  }

  function TrimEnd(s: string): string {
    if s != "" && IsSpace(s[|s| - 1]) then TrimEnd(s[..|s| - 1]) else s
  }

  function Trim(s: string): string {
    TrimEnd(TrimStart(s))
  }

  function LowerChar(c: char): char {
    if 'A' <= c <= 'Z' then (c as int + 32) as char else c
  }

  function Lower(s: string): string {
    seq(|s|, i requires 0 <= i < |s| => LowerChar(s[i]))
  }

  function IndexOf(s: string, c: char): (r: Option<nat>)
    ensures r.Some? ==> r.value < |s| && s[r.value] == c && c !in s[..r.value]
    ensures r.None? ==> c !in s
  {
    if s == "" then None
    else if s[0] == c then Some(0)
    else
      match IndexOf(s[1..], c)
      case None => None
      case Some(i) => Some(i + 1)
  }

  /** [v6]:port gives v6. */
  function Unbracket(s: string): string {
    if s != "" && s[0] == '[' && IndexOf(s, ']').Some? then s[1..IndexOf(s, ']').value] else s
  }

  function DropZone(s: string): string {
    if IndexOf(s, '%').Some? then s[..IndexOf(s, '%').value] else s
  }

  const MAPPED := "::ffff:"

  function Unmap(s: string): string {
    if MAPPED <= s && '.' in s[7..] then s[7..] else s
  }

  function Normalized(ip: string): string {
    Unmap(DropZone(Unbracket(Lower(Trim(ip)))))
  }

  method NormalizeIp(ip: string) returns (s: string)
    ensures s == Normalized(ip)
  {
    s := Lower(Trim(ip));
    if s != "" && s[0] == '[' {
      var close := IndexOf(s, ']');
      if close.Some? && close.value > 0 {
        s := s[1..close.value];
      }
    }
    var zone := IndexOf(s, '%');
    if zone.Some? {
      s := s[..zone.value];
    }
    if MAPPED <= s && '.' in s[7..] {
      s := s[7..];
    }
  }

  // ---- addresses and blocks --------------------------------------------------------------------------------

  datatype Address = NoAddress | V4(n: nat) | V6(v: nat)

  datatype Block = NoBlock | BlockV4(net: nat, prefix: nat) | BlockV6(net6: nat, prefix6: nat)

  function AddressOfText(s: string): Address {
    if ParseV4(s).Some? then V4(ParseV4(s).value) else if ParseV6(s).Some? then V6(ParseV6(s).value) else NoAddress
  }

  function AddressOf(ip: string): Address {
    AddressOfText(Normalized(ip))
  }

  /** A missing prefix is the full width; a malformed or too long one spoils the entry. */
  function PrefixOf(text: Option<string>, digits: nat, width: nat): Option<nat> {
    if text.None? then Some(width)
    else if Numeral(text.value, 10, digits) && Value(text.value, 10) <= width then Some(Value(text.value, 10))
    else None
  }

  function BlockOf(cidr: string): Block {
    var raw := Trim(cidr);
    if raw == "" then NoBlock
    else
      var slash := IndexOf(raw, '/');
      var network := if slash.Some? then raw[..slash.value] else raw;
      var prefix := if slash.Some? then Some(raw[slash.value + 1..]) else None;
      BlockFrom(AddressOf(network), prefix)
  }

  function BlockFrom(network: Address, prefix: Option<string>): Block {
    match network
    case NoAddress => NoBlock
    case V4(n) => (match PrefixOf(prefix, 2, 32) case Some(p) => BlockV4(n, p) case None => NoBlock)
    case V6(v) => (match PrefixOf(prefix, 3, 128) case Some(p) => BlockV6(v, p) case None => NoBlock)
  }

  /** An address lies in a block exactly when both give the same number after the host bits are divided away. */
  predicate Contains(b: Block, a: Address) {
    match b
    case NoBlock => false
    case BlockV4(net, p) => a.V4? && p <= 32 && SameBlock(a.n, net, 32 - p)
    case BlockV6(net, p) => a.V6? && p <= 128 && SameBlock(a.v, net, 128 - p)
  }

  /** x and y agree after division by 2^k. */
  predicate SameBlock(x: nat, y: nat, k: nat) {
    PowPositive(2, k);
    Quot(x, Pow(2, k)) == Quot(y, Pow(2, k))
  }

  lemma SameBlockIsDivision(x: nat, y: nat, k: nat)
    ensures Pow(2, k) > 0 && (SameBlock(x, y, k) <==> x / Pow(2, k) == y / Pow(2, k))
  {
    PowPositive(2, k);
    QuotIsDiv(x, Pow(2, k));
    QuotIsDiv(y, Pow(2, k));
  }

  // ---- masks ---------------------------------------------------------------------------------------------

  /** Bitwise and of two non-negative integers. */
  function And(a: nat, b: nat): nat {
    if a == 0 || b == 0 then 0
    else 2 * And(a / 2, b / 2) + if a % 2 == 1 && b % 2 == 1 then 1 else 0
  }

  const TWO31: int := 0x8000_0000
  const TWO32: int := 0x1_0000_0000

  /** x >>> 0 */
  function ToUint32(x: int): nat {
    x % TWO32
  }

  /** The signed 32-bit reading every bitwise operator of the language applies to its operands and result. */
  function ToInt32(x: int): int {
    var m := x % TWO32;
    if m >= TWO31 then m - TWO32 else m
  }

  function BitAnd32(a: int, b: int): int {
    ToInt32(And(ToUint32(a), ToUint32(b)))
  }

  /** prefix === 32 ? 0xffffffff : ~((1 << (32 - prefix)) - 1) >>> 0 */
  function MaskV4(prefix: nat): nat
    requires 1 <= prefix <= 32
  {
    if prefix == 32 then 0xffff_ffff
    else
      var shifted := ToInt32(Pow(2, 32 - prefix));
      var inverted := -ToInt32(shifted - 1) - 1;
      ToUint32(inverted)
  }

  /** ((1n << p) - 1n) << (128n - p) */
  function MaskV6(prefix: nat): nat
    requires prefix <= 128
  {
    PowPositive(2, prefix);
    (Pow(2, prefix) - 1) * Pow(2, 128 - prefix)
  }

  lemma {:induction false} AndOnes(a: nat, p: nat)
    requires a < Pow(2, p)
    ensures Pow(2, p) > 0 && And(a, Pow(2, p) - 1) == a
    decreases p
  {
    PowPositive(2, p);
    if p > 0 {
      PowPositive(2, p - 1);
      AndOnes(a / 2, p - 1);
      var m := Pow(2, p) - 1;
      assert m / 2 == Pow(2, p - 1) - 1 && m % 2 == 1;
    }
  }

  /** Masking to the top bits clears the low k bits. */
  lemma {:induction false} AndMask(a: nat, p: nat, k: nat)
    requires a < Pow(2, p + k)
    ensures Pow(2, p) > 0 && Pow(2, k) > 0
    ensures And(a, (Pow(2, p) - 1) * Pow(2, k)) == Quot(a, Pow(2, k)) * Pow(2, k)
    decreases k
  {
    PowPositive(2, p);
    PowPositive(2, k);
    if k == 0 {
      AndOnes(a, p);
      QuotUnique(a, 0, 1);
    } else {
      var ones, half := Pow(2, p) - 1, Pow(2, k - 1);
      PowPositive(2, k - 1);
      assert a / 2 < Pow(2, p + k - 1);
      AndMask(a / 2, p, k - 1);
      QuotTwice(a, 2, half);
      QuotIsDiv(a, 2);
      Associate(ones, half, 2);
      Commute(half, 2);
      AndEven(a, ones * half);
      var q := Quot(a / 2, half);
      Associate(q, half, 2);
    }
  }

  lemma AndEven(a: nat, m: nat)
    ensures And(a, 2 * m) == 2 * And(a / 2, m)
    ensures 2 * m == m * 2
  {
  }

  lemma SameProduct(x: nat, y: nat, c: nat)
    requires c > 0
    ensures x * c == y * c <==> x == y
  {
  }

  /** Equal under the mask of the top p of p + k bits is equal after division by 2^k. */
  lemma MaskIsBlock(a: nat, b: nat, p: nat, k: nat)
    requires a < Pow(2, p + k) && b < Pow(2, p + k)
    ensures Pow(2, p) > 0 && Pow(2, k) > 0
    ensures And(a, (Pow(2, p) - 1) * Pow(2, k)) == And(b, (Pow(2, p) - 1) * Pow(2, k)) <==> SameBlock(a, b, k)
  {
    AndMask(a, p, k);
    AndMask(b, p, k);
    SameProduct(Quot(a, Pow(2, k)), Quot(b, Pow(2, k)), Pow(2, k));
  }

  lemma Pow2Values()
    ensures Pow(2, 31) == TWO31 && Pow(2, 32) == TWO32 && Pow(2, 128) == V6_SIZE
  {
    assert Pow(2, 4) == 16;
    PowAdds(2, 4, 4);
    PowAdds(2, 8, 8);
    PowAdds(2, 16, 16);
    assert Pow(2, 32) == 2 * Pow(2, 31);
    PowAdds(2, 32, 32);
    PowAdds(2, 64, 64);
  }

  lemma {:induction false} PowBelow(k: nat, n: nat)
    requires k < n
    ensures 0 < Pow(2, k) && 2 * Pow(2, k) <= Pow(2, n)
    decreases n
  {
    PowPositive(2, k);
    if k < n - 1 {
      PowBelow(k, n - 1);
    }
  }

  /** The shifts and sign bits of the 32-bit expression come out as the complement of the low bits. */
  lemma ComplementedLowBits(h: nat)
    requires 1 <= h <= TWO31
    ensures ToUint32(-ToInt32(ToInt32(h) - 1) - 1) == TWO32 - h
  {
  }

  lemma MaskV4Value(prefix: nat)
    requires 1 <= prefix <= 32
    ensures Pow(2, prefix) > 0 && MaskV4(prefix) == (Pow(2, prefix) - 1) * Pow(2, 32 - prefix) < TWO32
  {
    var k := 32 - prefix;
    var h, ones := Pow(2, k), Pow(2, prefix) - 1;
    Pow2Values();
    PowPositive(2, prefix);
    PowPositive(2, k);
    PowAdds(2, prefix, k);
    Distribute(h, ones, 1);
    Commute(Pow(2, prefix), h);
    Commute(ones, h);
    assert ones * h == TWO32 - h;
    if prefix < 32 {
      PowBelow(k, 32);
      ComplementedLowBits(h);
    }
  }

  lemma Int32IsInjective(x: nat, y: nat)
    requires x < TWO32 && y < TWO32
    ensures ToInt32(x) == ToInt32(y) <==> x == y
  {
  }

  lemma MaskTestV4(a: nat, b: nat, prefix: nat)
    requires a < V4_SIZE && b < V4_SIZE && 1 <= prefix <= 32
    ensures BitAnd32(a, MaskV4(prefix)) == BitAnd32(b, MaskV4(prefix)) <==> SameBlock(a, b, 32 - prefix)
  {
    Pow2Values();
    MaskV4Value(prefix);
    MaskIsBlock(a, b, prefix, 32 - prefix);
    AndOfWords(a, b, MaskV4(prefix));
  }

  lemma UnsignedWord(x: nat)
    requires x < TWO32
    ensures ToUint32(x) == x
  {
  }

  lemma AndOfWord(a: nat, m: nat)
    requires a < TWO32 && m < TWO32
    ensures BitAnd32(a, m) == ToInt32(And(a, m)) && And(a, m) < TWO32
  {
    UnsignedWord(a);
    UnsignedWord(m);
    AndBound(a, m);
  }

  lemma AndOfWords(a: nat, b: nat, m: nat)
    requires a < TWO32 && b < TWO32 && m < TWO32
    ensures BitAnd32(a, m) == BitAnd32(b, m) <==> And(a, m) == And(b, m)
  {
    AndOfWord(a, m);
    AndOfWord(b, m);
    Int32IsInjective(And(a, m), And(b, m));
  }

  lemma {:induction false} AndBound(a: nat, b: nat)
    ensures And(a, b) <= a
    decreases a
  {
    if a != 0 && b != 0 {
      AndBound(a / 2, b / 2);
    }
  }

  lemma MaskTestV6(a: nat, b: nat, prefix: nat)
    requires a < V6_SIZE && b < V6_SIZE && prefix <= 128
    ensures And(a, MaskV6(prefix)) == And(b, MaskV6(prefix)) <==> SameBlock(a, b, 128 - prefix)
  {
    Pow2Values();
    MaskIsBlock(a, b, prefix, 128 - prefix);
  }

  lemma WholeSpace(a: nat, b: nat, k: nat)
    requires a < Pow(2, k) && b < Pow(2, k)
    ensures SameBlock(a, b, k)
  {
  }

  // ---- ipInCidr ------------------------------------------------------------------------------------------

  /** A matching prefix for an entry of the given width, as the code reads it. */
  method ReadPrefix(text: Option<string>, digits: nat, width: nat) returns (r: Option<nat>)
    ensures r == PrefixOf(text, digits, width)
  {
    var prefix := width;
    if text.Some? {
      if !Numeral(text.value, 10, digits) {
        return None;
      }
      prefix := Value(text.value, 10);
      if prefix > width {
        return None;
      }
    }
    r := Some(prefix);
  }

  method TestV4(candidate: string, net: nat, prefixPart: Option<string>) returns (r: bool)
    requires net < V4_SIZE
    ensures var p := PrefixOf(prefixPart, 2, 32);
            r == (p.Some? && Contains(BlockV4(net, p.value), AddressOfText(candidate)))
  {
    var ipV4 := Ipv4ToInt(candidate);
    if ipV4.None? {
      return false;
    }
    var prefix := ReadPrefix(prefixPart, 2, 32);
    if prefix.None? {
      return false;
    }
    ParsedV4InRange(candidate);
    if prefix.value == 0 {
      Pow2Values();
      WholeSpace(ipV4.value, net, 32);
      return true;
    }
    MaskTestV4(ipV4.value, net, prefix.value);
    r := BitAnd32(ipV4.value, MaskV4(prefix.value)) == BitAnd32(net, MaskV4(prefix.value));
  }

  method TestV6(candidate: string, net: nat, prefixPart: Option<string>) returns (r: bool)
    requires net < V6_SIZE
    ensures var p := PrefixOf(prefixPart, 3, 128);
            r == (p.Some? && Contains(BlockV6(net, p.value), AddressOfText(candidate)))
  {
    OneFamily(candidate);
    var ipV6 := Ipv6ToBigInt(candidate);
    if ipV6.None? {
      return false;
    }
    var prefix := ReadPrefix(prefixPart, 3, 128);
    if prefix.None? {
      return false;
    }
    ParsedV6InRange(candidate);
    if prefix.value == 0 {
      Pow2Values();
      WholeSpace(ipV6.value, net, 128);
      return true;
    }
    MaskTestV6(ipV6.value, net, prefix.value);
    r := And(ipV6.value, MaskV6(prefix.value)) == And(net, MaskV6(prefix.value));
  }

  /** The mask tests decide membership in the block. Malformed input is never admitted. */
  method IpInCidr(ip: string, cidr: string) returns (r: bool)
    ensures r == Contains(BlockOf(cidr), AddressOf(ip))
  {
    var candidate := NormalizeIp(ip);
    var rawEntry := Trim(cidr);
    if rawEntry == "" {
      return false;
    }
    var slash := IndexOf(rawEntry, '/');
    var networkPart := NormalizeIp(if slash.Some? then rawEntry[..slash.value] else rawEntry);
    var prefixPart := if slash.Some? then Some(rawEntry[slash.value + 1..]) else None;
    r := TestEntry(candidate, networkPart, prefixPart);
  }

  method TestEntry(candidate: string, networkPart: string, prefixPart: Option<string>) returns (r: bool)
    ensures r == Contains(BlockFrom(AddressOfText(networkPart), prefixPart), AddressOfText(candidate))
  {
    var netV4 := Ipv4ToInt(networkPart);
    if netV4.Some? {
      ParsedV4InRange(networkPart);
      r := TestV4(candidate, netV4.value, prefixPart);
      return;
    }
    var netV6 := Ipv6ToBigInt(networkPart);
    if netV6.Some? {
      ParsedV6InRange(networkPart);
      r := TestV6(candidate, netV6.value, prefixPart);
      return;
    }
    r := false;
  }

  /** No text is an address of both families. */
  lemma OneFamily(s: string)
    ensures ParseV4(s).None? || ParseV6(s).None?
  {
    if ParseV4(s).Some? {
      assert forall i :: 0 <= i < |Split(s, '.')| ==> ':' !in Split(s, '.')[i];
      assert ':' !in s by {
        if ':' in s { SplitKeepsChars(s, '.', ':'); }
      }
    }
  }

  /** Some entry contains the address. */
  ghost predicate Hit(a: Address, allowlist: seq<string>) {
    exists i :: 0 <= i < |allowlist| && Contains(BlockOf(allowlist[i]), a)
  }

  /** An empty list restricts nothing; otherwise some entry must contain the address. */
  ghost predicate Admitted(ip: string, allowlist: seq<string>) {
    allowlist == [] || Hit(AddressOf(ip), allowlist)
  }

  lemma HitSnoc(a: Address, front: seq<string>, last: string)
    ensures Hit(a, front + [last]) <==> Hit(a, front) || Contains(BlockOf(last), a)
  {
    var l := front + [last];
    assert l[|front|] == last;
    if Hit(a, front) {
      var i :| 0 <= i < |front| && Contains(BlockOf(front[i]), a);
      assert Contains(BlockOf(l[i]), a);
    }
  }

  lemma HitEarly(a: Address, l: seq<string>, n: nat)
    requires n <= |l| && Hit(a, l[..n])
    ensures Hit(a, l)
  {
    var i :| 0 <= i < n && Contains(BlockOf(l[..n][i]), a);
    assert Contains(BlockOf(l[i]), a);
  }

  method IsIpAllowed(ip: string, allowlist: seq<string>) returns (r: bool)
    ensures r == Admitted(ip, allowlist)
  {
    if |allowlist| == 0 {
      return true;
    }
    r := AnyHit(ip, allowlist);
  }

  /** allowlist.some(...) */
  method AnyHit(ip: string, allowlist: seq<string>) returns (r: bool)
    ensures r == Hit(AddressOf(ip), allowlist)
  {
    ghost var a := AddressOf(ip);
    for i := 0 to |allowlist|
      invariant !Hit(a, allowlist[..i])
    {
      var hit := IpInCidr(ip, allowlist[i]);
      assert allowlist[..i + 1] == allowlist[..i] + [allowlist[i]];
      HitSnoc(a, allowlist[..i], allowlist[i]);
      if hit {
        HitEarly(a, allowlist, i + 1);
        return true;
      }
    }
    assert allowlist[..|allowlist|] == allowlist;
    r := false;
  }
}
