/** What the allowlist and the client-IP binding mean: laws of CIDR blocks, lists of entries and network keys
    (packages/auth/src/ipAllowlist.ts, packages/auth/src/ipBinding.ts). */
module IpLaws {
  import opened Prelude
  import opened Numerals
  import opened IpText
  import opened IpRoundTrip
  import opened IpMatch

  // ---- blocks (section 3.1 of RFC 4632) --------------------------------------------------------------------

  ghost predicate Within(b: Block, c: Block) {
    forall a: Address :: Contains(b, a) ==> Contains(c, a)
  }

  ghost predicate Apart(b: Block, c: Block) {
    forall a: Address :: Contains(b, a) ==> !Contains(c, a)
  }

  /** The address an entry was written with. */
  function Network(b: Block): Address {
    match b
    case NoBlock => NoAddress
    case BlockV4(n, _) => V4(n)
    case BlockV6(v, _) => V6(v)
  }

  /** Two blocks of one family, the first at least as long a prefix. */
  predicate AtLeastAsLong(b: Block, c: Block) {
    || (b.BlockV4? && c.BlockV4? && c.prefix <= b.prefix <= 32)
    || (b.BlockV6? && c.BlockV6? && c.prefix6 <= b.prefix6 <= 128)
  }

  /** Agreeing on more leading bits is agreeing on fewer. */
  lemma CoarserBlock(x: nat, y: nat, k: nat, m: nat)
    requires SameBlock(x, y, k) && k <= m
    ensures SameBlock(x, y, m)
  {
    PowPositive(2, k);
    PowPositive(2, m - k);
    PowAdds(2, k, m - k);
    QuotTwice(x, Pow(2, k), Pow(2, m - k));
    QuotTwice(y, Pow(2, k), Pow(2, m - k));
  }

  /** A longer prefix names a sub-block exactly when its network lies in the shorter one: in particular, longer
      prefixes of one network admit subsets. */
  lemma SubBlock(b: Block, c: Block)
    requires AtLeastAsLong(b, c)
    ensures Within(b, c) <==> Contains(c, Network(b))
  {
    assert Contains(b, Network(b));
    if Contains(c, Network(b)) {
      forall a | Contains(b, a) ensures Contains(c, a) {
        match b
        case BlockV4(net, p) => CoarserBlock(a.n, net, 32 - p, 32 - c.prefix);
        case BlockV6(net, p) => CoarserBlock(a.v, net, 128 - p, 128 - c.prefix6);
      }
    }
  }

  /** Blocks that share an address are nested. */
  lemma SharedAddressNests(b: Block, c: Block, a: Address)
    requires AtLeastAsLong(b, c) && Contains(b, a) && Contains(c, a)
    ensures Within(b, c)
  {
    match b {
      case BlockV4(net, p) => CoarserBlock(a.n, net, 32 - p, 32 - c.prefix);
      case BlockV6(net, p) => CoarserBlock(a.v, net, 128 - p, 128 - c.prefix6);
    }
    SubBlock(b, c);
  }

  /** Any two entries, well-formed or not, are nested or disjoint. */
  lemma NestedOrDisjoint(b: Block, c: Block)
    ensures Within(b, c) || Within(c, b) || Apart(b, c)
  {
    if !Apart(b, c) {
      var a :| Contains(b, a) && Contains(c, a);
      if AtLeastAsLong(b, c) {
        SharedAddressNests(b, c, a);
      } else {
        SharedAddressNests(c, b, a);
      }
    }
  }

  // ---- allowlists ----------------------------------------------------------------------------------------

  lemma HitAppend(a: Address, l: seq<string>, m: seq<string>)
    ensures Hit(a, l + m) <==> Hit(a, l) || Hit(a, m)
  {
    forall i | 0 <= i < |l| && Contains(BlockOf(l[i]), a) ensures Hit(a, l + m) {
      assert (l + m)[i] == l[i];
    }
    forall i | 0 <= i < |m| && Contains(BlockOf(m[i]), a) ensures Hit(a, l + m) {
      assert (l + m)[|l| + i] == m[i];
    }
    forall i | 0 <= i < |l + m| && Contains(BlockOf((l + m)[i]), a) ensures Hit(a, l) || Hit(a, m) {
      assert i < |l| || (l + m)[i] == m[i - |l|];
    }
  }

  /** A malformed entry never changes the verdict of a list that has another entry. On its own it turns an
      unrestricted tenant into a closed one. */
  lemma MalformedEntryIgnored(bad: string, before: seq<string>, after: seq<string>)
    requires BlockOf(bad) == NoBlock
    ensures (forall ip: string :: Admitted(ip, before + [bad] + after) <==> Admitted(ip, before + after))
            <==> before + after != []
  {
    assert Admitted("", []) && !Admitted("", [bad]);
    if before + after == [] {
      assert before + [bad] + after == [bad];
    } else {
      forall ip: string ensures Admitted(ip, before + [bad] + after) <==> Admitted(ip, before + after) {
        SkipEntry(ip, bad, before, after);
      }
    }
  }

  lemma SkipEntry(ip: string, bad: string, before: seq<string>, after: seq<string>)
    requires BlockOf(bad) == NoBlock && before + after != []
    ensures Admitted(ip, before + [bad] + after) <==> Admitted(ip, before + after)
  {
    var a := AddressOf(ip);
    HitAppend(a, before + [bad], after);
    HitAppend(a, before, [bad]);
    HitAppend(a, before, after);
    assert !Hit(a, [bad]);
  }

  // ---- printed texts are read as what they say -----------------------------------------------------------------

  predicate AddressChar(c: char) {
    '0' <= c <= '9' || 'a' <= c <= 'f' || c == ':' || c == '.'
  }

  ghost predicate Clean(s: string) {
    forall i :: 0 <= i < |s| ==> AddressChar(s[i])
  }

  /** Normalizing leaves text made of address characters alone, but for the mapped prefix. */
  lemma NormalizedClean(s: string)
    requires Clean(s)
    ensures Trim(s) == s && Normalized(s) == Unmap(s)
  {
    assert Lower(s) == s;
  }

  lemma {:induction false} PrintClean(n: nat, b: nat)
    requires 2 <= b <= 16
    ensures Clean(Print(n, b)) && Print(n, b) != "" && forall i :: 0 <= i < |Print(n, b)| ==>
        DigitValue(Print(n, b)[i]) >= 0
    decreases n
  {
    if n >= b {
      QuotShrinks(n, b);
      PrintClean(Quot(n, b), b);
    }
  }

  lemma {:induction false} JoinClean(parts: seq<string>, c: char)
    requires AddressChar(c) && forall i :: 0 <= i < |parts| ==> Clean(parts[i])
    ensures Clean(Join(parts, c))
  {
    if |parts| > 1 {
      JoinClean(parts[1..], c);
    }
  }

  lemma CleanV4(n: nat)
    requires n < V4_SIZE
    ensures Clean(PrintV4(n)) && ':' !in PrintV4(n) && '.' in PrintV4(n)
  {
    var ds := Digits(n, 256, 4);
    forall i | 0 <= i < 4 ensures Clean(PrintAll(ds, 10)[i]) {
      PrintClean(ds[i], 10);
    }
    JoinClean(PrintAll(ds, 10), '.');
    QuadHasDotsOnly(n);
  }

  /** Groups that are clean and free of dots. */
  lemma CleanHextets(v: nat)
    ensures forall i :: 0 <= i < 8 ==> Clean(Hextets(v)[i]) && '.' !in Hextets(v)[i]
  {
    var ds := Digits(v, 65536, 8);
    PrintedHextets(ds);
    forall i | 0 <= i < 8 ensures Clean(Hextets(v)[i]) {
      PrintClean(ds[i], 16);
    }
  }

  lemma CleanV6(v: nat)
    ensures Clean(PrintV6(v)) && '.' !in PrintV6(v)
  {
    CleanHextets(v);
    JoinClean(Hextets(v), ':');
    JoinLacks(Hextets(v), ':', '.');
  }

  lemma CleanCompressed(v: nat, i: nat, j: nat)
    requires i <= j <= 8
    ensures Clean(Compressed(v, i, j)) && '.' !in Compressed(v, i, j)
  {
    CleanHextets(v);
    JoinClean(Hextets(v)[..i], ':');
    JoinLacks(Hextets(v)[..i], ':', '.');
    JoinClean(Hextets(v)[j..], ':');
    JoinLacks(Hextets(v)[j..], ':', '.');
  }

  /** A dotted quad is the address it prints. */
  lemma AddressOfV4(n: nat)
    requires n < V4_SIZE
    ensures AddressOf(PrintV4(n)) == V4(n)
  {
    CleanV4(n);
    NormalizedClean(PrintV4(n));
    RoundTripV4(n);
  }

  /** An IPv4-mapped address (section 2.5.5.2 of RFC 4291) is the IPv4 address itself. */
  lemma AddressOfMapped(n: nat)
    requires n < V4_SIZE
    ensures AddressOf(MAPPED + PrintV4(n)) == V4(n)
  {
    var s := MAPPED + PrintV4(n);
    CleanV4(n);
    NormalizedClean(s);
    assert s[7..] == PrintV4(n);
    RoundTripV4(n);
  }

  lemma AddressOfClean(s: string, v: nat)
    requires Clean(s) && '.' !in s && ParseV6(s) == Some(v)
    ensures AddressOf(s) == V6(v)
  {
    NormalizedClean(s);
    OneFamily(s);
  }

  /** Full and compressed spellings are the same address, in or out of brackets. */
  lemma AddressOfV6(v: nat, i: nat, j: nat)
    requires v < V6_SIZE && i <= j <= 8
    requires forall k :: i <= k < j ==> Digits(v, 65536, 8)[k] == 0
    ensures AddressOf(PrintV6(v)) == V6(v) == AddressOf(Compressed(v, i, j))
  {
    CleanV6(v);
    RoundTripV6(v);
    AddressOfClean(PrintV6(v), v);
    CleanCompressed(v, i, j);
    CompressionKeepsValue(v, i, j);
    AddressOfClean(Compressed(v, i, j), v);
  }

  lemma {:induction false} IndexAfter(s: string, c: char, t: string)
    requires c !in s
    ensures IndexOf(s + [c] + t, c) == Some(|s|)
  {
    var whole := s + [c] + t;
    if s != "" {
      assert whole[1..] == s[1..] + [c] + t;
      IndexAfter(s[1..], c, t);
    }
  }

  lemma PrefixPrinted(p: nat, digits: nat, width: nat)
    requires p <= width < Pow(10, digits) && digits >= 1
    ensures PrefixOf(Some(Print(p, 10)), digits, width) == Some(p)
  {
    PrintReads(p, 10, digits);
  }

  lemma SlashSplits(addr: string, p: nat)
    requires Clean(addr) && addr != ""
    ensures var s := addr + "/" + Print(p, 10);
            Trim(s) == s && IndexOf(s, '/') == Some(|addr|) && s[..|addr|] == addr && s[|addr| + 1..] == Print(p, 10)
  {
    var s := addr + "/" + Print(p, 10);
    PrintClean(p, 10);
    IndexAfter(addr, '/', Print(p, 10));
    assert s[|s| - 1] == Print(p, 10)[|Print(p, 10)| - 1];
  }

  /** "a.b.c.d/p" is the block of the top p bits; the bare address is the block of one. */
  lemma BlockOfV4(net: nat, p: nat)
    requires net < V4_SIZE && p <= 32
    ensures BlockOf(PrintV4(net) + "/" + Print(p, 10)) == BlockV4(net, p)
    ensures BlockOf(PrintV4(net)) == BlockV4(net, 32)
  {
    CleanV4(net);
    AddressOfV4(net);
    NormalizedClean(PrintV4(net));
    assert Pow(10, 1) == 10 && Pow(10, 2) == 100;
    PrefixPrinted(p, 2, 32);
    SlashSplits(PrintV4(net), p);
  }

  lemma BlockOfV6(net: nat, p: nat)
    requires net < V6_SIZE && p <= 128
    ensures BlockOf(PrintV6(net) + "/" + Print(p, 10)) == BlockV6(net, p)
    ensures BlockOf(PrintV6(net)) == BlockV6(net, 128)
  {
    CleanV6(net);
    RoundTripV6(net);
    AddressOfClean(PrintV6(net), net);
    NormalizedClean(PrintV6(net));
    Sizes();
    PrefixPrinted(p, 3, 128);
    assert PrintV6(net) != "";
    SlashSplits(PrintV6(net), p);
  }

  /** The whole path for a printed list of one entry: admitted exactly when both numbers agree after division by
      2^(32 - p), whether the client shows up as IPv4 or as IPv4-mapped IPv6. */
  lemma AllowlistV4(n: nat, net: nat, p: nat)
    requires n < V4_SIZE && net < V4_SIZE && p <= 32
    ensures Pow(2, 32 - p) > 0
    ensures Admitted(PrintV4(n), [PrintV4(net) + "/" + Print(p, 10)]) <==> n / Pow(2, 32 - p) == net / Pow(2, 32 - p)
    ensures Admitted(MAPPED + PrintV4(n), [PrintV4(net) + "/" + Print(p, 10)])
            <==> n / Pow(2, 32 - p) == net / Pow(2, 32 - p)
  {
    PowPositive(2, 32 - p);
    AddressOfV4(n);
    AddressOfMapped(n);
    BlockOfV4(net, p);
    var ip, entry := PrintV4(n), PrintV4(net) + "/" + Print(p, 10);
    OneEntry(ip, entry);
    DecidedV4(Admitted(ip, [entry]), BlockOf(entry), AddressOf(ip), n, net, p);
    OneEntry(MAPPED + ip, entry);
    DecidedV4(Admitted(MAPPED + ip, [entry]), BlockOf(entry), AddressOf(MAPPED + ip), n, net, p);
  }

  lemma AllowlistV6(v: nat, net: nat, p: nat)
    requires v < V6_SIZE && net < V6_SIZE && p <= 128
    ensures Pow(2, 128 - p) > 0
    ensures Admitted(PrintV6(v), [PrintV6(net) + "/" + Print(p, 10)]) <==> v / Pow(2, 128 - p) == net / Pow(2, 128 - p)
  {
    PowPositive(2, 128 - p);
    AddressOfFull(v);
    BlockOfV6(net, p);
    var ip, entry := PrintV6(v), PrintV6(net) + "/" + Print(p, 10);
    OneEntry(ip, entry);
    DecidedV6(Admitted(ip, [entry]), BlockOf(entry), AddressOf(ip), v, net, p);
  }

  lemma AddressOfFull(v: nat)
    requires v < V6_SIZE
    ensures AddressOf(PrintV6(v)) == V6(v)
  {
    CleanV6(v);
    RoundTripV6(v);
    AddressOfClean(PrintV6(v), v);
  }

  lemma OneEntry(ip: string, entry: string)
    ensures Admitted(ip, [entry]) <==> Contains(BlockOf(entry), AddressOf(ip))
  {
    assert [entry][0] == entry;
  }

  lemma DecidedV4(verdict: bool, b: Block, a: Address, n: nat, net: nat, p: nat)
    requires b == BlockV4(net, p) && a == V4(n) && p <= 32 && (verdict <==> Contains(b, a))
    ensures Pow(2, 32 - p) > 0 && (verdict <==> n / Pow(2, 32 - p) == net / Pow(2, 32 - p))
  {
    SameBlockIsDivision(n, net, 32 - p);
  }

  lemma DecidedV6(verdict: bool, b: Block, a: Address, v: nat, net: nat, p: nat)
    requires b == BlockV6(net, p) && a == V6(v) && p <= 128 && (verdict <==> Contains(b, a))
    ensures Pow(2, 128 - p) > 0 && (verdict <==> v / Pow(2, 128 - p) == net / Pow(2, 128 - p))
  {
    SameBlockIsDivision(v, net, 128 - p);
  }

  // ---- client-IP binding -----------------------------------------------------------------------------------

  datatype IpBindMode = Strict | Prefix | Off

  function NetworkKey(ip: string): string {
    var n := Normalized(ip);
    if ':' in n then
      var groups := Split(n, ':');
      Join(if |groups| > 4 then groups[..4] else groups, ':')
    else
      var octets := Split(n, '.');
      if |octets| == 4 then Join(octets[..3], '.') else n
  }

  predicate ClientIpMatches(bound: string, presented: string, mode: IpBindMode) {
    match mode
    case Off => true
    case Strict => Normalized(bound) == Normalized(presented)
    case Prefix => NetworkKey(bound) == NetworkKey(presented)
  }

  /** Joining is injective on groups that do not hold the separator. */
  lemma JoinInjective(xs: seq<string>, ys: seq<string>, c: char)
    requires xs != [] && ys != []
    requires forall i :: 0 <= i < |xs| ==> c !in xs[i]
    requires forall i :: 0 <= i < |ys| ==> c !in ys[i]
    ensures Join(xs, c) == Join(ys, c) <==> xs == ys
  {
    SplitJoin(xs, c);
    SplitJoin(ys, c);
  }

  /** Printed digit lists agree exactly when the digits do. */
  lemma PrintAllInjective(xs: seq<nat>, ys: seq<nat>, b: nat, k: nat)
    requires 2 <= b <= 16 && k >= 1 && |xs| == |ys|
    requires forall i :: 0 <= i < |xs| ==> xs[i] < Pow(b, k) && ys[i] < Pow(b, k)
    ensures PrintAll(xs, b) == PrintAll(ys, b) <==> xs == ys
  {
    if PrintAll(xs, b) == PrintAll(ys, b) {
      forall i | 0 <= i < |xs| ensures xs[i] == ys[i] {
        PrintReads(xs[i], b, k);
        PrintReads(ys[i], b, k);
        assert PrintAll(xs, b)[i] == PrintAll(ys, b)[i];
      }
    }
  }

  /** The leading digits agree exactly when the numbers agree after the trailing ones are divided away. */
  lemma LeadingAgree(x: nat, y: nat, b: nat, k: nat, n: nat)
    requires b > 0 && x < Pow(b, k + n) && y < Pow(b, k + n)
    ensures Pow(b, n) > 0
    ensures Digits(x, b, k + n)[..k] == Digits(y, b, k + n)[..k] <==> Quot(x, Pow(b, n)) == Quot(y, Pow(b, n))
  {
    LeadingDigits(x, b, k, n);
    LeadingDigits(y, b, k, n);
    PowAdds(b, n, k);
    QuotBelow(x, Pow(b, n), Pow(b, k));
    QuotBelow(y, Pow(b, n), Pow(b, k));
    HornerDigits(Quot(x, Pow(b, n)), b, k);
    HornerDigits(Quot(y, Pow(b, n)), b, k);
  }

  lemma KeyOfDots(ip: string, octets: seq<string>)
    requires |octets| == 4 && Normalized(ip) == Join(octets, '.')
    requires forall i :: 0 <= i < 4 ==> '.' !in octets[i] && ':' !in octets[i]
    ensures NetworkKey(ip) == Join(octets[..3], '.')
  {
    SplitJoin(octets, '.');
    JoinLacks(octets, '.', ':');
  }

  lemma KeyOfColons(ip: string, groups: seq<string>)
    requires |groups| >= 2 && Normalized(ip) == Join(groups, ':')
    requires forall i :: 0 <= i < |groups| ==> ':' !in groups[i]
    ensures NetworkKey(ip) == Join(FirstFour(groups), ':')
  {
    SplitJoin(groups, ':');
    ColonInJoin(groups);
  }

  lemma ColonInJoin(groups: seq<string>)
    requires |groups| >= 2
    ensures ':' in Join(groups, ':')
  {
  }

  function FirstFour(groups: seq<string>): seq<string> {
    if |groups| > 4 then groups[..4] else groups
  }

  lemma KeyV4(n: nat)
    requires n < V4_SIZE
    ensures NetworkKey(PrintV4(n)) == Join(PrintAll(Digits(n, 256, 4)[..3], 10), '.')
  {
    var ds := Digits(n, 256, 4);
    CleanV4(n);
    NormalizedClean(PrintV4(n));
    PrintedOctets(ds);
    KeyOfDots(PrintV4(n), PrintAll(ds, 10));
    assert PrintAll(ds, 10)[..3] == PrintAll(ds[..3], 10);
  }

  lemma MappedText(s: string)
    requires Clean(s) && '.' in s && ':' !in s
    ensures Normalized(MAPPED + s) == s == Normalized(s)
  {
    NormalizedClean(s);
    NormalizedClean(MAPPED + s);
    assert (MAPPED + s)[7..] == s;
  }

  lemma NormalizedMapped(n: nat)
    requires n < V4_SIZE
    ensures Normalized(MAPPED + PrintV4(n)) == PrintV4(n) == Normalized(PrintV4(n))
  {
    CleanV4(n);
    MappedText(PrintV4(n));
  }

  lemma KeyV6(v: nat)
    ensures NetworkKey(PrintV6(v)) == Join(Hextets(v)[..4], ':')
  {
    CleanV6(v);
    NormalizedClean(PrintV6(v));
    PrintedHextets(Digits(v, 65536, 8));
    KeyOfColons(PrintV6(v), Hextets(v));
  }

  lemma OctetTexts(ms: seq<nat>, ns: seq<nat>)
    requires |ms| == |ns| > 0 && forall i :: 0 <= i < |ms| ==> ms[i] < 256 && ns[i] < 256
    ensures Join(PrintAll(ms, 10), '.') == Join(PrintAll(ns, 10), '.') <==> ms == ns
  {
    Sizes();
    PrintedOctets(ms);
    PrintedOctets(ns);
    JoinInjective(PrintAll(ms, 10), PrintAll(ns, 10), '.');
    PrintAllInjective(ms, ns, 10, 3);
  }

  lemma HextetTexts(us: seq<nat>, vs: seq<nat>)
    requires |us| == |vs| > 0 && forall i :: 0 <= i < |us| ==> us[i] < 65536 && vs[i] < 65536
    ensures Join(PrintAll(us, 16), ':') == Join(PrintAll(vs, 16), ':') <==> us == vs
  {
    Sizes();
    PrintedHextets(us);
    PrintedHextets(vs);
    JoinInjective(PrintAll(us, 16), PrintAll(vs, 16), ':');
    PrintAllInjective(us, vs, 16, 4);
  }

  lemma LeadingDivides(x: nat, y: nat, b: nat, k: nat, n: nat, d: nat)
    requires b > 0 && d == Pow(b, n) && x < Pow(b, k + n) && y < Pow(b, k + n)
    ensures d > 0 && (Digits(x, b, k + n)[..k] == Digits(y, b, k + n)[..k] <==> x / d == y / d)
  {
    LeadingAgree(x, y, b, k, n);
    QuotIsDiv(x, d);
    QuotIsDiv(y, d);
  }

  lemma LeadingOctets(m: nat, n: nat)
    requires m < V4_SIZE && n < V4_SIZE
    ensures Join(PrintAll(Digits(m, 256, 4)[..3], 10), '.') == Join(PrintAll(Digits(n, 256, 4)[..3], 10), '.')
            <==> m / 256 == n / 256
  {
    Sizes();
    assert Pow(256, 1) == 256;
    LeadingDivides(m, n, 256, 3, 1, 256);
    OctetTexts(Digits(m, 256, 4)[..3], Digits(n, 256, 4)[..3]);
  }

  /** Prefix binding on IPv4, mapped or not, is "the same /24". */
  lemma SamePrefixV4(m: nat, n: nat)
    requires m < V4_SIZE && n < V4_SIZE
    ensures ClientIpMatches(PrintV4(m), PrintV4(n), Prefix) <==> m / 256 == n / 256
    ensures ClientIpMatches(MAPPED + PrintV4(m), PrintV4(n), Prefix) <==> m / 256 == n / 256
  {
    NormalizedMapped(m);
    KeyV4(m);
    KeyV4(n);
    LeadingOctets(m, n);
  }

  lemma LeadingHextets(u: nat, v: nat)
    requires u < V6_SIZE && v < V6_SIZE
    ensures Join(Hextets(u)[..4], ':') == Join(Hextets(v)[..4], ':') <==> u / TWO64 == v / TWO64
  {
    var us, vs := Digits(u, 65536, 8)[..4], Digits(v, 65536, 8)[..4];
    Sizes();
    PowAdds(65536, 2, 2);
    LeadingDivides(u, v, 65536, 4, 4, TWO64);
    assert Hextets(u)[..4] == PrintAll(us, 16) && Hextets(v)[..4] == PrintAll(vs, 16);
    HextetTexts(us, vs);
  }

  const TWO64: nat := 0x1_00000000_00000000

  /** Prefix binding on IPv6 written in full is "the same /64". */
  lemma SamePrefixV6(u: nat, v: nat)
    requires u < V6_SIZE && v < V6_SIZE
    ensures ClientIpMatches(PrintV6(u), PrintV6(v), Prefix) <==> u / TWO64 == v / TWO64
  {
    KeyV6(u);
    KeyV6(v);
    LeadingHextets(u, v);
  }

  /** Strict binding is equality of addresses, for printed quads (mapped or not) and for full IPv6 text. */
  lemma SameStrict(m: nat, n: nat, u: nat, v: nat)
    requires m < V4_SIZE && n < V4_SIZE && u < V6_SIZE && v < V6_SIZE
    ensures ClientIpMatches(MAPPED + PrintV4(m), PrintV4(n), Strict) <==> m == n
    ensures ClientIpMatches(PrintV6(u), PrintV6(v), Strict) <==> u == v
  {
    NormalizedMapped(m);
    NormalizedMapped(n);
    RoundTripV4(m);
    RoundTripV4(n);
    CleanV6(u);
    CleanV6(v);
    NormalizedClean(PrintV6(u));
    NormalizedClean(PrintV6(v));
    RoundTripV6(u);
    RoundTripV6(v);
  }

  /** The two families never match each other, under strict or prefix binding. */
  lemma FamiliesNeverMatch(n: nat, v: nat, mode: IpBindMode)
    requires n < V4_SIZE && v < V6_SIZE
    ensures ClientIpMatches(PrintV4(n), PrintV6(v), mode) <==> mode == Off
  {
    var octets, hextets := PrintAll(Digits(n, 256, 4)[..3], 10), Hextets(v);
    KeyV4(n);
    KeyV6(v);
    NormalizedMapped(n);
    CleanV4(n);
    CleanV6(v);
    NormalizedClean(PrintV6(v));
    PrintedOctets(Digits(n, 256, 4)[..3]);
    JoinLacks(octets, '.', ':');
    assert Join(hextets[..4], ':')[|hextets[0]|] == ':';
    assert PrintV6(v)[|hextets[0]|] == ':';
  }

  // ---- network keys of "::" text -----------------------------------------------------------------------------

  lemma {:induction false} SplitJoinThen(parts: seq<string>, c: char, t: string)
    requires parts != [] && forall i :: 0 <= i < |parts| ==> c !in parts[i]
    ensures Split(Join(parts, c) + [c] + t, c) == parts + Split(t, c)
  {
    if |parts| == 1 {
      SplitAtFirst(parts[0], c, t);
      assert parts == [parts[0]];
    } else {
      var rest := Join(parts[1..], c) + [c] + t;
      SplitJoinThen(parts[1..], c, t);
      SplitAtFirst(parts[0], c, rest);
      JoinCons(parts, c, t);
      assert [parts[0]] + (parts[1..] + Split(t, c)) == parts + Split(t, c);
    }
  }

  lemma JoinCons(parts: seq<string>, c: char, t: string)
    requires |parts| > 1
    ensures Join(parts, c) + [c] + t == parts[0] + [c] + (Join(parts[1..], c) + [c] + t)
  {
  }

  /** What splitting at single colons makes of a side of a "::". */
  function Side(groups: seq<string>): seq<string> {
    if groups == [] then [""] else groups
  }

  lemma SplitCompressed(a: seq<string>, b: seq<string>)
    requires Plain(a) && Plain(b)
    ensures Split(Join(a, ':') + "::" + Join(b, ':'), ':') == Side(a) + [""] + Side(b)
  {
    SidesText(a, b);
    SplitSides(Side(a), Side(b));
  }

  lemma SidesText(a: seq<string>, b: seq<string>)
    ensures Join(a, ':') + "::" + Join(b, ':') == Join(Side(a), ':') + [':'] + ([':'] + Join(Side(b), ':'))
  {
  }

  lemma SplitSides(a: seq<string>, b: seq<string>)
    requires a != [] && b != []
    requires forall i :: 0 <= i < |a| ==> ':' !in a[i]
    requires forall i :: 0 <= i < |b| ==> ':' !in b[i]
    ensures Split(Join(a, ':') + [':'] + ([':'] + Join(b, ':')), ':') == a + [""] + b
  {
    SplitJoin(b, ':');
    SplitBefore(a, Join(b, ':'), b);
  }

  lemma SplitBefore(a: seq<string>, y: string, b: seq<string>)
    requires a != [] && Split(y, ':') == b && forall i :: 0 <= i < |a| ==> ':' !in a[i]
    ensures Split(Join(a, ':') + [':'] + ([':'] + y), ':') == a + [""] + b
  {
    SplitLeading(y);
    SplitJoinThen(a, ':', [':'] + y);
    Regrouped(a, [""], b);
  }

  lemma Regrouped(a: seq<string>, m: seq<string>, b: seq<string>)
    ensures a + (m + b) == a + m + b
  {
  }

  lemma SplitLeading(y: string)
    ensures Split([':'] + y, ':') == [""] + Split(y, ':')
  {
  }

  lemma KeyOfCompressed(v: nat, i: nat, j: nat)
    requires i <= j <= 8
    ensures NetworkKey(Compressed(v, i, j)) == Join(FirstFour(Side(Hextets(v)[..i]) + [""] + Side(Hextets(v)[j..])),
        ':')
  {
    var s := Compressed(v, i, j);
    CleanCompressed(v, i, j);
    NormalizedClean(s);
    PrintedHextets(Digits(v, 65536, 8));
    SplitCompressed(Hextets(v)[..i], Hextets(v)[j..]);
    assert s[|Join(Hextets(v)[..i], ':')|] == ':';
  }

  lemma FirstFourLack(groups: seq<string>)
    requires groups != [] && forall i :: 0 <= i < |groups| ==> ':' !in groups[i]
    ensures FirstFour(groups) != [] && forall i :: 0 <= i < |FirstFour(groups)| ==> ':' !in FirstFour(groups)[i]
  {
  }

  lemma FullStart(h: seq<string>, i: nat, j: nat)
    requires |h| == 8 && Plain(h) && i <= j <= 8
    ensures FirstFour(Side(h[..i]) + [""] + Side(h[j..])) == h[..4] <==> i >= 4
  {
    var groups := Side(h[..i]) + [""] + Side(h[j..]);
    if i >= 4 {
      assert FirstFour(groups) == h[..4];
    } else {
      assert groups[i] == "" && FirstFour(groups)[i] == "" && h[..4][i] == h[i];
    }
  }

  /** A spelling with "::" binds like the full spelling of the same address exactly when the "::" starts at or
      after the fifth hextet: only then is the key the /64 it is said to be. */
  lemma CompressedBinds(v: nat, i: nat, j: nat)
    requires i <= j <= 8
    ensures ClientIpMatches(PrintV6(v), Compressed(v, i, j), Prefix) <==> i >= 4
  {
    KeyV6(v);
    KeyOfCompressed(v, i, j);
    PrintedHextets(Digits(v, 65536, 8));
    FullStart(Hextets(v), i, j);
    CompareKeys(Hextets(v), i, j);
  }

  lemma CompareKeys(h: seq<string>, i: nat, j: nat)
    requires |h| == 8 && Plain(h) && i <= j <= 8
    ensures var groups := Side(h[..i]) + [""] + Side(h[j..]);
            Join(h[..4], ':') == Join(FirstFour(groups), ':') <==> h[..4] == FirstFour(groups)
  {
    var groups := Side(h[..i]) + [""] + Side(h[j..]);
    FirstFourLack(groups);
    JoinInjective(h[..4], FirstFour(groups), ':');
  }

  lemma SharedStart(g: seq<string>, j: nat, h: seq<string>, k: nat, i: nat)
    requires |g| == |h| == 8 && 1 <= i <= 3 && i <= j <= 5 + i && i <= k <= 5 + i
    requires g[..i] == h[..i] && g[j..j + 3 - i] == h[k..k + 3 - i]
    ensures FirstFour(Side(g[..i]) + [""] + Side(g[j..])) == FirstFour(Side(h[..i]) + [""] + Side(h[k..]))
  {
    var left, right := Side(g[..i]) + [""] + Side(g[j..]), Side(h[..i]) + [""] + Side(h[k..]);
    forall n | i + 1 <= n < 4 ensures left[n] == right[n] {
      assert left[n] == g[j..j + 3 - i][n - i - 1] && right[n] == h[k..k + 3 - i][n - i - 1];
    }
    assert FirstFour(left) == left[..4] && FirstFour(right) == right[..4];
  }

  lemma PrintSlices(us: seq<nat>, j: nat, vs: seq<nat>, k: nat, n: nat)
    requires j + n <= |us| && k + n <= |vs| && us[j..j + n] == vs[k..k + n]
    ensures PrintAll(us, 16)[j..j + n] == PrintAll(vs, 16)[k..k + n]
  {
    assert PrintAll(us, 16)[j..j + n] == PrintAll(us[j..j + n], 16);
    assert PrintAll(vs, 16)[k..k + n] == PrintAll(vs[k..k + n], 16);
  }

  /** Conversely, different networks can share a key: the texts agree up to the fourth group, although the "::"
      stands for runs of different length. */
  lemma CompressedKeysCollide(u: nat, j: nat, v: nat, k: nat, i: nat)
    requires 1 <= i <= 3 && i <= j <= 5 + i && i <= k <= 5 + i
    requires Digits(u, 65536, 8)[..i] == Digits(v, 65536, 8)[..i]
    requires Digits(u, 65536, 8)[j..j + 3 - i] == Digits(v, 65536, 8)[k..k + 3 - i]
    ensures ClientIpMatches(Compressed(u, i, j), Compressed(v, i, k), Prefix)
  {
    PrintSlices(Digits(u, 65536, 8), 0, Digits(v, 65536, 8), 0, i);
    PrintSlices(Digits(u, 65536, 8), j, Digits(v, 65536, 8), k, 3 - i);
    SharedKey(u, j, v, k, i);
  }

  lemma SharedKey(u: nat, j: nat, v: nat, k: nat, i: nat)
    requires 1 <= i <= 3 && i <= j <= 5 + i && i <= k <= 5 + i
    requires Hextets(u)[..i] == Hextets(v)[..i] && Hextets(u)[j..j + 3 - i] == Hextets(v)[k..k + 3 - i]
    ensures NetworkKey(Compressed(u, i, j)) == NetworkKey(Compressed(v, i, k))
  {
    KeyOfCompressed(u, i, j);
    KeyOfCompressed(v, i, k);
    SharedStart(Hextets(u), j, Hextets(v), k, i);
  }

  lemma NumbersOf(us: seq<nat>, vs: seq<nat>)
    requires |us| == |vs| == 8 && us[..4] != vs[..4]
    requires forall i :: 0 <= i < 8 ==> us[i] < 65536 && vs[i] < 65536
    ensures var u, v := Horner(us, 65536), Horner(vs, 65536);
            && Digits(u, 65536, 8) == us && Digits(v, 65536, 8) == vs
            && u < V6_SIZE && v < V6_SIZE && u / TWO64 != v / TWO64
  {
    var u, v := Horner(us, 65536), Horner(vs, 65536);
    Sizes();
    PowAdds(65536, 2, 2);
    HornerBound(us, 65536);
    HornerBound(vs, 65536);
    DigitsHorner(us, 65536);
    DigitsHorner(vs, 65536);
    LeadingDivides(u, v, 65536, 4, 4, TWO64);
  }

  lemma CollidingNumbers(us: seq<nat>, vs: seq<nat>) returns (u: nat, v: nat)
    requires |us| == |vs| == 8 && us[..4] != vs[..4] && us[..1] == vs[..1] && us[6..8] == vs[2..4]
    requires forall i :: 0 <= i < 8 ==> us[i] < 65536 && vs[i] < 65536
    ensures Digits(u, 65536, 8) == us && Digits(v, 65536, 8) == vs
    ensures u < V6_SIZE && v < V6_SIZE && u / TWO64 != v / TWO64
    ensures ClientIpMatches(Compressed(u, 1, 6), Compressed(v, 1, 2), Prefix)
  {
    NumbersOf(us, vs);
    u, v := Horner(us, 65536), Horner(vs, 65536);
    CompressedKeysCollide(u, 6, v, 2, 1);
  }

  /** 1::2:3 and 1::2:3:4:5:6:7 lie in different /64s and are bound to each other. */
  lemma TwoNetworksOneKey() returns (u: nat, v: nat)
    ensures Digits(u, 65536, 8) == [1, 0, 0, 0, 0, 0, 2, 3] && Digits(v, 65536, 8) == [1, 0, 2, 3, 4, 5, 6, 7]
    ensures u < V6_SIZE && v < V6_SIZE && u / TWO64 != v / TWO64
    ensures ClientIpMatches(Compressed(u, 1, 6), Compressed(v, 1, 2), Prefix)
  {
    var us: seq<nat>, vs: seq<nat> := [1, 0, 0, 0, 0, 0, 2, 3], [1, 0, 2, 3, 4, 5, 6, 7];
    assert us[..4][2] != vs[..4][2];
    assert us[6] == vs[2] && us[7] == vs[3] && us[0] == vs[0];
    assert us[6..8] == vs[2..4] && us[..1] == vs[..1];
    u, v := CollidingNumbers(us, vs);
  }
}
