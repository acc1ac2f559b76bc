/** Printed addresses read back: RFC 4291 sections 2.2 and 2.5.5.2 against the parsers of
    packages/auth/src/ipAllowlist.ts. */
module IpRoundTrip {
  import opened Prelude
  import opened Numerals
  import opened IpText

  const V4_SIZE: nat := 0x1_0000_0000
  const V6_SIZE: nat := 0x1_00000000_00000000_00000000_00000000

  lemma Sizes()
    ensures Pow(256, 4) == V4_SIZE && Pow(65536, 8) == V6_SIZE && Pow(65536, 2) == V4_SIZE
    ensures Pow(10, 3) == 1000 && Pow(16, 4) == 65536
  {
  }

  function PrintAll(ds: seq<nat>, b: nat): (parts: seq<string>)
    requires 2 <= b <= 16
    ensures |parts| == |ds|
  {
    seq(|ds|, i requires 0 <= i < |ds| => Print(ds[i], b))
  }

  function PrintV4(n: nat): string {
    Join(PrintAll(Digits(n, 256, 4), 10), '.')
  }

  function Hextets(v: nat): (parts: seq<string>)
    ensures |parts| == 8
  {
    PrintAll(Digits(v, 65536, 8), 16)
  }

  function PrintV6(v: nat): string {
    Join(Hextets(v), ':')
  }

  // ---- splitting undoes joining ----------------------------------------------------------------------------

  lemma {:induction false} SplitAtFirst(p: string, c: char, t: string)
    requires c !in p
    ensures Split(p + [c] + t, c) == [p] + Split(t, c)
  {
    var s := p + [c] + t;
    if p == "" {
      assert s[1..] == t;
    } else {
      assert s[1..] == p[1..] + [c] + t;
      SplitAtFirst(p[1..], c, t);
      assert [p[0]] + p[1..] == p;
    }
  }

  lemma {:induction false} SplitWhole(p: string, c: char)
    requires c !in p
    ensures Split(p, c) == [p]
  {
    if p != "" {
      SplitWhole(p[1..], c);
      assert [p[0]] + p[1..] == p;
    }
  }

  lemma {:induction false} SplitJoin(parts: seq<string>, c: char)
    requires parts != [] && forall i :: 0 <= i < |parts| ==> c !in parts[i]
    ensures Split(Join(parts, c), c) == parts
  {
    if |parts| == 1 {
      SplitWhole(parts[0], c);
    } else {
      SplitJoin(parts[1..], c);
      SplitAtFirst(parts[0], c, Join(parts[1..], c));
      assert [parts[0]] + parts[1..] == parts;
    }
  }

  /** Nonempty groups without a colon in them. */
  ghost predicate Plain(parts: seq<string>) {
    forall i :: 0 <= i < |parts| ==> parts[i] != "" && ':' !in parts[i]
  }

  /** No two colons in a row. */
  ghost predicate SingleColons(s: string) {
    forall i :: 0 <= i < |s| - 1 && s[i] == ':' ==> s[i + 1] != ':'
  }

  lemma {:induction false} JoinSingleColons(parts: seq<string>)
    requires Plain(parts)
    ensures SingleColons(Join(parts, ':'))
    ensures parts != [] ==> var s := Join(parts, ':'); s != "" && s[0] != ':' && s[|s| - 1] != ':'
    ensures parts == [] ==> Join(parts, ':') == ""
  {
    if |parts| > 1 {
      JoinSingleColons(parts[1..]);
      var p, t, s := parts[0], Join(parts[1..], ':'), Join(parts, ':');
      assert s == p + [':'] + t;
      forall i | 0 <= i < |s| - 1 && s[i] == ':' ensures s[i + 1] != ':' {
        if i > |p| {
          assert s[i] == t[i - |p| - 1] && s[i + 1] == t[i - |p|];
        }
      }
    }
  }

  lemma {:induction false} SplitDoubleNone(s: string)
    requires SingleColons(s)
    ensures SplitDouble(s) == [s]
  {
    if |s| >= 2 {
      forall i | 0 <= i < |s[1..]| - 1 && s[1..][i] == ':' ensures s[1..][i + 1] != ':' {
        assert s[i + 1] == ':';
      }
      SplitDoubleNone(s[1..]);
      assert [s[0]] + s[1..] == s;
    }
  }

  lemma {:induction false} SplitDoubleOne(a: string, b: string)
    requires SingleColons(a) && SingleColons(b)
    requires a != "" ==> a[|a| - 1] != ':'
    requires b != "" ==> b[0] != ':'
    ensures SplitDouble(a + "::" + b) == [a, b]
    decreases |a|
  {
    var s := a + "::" + b;
    if a == "" {
      assert s[2..] == b;
      SplitDoubleNone(b);
    } else {
      SingleTail(a);
      SplitDoubleOne(a[1..], b);
      assert s[0] == a[0] && s[1] == (if |a| >= 2 then a[1] else ':');
      assert s == [a[0]] + (a[1..] + "::" + b);
      SplitDoubleStep(a[0], a[1..] + "::" + b, a[1..], [b]);
      assert [a[0]] + a[1..] == a;
    }
  }

  lemma SingleTail(a: string)
    requires SingleColons(a) && a != ""
    ensures SingleColons(a[1..])
  {
  }

  lemma SplitDoubleStep(c: char, s: string, first: string, rest: seq<string>)
    requires s != "" && !(c == ':' && s[0] == ':') && SplitDouble(s) == [first] + rest
    ensures SplitDouble([c] + s) == [[c] + first] + rest
  {
  }

  // ---- printed groups are groups ---------------------------------------------------------------------------

  lemma PrintedOctets(ds: seq<nat>)
    requires forall i :: 0 <= i < |ds| ==> ds[i] < 256
    ensures forall i :: 0 <= i < |ds| ==> Octet(PrintAll(ds, 10)[i])
    ensures Values(PrintAll(ds, 10), 10) == ds
    ensures forall i :: 0 <= i < |ds| ==> '.' !in PrintAll(ds, 10)[i] && ':' !in PrintAll(ds, 10)[i]
  {
    Sizes();
    forall i | 0 <= i < |ds|
      ensures Octet(PrintAll(ds, 10)[i]) && Value(PrintAll(ds, 10)[i], 10) == ds[i]
    {
      PrintReads(ds[i], 10, 3);
    }
  }

  lemma PrintedHextets(ds: seq<nat>)
    requires forall i :: 0 <= i < |ds| ==> ds[i] < 65536
    ensures forall i :: 0 <= i < |ds| ==> Hextet(PrintAll(ds, 16)[i])
    ensures Values(PrintAll(ds, 16), 16) == ds
    ensures Plain(PrintAll(ds, 16))
    ensures forall i :: 0 <= i < |ds| ==> '.' !in PrintAll(ds, 16)[i]
  {
    Sizes();
    forall i | 0 <= i < |ds|
      ensures Hextet(PrintAll(ds, 16)[i]) && Value(PrintAll(ds, 16)[i], 16) == ds[i]
    {
      PrintReads(ds[i], 16, 4);
    }
  }

  /** Every 32-bit value survives printing and parsing. */
  lemma RoundTripV4(n: nat)
    requires n < V4_SIZE
    ensures ParseV4(PrintV4(n)) == Some(n)
  {
    var ds := Digits(n, 256, 4);
    Sizes();
    PrintedOctets(ds);
    SplitJoin(PrintAll(ds, 10), '.');
    HornerDigits(n, 256, 4);
  }

  lemma AssembleHextets(v: nat)
    requires v < V6_SIZE
    ensures Assemble(Hextets(v)) == Some(v)
  {
    Sizes();
    PrintedHextets(Digits(v, 65536, 8));
    HornerDigits(v, 65536, 8);
  }

  /** Every 128-bit value survives printing and parsing in the full eight-hextet form. */
  lemma RoundTripV6(v: nat)
    requires v < V6_SIZE
    ensures ParseV6(PrintV6(v)) == Some(v)
  {
    var parts := Hextets(v);
    PrintedHextets(Digits(v, 65536, 8));
    JoinSingleColons(parts);
    SplitDoubleNone(PrintV6(v));
    SplitJoin(parts, ':');
    assert PrintV6(v) == parts[0] + [':'] + Join(parts[1..], ':');
    assert PrintV6(v)[|parts[0]|] == ':';
    AssembleHextets(v);
  }

  /** The text with hextets i to j replaced by "::". */
  function Compressed(v: nat, i: nat, j: nat): string
    requires i <= j <= 8
  {
    Join(Hextets(v)[..i], ':') + "::" + Join(Hextets(v)[j..], ':')
  }

  lemma ExpandJoin(parts: seq<string>)
    requires Plain(parts)
    ensures Expand(Join(parts, ':')) == parts
  {
    JoinSingleColons(parts);
    if parts != [] {
      SplitJoin(parts, ':');
    }
  }

  lemma {:induction false} ZeroRun(parts: seq<string>, i: nat, j: nat)
    requires i <= j <= |parts| && forall k :: i <= k < j ==> parts[k] == "0"
    ensures parts[i..j] == Zeros(j - i)
    decreases j - i
  {
    if i < j {
      ZeroRun(parts, i + 1, j);
      assert parts[i..j] == [parts[i]] + parts[i + 1..j];
    }
  }

  lemma HalvesOfCompressed(a: seq<string>, b: seq<string>)
    requires Plain(a) && Plain(b)
    ensures var s := Join(a, ':') + "::" + Join(b, ':');
            ':' in s && SplitDouble(s) == [Join(a, ':'), Join(b, ':')]
  {
    JoinSingleColons(a);
    JoinSingleColons(b);
    var x, y := Join(a, ':'), Join(b, ':');
    SplitDoubleOne(x, y);
    assert (x + "::" + y)[|x|] == ':';
  }

  lemma ParsedFromHalves(s: string, x: string, y: string, full: seq<string>, v: nat)
    requires ':' in s && SplitDouble(s) == [x, y]
    requires Combine(Expand(x), Expand(y)) == Some(full) && Assemble(full) == Some(v)
    ensures ParseV6(s) == Some(v)
  {
  }

  /** If the two sides of the "::" combine to the hextets of v, the text parses to v. */
  lemma ParsedFromSides(a: seq<string>, b: seq<string>, v: nat)
    requires Plain(a) && Plain(b) && v < V6_SIZE
    requires Combine(a, b) == Some(Hextets(v))
    ensures ParseV6(Join(a, ':') + "::" + Join(b, ':')) == Some(v)
  {
    HalvesOfCompressed(a, b);
    ExpandJoin(a);
    ExpandJoin(b);
    AssembleHextets(v);
    ParsedFromHalves(Join(a, ':') + "::" + Join(b, ':'), Join(a, ':'), Join(b, ':'), Hextets(v), v);
  }

  /** Putting the run of zeros back gives the full list of hextets. */
  lemma Refill(v: nat, i: nat, j: nat)
    requires i <= j <= 8
    requires forall k :: i <= k < j ==> Digits(v, 65536, 8)[k] == 0
    ensures Hextets(v)[..i] + Zeros(j - i) + Hextets(v)[j..] == Hextets(v)
  {
    var parts := Hextets(v);
    assert Print(0, 16) == "0";
    ZeroRun(parts, i, j);
    assert parts[..i] + parts[i..j] + parts[j..] == parts;
  }

  /** Replacing any run of zero hextets by "::" keeps the value, an empty run included (which section 2.2 of
      RFC 4291 does not allow and the code accepts). */
  lemma CompressionKeepsValue(v: nat, i: nat, j: nat)
    requires v < V6_SIZE && i <= j <= 8
    requires forall k :: i <= k < j ==> Digits(v, 65536, 8)[k] == 0
    ensures ParseV6(Compressed(v, i, j)) == Some(v)
  {
    PrintedHextets(Digits(v, 65536, 8));
    var a, b := Hextets(v)[..i], Hextets(v)[j..];
    assert Plain(a) && Plain(b) && Unembed(b) == Some(b);
    Refill(v, i, j);
    ParsedFromSides(a, b, v);
  }

  /** The last two hextets may be written as a dotted quad after a "::" (third form of section 2.2). */
  lemma EmbeddedV4KeepsValue(v: nat, i: nat, j: nat)
    requires v < V6_SIZE && i <= j <= 6
    requires forall k :: i <= k < j ==> Digits(v, 65536, 8)[k] == 0
    ensures ParseV6(Join(Hextets(v)[..i], ':') + "::" + Join(Hextets(v)[j..6] + [PrintV4(v % V4_SIZE)], ':')) == Some(v)
  {
    var a, b := Hextets(v)[..i], Hextets(v)[j..6] + [PrintV4(v % V4_SIZE)];
    PlainSides(v, i, j);
    CombineQuad(v, i, j);
    ParsedFromSides(a, b, v);
  }

  lemma PlainSides(v: nat, i: nat, j: nat)
    requires i <= j <= 6
    ensures Plain(Hextets(v)[..i]) && Plain(Hextets(v)[j..6] + [PrintV4(v % V4_SIZE)])
  {
    PrintedHextets(Digits(v, 65536, 8));
    QuadHasDotsOnly(v % V4_SIZE);
  }

  lemma CombineQuad(v: nat, i: nat, j: nat)
    requires i <= j <= 6 && forall k :: i <= k < j ==> Digits(v, 65536, 8)[k] == 0
    ensures Combine(Hextets(v)[..i], Hextets(v)[j..6] + [PrintV4(v % V4_SIZE)]) == Some(Hextets(v))
  {
    UnembedQuad(v, j);
    Refill(v, i, j);
  }

  lemma UnembedQuad(v: nat, j: nat)
    requires j <= 6
    ensures Unembed(Hextets(v)[j..6] + [PrintV4(v % V4_SIZE)]) == Some(Hextets(v)[j..])
  {
    var low, front := v % V4_SIZE, Hextets(v)[j..6];
    QuadHasDotsOnly(low);
    RoundTripV4(low);
    UnembedLast(front, PrintV4(low), low);
    LowHalf(v);
    assert front + [Hextets(v)[6], Hextets(v)[7]] == Hextets(v)[j..];
  }

  lemma UnembedLast(front: seq<string>, quad: string, low: nat)
    requires '.' in quad && ParseV4(quad) == Some(low)
    ensures Unembed(front + [quad]) == Some(front + [Print(low / 65536 % 65536, 16), Print(low % 65536, 16)])
  {
    assert (front + [quad])[..|front|] == front;
  }

  lemma QuadHasDotsOnly(n: nat)
    requires n < V4_SIZE
    ensures PrintV4(n) != "" && '.' in PrintV4(n) && ':' !in PrintV4(n)
  {
    var parts := PrintAll(Digits(n, 256, 4), 10);
    PrintedOctets(Digits(n, 256, 4));
    var s := PrintV4(n);
    assert s == parts[0] + ['.'] + Join(parts[1..], '.');
    assert s[|parts[0]|] == '.';
    JoinLacks(parts, '.', ':');
  }

  lemma {:induction false} JoinLacks(parts: seq<string>, c: char, x: char)
    requires x != c && forall i :: 0 <= i < |parts| ==> x !in parts[i]
    ensures x !in Join(parts, c)
  {
    if |parts| > 1 {
      JoinLacks(parts[1..], c, x);
    }
  }

  /** The last two hextets are those of the low 32 bits. */
  lemma LowHalf(v: nat)
    ensures var low := v % V4_SIZE;
            var ds := Digits(v, 65536, 8);
            ds[6] == low / 65536 % 65536 && ds[7] == low % 65536
  {
    var q, low := v / V4_SIZE, v % V4_SIZE;
    var a, b := low / 65536, low % 65536;
    QuotUnique(65536 * q + a, b, 65536);
    QuotUnique(q, a, 65536);
    LastTwoDigits(v, 65536, 6);
  }

  lemma LastTwoDigits(v: nat, b: nat, k: nat)
    requires b > 0
    ensures Digits(v, b, k + 2)[k] == Rem(Quot(v, b), b) && Digits(v, b, k + 2)[k + 1] == Rem(v, b)
  {
  }

  // ---- where the code and RFC 4291 part ----------------------------------------------------------------------

  lemma {:induction false} SplitKeepsChars(s: string, c: char, x: char)
    requires x != c && x in s
    ensures exists i :: 0 <= i < |Split(s, c)| && x in Split(s, c)[i]
  {
    var rest := Split(s[1..], c);
    if s[0] == x {
      assert x in Split(s, c)[0];
    } else {
      SplitKeepsChars(s[1..], c, x);
      var i :| 0 <= i < |rest| && x in rest[i];
      assert x in Split(s, c)[if s[0] == c then i + 1 else i];
    }
  }

  /** A dotted quad is only understood after "::"; the uncompressed mixed form of section 2.2 is refused. */
  lemma FullFormRefusesEmbeddedV4(s: string)
    requires SingleColons(s) && '.' in s
    ensures ParseV6(s) == None
  {
    SplitDoubleNone(s);
    if Groups(s).Some? {
      SplitKeepsChars(s, ':', '.');
      var full := Split(s, ':');
      var i :| 0 <= i < |full| && '.' in full[i];
      assert !Hextet(full[i]);
    }
  }

  /** Contrary to the comment beside the check, an octet may carry leading zeros, up to three digits in all. */
  lemma LeadingZerosAccepted(o: string)
    requires Octet(o) && |o| <= 2
    ensures Octet("0" + o) && Value("0" + o, 10) == Value(o, 10)
  {
    var z := "0" + o;
    ZeroPrefix(o);
    assert forall i :: 0 <= i < |z| ==> z[i] == if i == 0 then '0' else o[i - 1];
  }

  lemma {:induction false} ZeroPrefix(o: string)
    ensures Value("0" + o, 10) == Value(o, 10)
  {
    if o == "" {
      assert "0" + o == "0" && "0"[..0] == "";
    } else {
      ZeroPrefix(o[..|o| - 1]);
      assert ("0" + o)[..|o|] == "0" + o[..|o| - 1];
    }
  }

  /** Parsed values are 32 and 128 bits wide. */
  lemma ParsedV4InRange(s: string)
    ensures ParseV4(s).Some? ==> ParseV4(s).value < V4_SIZE
  {
    if ParseV4(s).Some? {
      Sizes();
      HornerBound(Values(Split(s, '.'), 10), 256);
    }
  }

  lemma HextetInRange(g: string)
    requires Hextet(g)
    ensures Value(g, 16) < 65536
  {
    Sizes();
    NumeralBound(g, 16);
    PowGrows(16, |g|, 4);
  }

  lemma {:induction false} NumeralBound(s: string, b: nat)
    requires b > 0 && forall i :: 0 <= i < |s| ==> 0 <= DigitValue(s[i]) < b
    ensures Value(s, b) < Pow(b, |s|)
  {
    if s != "" {
      NumeralBound(s[..|s| - 1], b);
      BelowNext(Value(s[..|s| - 1], b), DigitValue(s[|s| - 1]), b, Pow(b, |s| - 1));
    }
  }

  lemma {:induction false} PowGrows(b: nat, k: nat, n: nat)
    requires b > 0 && k <= n
    ensures Pow(b, k) <= Pow(b, n)
    decreases n
  {
    if k < n {
      PowGrows(b, k, n - 1);
      PowPositive(b, n - 1);
      ScaleUp(Pow(b, n - 1), 1, b);
      Commute(b, Pow(b, n - 1));
    }
  }

  lemma ParsedV6InRange(s: string)
    ensures ParseV6(s).Some? ==> ParseV6(s).value < V6_SIZE
  {
    if ParseV6(s).Some? {
      Sizes();
      var full := Groups(s).value;
      GroupsAreEight(s);
      forall i | 0 <= i < |full| ensures Values(full, 16)[i] < 65536 {
        HextetInRange(full[i]);
      }
      HornerBound(Values(full, 16), 65536);
    }
  }

  lemma GroupsAreEight(s: string)
    requires Groups(s).Some?
    ensures |Groups(s).value| == 8
  {
    var halves := SplitDouble(s);
    if |halves| == 2 {
      var head, tail := Expand(halves[0]), Unembed(Expand(halves[1])).value;
      ZerosLength(8 - (|head| + |tail|));
    }
  }
}
