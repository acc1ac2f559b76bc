/** The hand-written IPv4 and IPv6 text parsers (packages/auth/src/ipAllowlist.ts), against printed forms. */
module IpText {
  import opened Prelude
  import opened Numerals

  // ---- strings -------------------------------------------------------------------------------------------

  /** s.split(c) */
  function Split(s: string, c: char): (parts: seq<string>)
    ensures |parts| >= 1
  {
    if s == "" then [""]
    else
      var rest := Split(s[1..], c);
      if s[0] == c then [""] + rest else [[s[0]] + rest[0]] + rest[1..]
  }

  /** s.split("::"): the separators are found from the left and do not overlap. */
  function SplitDouble(s: string): (parts: seq<string>)
    ensures |parts| >= 1
  {
    if |s| < 2 then [s]
    else if s[0] == ':' && s[1] == ':' then [""] + SplitDouble(s[2..])
    else
      var rest := SplitDouble(s[1..]);
      [[s[0]] + rest[0]] + rest[1..]
  }

  function Join(parts: seq<string>, c: char): string {
    if parts == [] then "" else if |parts| == 1 then parts[0] else parts[0] + [c] + Join(parts[1..], c)
  }

  // ---- numerals ------------------------------------------------------------------------------------------

  function DigitValue(c: char): int {
    if '0' <= c <= '9' then c as int - '0' as int
    else if 'a' <= c <= 'f' then c as int - 'a' as int + 10
    else -1
  }

  function DigitChar(d: nat): (c: char)
    requires d < 16
    ensures DigitValue(c) == d
  {
    if d < 10 then ('0' as int + d) as char else ('a' as int + d - 10) as char
  }

  /** One to max digits of base b: the regular expressions \d{1,max} and [0-9a-f]{1,max}. */
  predicate Numeral(s: string, b: nat, max: nat) {
    1 <= |s| <= max && forall i :: 0 <= i < |s| ==> 0 <= DigitValue(s[i]) < b
  }

  /** The number a numeral stands for. */
  function Value(s: string, b: nat): nat {
    if s == "" then 0 else Value(s[..|s| - 1], b) * b + Max(0, DigitValue(s[|s| - 1]))
  }

  /** n.toString(b): no leading zeros. */
  function Print(n: nat, b: nat): string
    requires 2 <= b <= 16
    decreases n
  {
    if n < b then [DigitChar(n)]
    else
      QuotShrinks(n, b);
      Print(Quot(n, b), b) + [DigitChar(Rem(n, b))]
  }

  lemma {:induction false} QuotShrinks(n: nat, b: nat)
    requires 2 <= b <= n
    ensures 1 <= Quot(n, b) < n
  {
    Divided(n, b);
    ScaleUp(Quot(n, b), 2, b);
    Commute(Quot(n, b), b);
  }

  lemma ValueSnoc(front: string, c: char, b: nat)
    ensures Value(front + [c], b) == Value(front, b) * b + Max(0, DigitValue(c))
  {
  }

  /** A printed number is a numeral, and reads back as itself. */
  lemma {:induction false} PrintReads(n: nat, b: nat, k: nat)
    requires 2 <= b <= 16 && n < Pow(b, k) && k >= 1
    ensures Numeral(Print(n, b), b, k) && Value(Print(n, b), b) == n
    decreases n
  {
    if n < b {
      assert Value([DigitChar(n)][..0], b) == 0;
      PowPositive(b, k);
    } else {
      assert k > 1 by { assert Pow(b, 0) == 1; }
      QuotShrinks(n, b);
      QuotBelow(n, b, Pow(b, k - 1));
      PrintReads(Quot(n, b), b, k - 1);
      var front, c := Print(Quot(n, b), b), DigitChar(Rem(n, b));
      ValueSnoc(front, c, b);
      Divided(n, b);
      Commute(Quot(n, b), b);
    }
  }

  // ---- the parsers ---------------------------------------------------------------------------------------

  predicate Octet(o: string) {
    Numeral(o, 10, 3) && Value(o, 10) <= 255
  }

  predicate Hextet(g: string) {
    Numeral(g, 16, 4)
  }

  function Values(parts: seq<string>, b: nat): (vs: seq<nat>)
    ensures |vs| == |parts|
  {
    seq(|parts|, i requires 0 <= i < |parts| => Value(parts[i], b))
  }

  /** One more group in a loop over the groups. */
  lemma ValuesStep(parts: seq<string>, i: nat, b: nat, base: nat)
    requires i < |parts|
    ensures Horner(Values(parts[..i + 1], b), base) == Horner(Values(parts[..i], b), base) * base + Value(parts[i], b)
  {
    assert Values(parts[..i + 1], b) == Values(parts[..i], b) + [Value(parts[i], b)];
    HornerSnoc(Values(parts[..i], b), Value(parts[i], b), base);
  }

  /** Four octets between dots, or nothing. */
  function ParseV4(s: string): Option<nat> {
    AssembleV4(Split(s, '.'))
  }

  function AssembleV4(octets: seq<string>): Option<nat> {
    if |octets| == 4 && forall i :: 0 <= i < 4 ==> Octet(octets[i]) then Some(Horner(Values(octets, 10), 256)) else None
  }

  method Ipv4ToInt(s: string) returns (r: Option<nat>)
    ensures r == ParseV4(s)
  {
    var octets := Split(s, '.');
    r := ReadOctets(octets);
  }

  /** The loop over the octets. */
  method ReadOctets(octets: seq<string>) returns (r: Option<nat>)
    ensures r == AssembleV4(octets)
  {
    if |octets| != 4 {
      return None;
    }
    var acc: nat := 0;
    for i := 0 to |octets|
      invariant forall k :: 0 <= k < i ==> Octet(octets[k])
      invariant acc == Horner(Values(octets[..i], 10), 256)
    {
      var o := octets[i];
      if !Numeral(o, 10, 3) {
        return None;
      }
      var n := Value(o, 10);
      if n > 255 {
        return None;
      }
      ValuesStep(octets, i, 10, 256);
      acc := acc * 256 + n;
    }
    assert octets[..|octets|] == octets;
    r := Some(acc);
  }

  /** part === "" ? [] : part.split(":") */
  function Expand(part: string): seq<string> {
    if part == "" then [] else Split(part, ':')
  }

  function Zeros(n: nat): seq<string> {
    if n == 0 then [] else ["0"] + Zeros(n - 1)
  }

  /** A dotted last group of the tail stands for two hextets. */
  function Unembed(tail: seq<string>): Option<seq<string>> {
    if tail != [] && '.' in tail[|tail| - 1] then
      var v4 := ParseV4(tail[|tail| - 1]);
      if v4.None? then None
      else Some(tail[..|tail| - 1] + [Print(v4.value / 65536 % 65536, 16), Print(v4.value % 65536, 16)])
    else Some(tail)
  }

  /** The eight groups of an IPv6 text, not yet checked to be hextets. */
  function Groups(s: string): Option<seq<string>> {
    var halves := SplitDouble(s);
    if ':' !in s || |halves| > 2 then None
    else
      var head := Expand(halves[0]);
      if |halves| == 1 then (if |head| == 8 then Some(head) else None)
      else
        Combine(head, Expand(halves[1]))
  }

  /** The two sides of a "::", with zeros between them. */
  function Combine(head: seq<string>, back: seq<string>): Option<seq<string>> {
    match Unembed(back)
    case None => None
    case Some(tail) =>
      if |head| + |tail| > 8 then None else Some(head + Zeros(8 - (|head| + |tail|)) + tail)
  }

  function ParseV6(s: string): Option<nat> {
    match Groups(s)
    case None => None
    case Some(full) => Assemble(full)
  }

  function Assemble(full: seq<string>): Option<nat> {
    if forall i :: 0 <= i < |full| ==> Hextet(full[i]) then Some(Horner(Values(full, 16), 65536)) else None
  }

  /** The loop that shifts each hextet in. */
  method ShiftIn(full: seq<string>) returns (r: Option<nat>)
    ensures r == Assemble(full)
  {
    var acc: nat := 0;
    for i := 0 to |full|
      invariant forall k :: 0 <= k < i ==> Hextet(full[k])
      invariant acc == Horner(Values(full[..i], 16), 65536)
    {
      if !Hextet(full[i]) {
        return None;
      }
      ValuesStep(full, i, 16, 65536);
      acc := acc * 65536 + Value(full[i], 16);
    }
    assert full[..|full|] == full;
    r := Some(acc);
  }

  lemma ZerosLength(n: nat)
    ensures |Zeros(n)| == n && forall i :: 0 <= i < n ==> Zeros(n)[i] == "0"
  {
  }

  /** Takes a dotted last group off the tail, as two hextets. */
  method PopEmbedded(tail: seq<string>) returns (ok: bool, rest: seq<string>, embedded: seq<string>)
    ensures Unembed(tail) == if ok then Some(rest + embedded) else None
  {
    ok, rest, embedded := true, tail, [];
    if tail != [] && '.' in tail[|tail| - 1] {
      var v4 := Ipv4ToInt(tail[|tail| - 1]);
      if v4.None? {
        ok := false;
        return;
      }
      embedded := [Print(v4.value / 65536 % 65536, 16), Print(v4.value % 65536, 16)];
      rest := tail[..|tail| - 1];
    }
    assert tail + [] == tail;
  }

  method Ipv6ToBigInt(s: string) returns (r: Option<nat>)
    ensures r == ParseV6(s)
  {
    if ':' !in s {
      return None;
    }
    var halves := SplitDouble(s);
    if |halves| > 2 {
      return None;
    }
    var head := Expand(halves[0]);
    if |halves| == 1 {
      if |head| != 8 {
        return None;
      }
      r := ShiftIn(head);
      return;
    }
    var ok, tail, embedded := PopEmbedded(Expand(halves[1]));
    if !ok {
      return None;
    }
    var explicit := |head| + |tail| + |embedded|;
    if explicit > 8 {
      return None;
    }
    var full := head + Zeros(8 - explicit) + tail + embedded;
    assert full == head + Zeros(8 - explicit) + (tail + embedded);
    r := ShiftIn(full);
  }
}
