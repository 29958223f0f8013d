/** Choosing the next free IPv4 address for a client. */
module Allocator {
  import opened Text
  import opened IPv4

  /** A parsed IPv4 network: any address in it and the prefix length. */
  datatype Cidr = Cidr(base: Address, prefix: nat)

  predicate ValidCidr(c: Cidr) { c.prefix <= 32 }

  datatype AllocError = InvalidCidr | NoneLeft
  datatype Result = Ok(text: string) | Err(error: AllocError)

  /* ---------- bytes ---------- */

  type Byte = b: nat | b < 256

  /** The big-endian number of four bytes. */
  function Number(b: seq<Byte>): Address
    requires |b| == 4
  {
    Compose(b[0], b[1], b[2], b[3])
  }

  function Bytes(a: Address): (b: seq<Byte>)
    ensures |b| == 4
  {
    [a / 0x100_0000, a / 0x1_0000 % 0x100, a / 0x100 % 0x100, a % 0x100]
  }

  lemma BytesNumber(a: Address)
    ensures Number(Bytes(a)) == a
  {
    OctetsCompose(a);
  }

  /** Adds to the address in place, wrapping at 32 bits. */
  method AddToIPv4(ip: array<Byte>, n: nat)
    requires ip.Length == 4
    modifies ip
    ensures Number(ip[..]) == (Number(old(ip[..])) + n) % 0x1_0000_0000
  {
    var v := Number(ip[..]) as int;
    v := v + n;
    ghost var w: Address := v % 0x1_0000_0000;
    CutBytes(v);
    ip[0] := v / 0x100_0000 % 0x100;
    ip[1] := v / 0x1_0000 % 0x100;
    ip[2] := v / 0x100 % 0x100;
    ip[3] := v % 0x100;
    assert ip[..] == Bytes(w);
    BytesNumber(w);
  }

  /** Cutting a number to bytes is cutting its remainder modulo 2^32. */
  lemma CutBytes(v: nat)
    ensures Bytes(v % 0x1_0000_0000) == [v / 0x100_0000 % 0x100, v / 0x1_0000 % 0x100, v / 0x100 % 0x100, v % 0x100]
  {
    CutTop(v);
    CutMiddle(v);
    CutLow(v);
  }

  lemma CutTop(v: nat)
    ensures v % 0x1_0000_0000 / 0x100_0000 == v / 0x100_0000 % 0x100
  {
    var w, q := v % 0x1_0000_0000, v / 0x1_0000_0000;
    assert v == q * 0x1_0000_0000 + w;
    assert v / 0x100_0000 == q * 0x100 + w / 0x100_0000;
    DropHigh(q, w / 0x100_0000);
    assert w / 0x100_0000 < 0x100;
  }

  lemma DropHigh(p: nat, x: nat)
    ensures (p * 0x100 + x) % 0x100 == x % 0x100
  {
  }

  lemma CutMiddle(v: nat)
    ensures v % 0x1_0000_0000 / 0x1_0000 % 0x100 == v / 0x1_0000 % 0x100
  {
    var w, q := v % 0x1_0000_0000, v / 0x1_0000_0000;
    assert v == q * 0x1_0000_0000 + w;
    assert v / 0x1_0000 == q * 0x100 * 0x100 + w / 0x1_0000;
    DropHigh(q * 0x100, w / 0x1_0000);
  }

  lemma CutLow(v: nat)
    ensures v % 0x1_0000_0000 / 0x100 % 0x100 == v / 0x100 % 0x100
    ensures v % 0x1_0000_0000 % 0x100 == v % 0x100
  {
    var w, q := v % 0x1_0000_0000, v / 0x1_0000_0000;
    assert v == q * 0x1_0000_0000 + w;
    assert v / 0x100 == q * 0x1_0000 * 0x100 + w / 0x100;
    DropHigh(q * 0x1_0000, w / 0x100);
    DropHigh(q * 0x100_0000, w);
  }

  /* ---------- hosts of a network ---------- */

  function Pow2(n: nat): (r: nat)
    ensures r > 0
  {
    if n == 0 then 1 else 2 * Pow2(n - 1)
  }

  function Size(c: Cidr): nat
    requires ValidCidr(c)
  {
    Pow2(32 - c.prefix)
  }

  lemma {:induction false} Pow2Adds(a: nat, b: nat)
    ensures Pow2(a + b) == Pow2(a) * Pow2(b)
  {
    if a > 0 {
      Pow2Adds(a - 1, b);
      assert Pow2(a + b) == 2 * (Pow2(a - 1) * Pow2(b));
    }
  }

  lemma Pow2Whole()
    ensures Pow2(32) == 0x1_0000_0000
  {
    assert Pow2(8) == 256;
    Pow2Adds(8, 8);
    Pow2Adds(16, 16);
  }

  /** The leading bits of an address, as a number. */
  function Leading(c: Cidr, a: nat): nat
    requires ValidCidr(c)
  {
    Division(a, Size(c));
    a / Size(c)
  }

  /** `ip.Mask(mask)`: the leading bits with zeros behind them. */
  function Network(c: Cidr): nat
    requires ValidCidr(c)
  {
    Leading(c, c.base) * Size(c)
  }

  lemma AtLeast(d: int, s: int)
    requires d >= 1 && s > 0
    ensures d * s >= s
  {
  }

  lemma Distributes(a: int, b: int, s: int)
    ensures (a - b) * s == a * s - b * s
  {
  }

  lemma Division(n: nat, s: nat)
    requires s > 0
    ensures n == n / s * s + n % s && 0 <= n % s < s && 0 <= n / s
  {
  }

  /** Quotients are unique. */
  lemma Quotient(q: nat, s: nat, i: nat)
    requires i < s
    ensures (q * s + i) / s == q
  {
    var n := q * s + i;
    var d := n / s;
    Division(n, s);
    Distributes(q, d, s);
    Distributes(d, q, s);
    if q > d { AtLeast(q - d, s); }
    if d > q { AtLeast(d - q, s); }
  }

  /** The last address of the network still fits in 32 bits. */
  lemma NetworkFits(c: Cidr)
    requires ValidCidr(c)
    ensures Network(c) + Size(c) <= 0x1_0000_0000
  {
    hide Pow2;
    var s, k := Size(c), Pow2(c.prefix);
    Pow2Adds(32 - c.prefix, c.prefix);
    Pow2Whole();
    Division(c.base, s);
    var q := c.base / s;
    Commutes(k, s);
    Distributes(k, q, s);
    Below(q, k, s);
    AtLeast(k - q, s);
  }

  lemma Commutes(a: int, b: int)
    ensures a * b == b * a
  {
  }

  lemma Below(q: nat, k: nat, s: nat)
    requires q * s < k * s
    ensures q < k
  {
  }

  /** `net.IPNet.Contains`: the same leading bits. */
  predicate Contains(c: Cidr, a: Address)
    requires ValidCidr(c)
  {
    Leading(c, a) == Leading(c, c.base)
  }

  /** A host: neither the first nor the last address of a network of prefix 16 to 31. */
  predicate IsHost(c: Cidr, a: Address)
    requires ValidCidr(c)
  {
    16 <= c.prefix <= 31 && Network(c) < a < Network(c) + Size(c) - 1
  }

  lemma HostContained(c: Cidr, i: nat)
    requires ValidCidr(c) && i < Size(c)
    ensures Network(c) + i < 0x1_0000_0000 && Contains(c, Network(c) + i)
  {
    hide Pow2;
    NetworkFits(c);
    Quotient(Leading(c, c.base), Size(c), i);
  }

  predicate AscendingHosts(hosts: seq<Address>) {
    forall i, j :: 0 <= i < j < |hosts| ==> hosts[i] < hosts[j]
  }

  /** A fresh copy of the network address with `i` added. */
  method HostAt(network: Address, i: nat) returns (a: Address)
    requires network + i < 0x1_0000_0000
    ensures a == network + i
  {
    hide Bytes, Number;
    var ip := new Byte[4];
    var bytes := Bytes(network);
    ip[0], ip[1], ip[2], ip[3] := bytes[0], bytes[1], bytes[2], bytes[3];
    assert ip[..] == Bytes(network);
    BytesNumber(network);
    AddToIPv4(ip, i);
    a := Number(ip[..]);
  }

  /** All hosts of the network, in ascending order, so the sort that follows leaves them alone. */
  method AllHostsIPv4(c: Cidr) returns (hosts: seq<Address>)
    requires ValidCidr(c)
    ensures AscendingHosts(hosts)
    ensures forall a :: a in hosts <==> IsHost(c, a)
  {
    hide Network, Contains, Pow2;
    hosts := [];
    var hostBits := 32 - c.prefix;
    if hostBits <= 0 || hostBits > 16 { return; }
    NetworkFits(c);
    var network := Network(c);
    var total := Pow2(hostBits);
    var i := 1;
    while i < total - 1
      invariant 1 <= i && (i == 1 || i <= total - 1)
      invariant AscendingHosts(hosts)
      invariant forall a: Address :: a in hosts <==> network < a < network + i
    {
      HostContained(c, i);
      var ip := HostAt(network, i);
      if Contains(c, ip) {
        forall j | 0 <= j < |hosts| ensures hosts[j] < ip { assert hosts[j] in hosts; }
        hosts := hosts + [ip];
      }
      i := i + 1;
    }
  }

  /* ---------- addresses in use ---------- */

  function BeforeSlash(p: string): string {
    var i := IndexOf(p, '/');
    if i < 0 then p else p[..i]
  }

  function FirstOf(parts: seq<string>): Option<Address> {
    if parts == [] then None
    else
      var p := TrimSpace(parts[0]);
      var a := if p == "" then None else ParseDotted(BeforeSlash(p));
      if a.Some? then a else FirstOf(parts[1..])
  }

  /** `firstIPv4InAllowedIPs`. */
  function FirstIPv4(s: string): Option<Address> { FirstOf(Split(s, ',')) }

  function UsedBy(rows: seq<string>): set<Address> {
    set r | r in rows && FirstIPv4(r).Some? :: FirstIPv4(r).value
  }

  /** What a stored allocation reads back as. */
  function Allowed(a: Address): string { Dotted(a) + "/32" }

  lemma AllowedReadsBack(a: Address)
    ensures FirstIPv4(Allowed(a)) == Some(a)
  {
    hide ParseDotted, Dotted, TrimSpace;
    DottedChars(a);
    DottedRoundTrip(a);
    var s := Allowed(a);
    assert forall i :: 0 <= i < |s| ==> s[i] == '.' || '0' <= s[i] <= '9' || s[i] == '/';
    assert ',' !in s;
    assert Split(s, ',') == [s];
    assert Trimmed(s);
    TrimFixed(s);
    assert s == Dotted(a) + ['/'] + "32";
    IndexOfPrefix(Dotted(a), '/', "32");
    assert s[..|Dotted(a)|] == Dotted(a);
  }

  method CollectUsed(rows: seq<string>) returns (used: set<string>)
    ensures forall a: Address :: Dotted(a) in used <==> a in UsedBy(rows)
  {
    hide FirstIPv4, Dotted;
    used := {};
    for i := 0 to |rows|
      invariant forall a: Address :: Dotted(a) in used <==> a in UsedBy(rows[..i])
    {
      var ip := FirstIPv4(rows[i]);
      assert rows[..i + 1] == rows[..i] + [rows[i]];
      if ip.Some? {
        forall a: Address | Dotted(a) == Dotted(ip.value) ensures a == ip.value { SameText(a, ip.value); }
        used := used + {Dotted(ip.value)};
      }
    }
    assert rows[..|rows|] == rows;
  }

  lemma SameText(a: Address, b: Address)
    requires Dotted(a) == Dotted(b)
    ensures a == b
  {
    hide Dotted, ParseDotted;
    DottedRoundTrip(a);
    DottedRoundTrip(b);
  }

  /* ---------- the choice ---------- */

  predicate IsFree(c: Cidr, server: Option<Address>, rows: seq<string>, a: Address)
    requires ValidCidr(c)
  {
    IsHost(c, a) && server != Some(a) && a !in UsedBy(rows)
  }

  ghost predicate IsLeastFree(c: Cidr, server: Option<Address>, rows: seq<string>, a: Address)
    requires ValidCidr(c)
  {
    IsFree(c, server, rows, a) && forall b :: IsFree(c, server, rows, b) ==> a <= b
  }

  /** What one call chooses, as a function. */
  ghost function Choice(c: Cidr, server: Option<Address>, rows: seq<string>): Option<Address>
    requires ValidCidr(c)
  {
    if a: Address :| IsLeastFree(c, server, rows, a) then Some(a) else None
  }

  lemma LeastIsChoice(c: Cidr, server: Option<Address>, rows: seq<string>, a: Address)
    requires ValidCidr(c) && IsLeastFree(c, server, rows, a)
    ensures Choice(c, server, rows) == Some(a)
  {
    hide IsFree;
    var b := Choice(c, server, rows).value;
    assert a <= b && b <= a;
  }

  lemma AscendingFrom(hosts: seq<Address>, i: nat, j: nat)
    requires AscendingHosts(hosts) && i <= j < |hosts|
    ensures hosts[i] <= hosts[j]
  {
  }

  /** The least free host, exactly when there is one. */
  method NextClientAllowedIP(c: Option<Cidr>, server: Option<Address>, rows: seq<string>) returns (r: Result)
    requires c.Some? ==> ValidCidr(c.value)
    ensures c.None? ==> r == Err(InvalidCidr)
    ensures c.Some? ==> (r == Err(NoneLeft) <==> forall a :: !IsFree(c.value, server, rows, a))
    ensures c.Some? && r != Err(NoneLeft) ==>
              var choice := Choice(c.value, server, rows);
              choice.Some? && IsLeastFree(c.value, server, rows, choice.value) && r == Ok(Allowed(choice.value))
  {
    if c.None? { return Err(InvalidCidr); }
    hide Dotted, UsedBy, IsHost, AscendingHosts, Allowed;
    var used := CollectUsed(rows);
    var candidates := AllHostsIPv4(c.value);
    for i := 0 to |candidates|
      invariant forall j :: 0 <= j < i ==> !IsFree(c.value, server, rows, candidates[j])
    {
      var ip := candidates[i];
      if server == Some(ip) { continue; }
      if Dotted(ip) in used { continue; }
      assert ip in candidates && IsFree(c.value, server, rows, ip);
      forall b | IsFree(c.value, server, rows, b) ensures ip <= b {
        assert b in candidates;
        var j :| 0 <= j < |candidates| && candidates[j] == b;
        AscendingFrom(candidates, i, j);
      }
      LeastIsChoice(c.value, server, rows, ip);
      return Ok(Allowed(ip));
    }
    forall a ensures !IsFree(c.value, server, rows, a) {
      if IsHost(c.value, a) {
        assert a in candidates;
        var j :| 0 <= j < |candidates| && candidates[j] == a;
      }
    }
    r := Err(NoneLeft);
  }

  /* ---------- allocating again and again ---------- */

  ghost function FreeHosts(c: Cidr, server: Option<Address>, rows: seq<string>): set<Address>
    requires ValidCidr(c)
  {
    set a: Address | 0 <= a < 0x1_0000_0000 && IsFree(c, server, rows, a)
  }

  /** The addresses given out by up to `k` rounds of allocate-and-store. */
  ghost function Allocations(c: Cidr, server: Option<Address>, rows: seq<string>, k: nat): seq<Address>
    requires ValidCidr(c)
    decreases k
  {
    if k == 0 then []
    else match Choice(c, server, rows)
      case None => []
      case Some(a) => [a] + Allocations(c, server, rows + [Allowed(a)], k - 1)
  }

  lemma ChoiceIs(c: Cidr, server: Option<Address>, rows: seq<string>)
    requires ValidCidr(c)
    ensures Choice(c, server, rows).Some? ==> IsLeastFree(c, server, rows, Choice(c, server, rows).value)
    ensures Choice(c, server, rows).None? <==> FreeHosts(c, server, rows) == {}
  {
    hide IsFree;
    var free := FreeHosts(c, server, rows);
    if free != {} {
      var a := LeastIn(free);
      forall b | IsFree(c, server, rows, b) ensures a <= b { assert b in free; }
      assert IsLeastFree(c, server, rows, a);
    }
    if Choice(c, server, rows).Some? {
      assert Choice(c, server, rows).value in free;
    }
  }

  lemma {:induction false} LeastIn(s: set<Address>) returns (a: Address)
    requires s != {}
    ensures a in s && forall b :: b in s ==> a <= b
    decreases s
  {
    a :| a in s;
    var rest := s - {a};
    if rest != {} {
      var y := LeastIn(rest);
      assert forall b :: b in s ==> b == a || b in rest;
      if y < a { a := y; }
    } else {
      assert s == {a};
    }
  }

  /** Storing an allocation takes exactly that address out of the free ones. */
  lemma StoreTakesOne(c: Cidr, server: Option<Address>, rows: seq<string>, a: Address)
    requires ValidCidr(c) && IsFree(c, server, rows, a)
    ensures FreeHosts(c, server, rows + [Allowed(a)]) == FreeHosts(c, server, rows) - {a}
    ensures |FreeHosts(c, server, rows + [Allowed(a)])| == |FreeHosts(c, server, rows)| - 1
  {
    hide FirstIPv4, Allowed, IsHost;
    AllowedReadsBack(a);
    var more := rows + [Allowed(a)];
    assert UsedBy(more) == UsedBy(rows) + {a} by {
      assert Allowed(a) in more;
    }
    assert a in FreeHosts(c, server, rows);
  }

  /** Allocating and storing `k` times hands out pairwise different addresses (each larger than
      the one before), all free at the start, and succeeds exactly as often as hosts were free. */
  lemma {:induction false} AllocationsAreExact(c: Cidr, server: Option<Address>, rows: seq<string>, k: nat)
    requires ValidCidr(c)
    ensures var out, free := Allocations(c, server, rows, k), FreeHosts(c, server, rows);
            && |out| == (if k <= |free| then k else |free|)
            && AscendingHosts(out)
            && forall i :: 0 <= i < |out| ==> out[i] in free
    decreases k
  {
    hide IsFree, FirstIPv4, Allowed;
    var free := FreeHosts(c, server, rows);
    ChoiceIs(c, server, rows);
    if k > 0 && Choice(c, server, rows).Some? {
      var a := Choice(c, server, rows).value;
      var more := rows + [Allowed(a)];
      StoreTakesOne(c, server, rows, a);
      AllocationsAreExact(c, server, more, k - 1);
      var rest := Allocations(c, server, more, k - 1);
      forall i | 0 <= i < |rest| ensures a < rest[i] && rest[i] in free {
        assert rest[i] in free - {a};
      }
    }
  }

  /* ---------- the numbers and texts behind it ---------- */

  /** The network starts at a multiple of its size, 2^(32 - prefix), and holds the given address. */
  lemma NetworkExactly(c: Cidr)
    requires ValidCidr(c)
    ensures Network(c) % Size(c) == 0 && Network(c) <= c.base < Network(c) + Size(c)
    ensures c.prefix == 32 ==> Size(c) == 1
    ensures c.prefix == 24 ==> Size(c) == 256
    ensures c.prefix < 32 ==> Size(c) == 2 * Size(Cidr(c.base, c.prefix + 1))
  {
    Division(c.base, Size(c));
    Multiple(Leading(c, c.base), Size(c));
    assert Pow2(8) == 256;
  }

  lemma Multiple(q: nat, s: nat)
    requires s > 0
    ensures (q * s) % s == 0
  {
    Quotient(q, s, 0);
    Division(q * s, s);
  }

  /** The address one part of a list of allowed addresses stands for. */
  function PartAddress(part: string): Option<Address> { ParseDotted(BeforeSlash(TrimSpace(part))) }

  /** An address counts with blanks around it and with anything behind a slash. */
  lemma PartIs(before: string, a: Address, suffix: string, after_: string)
    requires Blank(before) && Blank(after_)
    requires suffix == "" || (suffix[0] == '/' && !IsSpace(suffix[|suffix| - 1]))
    ensures PartAddress(before + (Dotted(a) + suffix) + after_) == Some(a)
  {
    hide Dotted, ParseDotted, TrimSpace, IsSpace;
    var s := Dotted(a) + suffix;
    DottedEnds(a);
    DottedRoundTrip(a);
    TrimPadded(before, s, after_);
    if suffix == "" {
      assert s == Dotted(a);
    } else {
      assert s == Dotted(a) + ['/'] + suffix[1..];
      IndexOfPrefix(Dotted(a), '/', suffix[1..]);
      assert s[..|Dotted(a)|] == Dotted(a);
    }
  }

  lemma DottedEnds(a: Address)
    ensures Dotted(a) != "" && !IsSpace(Dotted(a)[0]) && !IsSpace(Dotted(a)[|Dotted(a)| - 1]) && '/' !in Dotted(a)
  {
    hide Dotted;
    DottedChars(a);
    forall i | 0 <= i < |Dotted(a)| ensures !IsSpace(Dotted(a)[i]) && Dotted(a)[i] != '/' {}
  }

  lemma NoAddress()
    ensures ParseDotted("") == None && BeforeSlash("") == ""
  {
    assert Split("", '.') == [""];
  }

  /** The address a row uses is that of its first part, between commas, that stands for one. */
  lemma {:induction false} FirstExactly(parts: seq<string>, a: Address)
    ensures FirstOf(parts) == Some(a) <==>
            exists i :: 0 <= i < |parts| && PartAddress(parts[i]) == Some(a)
                        && forall j :: 0 <= j < i ==> PartAddress(parts[j]) == None
    ensures FirstOf(parts) == None <==> forall j :: 0 <= j < |parts| ==> PartAddress(parts[j]) == None
  {
    hide ParseDotted, TrimSpace, BeforeSlash;
    if parts != [] {
      var rest := parts[1..];
      NoAddress();
      FirstExactly(rest, a);
      if i :| 0 <= i < |rest| && PartAddress(rest[i]) == Some(a)
              && forall j :: 0 <= j < i ==> PartAddress(rest[j]) == None {
        assert parts[i + 1] == rest[i];
        assert forall j :: 1 <= j < i + 1 ==> parts[j] == rest[j - 1];
      }
      if i :| 0 <= i < |parts| && PartAddress(parts[i]) == Some(a)
              && forall j :: 0 <= j < i ==> PartAddress(parts[j]) == None {
        if i > 0 {
          assert rest[i - 1] == parts[i];
          assert forall j :: 0 <= j < i - 1 ==> rest[j] == parts[j + 1];
        }
      }
      assert forall j :: 1 <= j < |parts| ==> parts[j] == rest[j - 1];
      assert forall j :: 0 <= j < |rest| ==> rest[j] == parts[j + 1];
    }
  }

  /** The place of the part of a row that gives its address. */
  predicate GivesAddress(r: string, i: int, a: Address) {
    var parts := Split(r, ',');
    0 <= i < |parts| && PartAddress(parts[i]) == Some(a) && forall j :: 0 <= j < i ==> PartAddress(parts[j]) == None
  }

  /** An address is in use exactly when it is the first one of a stored row. */
  lemma UsedExactly(rows: seq<string>, a: Address)
    ensures a in UsedBy(rows) <==> exists r, i :: r in rows && GivesAddress(r, i, a)
  {
    hide FirstOf, PartAddress, Split;
    if a in UsedBy(rows) {
      var r :| r in rows && FirstIPv4(r).Some? && FirstIPv4(r).value == a;
      FirstExactly(Split(r, ','), a);
      var parts := Split(r, ',');
      var i :| 0 <= i < |parts| && PartAddress(parts[i]) == Some(a)
               && forall j :: 0 <= j < i ==> PartAddress(parts[j]) == None;
      assert GivesAddress(r, i, a);
    }
    if r, i :| r in rows && GivesAddress(r, i, a) {
      FirstExactly(Split(r, ','), a);
      assert FirstIPv4(r) == Some(a);
    }
  }

  /** An allocation is stored as a single address: the dotted text and the full prefix. */
  lemma AllowedText(a: Address)
    ensures Allowed(a) == Dotted(a) + ['/', '3', '2']
  {
    hide Dotted;
  }

  /** A free address: in the network, of 16 to 31 leading bits, not its first or last one, not the server's,
      and not used by a stored row. */
  lemma FreeExactly(c: Cidr, server: Option<Address>, rows: seq<string>, a: Address)
    requires ValidCidr(c)
    ensures IsFree(c, server, rows, a) <==>
            && c.prefix in {16, 17, 18, 19, 20, 21, 22, 23, 24, 25, 26, 27, 28, 29, 30, 31}
            && a / Size(c) == c.base / Size(c) && a % Size(c) != 0 && a % Size(c) != Size(c) - 1
            && server != Some(a) && !exists r, i :: r in rows && GivesAddress(r, i, a)
  {
    hide GivesAddress, UsedBy, Pow2;
    UsedExactly(rows, a);
    HostExactly(c, a);
  }

  lemma HostExactly(c: Cidr, a: Address)
    requires ValidCidr(c)
    ensures IsHost(c, a) <==>
            && 16 <= c.prefix <= 31
            && a / Size(c) == c.base / Size(c) && a % Size(c) != 0 && a % Size(c) != Size(c) - 1
  {
    hide Pow2;
    var s := Size(c);
    Division(a, s);
    Division(c.base, s);
    var n := Network(c);
    assert n == c.base / s * s;
    if n <= a < n + s {
      Quotient(c.base / s, s, a - n);
    }
    if a / s == c.base / s {
      assert a == n + a % s;
    }
  }

  /** An address is in the network exactly when it is none before its first or after its last one. */
  lemma ContainsExactly(c: Cidr, a: Address)
    requires ValidCidr(c)
    ensures Contains(c, a) <==> Network(c) <= a < Network(c) + Size(c)
  {
    hide Pow2;
    Division(a, Size(c));
    if Network(c) <= a < Network(c) + Size(c) { Quotient(Leading(c, c.base), Size(c), a - Network(c)); }
  }
}
