/** IPv4 addresses as 32-bit numbers, with Go's dotted printing and parsing. */
module IPv4 {
  import opened Text

  type Address = n: nat | n < 0x1_0000_0000

  function Octets(a: Address): seq<nat> {
    [a / 0x100_0000, a / 0x1_0000 % 0x100, a / 0x100 % 0x100, a % 0x100]
  }

  function Parts(a: Address): seq<string> {
    var o := Octets(a);
    [Decimal(o[0]), Decimal(o[1]), Decimal(o[2]), Decimal(o[3])]
  }

  /** `net.IP.String`. */
  function Dotted(a: Address): string {
    Join(Parts(a), '.')
  }

  /** A decimal byte without leading zeros, as `net.ParseIP` insists. */
  function ParseOctet(s: string): (r: Option<nat>)
    ensures r.Some? ==> r.value <= 255
  {
    if |s| > 1 && s[0] == '0' then None
    else match FromBase(s, 10)
      case Some(n) => if n <= 255 then Some(n) else None
      case None => None
  }

  /** `net.ParseIP` on dotted addresses. */
  function ParseDotted(s: string): Option<Address> {
    var p := Split(s, '.');
    if |p| != 4 then None else
    match (ParseOctet(p[0]), ParseOctet(p[1]), ParseOctet(p[2]), ParseOctet(p[3]))
    case (Some(a), Some(b), Some(c), Some(d)) => Some(Compose(a, b, c, d))
    case _ => None
  }

  function Compose(a: nat, b: nat, c: nat, d: nat): Address
    requires a <= 255 && b <= 255 && c <= 255 && d <= 255
  {
    a * 0x100_0000 + b * 0x1_0000 + c * 0x100 + d
  }

  lemma {:induction false} NoLeadingZero(n: nat)
    requires n > 0
    ensures ToBase(n, 10)[0] != '0'
    decreases n
  {
    DivMod(n, 10);
    if n >= 10 {
      NoLeadingZero(n / 10);
    }
  }

  lemma OctetRoundTrip(n: nat)
    requires n <= 255
    ensures ParseOctet(Decimal(n)) == Some(n)
    ensures '.' !in Decimal(n)
  {
    BaseRoundTrip(n, 10);
    DecimalChars(n);
    if n > 0 { NoLeadingZero(n); }
  }

  lemma OctetsCompose(a: Address)
    ensures forall i :: 0 <= i < 4 ==> Octets(a)[i] <= 255
    ensures var o := Octets(a); Compose(o[0], o[1], o[2], o[3]) == a
  {
    var h := a / 0x100;
    var g := h / 0x100;
    assert a == h * 0x100 + a % 0x100;
    assert h == g * 0x100 + h % 0x100;
    assert g == (g / 0x100) * 0x100 + g % 0x100;
    assert a / 0x1_0000 == g && a / 0x100_0000 == g / 0x100;
  }

  lemma PartsReadBack(a: Address)
    ensures forall i :: 0 <= i < 4 ==> ParseOctet(Parts(a)[i]) == Some(Octets(a)[i]) && '.' !in Parts(a)[i]
  {
    OctetsCompose(a);
    forall i | 0 <= i < 4 ensures ParseOctet(Parts(a)[i]) == Some(Octets(a)[i]) && '.' !in Parts(a)[i] {
      OctetRoundTrip(Octets(a)[i]);
    }
  }

  /** Parsing reads back what printing wrote; so printing is injective. */
  lemma DottedRoundTrip(a: Address)
    ensures ParseDotted(Dotted(a)) == Some(a)
  {
    PartsReadBack(a);
    SplitJoin(Parts(a), '.');
    OctetsCompose(a);
  }

  /** The text is an address in the form Go prints. */
  ghost predicate Canonical(s: string) {
    exists a: Address :: Dotted(a) == s
  }

  /** Such a text is read as the address it prints. */
  lemma CanonicalReads(s: string)
    requires Canonical(s)
    ensures ParseDotted(s).Some? && Dotted(ParseDotted(s).value) == s
  {
    hide Dotted, ParseDotted;
    var a: Address :| Dotted(a) == s;
    DottedRoundTrip(a);
  }

  lemma {:induction false} JoinChars(parts: seq<string>, c: char)
    ensures forall i :: 0 <= i < |Join(parts, c)| ==>
              Join(parts, c)[i] == c || exists k :: 0 <= k < |parts| && Join(parts, c)[i] in parts[k]
  {
    if |parts| > 1 {
      JoinChars(parts[1..], c);
      var rest := Join(parts[1..], c);
      forall i | 0 <= i < |Join(parts, c)|
        ensures Join(parts, c)[i] == c || exists k :: 0 <= k < |parts| && Join(parts, c)[i] in parts[k]
      {
        if i < |parts[0]| {
          assert Join(parts, c)[i] == parts[0][i];
        } else if i > |parts[0]| {
          assert Join(parts, c)[i] == rest[i - |parts[0]| - 1];
          if rest[i - |parts[0]| - 1] != c {
            var k :| 0 <= k < |parts[1..]| && rest[i - |parts[0]| - 1] in parts[1..][k];
            assert parts[1..][k] == parts[k + 1];
          }
        }
      }
    }
  }

  /** A printed address holds only digits and dots. */
  lemma DottedChars(a: Address)
    ensures forall i :: 0 <= i < |Dotted(a)| ==> Dotted(a)[i] == '.' || '0' <= Dotted(a)[i] <= '9'
    ensures Dotted(a) != ""
  {
    var p := Parts(a);
    JoinChars(p, '.');
    forall i | 0 <= i < |Dotted(a)| ensures Dotted(a)[i] == '.' || '0' <= Dotted(a)[i] <= '9' {
      if Dotted(a)[i] != '.' {
        var k :| 0 <= k < |p| && Dotted(a)[i] in p[k];
        DecimalChars(Octets(a)[k]);
      }
    }
    assert Dotted(a) == p[0] + ['.'] + Join(p[1..], '.');
  }

  /** The first byte printed is the highest. */
  lemma DottedBytes(a: nat, b: nat, c: nat, d: nat)
    requires a < 256 && b < 256 && c < 256 && d < 256
    ensures Dotted(16777216 * a + 65536 * b + 256 * c + d) ==
            Decimal(a) + ['.'] + (Decimal(b) + ['.'] + (Decimal(c) + ['.'] + Decimal(d)))
  {
    hide ToBase;
    var n: Address := 16777216 * a + 65536 * b + 256 * c + d;
    CutByte(65536 * a + 256 * b + c, d);
    CutByte(256 * a + b, c);
    CutByte(a, b);
    assert n == (65536 * a + 256 * b + c) * 256 + d;
    assert n / 0x100 == 65536 * a + 256 * b + c;
    assert n / 0x1_0000 == 256 * a + b && n / 0x100_0000 == a;
    assert Octets(n) == [a, b, c, d];
    JoinFour(Decimal(a), Decimal(b), Decimal(c), Decimal(d));
  }

  lemma CutByte(high: nat, low: nat)
    requires low < 256
    ensures (high * 256 + low) / 256 == high && (high * 256 + low) % 256 == low
  {
  }

  lemma JoinFour(a: string, b: string, c: string, d: string)
    ensures Join([a, b, c, d], '.') == a + ['.'] + (b + ['.'] + (c + ['.'] + d))
  {
    assert [a, b, c, d][1..] == [b, c, d] && [b, c, d][1..] == [c, d] && [c, d][1..] == [d];
    assert Join([d], '.') == d;
    assert Join([c, d], '.') == c + ['.'] + d;
    assert Join([b, c, d], '.') == b + ['.'] + (c + ['.'] + d);
  }
}
