/** The text operations the configuration code is built from: Go's `strings`, `strconv`
    and `sort` functions on sequences of characters, with the lemmas that let printed
    text be read back. */
module Text {

  datatype Option<+T> = None | Some(value: T)

  /* ---------- white space ---------- */

  /** `unicode.IsSpace`. */
  predicate IsSpace(c: char) {
    || '\t' <= c <= '\r'
    || c == ' ' || c == '\U{85}' || c == '\U{A0}' || c == '\U{1680}'
    || '\U{2000}' <= c <= '\U{200A}'
    || c == '\U{2028}' || c == '\U{2029}' || c == '\U{202F}' || c == '\U{205F}' || c == '\U{3000}'
  }

  /** The blanks of Go's `unicode` package, by their numbers. */
  lemma SpacesExactly(c: char)
    ensures IsSpace(c) <==>
            || 9 <= c as int <= 13 || c as int in {32, 133, 160, 5760, 8232, 8233, 8239, 8287, 12288}
            || 8192 <= c as int <= 8202
  {
  }

  predicate Blank(s: string) {
    forall i :: 0 <= i < |s| ==> IsSpace(s[i])
  }

  function TrimLeft(s: string): string {
    if s != "" && IsSpace(s[0]) then TrimLeft(s[1..]) else s
  }

  function TrimRight(s: string): string {
    if s != "" && IsSpace(s[|s| - 1]) then TrimRight(s[..|s| - 1]) else s
  }

  /** `strings.TrimSpace`. */
  function TrimSpace(s: string): string {
    TrimRight(TrimLeft(s))
  }

  /** Neither the first nor the last character is white space. */
  predicate Trimmed(s: string) {
    s == "" || (!IsSpace(s[0]) && !IsSpace(s[|s| - 1]))
  }

  lemma {:induction false} TrimLeftBlank(a: string, s: string)
    requires Blank(a)
    requires s == "" || !IsSpace(s[0])
    ensures TrimLeft(a + s) == s
  {
    if a == "" {
      assert a + s == s;
    } else {
      assert (a + s)[1..] == a[1..] + s;
      TrimLeftBlank(a[1..], s);
    }
  }

  lemma {:induction false} TrimRightBlank(s: string, b: string)
    requires Blank(b)
    requires s == "" || !IsSpace(s[|s| - 1])
    ensures TrimRight(s + b) == s
  {
    if b == "" {
      assert s + b == s;
    } else {
      assert (s + b)[..|s + b| - 1] == s + b[..|b| - 1];
      TrimRightBlank(s, b[..|b| - 1]);
    }
  }

  /** Trimming removes exactly the surrounding blanks. */
  lemma TrimPadded(a: string, s: string, b: string)
    requires Blank(a) && Blank(b) && Trimmed(s)
    ensures TrimSpace(a + s + b) == s
  {
    if s == "" {
      assert a + s + b == (a + b) + "";
      assert Blank(a + b);
      TrimLeftBlank(a + b, "");
    } else {
      assert a + s + b == a + (s + b);
      TrimLeftBlank(a, s + b);
      TrimRightBlank(s, b);
    }
  }

  lemma TrimFixed(s: string)
    requires Trimmed(s)
    ensures TrimSpace(s) == s
  {
    TrimPadded("", s, "");
    assert "" + s + "" == s;
  }

  lemma {:induction false} TrimLeftShape(s: string)
    ensures |TrimLeft(s)| <= |s| && TrimLeft(s) == s[|s| - |TrimLeft(s)|..]
    ensures Blank(s[..|s| - |TrimLeft(s)|])
    ensures TrimLeft(s) == "" || !IsSpace(TrimLeft(s)[0])
  {
    if s != "" && IsSpace(s[0]) {
      TrimLeftShape(s[1..]);
      var k := |s| - |TrimLeft(s)|;
      assert s[1..][..k - 1] == s[1..k];
      assert s[1..][k - 1..] == s[k..];
      forall i | 0 <= i < k ensures IsSpace(s[..k][i]) {
        if i > 0 { assert s[1..k][i - 1] == s[i]; }
      }
    }
  }

  lemma {:induction false} TrimRightShape(s: string)
    ensures |TrimRight(s)| <= |s| && TrimRight(s) == s[..|TrimRight(s)|]
    ensures Blank(s[|TrimRight(s)|..])
    ensures TrimRight(s) == "" || !IsSpace(TrimRight(s)[|TrimRight(s)| - 1])
  {
    if s != "" && IsSpace(s[|s| - 1]) {
      var t := s[..|s| - 1];
      TrimRightShape(t);
      var k := |TrimRight(s)|;
      assert t[..k] == s[..k];
      forall i | 0 <= i < |s| - k ensures IsSpace(s[k..][i]) {
        if k + i < |s| - 1 { assert t[k..][i] == s[k + i]; }
      }
    }
  }

  /** Trimming always gives a trimmed slice, so it is idempotent. */
  lemma TrimIsTrimmed(s: string)
    ensures Trimmed(TrimSpace(s))
    ensures TrimSpace(TrimSpace(s)) == TrimSpace(s)
    ensures forall c :: c in TrimSpace(s) ==> c in s
  {
    TrimLeftShape(s);
    var t := TrimLeft(s);
    TrimRightShape(t);
    var u := TrimRight(t);
    if u != "" { assert u[0] == t[0]; }
    TrimFixed(u);
    forall c | c in u ensures c in s {
      assert c in t;
    }
  }

  /* ---------- letter case ---------- */

  /** `unicode.ToLower` on ASCII and on the two other characters whose lower case is ASCII. */
  function LowerChar(c: char): char {
    if 'A' <= c <= 'Z' then c - 'A' + 'a'
    else if c == '\U{130}' then 'i'
    else if c == '\U{212A}' then 'k'
    else c
  }

  function ToLower(s: string): (r: string)
    ensures |r| == |s|
    ensures forall i :: 0 <= i < |s| ==> r[i] == LowerChar(s[i])
  {
    seq(|s|, i requires 0 <= i < |s| => LowerChar(s[i]))
  }

  lemma LowerIdempotent(s: string)
    ensures ToLower(ToLower(s)) == ToLower(s)
  {
  }

  /** ASCII letters are lowered, and no other ASCII character is changed. */
  lemma LowerAscii(c: char)
    requires c < '\U{80}'
    ensures ToLower([c]) == if 'A' <= c <= 'Z' then [c + ' '] else [c]
  {
  }

  /* ---------- searching, splitting, joining ---------- */

  /** `strings.IndexByte`. */
  function IndexOf(s: string, c: char): (r: int)
    ensures -1 <= r < |s|
    ensures r >= 0 ==> s[r] == c && c !in s[..r]
    ensures r < 0 <==> c !in s
  {
    if s == "" then -1
    else if s[0] == c then 0
    else
      var k := IndexOf(s[1..], c);
      assert s == [s[0]] + s[1..];
      if k < 0 then -1
      else assert s[..k + 1] == [s[0]] + s[1..][..k]; k + 1
  }

  lemma IndexOfPrefix(a: string, c: char, b: string)
    requires c !in a
    ensures IndexOf(a + [c] + b, c) == |a|
  {
    var s := a + [c] + b;
    assert s[|a|] == c;
    var k := IndexOf(s, c);
    assert forall i :: 0 <= i < |a| ==> s[i] == a[i];
    forall i | 0 <= i < k ensures s[i] != c { assert s[..k][i] == s[i]; }
  }

  /** `strings.Split` on one character: always at least one piece. */
  function Split(s: string, c: char): (r: seq<string>)
    ensures |r| >= 1
    decreases |s|
  {
    var k := IndexOf(s, c);
    if k < 0 then [s] else [s[..k]] + Split(s[k + 1..], c)
  }

  lemma {:induction false} SplitPieces(s: string, c: char)
    ensures forall i :: 0 <= i < |Split(s, c)| ==> c !in Split(s, c)[i]
    decreases |s|
  {
    var k := IndexOf(s, c);
    if k >= 0 {
      SplitPieces(s[k + 1..], c);
      FreePieces(s[..k], Split(s[k + 1..], c), c);
    }
  }

  lemma FreePieces(first: string, rest: seq<string>, c: char)
    requires c !in first && forall i :: 0 <= i < |rest| ==> c !in rest[i]
    ensures forall i :: 0 <= i < |[first] + rest| ==> c !in ([first] + rest)[i]
  {
  }

  /** `strings.Join` with a one-character separator. */
  function Join(parts: seq<string>, c: char): string {
    if |parts| == 0 then ""
    else if |parts| == 1 then parts[0]
    else parts[0] + [c] + Join(parts[1..], c)
  }

  lemma SplitCons(a: string, c: char, b: string)
    requires c !in a
    ensures Split(a + [c] + b, c) == [a] + Split(b, c)
  {
    IndexOfPrefix(a, c, b);
    var s := a + [c] + b;
    assert s[..|a|] == a;
    assert s[|a| + 1..] == b;
  }

  /** Splitting undoes joining pieces that do not contain the separator. */
  lemma {:induction false} SplitJoin(parts: seq<string>, c: char)
    requires |parts| >= 1
    requires forall i :: 0 <= i < |parts| ==> c !in parts[i]
    ensures Split(Join(parts, c), c) == parts
  {
    if |parts| == 1 {
    } else {
      SplitCons(parts[0], c, Join(parts[1..], c));
      SplitJoin(parts[1..], c);
    }
  }

  /** Joining undoes splitting. */
  lemma {:induction false} JoinSplit(s: string, c: char)
    ensures Join(Split(s, c), c) == s
    decreases |s|
  {
    var k := IndexOf(s, c);
    if k >= 0 {
      var rest := Split(s[k + 1..], c);
      JoinSplit(s[k + 1..], c);
      assert ([s[..k]] + rest)[1..] == rest;
      assert s == s[..k] + [c] + s[k + 1..];
    }
  }

  lemma {:induction false} JoinSnoc(parts: seq<string>, c: char, last: string)
    requires parts != []
    ensures Join(parts + [last], c) == Join(parts, c) + [c] + last
  {
    if |parts| == 1 {
      assert (parts + [last])[1..] == [last];
    } else {
      assert (parts + [last])[1..] == parts[1..] + [last];
      JoinSnoc(parts[1..], c, last);
      assert Join(parts, c) == parts[0] + [c] + Join(parts[1..], c);
    }
  }

  /** The length in UTF-8, which Go's `len` counts. */
  function ByteLength(s: string): nat {
    if s == "" then 0
    else
      var c := s[|s| - 1];
      ByteLength(s[..|s| - 1]) +
      if c < '\U{80}' then 1 else if c < '\U{800}' then 2 else if c < '\U{10000}' then 3 else 4
  }

  /** The bytes of texts add up, and characters take one to four. */
  lemma {:induction false} BytesAdd(a: string, b: string)
    ensures ByteLength(a + b) == ByteLength(a) + ByteLength(b)
  {
    if b == "" {
      assert a + b == a;
    } else {
      assert (a + b)[..|a + b| - 1] == a + b[..|b| - 1];
      BytesAdd(a, b[..|b| - 1]);
    }
  }

  lemma BytesOf(c: char)
    ensures ByteLength([c]) ==
            if c as int < 128 then 1 else if c as int < 2048 then 2 else if c as int < 65536 then 3 else 4
  {
    assert [c][..0] == "";
  }

  lemma {:induction false} FewBytes(s: string)
    ensures ByteLength(s) <= 4 * |s|
  {
    if s != "" { FewBytes(s[..|s| - 1]); }
  }

  /* ---------- fields ---------- */

  predicate OneWord(s: string) { s != "" && forall i :: 0 <= i < |s| ==> !IsSpace(s[i]) }

  /** The length of the word a text starts with. */
  function WordEnd(s: string): (k: nat)
    ensures k <= |s| && (forall i :: 0 <= i < k ==> !IsSpace(s[i])) && (k < |s| ==> IsSpace(s[k]))
  {
    if s == "" || IsSpace(s[0]) then 0 else 1 + WordEnd(s[1..])
  }

  /** `strings.Fields`. */
  function Fields(s: string): seq<string>
    decreases |s|
  {
    if s == "" then []
    else if IsSpace(s[0]) then Fields(s[1..])
    else [s[..WordEnd(s)]] + Fields(s[WordEnd(s)..])
  }

  lemma FieldsOne(w: string)
    requires OneWord(w)
    ensures Fields(w) == [w]
  {
    assert WordEnd(w) == |w|;
    assert w[..|w|] == w && w[|w|..] == "";
  }

  lemma FieldsCons(w: string, c: char, rest: string)
    requires OneWord(w) && IsSpace(c)
    ensures Fields(w + [c] + rest) == [w] + Fields(rest)
  {
    var s := w + [c] + rest;
    assert forall i :: 0 <= i < |w| ==> s[i] == w[i];
    assert s[|w|] == c;
    assert WordEnd(s) == |w|;
    assert s[..|w|] == w && s[|w|..] == [c] + rest && ([c] + rest)[1..] == rest;
    assert s[0] == w[0];
  }

  /* ---------- numbers ---------- */

  const DIGITS := "0123456789abcdef"

  function DigitChar(d: nat): (c: char)
    requires d < 16
    ensures DigitValue(c) == d
    ensures d < 10 ==> '0' <= c <= '9'
  {
    DIGITS[d]
  }

  function DigitValue(c: char): (d: int) {
    if '0' <= c <= '9' then (c - '0') as int
    else if 'a' <= c <= 'f' then (c - 'a') as int + 10
    else if 'A' <= c <= 'F' then (c - 'A') as int + 10
    else 16
  }

  /** The bases the program prints in: `%d` and `%x`. */
  type Base = b: nat | b == 10 || b == 16 witness 10

  lemma DivMod(n: nat, b: Base)
    ensures n == (n / b) * b + n % b && 0 <= n % b < b && 0 <= n / b
    ensures n >= b ==> n / b < n
  {
    if b == 10 { assert n == (n / 10) * 10 + n % 10; } else { assert n == (n / 16) * 16 + n % 16; }
  }

  /** The digits of a number, most significant first. */
  function ToBase(n: nat, b: Base): (s: string)
    ensures |s| >= 1
    decreases n
  {
    DivMod(n, b);
    if n < b then [DigitChar(n)] else ToBase(n / b, b) + [DigitChar(n % b)]
  }

  /** Reading digits of base `b`; nothing is accepted but digits. */
  function FromBase(s: string, b: Base): (r: Option<nat>)
  {
    if s == "" then None
    else
      var d := DigitValue(s[|s| - 1]);
      if d >= b then None
      else if |s| == 1 then Some(d)
      else match FromBase(s[..|s| - 1], b)
        case None => None
        case Some(n) => Some(n * b + d)
  }

  lemma FromBaseSnoc(p: string, c: char, b: Base)
    requires p != "" && DigitValue(c) < b
    ensures FromBase(p + [c], b) ==
            match FromBase(p, b) case None => None case Some(n) => Some(n * b + DigitValue(c))
  {
    assert (p + [c])[..|p + [c]| - 1] == p;
  }

  /** What is printed reads back as the same number, so printing is injective. */
  lemma {:induction false} BaseRoundTrip(n: nat, b: Base)
    ensures FromBase(ToBase(n, b), b) == Some(n)
    decreases n
  {
    DivMod(n, b);
    if n >= b {
      BaseRoundTrip(n / b, b);
      FromBaseSnoc(ToBase(n / b, b), DigitChar(n % b), b);
    }
  }

  function Decimal(n: nat): string { ToBase(n, 10) }
  function Hex(n: nat): string { ToBase(n, 16) }

  /** `%d`. */
  function Itoa(n: int): string { if n < 0 then "-" + Decimal(-n) else Decimal(n) }

  lemma {:induction false} DecimalChars(n: nat)
    ensures forall i :: 0 <= i < |Decimal(n)| ==> '0' <= Decimal(n)[i] <= '9'
    ensures Trimmed(Decimal(n))
    decreases n
  {
    DivMod(n, 10);
    if n >= 10 {
      DecimalChars(n / 10);
    }
  }

  const MAX_INT64 := 0x7fff_ffff_ffff_ffff

  /** `strconv.Atoi`: an optional sign, decimal digits, and the range of a 64-bit integer. */
  function Atoi(s: string): (r: Option<int>) {
    var neg := s != "" && s[0] == '-';
    var body := if s != "" && (s[0] == '-' || s[0] == '+') then s[1..] else s;
    match FromBase(body, 10)
    case None => None
    case Some(n) =>
      var v := if neg then 0 - n else n as int;
      if -MAX_INT64 - 1 <= v <= MAX_INT64 then Some(v) else None
  }

  /** A number with an optional sign is read exactly when it has 64 bits; the empty text and one with
      any other character are no numbers. */
  lemma AtoiExactly(n: nat)
    ensures Atoi(Decimal(n)) == if n <= 9_223_372_036_854_775_807 then Some(n) else None
    ensures Atoi("-" + Decimal(n)) == if n <= 9_223_372_036_854_775_808 then Some(0 - n) else None
    ensures Atoi("+" + Decimal(n)) == Atoi(Decimal(n))
    ensures Atoi("") == None
  {
    hide ToBase, FromBase;
    BaseRoundTrip(n, 10);
    DecimalChars(n);
    assert ("-" + Decimal(n))[1..] == Decimal(n) && ("+" + Decimal(n))[1..] == Decimal(n);
    NoDigitsInNothing();
  }

  lemma NoDigitsInNothing()
    ensures FromBase("", 10) == None
  {
  }

  lemma AtoiNoNumber(s: string, i: nat)
    requires i < |s| && !('0' <= s[i] <= '9') && (i > 0 || s[i] !in "+-")
    ensures Atoi(s) == None
  {
    hide FromBase;
    if s[0] == '-' || s[0] == '+' {
      assert s[1..][i - 1] == s[i];
      NotDecimal(s[1..], i - 1);
    } else {
      NotDecimal(s, i);
    }
  }

  lemma {:induction false} NotDecimal(s: string, i: nat)
    requires i < |s| && !('0' <= s[i] <= '9')
    ensures FromBase(s, 10) == None
  {
    if i < |s| - 1 { NotDecimal(s[..|s| - 1], i); }
  }

  lemma AtoiDecimal(n: nat)
    requires n <= MAX_INT64
    ensures Atoi(Decimal(n)) == Some(n)
  {
    BaseRoundTrip(n, 10);
    DecimalChars(n);
  }

  /* ---------- order ---------- */

  /** Go's `<` on strings. */
  predicate Less(a: string, b: string) {
    if b == "" then false
    else if a == "" then true
    else if a[0] != b[0] then a[0] < b[0]
    else Less(a[1..], b[1..])
  }

  /** The order of texts: the first difference decides, and a prefix comes first. */
  lemma {:induction false} LessExactly(a: string, b: string)
    ensures Less(a, b) <==>
            exists k :: 0 <= k <= |a| && k < |b| && a[..k] == b[..k] && (k == |a| || a[k] < b[k])
  {
    if a != "" && b != "" && a[0] == b[0] {
      LessExactly(a[1..], b[1..]);
      if k :| 0 <= k <= |a[1..]| && k < |b[1..]| && a[1..][..k] == b[1..][..k]
              && (k == |a[1..]| || a[1..][k] < b[1..][k]) {
        assert a[..k + 1] == [a[0]] + a[1..][..k] && b[..k + 1] == [b[0]] + b[1..][..k];
      }
      if k :| 0 <= k <= |a| && k < |b| && a[..k] == b[..k] && (k == |a| || a[k] < b[k]) {
        assert k > 0 && a[1..][..k - 1] == a[..k][1..] && b[1..][..k - 1] == b[..k][1..];
      }
    } else if a != "" && b != "" {
      assert a[..0] == b[..0];
      assert forall k :: 0 < k <= |a| && k < |b| ==> a[..k][0] != b[..k][0];
    } else if b != "" {
      assert a[..0] == b[..0];
    }
  }

  lemma {:induction false} LessTransitive(a: string, b: string, c: string)
    requires Less(a, b) && Less(b, c)
    ensures Less(a, c)
  {
    if a != "" && a[0] == b[0] == c[0] {
      LessTransitive(a[1..], b[1..], c[1..]);
    }
  }

  lemma {:induction false} LessIrreflexive(a: string)
    ensures !Less(a, a)
  {
    if a != "" {
      LessIrreflexive(a[1..]);
    }
  }

  lemma {:induction false} LessTotal(a: string, b: string)
    ensures Less(a, b) || a == b || Less(b, a)
  {
    if a != "" && b != "" && a[0] == b[0] {
      LessTotal(a[1..], b[1..]);
      assert a == [a[0]] + a[1..] && b == [b[0]] + b[1..];
    }
  }

  predicate Ascending(s: seq<string>) {
    forall i, j :: 0 <= i < j < |s| ==> Less(s[i], s[j])
  }

  /** Two ascending lists of the same strings are the same list. */
  lemma {:induction false} AscendingUnique(s: seq<string>, t: seq<string>)
    requires Ascending(s) && Ascending(t)
    requires (set x | x in s) == (set x | x in t)
    ensures s == t
  {
    var S, T := set x | x in s, set x | x in t;
    assert s != [] ==> s[0] in S;
    assert t != [] ==> t[0] in T;
    if s != [] {
      var i :| 0 <= i < |t| && t[i] == s[0];
      var j :| 0 <= j < |s| && s[j] == t[0];
      if i > 0 && j > 0 {
        LessTransitive(s[0], t[0], s[0]);
        LessIrreflexive(s[0]);
      }
      assert s[0] == t[0];
      forall k | 0 < k < |s| ensures s[k] != s[0] { LessIrreflexive(s[0]); }
      forall k | 0 < k < |t| ensures t[k] != t[0] { LessIrreflexive(t[0]); }
      assert (set x | x in s[1..]) == S - {s[0]} by {
        forall x | x in S - {s[0]} ensures x in s[1..] {
          var k :| 0 <= k < |s| && s[k] == x;
          assert s[1..][k - 1] == x;
        }
      }
      assert (set x | x in t[1..]) == T - {t[0]} by {
        forall x | x in T - {t[0]} ensures x in t[1..] {
          var k :| 0 <= k < |t| && t[k] == x;
          assert t[1..][k - 1] == x;
        }
      }
      AscendingUnique(s[1..], t[1..]);
      assert s == [s[0]] + s[1..] && t == [t[0]] + t[1..];
    }
  }

  /** Inserting one string into an ascending list. */
  function Insert(x: string, s: seq<string>): seq<string> {
    if s == [] then [x]
    else if x == s[0] then s
    else if Less(x, s[0]) then [x] + s
    else [s[0]] + Insert(x, s[1..])
  }

  lemma {:induction false} InsertedAre(x: string, s: seq<string>)
    ensures forall y :: y in Insert(x, s) <==> y == x || y in s
    ensures x !in s ==> |Insert(x, s)| == |s| + 1
  {
    hide Less;
    if s != [] && x != s[0] && !Less(x, s[0]) {
      InsertedAre(x, s[1..]);
      assert s == [s[0]] + s[1..];
    }
  }

  lemma {:induction false} InsertKeepsOrder(x: string, s: seq<string>)
    requires Ascending(s)
    ensures Ascending(Insert(x, s))
  {
    hide Less;
    if s != [] && x != s[0] {
      if Less(x, s[0]) {
        forall k | 0 < k < |s| ensures Less(x, s[k]) { LessTransitive(x, s[0], s[k]); }
      } else {
        LessTotal(x, s[0]);
        InsertKeepsOrder(x, s[1..]);
        InsertedAre(x, s[1..]);
        var t := Insert(x, s[1..]);
        forall k | 0 <= k < |t| ensures Less(s[0], t[k]) {
          assert t[k] in t;
          if t[k] != x {
            var j :| 0 <= j < |s[1..]| && s[1..][j] == t[k];
          }
        }
      }
    }
  }

  /** The strings of a set in ascending order, as `sort.Strings` leaves them. */
  ghost function Sorted(s: set<string>): (r: seq<string>)
    ensures forall x :: x in r <==> x in s
    ensures |r| == |s|
  {
    if s == {} then []
    else
      var x :| x in s;
      InsertedAre(x, Sorted(s - {x}));
      Insert(x, Sorted(s - {x}))
  }

  lemma {:induction false} SortedAscending(s: set<string>)
    ensures Ascending(Sorted(s))
  {
    hide Less;
    if s != {} {
      var x :| x in s && Sorted(s) == Insert(x, Sorted(s - {x}));
      SortedAscending(s - {x});
      InsertKeepsOrder(x, Sorted(s - {x}));
    }
  }

  /** Collecting the keys of a map and sorting them. */
  method SortKeys(s: set<string>) returns (r: seq<string>)
    ensures r == Sorted(s)
  {
    hide Less, Insert;
    r := [];
    var rest := s;
    while rest != {}
      invariant rest <= s
      invariant Ascending(r)
      invariant forall x :: x in r <==> x in s - rest
    {
      var x :| x in rest;
      InsertedAre(x, r);
      InsertKeepsOrder(x, r);
      r := Insert(x, r);
      rest := rest - {x};
    }
    SortedAscending(s);
    assert (set x | x in r) == (set x | x in Sorted(s));
    AscendingUnique(r, Sorted(s));
  }
}
