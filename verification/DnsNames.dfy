/** Domain names as the program stores them. */
module DnsNames {
  import opened Text

  function TrimDot(s: string): string { if s != "" && s[|s| - 1] == '.' then s[..|s| - 1] else s }

  /** Trims blanks, lowers the case and drops one trailing dot. */
  function Normalize(domain: string): string { TrimDot(ToLower(TrimSpace(domain))) }

  /** No second dot and no blank hides behind a trailing dot. */
  predicate Settles(domain: string) {
    var t := TrimSpace(domain);
    |t| >= 2 && t[|t| - 1] == '.' ==> t[|t| - 2] != '.' && !IsSpace(t[|t| - 2])
  }

  lemma LowerKeeps(s: string, i: nat)
    requires i < |s|
    ensures IsSpace(ToLower(s)[i]) <==> IsSpace(s[i])
    ensures ToLower(s)[i] == '.' <==> s[i] == '.'
    ensures ToLower(s)[i] == '\n' <==> s[i] == '\n'
  {
  }

  lemma LowerTrimmed(s: string)
    requires Trimmed(s)
    ensures Trimmed(ToLower(s))
  {
    hide IsSpace, ToLower;
    if s != "" {
      LowerKeeps(s, 0);
      LowerKeeps(s, |s| - 1);
    }
  }

  lemma LowerPrefix(s: string, n: nat)
    requires n <= |s|
    ensures ToLower(ToLower(s)[..n]) == ToLower(s)[..n]
  {
    LowerIdempotent(s);
  }

  lemma TrimShorter(s: string)
    requires !Trimmed(s)
    ensures |TrimSpace(s)| < |s|
  {
    hide TrimSpace;
    TrimIsTrimmed(s);
    TrimLength(s);
  }

  lemma TrimLength(s: string)
    ensures |TrimSpace(s)| <= |s| && (|TrimSpace(s)| == |s| ==> TrimSpace(s) == s)
  {
    TrimLeftShape(s);
    TrimRightShape(TrimLeft(s));
  }

  /** A lower-case text is left alone exactly when it is trimmed and has no trailing dot. */
  lemma FixedExactly(s: string)
    requires ToLower(s) == s
    ensures Normalize(s) == s <==> Trimmed(s) && (s == "" || s[|s| - 1] != '.')
    ensures Normalize(s) == s || |Normalize(s)| < |s|
  {
    hide TrimSpace, ToLower, IsSpace;
    if Trimmed(s) { TrimFixed(s); } else { TrimShorter(s); }
  }

  /** Normalizing again changes nothing exactly for the domains that settle. */
  lemma NormalizeTwiceExactly(domain: string)
    ensures Normalize(Normalize(domain)) == Normalize(domain) <==> Settles(domain)
  {
    hide TrimSpace, ToLower, IsSpace;
    var t := TrimSpace(domain);
    TrimIsTrimmed(domain);
    LowerTrimmed(t);
    var l := ToLower(t);
    LowerPrefix(t, |Normalize(domain)|);
    assert l[..|l|] == l;
    FixedExactly(Normalize(domain));
    if t != "" {
      LowerKeeps(t, |t| - 1);
      if |t| >= 2 { LowerKeeps(t, |t| - 2); }
    }
  }

  /** Two trailing dots are enough for a difference. */
  lemma TwoDotsUnsettled()
    ensures Normalize("a.b..") == "a.b." && Normalize("a.b.") == "a.b"
  {
    TrimFixed("a.b..");
    TrimFixed("a.b.");
    assert ToLower("a.b..") == "a.b.." && ToLower("a.b.") == "a.b.";
  }

  /** A stored name: what normalizing gives, and gives again. */
  predicate Stored(name: string) { Normalize(name) == name }

  lemma SettledStored(domain: string)
    requires Settles(domain)
    ensures Stored(Normalize(domain))
  {
    NormalizeTwiceExactly(domain);
  }

  /** Surrounding blanks and one trailing dot do not matter, and neither does the case. */
  lemma NormalizedExactly(a: string, s: string, b: string)
    requires Blank(a) && Blank(b) && s != "" && Trimmed(s)
    ensures Normalize(a + (s + ".") + b) == ToLower(s)
    ensures s[|s| - 1] != '.' ==> Normalize(a + s + b) == ToLower(s)
  {
    hide TrimSpace, IsSpace;
    DotSolid();
    TrimPadded(a, s, b);
    TrimPadded(a, s + ".", b);
    assert ToLower(s + ".") == ToLower(s) + ".";
    LowerKeeps(s, |s| - 1);
  }

  lemma DotSolid()
    ensures !IsSpace('.')
  {
  }

  /** Nothing but blanks, and a single dot among blanks, is no name. */
  lemma NoName(a: string, b: string)
    requires Blank(a) && Blank(b)
    ensures Normalize(a) == "" && Normalize(a + "." + b) == ""
  {
    hide TrimSpace, IsSpace;
    DotSolid();
    TrimPadded(a, "", "");
    assert a + "" + "" == a;
    TrimPadded(a, ".", b);
    assert ToLower(".") == "." && ToLower("") == "";
  }
}
