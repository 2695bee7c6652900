/** How text is scrubbed before it is stored: whole secrets, embedded seeds, bearer tokens, and over-long text. */
module Redaction {
  import opened Prelude

  const REDACTED := "[REDACTED]"
  const TRUNCATED := "…[TRUNCATED]"
  const SCANNABLE := 500_000

  /** Values replaced whole: 10 to 128 characters starting like a secret seed. */
  predicate LooksLikeSecret(s: string) { 10 <= |s| <= 128 && (s[0] == 'S' || s[0] == 'M') }

  predicate SeedChar(c: char) { 'A' <= c <= 'Z' || '2' <= c <= '7' }

  /** The text starts with a 56-character seed. */
  predicate SeedAt(s: string)
  {
    |s| >= 56 && (s[0] == 'S' || s[0] == 'M') && forall i | 1 <= i < 56 :: SeedChar(s[i])
  }

  function ScrubSeeds(s: string): string
  {
    if s == [] then []
    else if SeedAt(s) then REDACTED + ScrubSeeds(s[56..])
    else [s[0]] + ScrubSeeds(s[1..])
  }

  function Lower(c: char): char { if 'A' <= c <= 'Z' then c - 'A' + 'a' else c }

  predicate TokenChar(c: char)
  {
    'A' <= c <= 'Z' || 'a' <= c <= 'z' || IsDigit(c) || c == '.' || c == '_' || c == '~' || c == '+' || c == '/' || c == '-'
  }

  predicate SaysBearer(s: string)
  {
    && |s| >= 6 && Lower(s[0]) == 'b' && Lower(s[1]) == 'e' && Lower(s[2]) == 'a' && Lower(s[3]) == 'r'
    && Lower(s[4]) == 'e' && Lower(s[5]) == 'r'
  }

  /** How many characters from the start satisfy `p`. */
  function RunOf(s: string, p: char -> bool): (n: nat)
    ensures n <= |s| && (forall i | 0 <= i < n :: p(s[i])) && (n < |s| ==> !p(s[n]))
  {
    if s == [] || !p(s[0]) then 0 else 1 + RunOf(s[1..], p)
  }

  /** Spaces after the word, and token characters after those. */
  function Spaces(s: string): nat
    requires |s| >= 6
  {
    RunOf(s[6..], IsSpace)
  }

  predicate BearerAt(s: string)
  {
    SaysBearer(s) && Spaces(s) > 0 && 6 + Spaces(s) < |s| && TokenChar(s[6 + Spaces(s)])
  }

  /** The length of the bearer token the text starts with. */
  function BearerLength(s: string): (n: nat)
    requires BearerAt(s)
    ensures 8 <= n <= |s|
  {
    6 + Spaces(s) + RunOf(s[6 + Spaces(s)..], TokenChar)
  }

  function ScrubBearers(s: string): string
    decreases |s|
  {
    if s == [] then []
    else if BearerAt(s) then REDACTED + ScrubBearers(s[BearerLength(s)..])
    else [s[0]] + ScrubBearers(s[1..])
  }

  function Truncate(s: string): string { if |s| > SCANNABLE then s[..SCANNABLE] + TRUNCATED else s }

  function Scrub(s: string): string
  {
    if LooksLikeSecret(s) then REDACTED else ScrubBearers(ScrubSeeds(Truncate(s)))
  }

  // ---------------------------------------------------------------- nothing is left to scrub

  ghost predicate NoSeeds(s: string) { forall i | 0 <= i <= |s| :: !SeedAt(s[i..]) }

  ghost predicate NoBearers(s: string) { forall i | 0 <= i <= |s| :: !BearerAt(s[i..]) }

  lemma SeedMarked(s: string)
    requires SeedAt(s)
    ensures ScrubSeeds(s) != [] && ScrubSeeds(s)[0] == '['
  {
  }

  lemma BearerMarked(s: string)
    requires BearerAt(s)
    ensures ScrubBearers(s) != [] && ScrubBearers(s)[0] == '['
  {
  }

  /** Up to the first bracket, scrubbed text is the text itself. */
  lemma {:induction false} SeedsPrefix(s: string, k: nat)
    requires k <= |ScrubSeeds(s)| && forall i | 0 <= i < k :: ScrubSeeds(s)[i] != '['
    ensures k <= |s| && ScrubSeeds(s)[..k] == s[..k]
  {
    if k > 0 && s != [] {
      if SeedAt(s) {
        SeedMarked(s);
        assert false;
      } else {
        var rest := ScrubSeeds(s[1..]);
        assert forall i | 0 <= i < k - 1 :: rest[i] == ScrubSeeds(s)[i + 1];
        SeedsPrefix(s[1..], k - 1);
      }
    }
  }

  lemma {:induction false} BearersPrefix(s: string, k: nat)
    requires k <= |ScrubBearers(s)| && forall i | 0 <= i < k :: ScrubBearers(s)[i] != '['
    ensures k <= |s| && ScrubBearers(s)[..k] == s[..k]
    decreases |s|
  {
    if k > 0 && s != [] {
      if BearerAt(s) {
        BearerMarked(s);
        assert false;
      } else {
        var rest := ScrubBearers(s[1..]);
        assert forall i | 0 <= i < k - 1 :: rest[i] == ScrubBearers(s)[i + 1];
        BearersPrefix(s[1..], k - 1);
      }
    }
  }

  /** Whether text starts with a seed depends on its first 56 characters alone. */
  lemma SeedLocal(s: string, t: string)
    requires |s| >= 56 && |t| >= 56 && s[..56] == t[..56]
    ensures SeedAt(s) <==> SeedAt(t)
  {
    assert forall i | 0 <= i < 56 :: s[i] == s[..56][i] == t[i];
  }

  lemma MaskStartsNothing(rest: string, i: nat)
    requires i < |REDACTED|
    ensures !SeedAt((REDACTED + rest)[i..]) && !BearerAt((REDACTED + rest)[i..])
  {
    assert (REDACTED + rest)[i..][0] == REDACTED[i];
  }

  lemma {:induction false} SeedsGone(s: string)
    ensures NoSeeds(ScrubSeeds(s))
  {
    var y := ScrubSeeds(s);
    if s != [] {
      var rest := if SeedAt(s) then ScrubSeeds(s[56..]) else ScrubSeeds(s[1..]);
      if SeedAt(s) { SeedsGone(s[56..]); } else { SeedsGone(s[1..]); }
      forall i | 0 <= i <= |y| ensures !SeedAt(y[i..]) {
        if SeedAt(s) {
          if i < |REDACTED| { MaskStartsNothing(rest, i); } else { assert y[i..] == rest[i - |REDACTED|..]; }
        } else if i > 0 {
          assert y[i..] == rest[i - 1..];
        } else {
          SeedHere(s);
        }
      }
    }
  }

  /** Where scrubbing found no seed, the scrubbed text starts with none. */
  lemma SeedHere(s: string)
    requires !SeedAt(s)
    ensures !SeedAt(ScrubSeeds(s)[0..])
  {
    var y := ScrubSeeds(s);
    assert y[0..] == y;
    if SeedAt(y) {
      SeedsPrefix(s, 56);
      SeedLocal(s, y);
    }
  }

  lemma NoSeedsTail(s: string, k: nat)
    requires k <= |s| && NoSeeds(s)
    ensures NoSeeds(s[k..])
  {
    forall i | 0 <= i <= |s[k..]| ensures !SeedAt(s[k..][i..]) { assert s[k..][i..] == s[k + i..]; }
  }

  lemma {:induction false} SeedsStayGone(s: string)
    requires NoSeeds(s)
    ensures NoSeeds(ScrubBearers(s))
    decreases |s|
  {
    var y := ScrubBearers(s);
    if s != [] {
      var step := if BearerAt(s) then BearerLength(s) else 1;
      var rest := ScrubBearers(s[step..]);
      NoSeedsTail(s, step);
      SeedsStayGone(s[step..]);
      forall i | 0 <= i <= |y| ensures !SeedAt(y[i..]) {
        if BearerAt(s) {
          if i < |REDACTED| { MaskStartsNothing(rest, i); } else { assert y[i..] == rest[i - |REDACTED|..]; }
        } else if i > 0 {
          assert y[i..] == rest[i - 1..];
        } else {
          SeedNotMade(s);
        }
      }
    }
  }

  lemma SeedNotMade(s: string)
    requires NoSeeds(s)
    ensures !SeedAt(ScrubBearers(s)[0..])
  {
    var y := ScrubBearers(s);
    assert y[0..] == y && s[0..] == s;
    if SeedAt(y) {
      BearersPrefix(s, 56);
      SeedLocal(s, y);
    }
  }

  // ---------------------------------------------------------------- bearer tokens

  /** A run that ends inside the common prefix is the same run. */
  lemma {:induction false} RunLocal(s: string, t: string, p: char -> bool, n: nat)
    requires n < |s| && n < |t| && s[..n + 1] == t[..n + 1] && RunOf(s, p) == n
    ensures RunOf(t, p) == n
  {
    assert s[0] == s[..n + 1][0] == t[0];
    if n > 0 {
      assert s[1..][..n] == s[..n + 1][1..] && t[1..][..n] == t[..n + 1][1..];
      RunLocal(s[1..], t[1..], p, n - 1);
    }
  }

  /** How much of the text shows that it starts with a bearer token. */
  function Proof(s: string): (n: nat)
    requires BearerAt(s)
    ensures 8 <= n <= |s|
  {
    7 + Spaces(s)
  }

  lemma BearerLocal(s: string, t: string)
    requires BearerAt(s) && |t| >= Proof(s) && t[..Proof(s)] == s[..Proof(s)]
    ensures BearerAt(t)
  {
    var k := Proof(s);
    assert forall i | 0 <= i < k :: s[i] == s[..k][i] == t[i];
    var n := Spaces(s);
    assert s[6..][..n + 1] == s[..k][6..] && t[6..][..n + 1] == t[..k][6..];
    assert s[6..][n] == s[6 + n];
    RunLocal(s[6..], t[6..], IsSpace, n);
  }

  /** Nothing that shows a bearer token is a bracket or the truncation mark. */
  lemma ProofChars(s: string, i: nat)
    requires BearerAt(s) && i < Proof(s)
    ensures s[i] != '[' && s[i] != '…'
  {
    if 6 <= i < 6 + Spaces(s) { assert s[6..][i - 6] == s[i]; }
  }

  lemma {:induction false} BearersGone(s: string)
    ensures NoBearers(ScrubBearers(s))
    decreases |s|
  {
    var y := ScrubBearers(s);
    if s != [] {
      var step := if BearerAt(s) then BearerLength(s) else 1;
      var rest := ScrubBearers(s[step..]);
      BearersGone(s[step..]);
      forall i | 0 <= i <= |y| ensures !BearerAt(y[i..]) {
        if BearerAt(s) {
          if i < |REDACTED| { MaskStartsNothing(rest, i); } else { assert y[i..] == rest[i - |REDACTED|..]; }
        } else if i > 0 {
          assert y[i..] == rest[i - 1..];
        } else {
          BearerHere(s);
        }
      }
    }
  }

  lemma BearerHere(s: string)
    requires !BearerAt(s)
    ensures !BearerAt(ScrubBearers(s)[0..])
  {
    var y := ScrubBearers(s);
    assert y[0..] == y;
    if BearerAt(y) {
      forall i | 0 <= i < Proof(y) ensures y[i] != '[' { ProofChars(y, i); }
      BearersPrefix(s, Proof(y));
      BearerLocal(y, s);
    }
  }

  // ---------------------------------------------------------------- scrubbing what has been scrubbed

  lemma {:induction false} NoSeedsUnchanged(s: string)
    requires NoSeeds(s)
    ensures ScrubSeeds(s) == s
  {
    if s != [] {
      assert s[0..] == s;
      NoSeedsTail(s, 1);
      NoSeedsUnchanged(s[1..]);
    }
  }

  lemma {:induction false} NoBearersUnchanged(s: string)
    requires NoBearers(s)
    ensures ScrubBearers(s) == s
    decreases |s|
  {
    if s != [] {
      assert s[0..] == s;
      forall i | 0 <= i <= |s[1..]| ensures !BearerAt(s[1..][i..]) { assert s[1..][i..] == s[1 + i..]; }
      NoBearersUnchanged(s[1..]);
    }
  }

  ghost predicate Clean(s: string) { NoSeeds(s) && NoBearers(s) }

  lemma ScrubbedIsClean(s: string)
    requires !LooksLikeSecret(s)
    ensures Clean(Scrub(s))
  {
    SeedsGone(Truncate(s));
    SeedsStayGone(ScrubSeeds(Truncate(s)));
    BearersGone(ScrubSeeds(Truncate(s)));
  }

  lemma CleanUnchanged(s: string)
    requires Clean(s)
    ensures ScrubBearers(ScrubSeeds(s)) == s
  {
    NoSeedsUnchanged(s);
    NoBearersUnchanged(s);
  }

  /** Cutting clean text and marking the cut leaves clean text. */
  lemma CutIsClean(y: string, n: nat)
    requires n <= |y| && Clean(y)
    ensures Clean(y[..n] + TRUNCATED)
  {
    var z := y[..n] + TRUNCATED;
    forall i | 0 <= i <= |z| ensures !SeedAt(z[i..]) && !BearerAt(z[i..]) {
      if i < n { CutStartsNothing(y, n, i); } else { MarkStartsNothing(y[..n], i - n); }
    }
  }

  lemma MarkStartsNothing(before: string, i: nat)
    requires i <= |TRUNCATED|
    ensures var z := before + TRUNCATED; !SeedAt(z[|before| + i..]) && !BearerAt(z[|before| + i..])
  {
    var z := before + TRUNCATED;
    assert z[|before| + i..] == TRUNCATED[i..];
  }

  lemma CutStartsNothing(y: string, n: nat, i: nat)
    requires i < n <= |y| && Clean(y)
    ensures var z := y[..n] + TRUNCATED; !SeedAt(z[i..]) && !BearerAt(z[i..])
  {
    var z := y[..n] + TRUNCATED;
    assert z[i..][n - i] == '…';
    if SeedAt(z[i..]) {
      assert z[i..][..56] == y[i..][..56];
      SeedLocal(z[i..], y[i..]);
    }
    if BearerAt(z[i..]) {
      var k := Proof(z[i..]);
      if n - i < k { ProofChars(z[i..], n - i); }
      assert z[i..][..k] == y[i..][..k];
      BearerLocal(z[i..], y[i..]);
    }
  }

  /**
   * Scrubbing twice is scrubbing once exactly when the scrubbed text does not itself look like a secret and is not
   * too long to scan, or is cut already.
   */
  lemma ScrubStableExactly(s: string)
    ensures var y := Scrub(s);
      Scrub(y) == y <==> !LooksLikeSecret(y) && (|y| <= SCANNABLE || y[SCANNABLE..] == TRUNCATED)
  {
    var y := Scrub(s);
    if LooksLikeSecret(s) {
      RedactedIsClean();
      CleanUnchanged(REDACTED);
    } else {
      ScrubbedIsClean(s);
      if |y| > SCANNABLE { CutIsClean(y, SCANNABLE); }
      CleanUnchanged(Truncate(y));
      assert |y| > SCANNABLE ==> y == y[..SCANNABLE] + y[SCANNABLE..];
    }
  }

  lemma RedactedIsClean()
    ensures Clean(REDACTED)
  {
    forall i | 0 <= i <= |REDACTED| ensures !SeedAt(REDACTED[i..]) && !BearerAt(REDACTED[i..]) {
      if i < |REDACTED| { MaskStartsNothing([], i); assert REDACTED + [] == REDACTED; }
    }
  }

  predicate Lowercase(s: string) { forall i | 0 <= i < |s| :: 'a' <= s[i] <= 'z' }

  const BEARER := "Bearer "

  lemma {:induction false} AllToken(token: string)
    requires Lowercase(token)
    ensures RunOf(token, TokenChar) == |token|
  {
    if token != [] { AllToken(token[1..]); }
  }

  lemma OneSpace(token: string)
    requires token != [] && Lowercase(token)
    ensures RunOf([' '] + token, IsSpace) == 1
  {
    assert ([' '] + token)[1..] == token;
  }

  lemma StartsToken(token: string, t: string)
    requires token != [] && Lowercase(token) && t == BEARER + token
    ensures BearerAt(t) && BearerLength(t) == |t|
  {
    assert t[6..] == [' '] + token && t[7..] == token;
    assert t[0] == 'B' && t[1] == 'e' && t[2] == 'a' && t[3] == 'r' && t[4] == 'e' && t[5] == 'r';
    OneSpace(token);
    AllToken(token);
  }

  lemma WholeToken(token: string, t: string)
    requires token != [] && Lowercase(token) && t == BEARER + token
    ensures ScrubBearers(t) == REDACTED
  {
    StartsToken(token, t);
    assert t[|t|..] == [];
    assert REDACTED + [] == REDACTED;
  }

  lemma StepOver(c: char, rest: string)
    requires Lower(c) != 'b'
    ensures ScrubBearers([c] + rest) == [c] + ScrubBearers(rest)
  {
    assert ([c] + rest)[0] == c && ([c] + rest)[1..] == rest;
  }

  /** No S or M in the text is followed by a seed character, so no seed starts anywhere. */
  lemma NoSeedStarts(s: string)
    requires forall i | 0 <= i < |s| && (s[i] == 'S' || s[i] == 'M') :: i + 1 < |s| ==> !SeedChar(s[i + 1])
    ensures NoSeeds(s)
  {
    forall i | 0 <= i <= |s| ensures !SeedAt(s[i..]) {
      if i + 1 < |s| { assert s[i..][0] == s[i] && s[i..][1] == s[i + 1]; }
    }
  }

  lemma BearersAfterS(token: string, t: string)
    requires token != [] && Lowercase(token) && t == BEARER + token
    ensures ScrubBearers(['S', ' '] + t) == ['S', ' '] + REDACTED
  {
    assert ['S', ' '] + t == ['S'] + ([' '] + t) && ['S', ' '] + REDACTED == ['S'] + ([' '] + REDACTED);
    WholeToken(token, t);
    StepOver(' ', t);
    StepOver('S', [' '] + t);
  }

  lemma ScrubsBearersAlone(s: string)
    requires !LooksLikeSecret(s) && |s| <= SCANNABLE && NoSeeds(s)
    ensures Scrub(s) == ScrubBearers(s)
  {
    NoSeedsUnchanged(s);
  }

  /** The failing family: a long bearer token after an S leaves text that itself looks like a secret. */
  lemma TokenAfterS(token: string)
    requires 120 <= |token| <= SCANNABLE - 9 && Lowercase(token)
    ensures Scrub(['S', ' '] + (BEARER + token)) == ['S', ' '] + REDACTED && Scrub(['S', ' '] + REDACTED) == REDACTED
  {
    var s := ['S', ' '] + (BEARER + token);
    SpelledOut(token, s);
    ScrubsBearersAlone(s);
    BearersAfterS(token, BEARER + token);
  }

  lemma SpelledOut(token: string, s: string)
    requires Lowercase(token) && s == ['S', ' '] + (BEARER + token)
    ensures NoSeeds(s)
  {
    assert s[1] == ' ' && s[2] == 'B' && s[3] == 'e' && s[4] == 'a' && s[5] == 'r' && s[6] == 'e' && s[7] == 'r' && s[8] == ' ';
    assert forall i | 9 <= i < |s| :: s[i] == token[i - 9];
    NoSeedStarts(s);
  }
}
