/** The log redactor: every substring of four or more characters of a configured
    secret is replaced by a placeholder, longest substrings first. A character
    stands for one byte. */
module Redactor {
  const PLACEHOLDER := "[REDACTED]"
  const MIN_LENGTH := 4

  // ---- strings.Contains and strings.ReplaceAll ----

  ghost predicate Contains(s: string, p: string) {
    exists i :: OccursAt(s, p, i)
  }

  predicate OccursAt(s: string, p: string, i: int) {
    0 <= i && i + |p| <= |s| && s[i..i + |p|] == p
  }

  /** The first position from i on where p occurs in s, or |s| + 1. */
  function Find(s: string, p: string, i: nat): (k: nat)
    requires i <= |s| + 1
    ensures i <= k <= |s| + 1
    ensures k <= |s| ==> OccursAt(s, p, k)
    ensures forall j :: i <= j < k ==> !OccursAt(s, p, j)
    decreases |s| + 1 - i
  {
    if i == |s| + 1 then i
    else if OccursAt(s, p, i) then i
    else Find(s, p, i + 1)
  }

  function ReplaceAll(s: string, p: string): string
    requires p != []
    decreases |s|
  {
    var k := Find(s, p, 0);
    if k > |s| then s else s[..k] + PLACEHOLDER + ReplaceAll(s[k + |p|..], p)
  }

  // ---- The substrings of a secret, in the order of their replacement ----

  /** The substrings of the given length, from start on. */
  function SubstringsFrom(secret: string, length: nat, start: nat): seq<string>
    requires start + length <= |secret| + 1
    decreases |secret| + 1 - length - start
  {
    if start + length > |secret| then []
    else [secret[start..start + length]] + SubstringsFrom(secret, length, start + 1)
  }

  /** All substrings of MIN_LENGTH to length characters, longest first. */
  function Patterns(secret: string, length: nat): seq<string>
    requires length <= |secret|
    decreases length
  {
    if length < MIN_LENGTH then []
    else SubstringsFrom(secret, length, 0) + Patterns(secret, length - 1)
  }

  function AllPatterns(secrets: seq<string>): seq<string> {
    if secrets == [] then [] else Patterns(secrets[0], |secrets[0]|) + AllPatterns(secrets[1..])
  }

  /** Replaces each pattern in turn; an empty pattern never arises. */
  function Replaced(s: string, patterns: seq<string>): string
    decreases |patterns|
  {
    if patterns == [] then s
    else if patterns[0] == [] then Replaced(s, patterns[1..])
    else Replaced(ReplaceAll(s, patterns[0]), patterns[1..])
  }

  lemma NextPattern(s: string, p: string, rest: seq<string>, others: seq<string>)
    requires p != []
    ensures Replaced(s, ([p] + rest) + others) == Replaced(ReplaceAll(s, p), rest + others)
    ensures Find(s, p, 0) > |s| ==> ReplaceAll(s, p) == s
  {
    assert ([p] + rest) + others == [p] + (rest + others);
  }

  method RedactSecret(input: string, secret: string) returns (output: string)
    ensures output == Replaced(input, Patterns(secret, |secret|))
  {
    output := input;
    var length := |secret|;
    while length >= MIN_LENGTH
      invariant 0 <= length <= |secret|
      invariant Replaced(output, Patterns(secret, length)) == Replaced(input, Patterns(secret, |secret|))
    {
      var start := 0;
      while start + length <= |secret|
        invariant 0 <= start && start + length <= |secret| + 1
        invariant Replaced(output, SubstringsFrom(secret, length, start) + Patterns(secret, length - 1)) ==
                  Replaced(input, Patterns(secret, |secret|))
        decreases |secret| - start
      {
        var substr := secret[start..start + length];
        NextPattern(output, substr, SubstringsFrom(secret, length, start + 1), Patterns(secret, length - 1));
        if Find(output, substr, 0) <= |output| {
          output := ReplaceAll(output, substr);
        }
        start := start + 1;
      }
      assert SubstringsFrom(secret, length, start) + Patterns(secret, length - 1) == Patterns(secret, length - 1);
      length := length - 1;
    }
  }

  method Redact(secrets: seq<string>, input: string) returns (output: string)
    ensures output == Replaced(input, AllPatterns(secrets))
  {
    output := input;
    for i := 0 to |secrets|
      invariant Replaced(output, AllPatterns(secrets[i..])) == Replaced(input, AllPatterns(secrets))
    {
      var secret := secrets[i];
      assert secrets[i..][1..] == secrets[i + 1..];
      ReplacedConcat(output, Patterns(secret, |secret|), AllPatterns(secrets[i + 1..]));
      if |secret| >= MIN_LENGTH {
        output := RedactSecret(output, secret);
      }
    }
  }

  lemma {:induction false} ReplacedConcat(s: string, p: seq<string>, q: seq<string>)
    ensures Replaced(s, p + q) == Replaced(Replaced(s, p), q)
    decreases |p|
  {
    if p == [] {
      assert p + q == q;
    } else {
      assert (p + q)[1..] == p[1..] + q;
      ReplacedConcat(if p[0] == [] then s else ReplaceAll(s, p[0]), p[1..], q);
    }
  }

  // ---- What must not get into the log ----

  /** A four-character piece of a configured secret. */
  ghost predicate Gram(secrets: seq<string>, g: string) {
    exists k, i :: 0 <= k < |secrets| && GramAt(secrets[k], g, i)
  }

  predicate GramAt(secret: string, g: string, i: int) {
    |g| == MIN_LENGTH && OccursAt(secret, g, i)
  }

  /** s contains no substring of four or more characters of any secret. */
  ghost predicate Clean(secrets: seq<string>, s: string) {
    forall k, i, j :: 0 <= k < |secrets| && 0 <= i && i + MIN_LENGTH <= j <= |secrets[k]| ==>
                        !Contains(s, secrets[k][i..j])
  }

  /** Four characters are enough: longer substrings contain shorter ones. */
  lemma CleanIsGramFree(secrets: seq<string>, s: string)
    ensures Clean(secrets, s) <==> forall g :: Gram(secrets, g) ==> !Contains(s, g)
  {
    forall g | Gram(secrets, g)
      ensures Contains(s, g) ==> !Clean(secrets, s)
    {
      var k, i :| 0 <= k < |secrets| && GramAt(secrets[k], g, i);
      assert g == secrets[k][i..i + MIN_LENGTH];
    }
    forall k, i, j | 0 <= k < |secrets| && 0 <= i && i + MIN_LENGTH <= j <= |secrets[k]|
      ensures Contains(s, secrets[k][i..j]) ==> exists g :: Gram(secrets, g) && Contains(s, g)
    {
      var whole, g := secrets[k][i..j], secrets[k][i..i + MIN_LENGTH];
      assert GramAt(secrets[k], g, i);
      assert whole[0..MIN_LENGTH] == g;
      PieceContains(whole, 0, MIN_LENGTH, s);
    }
  }

  /** g ends as the placeholder begins, or begins as the placeholder ends. */
  predicate Straddles(g: string) {
    || (exists n :: 0 < n < |g| && n <= |PLACEHOLDER| && g[|g| - n..] == PLACEHOLDER[..n])
    || (exists n :: 0 < n < |g| && n <= |PLACEHOLDER| && g[..n] == PLACEHOLDER[|PLACEHOLDER| - n..])
  }

  ghost predicate Touches(g: string) {
    Contains(PLACEHOLDER, g) || Straddles(g)
  }

  // ---- A replacement removes its pattern and never recreates another ----

  /** What contains s contains every piece of s. */
  lemma PieceContains(s: string, i: nat, j: nat, t: string)
    requires i <= j <= |s|
    ensures Contains(t, s) ==> Contains(t, s[i..j])
  {
    if k :| OccursAt(t, s, k) {
      assert t[k..k + |s|] == s;
      forall n | 0 <= n < j - i ensures t[k + i..k + j][n] == s[i..j][n] {
        assert t[k + i..k + j][n] == t[k..k + |s|][i + n];
      }
      assert OccursAt(t, s[i..j], k + i);
    }
  }

  lemma ContainsIsTransitive(t: string, s: string, g: string)
    requires Contains(t, s) && Contains(s, g)
    ensures Contains(t, g)
  {
    var i :| OccursAt(s, g, i);
    PieceContains(s, i, i + |g|, t);
  }

  lemma PieceIsWithin(s: string, i: nat, j: nat, g: string)
    requires i <= j <= |s|
    ensures Contains(s[i..j], g) ==> Contains(s, g)
  {
    assert OccursAt(s, s[i..j], i);
    if Contains(s[i..j], g) {
      ContainsIsTransitive(s, s[i..j], g);
    }
  }

  lemma OverTheStart(s: string, g: string, i: nat, m: nat)
    requires |g| == MIN_LENGTH && OccursAt(s, g, i) && i < m < i + |g|
    requires m + |PLACEHOLDER| <= |s| && s[m..m + |PLACEHOLDER|] == PLACEHOLDER
    ensures Straddles(g)
  {
    var n := i + |g| - m;
    assert g[|g| - n..] == s[m..i + |g|] == s[m..m + |PLACEHOLDER|][..n];
  }

  lemma OverTheEnd(s: string, g: string, i: nat, m: nat)
    requires |g| == MIN_LENGTH && OccursAt(s, g, i) && m <= i < m + |PLACEHOLDER| < i + |g|
    requires m + |PLACEHOLDER| <= |s| && s[m..m + |PLACEHOLDER|] == PLACEHOLDER
    ensures Straddles(g)
  {
    var n := m + |PLACEHOLDER| - i;
    assert g[..n] == s[i..i + n] == s[m..m + |PLACEHOLDER|][|PLACEHOLDER| - n..];
  }

  lemma JoinContains(a: string, b: string, g: string)
    requires |g| == MIN_LENGTH
    ensures Contains(a + PLACEHOLDER + b, g) ==> Contains(a, g) || Contains(b, g) || Touches(g)
  {
    var s := a + PLACEHOLDER + b;
    if i :| OccursAt(s, g, i) {
      var m, n := |a|, |a| + |PLACEHOLDER|;
      assert s[m..n] == PLACEHOLDER;
      if i + |g| <= m {
        assert OccursAt(a, g, i);
      } else if i < m {
        OverTheStart(s, g, i, m);
      } else if i + |g| <= n {
        assert OccursAt(PLACEHOLDER, g, i - m);
      } else if i < n {
        OverTheEnd(s, g, i, m);
      } else {
        assert OccursAt(b, g, i - n);
      }
    }
  }

  lemma {:induction false} NeverRecreated(s: string, p: string, g: string)
    requires p != [] && |g| == MIN_LENGTH && !Touches(g) && !Contains(s, g)
    ensures !Contains(ReplaceAll(s, p), g)
    decreases |s|
  {
    var k := Find(s, p, 0);
    if k <= |s| {
      assert s[..k] == s[0..k] && s[k + |p|..] == s[k + |p|..|s|];
      PieceIsWithin(s, 0, k, g);
      PieceIsWithin(s, k + |p|, |s|, g);
      NeverRecreated(s[k + |p|..], p, g);
      JoinContains(s[..k], ReplaceAll(s[k + |p|..], p), g);
    }
  }

  lemma {:induction false} ReplacedIsGone(s: string, g: string)
    requires |g| == MIN_LENGTH && !Touches(g)
    ensures !Contains(ReplaceAll(s, g), g)
    decreases |s|
  {
    var k := Find(s, g, 0);
    if k <= |s| {
      ReplacedIsGone(s[k + |g|..], g);
      BeforeTheFirst(s, g);
      JoinContains(s[..k], ReplaceAll(s[k + |g|..], g), g);
    }
  }

  lemma BeforeTheFirst(s: string, g: string)
    requires g != [] && Find(s, g, 0) <= |s|
    ensures !Contains(s[..Find(s, g, 0)], g)
  {
    var k := Find(s, g, 0);
    forall i ensures OccursAt(s[..k], g, i) ==> OccursAt(s, g, i) && i < k {
      if OccursAt(s[..k], g, i) {
        assert s[..k][i..i + |g|] == s[i..i + |g|];
      }
    }
  }

  lemma {:induction false} StaysFree(s: string, patterns: seq<string>, g: string)
    requires |g| == MIN_LENGTH && !Touches(g) && !Contains(s, g)
    ensures !Contains(Replaced(s, patterns), g)
    decreases |patterns|
  {
    if patterns != [] {
      if patterns[0] == [] {
        StaysFree(s, patterns[1..], g);
      } else {
        NeverRecreated(s, patterns[0], g);
        StaysFree(ReplaceAll(s, patterns[0]), patterns[1..], g);
      }
    }
  }

  lemma {:induction false} RemovedInTurn(s: string, patterns: seq<string>, g: string)
    requires |g| == MIN_LENGTH && !Touches(g) && g in patterns
    ensures !Contains(Replaced(s, patterns), g)
    decreases |patterns|
  {
    if patterns[0] == g {
      ReplacedIsGone(s, g);
      StaysFree(ReplaceAll(s, g), patterns[1..], g);
    } else if patterns[0] == [] {
      RemovedInTurn(s, patterns[1..], g);
    } else {
      RemovedInTurn(ReplaceAll(s, patterns[0]), patterns[1..], g);
    }
  }

  // ---- The patterns are the substrings ----

  lemma {:induction false} SubstringIsListed(secret: string, length: nat, start: nat, i: nat)
    requires start <= i && i + length <= |secret|
    ensures secret[i..i + length] in SubstringsFrom(secret, length, start)
    decreases i - start
  {
    if start < i {
      SubstringIsListed(secret, length, start + 1, i);
    }
  }

  lemma {:induction false} GramIsListed(secret: string, length: nat, i: nat)
    requires MIN_LENGTH <= length <= |secret| && i + MIN_LENGTH <= |secret|
    ensures secret[i..i + MIN_LENGTH] in Patterns(secret, length)
    decreases length
  {
    if length == MIN_LENGTH {
      SubstringIsListed(secret, length, 0, i);
    } else {
      GramIsListed(secret, length - 1, i);
    }
  }

  lemma {:induction false} GramOfAnySecretIsListed(secrets: seq<string>, g: string)
    requires Gram(secrets, g)
    ensures g in AllPatterns(secrets)
  {
    var k, i :| 0 <= k < |secrets| && GramAt(secrets[k], g, i);
    if k == 0 {
      GramIsListed(secrets[0], |secrets[0]|, i);
    } else {
      assert secrets[1..][k - 1] == secrets[k];
      GramOfAnySecretIsListed(secrets[1..], g);
    }
  }

  // ---- The main results ----

  function Redacted(secrets: seq<string>, input: string): string {
    Replaced(input, AllPatterns(secrets))
  }

  /** Redaction is complete for secrets whose four-character pieces keep clear of the placeholder. */
  lemma RedactionIsComplete(secrets: seq<string>, input: string)
    requires forall g :: Gram(secrets, g) ==> !Touches(g)
    ensures Clean(secrets, Redacted(secrets, input))
  {
    CleanIsGramFree(secrets, Redacted(secrets, input));
    forall g | Gram(secrets, g) ensures !Contains(Redacted(secrets, input), g) {
      GramOfAnySecretIsListed(secrets, g);
      RemovedInTurn(input, AllPatterns(secrets), g);
    }
  }

  /** A pattern is a substring of four or more characters of some secret. */
  ghost predicate Listed(secrets: seq<string>, p: string) {
    exists k, i, j :: 0 <= k < |secrets| && PieceAt(secrets[k], p, i, j)
  }

  predicate PieceAt(secret: string, p: string, i: int, j: int) {
    0 <= i && i + MIN_LENGTH <= j <= |secret| && p == secret[i..j]
  }

  lemma {:induction false} SubstringsArePieces(secret: string, length: nat, start: nat, p: string)
    requires MIN_LENGTH <= length && start + length <= |secret| + 1
    requires p in SubstringsFrom(secret, length, start)
    ensures exists i, j :: PieceAt(secret, p, i, j)
    decreases |secret| + 1 - length - start
  {
    if p == secret[start..start + length] {
      assert PieceAt(secret, p, start, start + length);
    } else {
      SubstringsArePieces(secret, length, start + 1, p);
    }
  }

  lemma {:induction false} PatternsArePieces(secret: string, length: nat, p: string)
    requires length <= |secret| && p in Patterns(secret, length)
    ensures exists i, j :: PieceAt(secret, p, i, j)
    decreases length
  {
    if p in SubstringsFrom(secret, length, 0) {
      SubstringsArePieces(secret, length, 0, p);
    } else {
      PatternsArePieces(secret, length - 1, p);
    }
  }

  lemma {:induction false} PatternsAreListed(secrets: seq<string>, p: string)
    requires p in AllPatterns(secrets)
    ensures Listed(secrets, p)
  {
    if p in Patterns(secrets[0], |secrets[0]|) {
      PatternsArePieces(secrets[0], |secrets[0]|, p);
    } else {
      PatternsAreListed(secrets[1..], p);
      var k, i, j :| 0 <= k < |secrets[1..]| && PieceAt(secrets[1..][k], p, i, j);
      assert PieceAt(secrets[k + 1], p, i, j);
    }
  }

  lemma AbsentIsKept(s: string, p: string)
    requires p != [] && !Contains(s, p)
    ensures ReplaceAll(s, p) == s
  {
    var k := Find(s, p, 0);
    assert k <= |s| ==> OccursAt(s, p, k);
  }

  lemma {:induction false} AllAbsentIsKept(s: string, patterns: seq<string>)
    requires forall p :: p in patterns ==> !Contains(s, p)
    ensures Replaced(s, patterns) == s
    decreases |patterns|
  {
    if patterns != [] {
      assert patterns[0] in patterns;
      if patterns[0] != [] {
        AbsentIsKept(s, patterns[0]);
      }
      AllAbsentIsKept(s, patterns[1..]);
    }
  }

  /** A message without any piece of a secret is logged as it is, whatever the secrets. */
  lemma CleanInputIsKept(secrets: seq<string>, input: string)
    requires Clean(secrets, input)
    ensures Redacted(secrets, input) == input
  {
    forall p | p in AllPatterns(secrets) ensures !Contains(input, p) {
      PatternsAreListed(secrets, p);
    }
    AllAbsentIsKept(input, AllPatterns(secrets));
  }

  lemma RedactionIsIdempotent(secrets: seq<string>, input: string)
    requires forall g :: Gram(secrets, g) ==> !Touches(g)
    ensures Redacted(secrets, Redacted(secrets, input)) == Redacted(secrets, input)
  {
    RedactionIsComplete(secrets, input);
    CleanInputIsKept(secrets, Redacted(secrets, input));
  }

  // ---- Exactly when redaction is complete ----

  lemma ReplacementLeavesPlaceholder(s: string, p: string)
    requires p != [] && (Contains(s, p) || Contains(s, PLACEHOLDER))
    ensures Contains(ReplaceAll(s, p), PLACEHOLDER)
  {
    var k := Find(s, p, 0);
    if k <= |s| {
      var r := ReplaceAll(s, p);
      assert r[k..k + |PLACEHOLDER|] == PLACEHOLDER;
      assert OccursAt(r, PLACEHOLDER, k);
    } else {
      assert forall j :: 0 <= j < k ==> !OccursAt(s, p, j);
    }
  }

  /** Once something was replaced a placeholder is there, and it stays. */
  lemma {:induction false} PlaceholderStays(s: string, patterns: seq<string>)
    requires forall p :: p in patterns ==> p != []
    requires Contains(s, PLACEHOLDER) || exists p :: p in patterns && Contains(s, p)
    ensures Contains(Replaced(s, patterns), PLACEHOLDER)
    decreases |patterns|
  {
    if patterns != [] {
      assert patterns[0] in patterns;
      if Contains(s, patterns[0]) || Contains(s, PLACEHOLDER) {
        ReplacementLeavesPlaceholder(s, patterns[0]);
      } else {
        AbsentIsKept(s, patterns[0]);
      }
      assert forall p :: p in patterns[1..] ==> p in patterns;
      PlaceholderStays(ReplaceAll(s, patterns[0]), patterns[1..]);
    }
  }

  /** If some piece of a secret is a piece of the placeholder, redaction itself writes it
      into every message that it changes at all. */
  lemma PlaceholderLeaks(secrets: seq<string>, input: string, g: string)
    requires Gram(secrets, g) && Contains(PLACEHOLDER, g) && !Clean(secrets, input)
    ensures Contains(Redacted(secrets, input), g)
  {
    CleanIsGramFree(secrets, input);
    var h :| Gram(secrets, h) && Contains(input, h);
    GramOfAnySecretIsListed(secrets, h);
    forall p | p in AllPatterns(secrets) ensures p != [] {
      PatternsAreListed(secrets, p);
    }
    PlaceholderStays(input, AllPatterns(secrets));
    ContainsIsTransitive(Redacted(secrets, input), PLACEHOLDER, g);
  }

  /** For secrets that do not straddle an end of the placeholder, the redacted message is
      clean exactly when the message was, or when no secret shares four characters with
      the placeholder. */
  lemma RedactionIsCompleteExactlyWhen(secrets: seq<string>, input: string)
    requires forall g :: Gram(secrets, g) ==> !Straddles(g)
    ensures Clean(secrets, Redacted(secrets, input)) <==>
            Clean(secrets, input) || !exists g :: Gram(secrets, g) && Contains(PLACEHOLDER, g)
  {
    if Clean(secrets, input) {
      CleanInputIsKept(secrets, input);
    } else if g :| Gram(secrets, g) && Contains(PLACEHOLDER, g) {
      PlaceholderLeaks(secrets, input, g);
      CleanIsGramFree(secrets, Redacted(secrets, input));
    } else {
      RedactionIsComplete(secrets, input);
    }
  }

  /** A secret without brackets straddles nothing. */
  lemma BracketFreeStraddlesNothing(secrets: seq<string>, g: string)
    requires forall k :: 0 <= k < |secrets| ==> '[' !in secrets[k] && ']' !in secrets[k]
    requires Gram(secrets, g)
    ensures !Straddles(g)
  {
    var k, i :| 0 <= k < |secrets| && GramAt(secrets[k], g, i);
    assert forall c :: c in g ==> c in secrets[k];
    forall n | 0 < n < |g|
      ensures g[|g| - n..] != PLACEHOLDER[..n] && g[..n] != PLACEHOLDER[|PLACEHOLDER| - n..]
    {
      assert g[|g| - n..][0] == g[|g| - n] && g[|g| - n] in g && PLACEHOLDER[..n][0] == '[';
      assert g[..n][n - 1] == g[n - 1] && g[n - 1] in g;
      assert PLACEHOLDER[|PLACEHOLDER| - n..][n - 1] == PLACEHOLDER[|PLACEHOLDER| - 1] == ']';
    }
  }

  lemma InsideTheBrackets(g: string)
    requires |g| == MIN_LENGTH && '[' !in g && ']' !in g
    ensures Contains(PLACEHOLDER, g) <==> Contains("REDACTED", g)
  {
    assert PLACEHOLDER[1..9] == "REDACTED";
    PieceIsWithin(PLACEHOLDER, 1, 9, g);
    if i :| OccursAt(PLACEHOLDER, g, i) {
      assert PLACEHOLDER[i] == g[0] && PLACEHOLDER[i + 3] == g[3] && g[0] in g && g[3] in g;
      assert 1 <= i && i + 3 <= 8;
      assert OccursAt("REDACTED", g, i - 1);
    }
  }

  /** For secrets without brackets redaction is complete, message by message, exactly when the
      message was clean or no secret shares four characters with the word REDACTED. */
  lemma BracketFreeRedactionExactlyWhen(secrets: seq<string>, input: string)
    requires forall k :: 0 <= k < |secrets| ==> '[' !in secrets[k] && ']' !in secrets[k]
    ensures Clean(secrets, Redacted(secrets, input)) <==>
            Clean(secrets, input) || !exists g :: Gram(secrets, g) && Contains("REDACTED", g)
  {
    forall g | Gram(secrets, g)
      ensures !Straddles(g) && (Contains(PLACEHOLDER, g) <==> Contains("REDACTED", g))
    {
      BracketFreeStraddlesNothing(secrets, g);
      var k, i :| 0 <= k < |secrets| && GramAt(secrets[k], g, i);
      assert forall c :: c in g ==> c in secrets[k];
      InsideTheBrackets(g);
    }
    RedactionIsCompleteExactlyWhen(secrets, input);
  }

  /** A straddling secret can be put together again by its own redaction. */
  lemma StraddlingSecretLeaks()
    ensures !Clean(["x[RE"], "xx[RE") && Redacted(["x[RE"], "xx[RE") == "x[REDACTED]"
    ensures !Clean(["x[RE"], Redacted(["x[RE"], "xx[RE"))
  {
    var secret, input, output := "x[RE", "xx[RE", "x[REDACTED]";
    assert secret[0..4] == secret;
    assert OccursAt(input, secret, 1) && OccursAt(output, secret, 0);
    assert Clean([secret], input) ==> !Contains(input, [secret][0][0..4]);
    assert Clean([secret], output) ==> !Contains(output, [secret][0][0..4]);
    assert SubstringsFrom(secret, 4, 1) == [] && Patterns(secret, 3) == [];
    assert Patterns(secret, 4) == [secret];
    assert AllPatterns([secret][1..]) == [];
    assert AllPatterns([secret]) == [secret];
    assert input[0..4][1] == 'x' && secret[1] == '[';
    assert Find(input, secret, 0) == 1;
    assert input[5..] == "" && Find("", secret, 0) > 0;
    assert ReplaceAll(input, secret) == output;
    assert Replaced(output, [secret][1..]) == output;
  }

  // ---- The rest of the message is kept ----

  /** What lies before, between and after the occurrences that are replaced. */
  function Pieces(s: string, g: string): (r: seq<string>)
    requires g != []
    ensures r != []
    decreases |s|
  {
    var k := Find(s, g, 0);
    if k > |s| then [s] else [s[..k]] + Pieces(s[k + |g|..], g)
  }

  /** The parts with the separator between them. */
  function Join(parts: seq<string>, separator: string): string
    requires parts != []
  {
    if |parts| == 1 then parts[0] else parts[0] + separator + Join(parts[1..], separator)
  }

  /** Joined by p the parts are s; each p in between is the first after the one before, and there is none after the last. */
  ghost predicate Splits(parts: seq<string>, s: string, p: string) {
    && parts != [] && Join(parts, p) == s
    && (forall k :: 0 <= k < |parts| - 1 ==> FirstAfter(parts[k], p))
    && !Contains(parts[|parts| - 1], p)
  }

  predicate FirstAfter(t: string, p: string) {
    forall j :: 0 <= j < |t| ==> !OccursAt(t + p, p, j)
  }

  /** What occurs in a part of t occurs in t. */
  lemma OccursInside(t: string, s: string, k: int, g: string, i: int)
    requires OccursAt(t, s, k) && OccursAt(s, g, i)
    ensures OccursAt(t, g, k + i)
  {
    forall n | 0 <= n < |g| ensures t[k + i..k + i + |g|][n] == g[n] {
      assert t[k..k + |s|][i + n] == s[i..i + |g|][n];
    }
  }

  /** What occurs in t, and within the part of it that s is, occurs in s. */
  lemma OccursWithin(t: string, s: string, k: int, g: string, i: int)
    requires OccursAt(t, s, k) && OccursAt(t, g, i) && k <= i && i + |g| <= k + |s|
    ensures OccursAt(s, g, i - k)
  {
    forall n | 0 <= n < |g| ensures s[i - k..i - k + |g|][n] == g[n] {
      assert t[k..k + |s|][i - k + n] == t[i..i + |g|][n];
    }
  }

  lemma PartsOccurAt(a: string, middle: string, b: string)
    ensures var s := a + middle + b; OccursAt(s, a, 0) && OccursAt(s, middle, |a|) && OccursAt(s, b, |a| + |middle|)
    ensures OccursAt(a + middle + b, a + middle, 0)
  {
    var s := a + middle + b;
    assert s[0..|a|] == a && s[|a|..|a| + |middle|] == middle && s[|a| + |middle|..|s|] == b;
    assert s[0..|a| + |middle|] == a + middle;
  }

  lemma CutAt(s: string, p: string, k: nat)
    requires OccursAt(s, p, k)
    ensures s == s[..k] + p + s[k + |p|..]
  {
  }

  lemma FirstIsFound(s: string, p: string)
    requires Find(s, p, 0) <= |s|
    ensures var k := Find(s, p, 0); FirstAfter(s[..k], p) && s == s[..k] + p + s[k + |p|..]
  {
    hide OccursAt;
    var k := Find(s, p, 0);
    CutAt(s, p, k);
    PartsOccurAt(s[..k], p, s[k + |p|..]);
    forall j | 0 <= j < k ensures !OccursAt(s[..k] + p, p, j) {
      if OccursAt(s[..k] + p, p, j) {
        OccursInside(s, s[..k] + p, 0, p, j);
      }
    }
  }

  lemma SplitsMore(t: string, parts: seq<string>, rest: string, p: string)
    requires Splits(parts, rest, p) && FirstAfter(t, p)
    ensures Splits([t] + parts, t + p + rest, p) && Join([t] + parts, PLACEHOLDER) == t + PLACEHOLDER + Join(parts, PLACEHOLDER)
  {
    hide FirstAfter, Contains;
    var all := [t] + parts;
    assert all[1..] == parts && all[|all| - 1] == parts[|parts| - 1];
    forall k | 0 <= k < |all| - 1 ensures FirstAfter(all[k], p) {
      assert k > 0 ==> all[k] == parts[k - 1];
    }
  }

  /** For a pattern of any length: the message is cut at its occurrences, from left to right, and
      put together again with the placeholder in their place; nothing else changes. */
  lemma {:induction false} ReplacedPieceByPiece(s: string, p: string)
    requires p != []
    ensures Splits(Pieces(s, p), s, p) && ReplaceAll(s, p) == Join(Pieces(s, p), PLACEHOLDER)
    decreases |s|
  {
    hide OccursAt;
    var k := Find(s, p, 0);
    if k <= |s| {
      NotNegative(s, p, k);
      var rest := s[k + |p|..];
      FirstIsFound(s, p);
      ReplacedPieceByPiece(rest, p);
      SplitsMore(s[..k], Pieces(rest, p), rest, p);
    } else {
      NotThere(s, p);
    }
  }

  lemma NotThere(s: string, p: string)
    requires Find(s, p, 0) > |s|
    ensures !Contains(s, p)
  {
    assert forall j :: 0 <= j < Find(s, p, 0) ==> !OccursAt(s, p, j);
  }

  /** There is just one way to cut it so. */
  lemma {:induction false} PiecesAreUnique(parts: seq<string>, s: string, p: string)
    requires p != [] && Splits(parts, s, p)
    ensures parts == Pieces(s, p)
    decreases |parts|
  {
    if |parts| == 1 {
      assert forall i :: !OccursAt(s, p, i);
    } else {
      var t, rest := parts[0], Join(parts[1..], p);
      FindsTheFirst(t, p, rest);
      RestSplits(parts, s, p);
      PiecesAreUnique(parts[1..], rest, p);
      assert s[..|t|] == t && s[|t| + |p|..] == rest;
      assert parts == [t] + parts[1..];
    }
  }

  lemma RestSplits(parts: seq<string>, s: string, p: string)
    requires |parts| > 1 && Splits(parts, s, p)
    ensures Splits(parts[1..], Join(parts[1..], p), p) && FirstAfter(parts[0], p)
  {
    var rest := parts[1..];
    forall k | 0 <= k < |rest| - 1 ensures FirstAfter(rest[k], p) {
      assert rest[k] == parts[k + 1];
    }
    assert rest[|rest| - 1] == parts[|parts| - 1];
  }

  lemma FindsTheFirst(t: string, p: string, rest: string)
    requires p != [] && FirstAfter(t, p)
    ensures Find(t + p + rest, p, 0) == |t|
  {
    var s := t + p + rest;
    PartsOccurAt(t, p, rest);
    forall j | 0 <= j < |t| ensures !OccursAt(s, p, j) {
      if OccursAt(s, p, j) {
        OccursWithin(s, t + p, 0, p, j);
      }
    }
  }

  /** Every four-character piece of a secret that the message has lies between the two positions. */
  ghost predicate OnlyBetween(secrets: seq<string>, s: string, from: int, to: int) {
    forall g, i :: Gram(secrets, g) && OccursAt(s, g, i) ==> from <= i && i + MIN_LENGTH <= to
  }

  lemma {:induction false} PatternsOf(secrets: seq<string>, k: nat)
    requires k < |secrets|
    ensures AllPatterns(secrets) ==
            AllPatterns(secrets[..k]) + (Patterns(secrets[k], |secrets[k]|) + AllPatterns(secrets[k + 1..]))
    decreases k
  {
    if k == 0 {
      assert AllPatterns(secrets[..0]) == [];
    } else {
      PatternsOf(secrets[1..], k - 1);
      assert secrets[1..][..k - 1] == secrets[..k][1..] && secrets[1..][k - 1] == secrets[k] && secrets[1..][k..] == secrets[k + 1..];
      var (first, mid) := (Patterns(secrets[0], |secrets[0]|), AllPatterns(secrets[..k][1..]));
      Regroup(first, mid, Patterns(secrets[k], |secrets[k]|) + AllPatterns(secrets[k + 1..]));
      assert AllPatterns(secrets[..k]) == first + mid;
    }
  }

  lemma Regroup(x: seq<string>, y: seq<string>, z: seq<string>)
    ensures x + (y + z) == (x + y) + z
  {
  }

  lemma OneOfFullLength(secret: string)
    requires secret != []
    ensures SubstringsFrom(secret, |secret|, 0) == [secret]
  {
    var n := |secret|;
    assert SubstringsFrom(secret, n, 0 + 1) == [];
    assert secret[0..0 + n] == secret;
  }

  /** What is replaced before the whole of secret k, and after it. */
  lemma PatternsAround(secrets: seq<string>, k: nat)
    requires k < |secrets| && |secrets[k]| >= MIN_LENGTH
    ensures var rest := Patterns(secrets[k], |secrets[k]| - 1) + AllPatterns(secrets[k + 1..]);
            AllPatterns(secrets) == AllPatterns(secrets[..k]) + ([secrets[k]] + rest)
  {
    PatternsOf(secrets, k);
    OneOfFullLength(secrets[k]);
    Regroup([secrets[k]], Patterns(secrets[k], |secrets[k]| - 1), AllPatterns(secrets[k + 1..]));
    hide AllPatterns;
  }

  lemma EndsOfSecret(secret: string)
    requires |secret| >= MIN_LENGTH
    ensures var n := |secret| - MIN_LENGTH;
            GramAt(secret, secret[0..MIN_LENGTH], 0) && GramAt(secret, secret[n..n + MIN_LENGTH], n)
  {
  }

  /** A second occurrence would begin before the first or end after it. */
  lemma SecretIsOnlyThere(secrets: seq<string>, k: nat, a: string, b: string)
    requires k < |secrets| && |secrets[k]| >= MIN_LENGTH
    requires OnlyBetween(secrets, a + secrets[k] + b, |a|, |a| + |secrets[k]|)
    ensures FirstAfter(a, secrets[k]) && !Contains(b, secrets[k])
  {
    hide OccursAt;
    var secret, s := secrets[k], a + secrets[k] + b;
    var n := |secret| - MIN_LENGTH;
    var first, last := secret[0..MIN_LENGTH], secret[n..n + MIN_LENGTH];
    EndsOfSecret(secret);
    assert Gram(secrets, first) && Gram(secrets, last);
    PartsOccurAt(a, secret, b);
    forall j | 0 <= j < |a| ensures !OccursAt(a + secret, secret, j) {
      if OccursAt(a + secret, secret, j) {
        OccursInside(s, a + secret, 0, secret, j);
        OccursInside(s, secret, j, first, 0);
      }
    }
    forall j ensures !OccursAt(b, secret, j) {
      if OccursAt(b, secret, j) {
        OccursInside(s, b, |a| + |secret|, secret, j);
        OccursInside(s, secret, |a| + |secret| + j, last, n);
        NotNegative(b, secret, j);
      }
    }
  }

  lemma NotNegative(s: string, p: string, i: int)
    requires OccursAt(s, p, i)
    ensures 0 <= i && i + |p| <= |s|
  {
  }

  lemma CutAtTheSecret(secrets: seq<string>, k: nat, a: string, b: string)
    requires k < |secrets| && |secrets[k]| >= MIN_LENGTH
    requires OnlyBetween(secrets, a + secrets[k] + b, |a|, |a| + |secrets[k]|)
    ensures ReplaceAll(a + secrets[k] + b, secrets[k]) == a + PLACEHOLDER + b
  {
    hide FirstAfter, Contains, OnlyBetween;
    SecretIsOnlyThere(secrets, k, a, b);
    assert [a, b][1..] == [b];
    PiecesAreUnique([a, b], a + secrets[k] + b, secrets[k]);
    ReplacedPieceByPiece(a + secrets[k] + b, secrets[k]);
  }

  lemma NothingElsewhere(secrets: seq<string>, k: nat, a: string, b: string, g: string)
    requires k < |secrets| && OnlyBetween(secrets, a + secrets[k] + b, |a|, |a| + |secrets[k]|) && Gram(secrets, g)
    ensures !Contains(a, g) && !Contains(b, g)
    ensures Contains(a + secrets[k] + b, g) ==> Contains(secrets[k], g)
  {
    var secret, s := secrets[k], a + secrets[k] + b;
    PartsOccurAt(a, secret, b);
    if i :| OccursAt(a, g, i) {
      OccursInside(s, a, 0, g, i);
    }
    if i :| OccursAt(b, g, i) {
      OccursInside(s, b, |a| + |secret|, g, i);
    }
    if i :| OccursAt(s, g, i) {
      OccursWithin(s, secret, |a|, g, i);
    }
  }

  /** A message with a secret in it, and no piece of a secret elsewhere: what is logged is the same
      message with the placeholder in place of the secret. Secrets listed before that one share no
      four characters with it; they would be replaced in it first. */
  lemma RestIsKept(secrets: seq<string>, k: nat, a: string, b: string)
    requires k < |secrets| && |secrets[k]| >= MIN_LENGTH
    requires OnlyBetween(secrets, a + secrets[k] + b, |a|, |a| + |secrets[k]|)
    requires forall g :: Gram(secrets, g) ==> !Touches(g)
    requires forall g :: Gram(secrets[..k], g) ==> !Contains(secrets[k], g)
    ensures Redacted(secrets, a + secrets[k] + b) == a + PLACEHOLDER + b
  {
    var (secret, s, t) := (secrets[k], a + secrets[k] + b, a + PLACEHOLDER + b);
    var rest := Patterns(secret, |secret| - 1) + AllPatterns(secrets[k + 1..]);
    PatternsAround(secrets, k);
    ReplacedConcat(s, AllPatterns(secrets[..k]), [secret] + rest);
    EarlierIsKept(secrets, k, a, b);
    CutAtTheSecret(secrets, k, a, b);
    assert ([secret] + rest)[1..] == rest;
    NothingIsLeft(secrets, k, a, b);
    forall p | p in rest ensures !Contains(t, p) {
      assert p in AllPatterns(secrets);
      PatternsAreListed(secrets, p);
    }
    AllAbsentIsKept(t, rest);
  }

  lemma EarlierIsKept(secrets: seq<string>, k: nat, a: string, b: string)
    requires k < |secrets| && OnlyBetween(secrets, a + secrets[k] + b, |a|, |a| + |secrets[k]|)
    requires forall g :: Gram(secrets[..k], g) ==> !Contains(secrets[k], g)
    ensures Replaced(a + secrets[k] + b, AllPatterns(secrets[..k])) == a + secrets[k] + b
  {
    var s := a + secrets[k] + b;
    forall g | Gram(secrets[..k], g) ensures !Contains(s, g) {
      var m, i :| 0 <= m < k && GramAt(secrets[..k][m], g, i);
      assert GramAt(secrets[m], g, i);
      NothingElsewhere(secrets, k, a, b, g);
    }
    CleanIsGramFree(secrets[..k], s);
    CleanInputIsKept(secrets[..k], s);
  }

  lemma NothingIsLeft(secrets: seq<string>, k: nat, a: string, b: string)
    requires k < |secrets| && OnlyBetween(secrets, a + secrets[k] + b, |a|, |a| + |secrets[k]|)
    requires forall g :: Gram(secrets, g) ==> !Touches(g)
    ensures Clean(secrets, a + PLACEHOLDER + b)
  {
    forall g | Gram(secrets, g) ensures !Contains(a + PLACEHOLDER + b, g) {
      NothingElsewhere(secrets, k, a, b, g);
      assert |g| == MIN_LENGTH;
      JoinContains(a, b, g);
    }
    CleanIsGramFree(secrets, a + PLACEHOLDER + b);
  }

  // ---- Exactly when a single short secret leaks ----

  predicate StartsWith(s: string, p: string) {
    |p| <= |s| && s[..|p|] == p
  }

  predicate EndsWith(s: string, p: string) {
    |p| <= |s| && s[|s| - |p|..] == p
  }

  /** After s, a placeholder would complete g. */
  predicate CompletedBefore(s: string, g: string) {
    exists n :: 0 < n < |g| && n <= |PLACEHOLDER| && g[|g| - n..] == PLACEHOLDER[..n] && EndsWith(s, g[..|g| - n])
  }

  /** Before s, a placeholder would complete g. */
  predicate CompletedAfter(s: string, g: string) {
    exists n :: 0 < n < |g| && n <= |PLACEHOLDER| && g[..n] == PLACEHOLDER[|PLACEHOLDER| - n..] && StartsWith(s, g[n..])
  }

  lemma CompletedBeforeOccurs(a: string, b: string, g: string)
    requires CompletedBefore(a, g)
    ensures Contains(a + PLACEHOLDER + b, g)
  {
    var n :| 0 < n < |g| && n <= |PLACEHOLDER| && g[|g| - n..] == PLACEHOLDER[..n] && EndsWith(a, g[..|g| - n]);
    var s, m := a + PLACEHOLDER + b, |g| - n;
    var p := |a| - m;
    forall k | 0 <= k < |g| ensures s[p + k] == g[k] {
      if k < m {
        assert a[p..][k] == g[..m][k];
      } else {
        assert g[m..][k - m] == PLACEHOLDER[..n][k - m];
      }
    }
    OccursWhere(s, g, p);
  }

  lemma CompletedAfterOccurs(a: string, b: string, g: string)
    requires CompletedAfter(b, g)
    ensures Contains(a + PLACEHOLDER + b, g)
  {
    var n :| 0 < n < |g| && n <= |PLACEHOLDER| && g[..n] == PLACEHOLDER[|PLACEHOLDER| - n..] && StartsWith(b, g[n..]);
    AcrossOccurs(a, PLACEHOLDER, b, g, n);
  }

  lemma AcrossOccurs(a: string, middle: string, b: string, g: string, n: nat)
    requires n <= |g| && n <= |middle| && g[..n] == middle[|middle| - n..] && StartsWith(b, g[n..])
    ensures Contains(a + middle + b, g)
  {
    var s, p := a + middle + b, |a| + |middle| - n;
    forall k | 0 <= k < |g| ensures s[p + k] == g[k] {
      if k < n {
        assert g[..n][k] == middle[|middle| - n..][k];
      } else {
        assert b[..|g| - n][k - n] == g[n..][k - n];
      }
    }
    OccursWhere(s, g, p);
  }

  lemma OccursWhere(s: string, g: string, p: nat)
    requires p + |g| <= |s| && forall k :: 0 <= k < |g| ==> s[p + k] == g[k]
    ensures Contains(s, g)
  {
    assert s[p..p + |g|] == g;
    assert OccursAt(s, g, p);
  }

  lemma PartsOccur(a: string, b: string, g: string)
    ensures Contains(a, g) || Contains(b, g) || Contains(PLACEHOLDER, g) ==> Contains(a + PLACEHOLDER + b, g)
  {
    var s, m, n := a + PLACEHOLDER + b, |a|, |a| + |PLACEHOLDER|;
    assert s[0..m] == a && s[m..n] == PLACEHOLDER && s[n..|s|] == b;
    PieceIsWithin(s, 0, m, g);
    PieceIsWithin(s, m, n, g);
    PieceIsWithin(s, n, |s|, g);
  }

  lemma JoinContainsExactly(a: string, b: string, g: string)
    requires |g| == MIN_LENGTH
    ensures Contains(a + PLACEHOLDER + b, g) <==>
            Contains(a, g) || Contains(b, g) || Contains(PLACEHOLDER, g) || CompletedBefore(a, g) || CompletedAfter(b, g)
  {
    PartsOccur(a, b, g);
    if CompletedBefore(a, g) {
      CompletedBeforeOccurs(a, b, g);
    }
    if CompletedAfter(b, g) {
      CompletedAfterOccurs(a, b, g);
    }
    if i :| OccursAt(a + PLACEHOLDER + b, g, i) {
      OccurrenceIsSomewhere(a, b, g, i);
    }
  }

  /** What occurs across the seam of x and y begins as x ends, and ends as y begins. */
  lemma AcrossTheSeam(x: string, y: string, g: string, i: int)
    requires OccursAt(x + y, g, i) && i <= |x| <= i + |g|
    ensures g[..|x| - i] == x[i..] && g[|x| - i..] == y[..i + |g| - |x|]
  {
    var w := (x + y)[i..i + |g|];
    forall n | 0 <= n < |g| ensures g[n] == (x + y)[i + n] {
      assert w[n] == g[n];
    }
  }

  lemma OverTheStartCompletes(a: string, b: string, g: string, i: int)
    requires |g| == MIN_LENGTH && OccursAt(a + PLACEHOLDER + b, g, i) && i < |a| < i + |g|
    ensures CompletedBefore(a, g)
  {
    assert a + PLACEHOLDER + b == a + (PLACEHOLDER + b);
    AcrossTheSeam(a, PLACEHOLDER + b, g, i);
    var k := i + |g| - |a|;
    assert (PLACEHOLDER + b)[..k] == PLACEHOLDER[..k];
    assert EndsWith(a, g[..|g| - k]);
  }

  lemma OverTheEndCompletes(a: string, b: string, g: string, i: int)
    requires |g| == MIN_LENGTH && OccursAt(a + PLACEHOLDER + b, g, i)
    requires |a| <= i < |a| + |PLACEHOLDER| < i + |g|
    ensures CompletedAfter(b, g)
  {
    AcrossTheSeam(a + PLACEHOLDER, b, g, i);
    var k := |a| + |PLACEHOLDER| - i;
    assert (a + PLACEHOLDER)[i..] == PLACEHOLDER[|PLACEHOLDER| - k..];
    assert StartsWith(b, g[k..]);
  }

  lemma OccurrenceIsSomewhere(a: string, b: string, g: string, i: int)
    requires |g| == MIN_LENGTH && OccursAt(a + PLACEHOLDER + b, g, i)
    ensures Contains(a, g) || Contains(b, g) || Contains(PLACEHOLDER, g) || CompletedBefore(a, g) || CompletedAfter(b, g)
  {
    var m, n := |a|, |a| + |PLACEHOLDER|;
    if i + |g| <= m {
      assert OccursAt(a, g, i);
    } else if i < m {
      OverTheStartCompletes(a, b, g, i);
    } else if i + |g| <= n {
      assert OccursAt(PLACEHOLDER, g, i - m);
    } else if i < n {
      OverTheEndCompletes(a, b, g, i);
    } else {
      assert OccursAt(b, g, i - n);
    }
  }

  /** A secret of four characters leaks from the pieces: it is in the placeholder, or a placeholder
      completes it after a piece, or before one (to which the next placeholder may contribute). */
  predicate LeaksFrom(pieces: seq<string>, g: string)
    decreases |pieces|
  {
    |pieces| > 1 &&
    (|| OccursInPlaceholder(g)
     || CompletedBefore(pieces[0], g)
     || CompletedAfter(if |pieces| == 2 then pieces[1] else pieces[1] + PLACEHOLDER, g)
     || LeaksFrom(pieces[1..], g))
  }

  predicate OccursInPlaceholder(g: string) {
    exists i | 0 <= i <= |PLACEHOLDER| :: OccursAt(PLACEHOLDER, g, i)
  }

  /** The message as it is logged begins with its first piece and, if there are more, a placeholder. */
  lemma BeginsWithPiece(s: string, g: string)
    requires |g| == MIN_LENGTH
    ensures var (r, pieces) := (ReplaceAll(s, g), Pieces(s, g));
            CompletedAfter(r, g) <==> CompletedAfter(if |pieces| == 1 then pieces[0] else pieces[0] + PLACEHOLDER, g)
  {
    var k := Find(s, g, 0);
    if k <= |s| {
      var head := s[..k] + PLACEHOLDER;
      var r := ReplaceAll(s, g);
      assert r == head + ReplaceAll(s[k + |g|..], g);
      forall n | 0 < n < |g| ensures StartsWith(r, g[n..]) <==> StartsWith(head, g[n..]) {
        assert r[..|g| - n] == head[..|g| - n];
      }
    }
  }

  lemma {:induction false} ReplacementLeaksExactlyWhen(s: string, g: string)
    requires |g| == MIN_LENGTH
    ensures Contains(ReplaceAll(s, g), g) <==> LeaksFrom(Pieces(s, g), g)
    decreases |s|
  {
    var k := Find(s, g, 0);
    if k <= |s| {
      var rest := s[k + |g|..];
      BeforeTheFirst(s, g);
      ReplacementLeaksExactlyWhen(rest, g);
      BeginsWithPiece(rest, g);
      JoinContainsExactly(s[..k], ReplaceAll(rest, g), g);
      assert Pieces(s, g)[1..] == Pieces(rest, g);
      assert Contains(PLACEHOLDER, g) <==> OccursInPlaceholder(g);
    } else {
      assert forall j :: 0 <= j < k ==> !OccursAt(s, g, j);
    }
  }

  /** For every secret of four characters, straddling or not, and every message: redaction leaves a
      piece of the secret in it exactly when the message leaks it. */
  lemma ShortSecretLeaksExactlyWhen(secret: string, input: string)
    requires |secret| == MIN_LENGTH
    ensures Clean([secret], Redacted([secret], input)) <==> !LeaksFrom(Pieces(input, secret), secret)
  {
    assert secret[0..4] == secret;
    assert SubstringsFrom(secret, 4, 1) == [] && Patterns(secret, 3) == [];
    assert Patterns(secret, 4) == [secret];
    assert AllPatterns([secret][1..]) == [];
    assert AllPatterns([secret]) == [secret];
    var output := ReplaceAll(input, secret);
    assert Replaced(output, [secret][1..]) == output;
    assert Redacted([secret], input) == output;
    CleanIsGramFree([secret], output);
    assert GramAt([secret][0], secret, 0);
    assert forall g :: Gram([secret], g) ==> g == secret;
    ReplacementLeaksExactlyWhen(input, secret);
  }
}
