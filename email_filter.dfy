/**
 * Validation of email candidates (`EmailScraper.is_valid_email` and the
 * filtering loop at the end of `extract_emails_from_page`).
 *
 * The anchored pattern `^[a-zA-Z0-9._%+-]+@[a-zA-Z0-9.-]+\.[a-zA-Z]{2,}$`
 * is written as a hand-made recognizer (MatchesPattern) and proved equal to
 * a declarative reading of the pattern (PatternSpec).
 */
module EmailFilter {
  import opened Wrappers
  import opened Text

  predicate IsLetter(c: char) {
    'a' <= c <= 'z' || 'A' <= c <= 'Z'
  }

  /** The class `[a-zA-Z0-9._%+-]` of the local part. */
  predicate IsLocalChar(c: char) {
    IsLetter(c) || IsDigit(c) || c == '.' || c == '_' || c == '%' || c == '+' || c == '-'
  }

  /** The class `[a-zA-Z0-9.-]` of the domain. */
  predicate IsDomainChar(c: char) {
    IsLetter(c) || IsDigit(c) || c == '.' || c == '-'
  }

  predicate AllLocal(s: string) {
    forall i :: 0 <= i < |s| ==> IsLocalChar(s[i])
  }

  predicate AllDomain(s: string) {
    forall i :: 0 <= i < |s| ==> IsDomainChar(s[i])
  }

  predicate AllLetters(s: string) {
    forall i :: 0 <= i < |s| ==> IsLetter(s[i])
  }

  /**
   * The domain half `[a-zA-Z0-9.-]+\.[a-zA-Z]{2,}`: domain characters only,
   * and its last `.` is not first and is followed by at least two letters.
   */
  predicate DomainMatches(d: string) {
    AllDomain(d) &&
    match LastIndexOf(d, '.')
    case None => false
    case Some(p) => TopLabelAt(d, p)
  }

  /** The `.` at `p` is not first and is followed by at least two letters up to the end. */
  predicate TopLabelAt(d: string, p: nat) {
    p >= 1 && |d| - p - 1 >= 2 && AllLetters(d[p + 1..])
  }

  /** The pattern matched against the whole of `s`. */
  predicate MatchesPattern(s: string) {
    match IndexOf(s, '@')
    case None => false
    case Some(at) => at >= 1 && AllLocal(s[..at]) && DomainMatches(s[at + 1..])
  }

  /** `s` reads as L `@` X `.` Y with L, X and Y drawn from the pattern's classes. */
  ghost predicate SplitsAsEmail(s: string, at: int, dot: int) {
    && 1 <= at && at + 2 <= dot && dot + 3 <= |s|
    && s[at] == '@' && s[dot] == '.'
    && AllLocal(s[..at]) && AllDomain(s[at + 1..dot]) && AllLetters(s[dot + 1..])
  }

  /** The declarative meaning of the anchored pattern. */
  ghost predicate PatternSpec(s: string) {
    exists at, dot :: SplitsAsEmail(s, at, dot)
  }

  /** Every string the recognizer accepts is described by the pattern. */
  lemma MatchesPatternSound(s: string)
    requires MatchesPattern(s)
    ensures PatternSpec(s)
  {
    match IndexOf(s, '@')
    case Some(at) =>
      match LastIndexOf(s[at + 1..], '.')
      case Some(p) => SplitAtDot(s, at, p);
  }

  /** The split of `s` at its `@` and at the last `.` of the domain half. */
  lemma SplitAtDot(s: string, at: nat, p: nat)
    requires at < |s| && 1 <= at && s[at] == '@' && AllLocal(s[..at])
    requires AllDomain(s[at + 1..]) && LastIndexOf(s[at + 1..], '.') == Some(p) && TopLabelAt(s[at + 1..], p)
    ensures SplitsAsEmail(s, at, at + 1 + p)
  {
    var d := s[at + 1..];
    var dot := at + 1 + p;
    assert s[dot] == d[p];
    assert s[at + 1..dot] == d[..p];
    assert s[dot + 1..] == d[p + 1..];
  }

  /** No character of the local class is an `@`. */
  lemma LocalHasNoAt(l: string)
    requires AllLocal(l)
    ensures '@' !in l
  {
  }

  /** No letter is a `.`. */
  lemma LettersHaveNoDot(y: string)
    requires AllLetters(y)
    ensures '.' !in y
  {
  }

  /** The domain half of a string described by the pattern passes the domain test. */
  lemma DomainMatchesSplit(d: string, p: int)
    requires 1 <= p && p + 3 <= |d| && d[p] == '.'
    requires AllDomain(d[..p]) && AllLetters(d[p + 1..])
    ensures DomainMatches(d)
  {
    LettersHaveNoDot(d[p + 1..]);
    assert LastIndexOf(d, '.') == Some(p);
    forall k | 0 <= k < |d| ensures IsDomainChar(d[k]) {
      if k < p {
        assert d[k] == d[..p][k];
      } else if k > p {
        assert d[k] == d[p + 1..][k - p - 1];
      }
    }
  }

  /** Every string the pattern describes is accepted by the recognizer. */
  lemma MatchesPatternComplete(s: string, at: int, dot: int)
    requires SplitsAsEmail(s, at, dot)
    ensures MatchesPattern(s)
  {
    LocalHasNoAt(s[..at]);
    assert IndexOf(s, '@') == Some(at);
    var d := s[at + 1..];
    var p := dot - at - 1;
    assert d[..p] == s[at + 1..dot];
    assert d[p + 1..] == s[dot + 1..];
    DomainMatchesSplit(d, p);
  }

  /** The recognizer accepts exactly the strings the pattern describes. */
  lemma MatchesPatternIff(s: string)
    ensures MatchesPattern(s) <==> PatternSpec(s)
  {
    if MatchesPattern(s) {
      MatchesPatternSound(s);
    }
    if at, dot :| SplitsAsEmail(s, at, dot) {
      MatchesPatternComplete(s, at, dot);
    }
  }

  /** `re.match(pattern, s)`: Python's `$` also matches just before one final newline. */
  predicate IsValidEmail(s: string) {
    MatchesPattern(s) || (|s| > 0 && s[|s| - 1] == '\n' && MatchesPattern(s[..|s| - 1]))
  }

  /** Every valid address holds an `@` and at least six characters. */
  lemma ValidEmailShape(s: string)
    requires IsValidEmail(s)
    ensures '@' in s && |s| >= 6
  {
    var t := if MatchesPattern(s) then s else s[..|s| - 1];
    MatchesPatternIff(t);
    var at, dot :| SplitsAsEmail(t, at, dot);
    assert t[at] == '@' && s[at] == '@';
  }

  /** A string shorter than six characters is never a valid address. */
  lemma ValidEmailShapeLength(s: string)
    requires |s| < 6
    ensures !IsValidEmail(s)
  {
    if IsValidEmail(s) {
      ValidEmailShape(s);
    }
  }

  const LocalDenylist: seq<string> := ["icon", "logo", "image", "img", "sprite"]
  const DomainDenylist: seq<string> := ["cdn", "static", "assets", "media", "images", "img", "js", "css", "fonts"]

  /** `email.split('@')[0]` */
  function LocalPart(e: string): string {
    Split(e, '@')[0]
  }

  /** `email.split('@')[1]`, which exists once the pattern has matched. */
  function DomainPart(e: string): string
    requires '@' in e
  {
    Split(e, '@')[1]
  }

  /** The asset-name tests of the filter: numeric local part, or a denylisted word. */
  predicate LooksLikeAsset(e: string)
    requires '@' in e
  {
    || IsDigits(LocalPart(e))
    || ContainsAny(Lower(LocalPart(e)), LocalDenylist)
    || ContainsAny(Lower(Split(DomainPart(e), '.')[0]), DomainDenylist)
  }

  /** The condition of the filtering loop on a normalized candidate, in the source's order. */
  predicate Accept(e: string) {
    IsValidEmail(e) &&
    (ValidEmailShape(e);
     |e| > 5 && !LooksLikeAsset(e) && '.' in DomainPart(e))
  }

  /** `email.lower().strip()` */
  function Normalize(c: string): string {
    Strip(Lower(c))
  }

  /** No character of the domain class is an `@`. */
  lemma DomainHasNoAt(d: string)
    requires AllDomain(d)
    ensures '@' !in d
  {
  }

  /** When the first `@` is the only one, the domain part is all the text after it. */
  lemma DomainPartAfterAt(e: string, at: nat)
    requires IndexOf(e, '@') == Some(at)
    requires '@' !in e[at + 1..]
    ensures DomainPart(e) == e[at + 1..]
  {
    var rest := e[at + 1..];
    assert Split(e, '@') == [e[..at]] + Split(rest, '@');
    assert Split(rest, '@') == [rest];
  }

  /** The text after the `@` of a matching string is its domain part, and it holds a `.`. */
  lemma DomainOfMatch(t: string)
    requires MatchesPattern(t)
    ensures '@' in t && '.' in DomainPart(t)
  {
    var at := IndexOf(t, '@').value;
    var d := t[at + 1..];
    DomainHasNoAt(d);
    DomainPartAfterAt(t, at);
  }

  /** The same holds with one newline after the match. */
  lemma DomainOfMatchNewline(t: string)
    requires MatchesPattern(t)
    ensures '@' in t + ['\n'] && '.' in DomainPart(t + ['\n'])
  {
    var e := t + ['\n'];
    var at := IndexOf(t, '@').value;
    var d := t[at + 1..];
    DomainHasNoAt(d);
    assert '.' in d;
    assert e[..at] == t[..at];
    assert e[at] == '@';
    assert IndexOf(e, '@') == Some(at);
    assert e[at + 1..] == d + ['\n'];
    DomainPartAfterAt(e, at);
  }

  /** The text after the `@` of a valid address is its domain part, and it holds a `.`. */
  lemma DomainOfValid(e: string)
    requires IsValidEmail(e)
    ensures '@' in e && '.' in DomainPart(e)
  {
    if MatchesPattern(e) {
      DomainOfMatch(e);
    } else {
      var t := e[..|e| - 1];
      assert e == t + ['\n'];
      DomainOfMatchNewline(t);
    }
  }

  /** The `len(email) > 5` and `'.' in domain` tests never reject a valid address. */
  lemma ImpliedChecks(e: string)
    requires IsValidEmail(e)
    ensures '@' in e && |e| > 5 && '.' in DomainPart(e)
  {
    ValidEmailShape(e);
    DomainOfValid(e);
  }

  /** The filter is the pattern test plus the asset-name tests; its other two tests are implied. */
  lemma AcceptIff(e: string)
    ensures Accept(e) <==> IsValidEmail(e) && !LooksLikeAsset(e)
  {
    if IsValidEmail(e) {
      ImpliedChecks(e);
    }
  }

  /** On a stripped string, `$` can only match at the very end. */
  lemma StrippedValidMatches(e: string)
    requires NoEdgeSpace(e) && IsValidEmail(e)
    ensures MatchesPattern(e)
  {
    assert IsSpace('\n');
  }

  /** A normalized candidate is lower-case and stripped. */
  lemma NormalizeShape(c: string)
    ensures NoUpper(Normalize(c)) && NoEdgeSpace(Normalize(c))
  {
    var l := Lower(c);
    NoUpperSlice(l, StripStart(l), StripStart(l) + |Normalize(c)|);
  }

  /** The filter accepts only lower-case, stripped strings that match the whole pattern. */
  lemma AcceptedIsNormalMatch(c: string)
    requires Accept(Normalize(c))
    ensures NoUpper(Normalize(c)) && NoEdgeSpace(Normalize(c))
    ensures PatternSpec(Normalize(c))
    ensures |Normalize(c)| >= 6
  {
    var e := Normalize(c);
    NormalizeShape(c);
    StrippedValidMatches(e);
    MatchesPatternSound(e);
    ValidEmailShape(e);
  }

  /** Normalizing twice is normalizing once. */
  lemma NormalizeIdempotent(c: string)
    ensures Normalize(Normalize(c)) == Normalize(c)
  {
    var l := Lower(c);
    var e := Normalize(c);
    NoUpperSlice(l, StripStart(l), StripStart(l) + |e|);
    LowerNoUpper(e);
    StripNoEdgeSpace(e);
  }

  /** A candidate whose local part is all digits is rejected. */
  lemma RejectsNumericLocal(e: string)
    requires IsDigits(LocalPart(e))
    ensures !Accept(e)
  {
  }

  /** A candidate whose local part contains one of the local denylist words is rejected. */
  lemma RejectsAssetLocal(e: string, word: string)
    requires word in LocalDenylist && Contains(Lower(LocalPart(e)), word)
    ensures !Accept(e)
  {
    ContainsAnyIff(Lower(LocalPart(e)), LocalDenylist);
  }

  /** A candidate whose first domain label contains one of the domain denylist words is rejected. */
  lemma RejectsAssetDomain(e: string, word: string)
    requires '@' in e
    requires word in DomainDenylist && Contains(Lower(Split(DomainPart(e), '.')[0]), word)
    ensures !Accept(e)
  {
    ContainsAnyIff(Lower(Split(DomainPart(e), '.')[0]), DomainDenylist);
  }

  /** The normalized forms of the candidates that `keep` accepts once normalized. */
  ghost function KeptBy(candidates: set<string>, keep: string -> bool, norm: string -> string): set<string> {
    set c | c in candidates && keep(norm(c)) :: norm(c)
  }

  /** Taking one more candidate adds at most its normalized form. */
  lemma KeptByStep(done: set<string>, c: string, keep: string -> bool, norm: string -> string)
    ensures KeptBy(done + {c}, keep, norm) == KeptBy(done, keep, norm) + (if keep(norm(c)) then {norm(c)} else {})
  {
  }

  /** Moving `c` from the pending part to the done part of a set. */
  lemma TakeOne<T>(all: set<T>, rest: set<T>, c: T)
    requires c in rest && rest <= all
    ensures (all - rest) + {c} == all - (rest - {c})
  {
  }

  /** The set the filtering loop builds from the candidates. */
  ghost function Filtered(candidates: set<string>): set<string> {
    KeptBy(candidates, Accept, Normalize)
  }

  /** The filtering loop of `extract_emails_from_page`. */
  method FilterCandidates(candidates: set<string>) returns (filtered: set<string>)
    ensures filtered == Filtered(candidates)
  {
    filtered := KeepNormalized(candidates, Accept, Normalize);
  }

  /**
   * The loop itself: normalize every candidate and keep it when `keep`
   * accepts the normalized form.
   */
  method KeepNormalized(candidates: set<string>, keep: string -> bool, norm: string -> string)
    returns (kept: set<string>)
    ensures kept == KeptBy(candidates, keep, norm)
  {
    kept := {};
    var rest := candidates;
    while rest != {}
      invariant rest <= candidates
      invariant kept == KeptBy(candidates - rest, keep, norm)
      decreases rest
    {
      var c :| c in rest;
      var e := norm(c);
      KeptByStep(candidates - rest, c, keep, norm);
      if keep(e) {
        kept := kept + {e};
      }
      TakeOne(candidates, rest, c);
      rest := rest - {c};
    }
    assert candidates - rest == candidates;
  }

  /** Every filtered address is valid, normalized and not asset-like. */
  lemma FilteredSound(candidates: set<string>, e: string)
    requires e in Filtered(candidates)
    ensures Accept(e) && Normalize(e) == e
    ensures NoUpper(e) && NoEdgeSpace(e) && PatternSpec(e)
  {
    var c :| c in candidates && Accept(Normalize(c)) && Normalize(c) == e;
    AcceptedIsNormalMatch(c);
    NormalizeIdempotent(c);
  }

  /** Filtering the filtered set again returns the same set. */
  lemma FilteredIdempotent(candidates: set<string>)
    ensures Filtered(Filtered(candidates)) == Filtered(candidates)
  {
    var once := Filtered(candidates);
    forall e | e in once ensures Normalize(e) == e && Accept(e) {
      FilteredSound(candidates, e);
    }
    assert Filtered(once) == once;
  }

  /** The two halves of `l@d` when neither holds an `@`. */
  lemma PartsOf(l: string, d: string)
    requires '@' !in l && '@' !in d
    ensures '@' in l + "@" + d
    ensures LocalPart(l + "@" + d) == l && DomainPart(l + "@" + d) == d
  {
    var e := l + "@" + d;
    assert e == l + ['@'] + d;
    IndexOfAfter(l, '@', d);
    SplitHead(e, '@', |l|);
    assert e[..|l|] == l && e[|l| + 1..] == d;
    DomainPartAfterAt(e, |l|);
  }

  /** The first label of `x.y` is the first label of `x`. */
  lemma FirstLabelOf(x: string, y: string)
    ensures Split(x + "." + y, '.')[0] == Split(x, '.')[0]
  {
    var d := x + "." + y;
    assert d == x + ['.'] + y;
    match IndexOf(x, '.')
    case None =>
      IndexOfAfter(x, '.', y);
      SplitHead(d, '.', |x|);
      assert d[..|x|] == x;
    case Some(i) =>
      assert d[..i] == x[..i] && d[i] == '.';
      assert IndexOf(d, '.') == Some(i);
      SplitHead(d, '.', i);
  }

  /** Any `l@x.y` built from the pattern's classes matches it. */
  lemma ComposedMatches(l: string, x: string, y: string)
    requires |l| >= 1 && AllLocal(l)
    requires |x| >= 1 && AllDomain(x)
    requires |y| >= 2 && AllLetters(y)
    ensures MatchesPattern(l + "@" + (x + "." + y))
  {
    var e := l + "@" + (x + "." + y);
    var at, dot := |l|, |l| + 1 + |x|;
    assert e[..at] == l && e[at + 1..dot] == x && e[dot + 1..] == y;
    assert e[at] == '@' && e[dot] == '.';
    assert SplitsAsEmail(e, at, dot);
    MatchesPatternComplete(e, at, dot);
  }

  // The example lemmas below take their strings as parameters fixed by `requires` instead of writing
  // literals into the `ensures`: on literal arguments the verifier unfolds `Accept` and its helpers
  // eagerly, character by character, which costs far more than the proofs through `ComposedAccepted`.

  /** `icon@cdn.example.com` is rejected: its local part is an icon name. */
  lemma ExampleIconRejected(l: string, d: string)
    requires l == "icon" && d == "cdn.example.com"
    ensures !Accept(l + "@" + d)
  {
    PartsOf(l, d);
    assert Lower(l) == l;
    assert StartsWith(l, "icon");
    RejectsAssetLocal(l + "@" + d, "icon");
  }

  /** `123@example.com` is rejected: its local part is numeric. */
  lemma ExampleNumericRejected(l: string, d: string)
    requires l == "123" && d == "example.com"
    ensures !Accept(l + "@" + d)
  {
    PartsOf(l, d);
    RejectsNumericLocal(l + "@" + d);
  }

  /** `a@b` is rejected: it has no top-level domain. */
  lemma ExampleNoDotRejected()
    ensures !Accept("a@b")
  {
    ValidEmailShapeLength("a@b");
  }

  /** None of the local denylist words occurs in `jane.doe`. */
  lemma JaneDoeNotAsset(s: string)
    requires s == "jane.doe"
    ensures !ContainsAny(s, LocalDenylist)
  {
    MissingCharsNotContained(s, LocalDenylist, "ilims");
  }

  /** None of the domain denylist words occurs in `example`. */
  lemma ExampleNotAsset(s: string)
    requires s == "example"
    ensures !ContainsAny(s, DomainDenylist)
  {
    MissingCharsNotContained(s, DomainDenylist, "cssdiijcf");
  }

  /** `jane.doe` and `example` are already lower-case. */
  lemma ExampleLowerCase(l: string, d: string)
    requires l == "jane.doe" && d == "example"
    ensures Lower(l) == l && Lower(d) == d && !IsDigits(l)
  {
    assert NoUpper(l) && NoUpper(d);
    LowerNoUpper(l);
    LowerNoUpper(d);
    assert !IsDigit(l[0]);
  }

  /**
   * An address `l@x.y` built from the pattern's classes is accepted unless a part looks like an asset;
   * `x` may itself hold dots, and only its first label is tested against the domain denylist.
   */
  lemma ComposedAccepted(l: string, x: string, y: string)
    requires |l| >= 1 && AllLocal(l) && !IsDigits(l) && !ContainsAny(Lower(l), LocalDenylist)
    requires |x| >= 1 && AllDomain(x) && !ContainsAny(Lower(Split(x, '.')[0]), DomainDenylist)
    requires |y| >= 2 && AllLetters(y)
    ensures Accept(l + "@" + (x + "." + y))
  {
    var d := x + "." + y;
    ComposedMatches(l, x, y);
    LocalHasNoAt(l);
    DottedDomain(x, y);
    DomainHasNoAt(d);
    PartsOf(l, d);
    FirstLabelOf(x, y);
    AcceptIff(l + "@" + d);
  }

  /** `x.y` is drawn from the domain class when `x` is and `y` is all letters. */
  lemma DottedDomain(x: string, y: string)
    requires AllDomain(x) && AllLetters(y)
    ensures AllDomain(x + "." + y)
  {
    var d := x + "." + y;
    forall i | 0 <= i < |d| ensures IsDomainChar(d[i]) {
      if i < |x| {
        assert d[i] == x[i];
      } else if i > |x| {
        assert d[i] == y[i - |x| - 1];
      }
    }
  }

  /** `jane.doe@example.com` is accepted. */
  lemma ExampleAccepted(l: string, x: string, y: string)
    requires l == "jane.doe" && x == "example" && y == "com"
    ensures Accept(l + "@" + (x + "." + y))
  {
    assert AllLocal(l) && AllDomain(x) && AllLetters(y) && '.' !in x;
    assert Split(x, '.')[0] == x;
    ExampleLowerCase(l, x);
    JaneDoeNotAsset(l);
    ExampleNotAsset(x);
    ComposedAccepted(l, x, y);
  }
}
