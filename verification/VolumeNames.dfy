/** Backend names of volumes: how a candidate is sanitized, when that gives a valid name, and the
    suffix that keeps different requests apart. A name is a sequence of the characters that ranging
    over it yields. The hash of the request name enters as the number read from its digest. */
module VolumeNames {
  type Name = seq<char>

  const MAX_NAME := 63
  const SUFFIX_LENGTH := 8

  predicate IsAlphanumeric(c: char) { 'a' <= c <= 'z' || 'A' <= c <= 'Z' || '0' <= c <= '9' }

  predicate IsPunctuation(c: char) { c == '.' || c == '_' || c == ':' }

  predicate IsNameChar(c: char) { IsAlphanumeric(c) || IsPunctuation(c) || c == '-' }

  /** The grammar of names: an alphanumeric character, then name characters. */
  predicate ValidName(n: Name) {
    n != [] && IsAlphanumeric(n[0]) && forall i :: 0 <= i < |n| ==> IsNameChar(n[i])
  }

  /** The characters by their codes: letters, digits, and of the others the hyphen, the full stop, the
      colon and the underscore. */
  lemma NameCharacters(c: char)
    ensures var code := c as int;
            var alphanumeric := 48 <= code < 58 || 65 <= code < 91 || 97 <= code < 123;
            && (IsAlphanumeric(c) <==> alphanumeric)
            && (IsPunctuation(c) <==> code in {46, 58, 95})
            && (IsNameChar(c) <==> alphanumeric || code in {45, 46, 58, 95})
  {
  }

  // ----- Sanitizing -----

  /** One step of the scan: everything that may not stand becomes a hyphen, and a hyphen is written
      neither first nor after another. */
  function Push(out: Name, c: char): Name {
    var d := if IsNameChar(c) then c else '-';
    if d == '-' && (out == [] || out[|out| - 1] == '-') then out else out + [d]
  }

  function Squeezed(n: Name): Name {
    if n == [] then [] else Push(Squeezed(n[..|n| - 1]), n[|n| - 1])
  }

  function TrimLeftPunctuation(n: Name): Name {
    if n != [] && IsPunctuation(n[0]) then TrimLeftPunctuation(n[1..]) else n
  }

  function TrimLeftHyphens(n: Name): Name {
    if n != [] && n[0] == '-' then TrimLeftHyphens(n[1..]) else n
  }

  function TrimRightHyphens(n: Name): Name {
    if n != [] && n[|n| - 1] == '-' then TrimRightHyphens(n[..|n| - 1]) else n
  }

  function SanitizedUnlimited(n: Name): Name {
    TrimRightHyphens(TrimLeftHyphens(TrimLeftPunctuation(Squeezed(n))))
  }

  function Truncated(n: Name, limit: nat): Name { if |n| <= limit then n else n[..limit] }

  function Sanitized(n: Name): Name { TrimRightHyphens(Truncated(SanitizedUnlimited(n), MAX_NAME)) }

  method SanitizeVolumeNameUnlimited(n: Name) returns (r: Name)
    ensures r == SanitizedUnlimited(n)
  {
    var builder: Name := [];
    var lastHyphen := false;
    for i := 0 to |n|
      invariant builder == Squeezed(n[..i])
      invariant lastHyphen <==> builder != [] && builder[|builder| - 1] == '-'
    {
      assert n[..i + 1][..i] == n[..i];
      var c := if IsNameChar(n[i]) then n[i] else '-';
      if c == '-' {
        if |builder| == 0 || lastHyphen { continue; }
        lastHyphen := true;
      } else {
        lastHyphen := false;
      }
      builder := builder + [c];
    }
    assert n[..|n|] == n;
    return TrimRightHyphens(TrimLeftHyphens(TrimLeftPunctuation(builder)));
  }

  // ----- What sanitizing gives -----

  /** Name characters, no hyphen at the start and no two in a row. */
  predicate Tidy(n: Name) {
    && (forall i :: 0 <= i < |n| ==> IsNameChar(n[i]))
    && (forall i :: 0 < i < |n| ==> !(n[i - 1] == '-' && n[i] == '-'))
  }

  lemma {:induction false} SqueezedIsTidy(n: Name)
    ensures Tidy(Squeezed(n))
    ensures Squeezed(n) != [] ==> Squeezed(n)[0] != '-'
  {
    if n != [] { SqueezedIsTidy(n[..|n| - 1]); }
  }

  /** A tidy name that does not start with a hyphen is not changed by the scan. */
  lemma {:induction false} SqueezingTidy(n: Name)
    requires Tidy(n) && (n != [] ==> n[0] != '-')
    ensures Squeezed(n) == n
  {
    if n != [] {
      SqueezingTidy(n[..|n| - 1]);
      assert n == n[..|n| - 1] + [n[|n| - 1]];
    }
  }

  /** Trimming on the left drops a prefix of punctuation, and no more. */
  lemma {:induction false} TrimLeftPunctuationDrops(n: Name) returns (k: nat)
    ensures k <= |n| && TrimLeftPunctuation(n) == n[k..]
    ensures forall i :: 0 <= i < k ==> IsPunctuation(n[i])
    ensures k < |n| ==> !IsPunctuation(n[k])
  {
    if n != [] && IsPunctuation(n[0]) {
      var j := TrimLeftPunctuationDrops(n[1..]);
      k := j + 1;
      assert forall i :: 0 < i < k ==> n[i] == n[1..][i - 1];
    } else {
      k := 0;
    }
  }

  /** In a tidy name there is at most one hyphen to trim at either end. */
  lemma TrimLeftOfTidy(n: Name)
    requires Tidy(n)
    ensures TrimLeftHyphens(n) == if n != [] && n[0] == '-' then n[1..] else n
  {
    if n != [] && n[0] == '-' && |n| > 1 { assert n[1..][0] == n[1]; }
  }

  lemma TrimRightOfTidy(n: Name)
    requires Tidy(n)
    ensures TrimRightHyphens(n) == if n != [] && n[|n| - 1] == '-' then n[..|n| - 1] else n
  {
    if n != [] && n[|n| - 1] == '-' && |n| > 1 { assert n[..|n| - 1][|n| - 2] == n[|n| - 2]; }
  }

  lemma PartOfTidy(n: Name, i: nat, j: nat)
    requires Tidy(n) && i <= j <= |n|
    ensures Tidy(n[i..j])
  {
  }

  /** How sanitizing cuts its result out of the squeezed name. */
  lemma SanitizedIsPart(n: Name) returns (k: nat, i: nat, j: nat)
    ensures var s := Squeezed(n);
            && k <= i <= j <= |s| && SanitizedUnlimited(n) == s[i..j]
            && StartsPunctuated(s, k) && (k < |s| ==> !IsPunctuation(s[k]))
            && i == (if k < |s| && s[k] == '-' then k + 1 else k)
            && j == (if i < |s| && s[|s| - 1] == '-' then |s| - 1 else |s|)
    ensures Tidy(SanitizedUnlimited(n))
  {
    var s := Squeezed(n);
    SqueezedIsTidy(n);
    k := TrimLeftPunctuationDrops(s);
    PartOfTidy(s, k, |s|);
    TrimLeftOfTidy(s[k..]);
    i := if k < |s| && s[k] == '-' then k + 1 else k;
    assert TrimLeftHyphens(s[k..]) == s[i..];
    PartOfTidy(s, i, |s|);
    TrimRightOfTidy(s[i..]);
    j := if i < |s| && s[|s| - 1] == '-' then |s| - 1 else |s|;
    assert TrimRightHyphens(s[i..]) == s[i..j];
    PartOfTidy(s, i, j);
  }

  /** The squeezed name starts with punctuation, one hyphen, and punctuation again. */
  ghost predicate PunctuatedTwice(s: Name) {
    exists k: nat :: PunctuatedTwiceAt(s, k)
  }

  predicate PunctuatedTwiceAt(s: Name, k: nat) {
    0 < k && k + 1 < |s| && StartsPunctuated(s, k) && s[k] == '-' && IsPunctuation(s[k + 1])
  }

  predicate StartsPunctuated(s: Name, k: nat)
    requires k <= |s|
  {
    forall x :: 0 <= x < k ==> IsPunctuation(s[x])
  }

  lemma PunctuationEndsOnce(s: Name, k: nat, l: nat)
    requires k <= |s| && StartsPunctuated(s, k) && (k < |s| ==> !IsPunctuation(s[k])) && PunctuatedTwiceAt(s, l)
    ensures k == l
  {
  }

  /** What is left after sanitizing: name characters with no hyphen at either end or next to
      another; and it starts alphanumerically unless the name was punctuated twice. */
  lemma SanitizedMeaning(n: Name)
    ensures var r := SanitizedUnlimited(n);
            && Tidy(r) && (r != [] ==> r[0] != '-' && r[|r| - 1] != '-')
            && (r != [] ==> (IsAlphanumeric(r[0]) <==> !PunctuatedTwice(Squeezed(n))))
  {
    var s, r := Squeezed(n), SanitizedUnlimited(n);
    SqueezedIsTidy(n);
    var k, i, j := SanitizedIsPart(n);
    if r != [] {
      assert r[0] == s[i] && r[|r| - 1] == s[j - 1];
      if k > 0 && i == k + 1 && IsPunctuation(s[i]) {
        assert PunctuatedTwiceAt(s, k);
      }
      if PunctuatedTwice(s) {
        var l: nat :| PunctuatedTwiceAt(s, l);
        PunctuationEndsOnce(s, k, l);
      }
    }
  }

  /** The sanitized name is valid exactly when something is left and the name was not punctuated
      twice; truncating it to the limit makes no difference. */
  lemma SanitizedIsValidIff(n: Name)
    ensures ValidName(SanitizedUnlimited(n)) <==> SanitizedUnlimited(n) != [] && !PunctuatedTwice(Squeezed(n))
    ensures ValidName(Sanitized(n)) <==> SanitizedUnlimited(n) != [] && !PunctuatedTwice(Squeezed(n))
  {
    SanitizedMeaning(n);
    CutKeepsStart(SanitizedUnlimited(n), MAX_NAME);
  }

  /** Truncating a sanitized name and trimming it again keeps its first character. */
  lemma CutKeepsStart(r: Name, limit: nat)
    requires Tidy(r) && (r != [] ==> r[0] != '-') && limit > 0
    ensures var t := TrimRightHyphens(Truncated(r, limit));
            && Tidy(t) && |t| <= limit && (t == [] <==> r == []) && (r != [] ==> t[0] == r[0] && t[|t| - 1] != '-')
            && t <= r
  {
    var u := Truncated(r, limit);
    assert u == r[0..|u|];
    PartOfTidy(r, 0, |u|);
    TrimRightOfTidy(u);
    var t := TrimRightHyphens(u);
    PartOfTidy(u, 0, |t|);
    assert t == u[0..|t|] == r[..|t|];
  }

  /** Sanitizing a second time changes nothing exactly when the first result is empty or starts
      alphanumerically. */
  lemma SanitizedIsFixedIff(n: Name)
    ensures Sanitized(Sanitized(n)) == Sanitized(n) <==> SanitizedUnlimited(n) == [] || !PunctuatedTwice(Squeezed(n))
  {
    SanitizedMeaning(n);
    var r := SanitizedUnlimited(n);
    CutKeepsStart(r, MAX_NAME);
    var t := Sanitized(n);
    SqueezingTidy(t);
    if t != [] {
      if IsAlphanumeric(t[0]) {
        TrimLeftOfTidy(t);
        TrimRightOfTidy(t);
      } else {
        var k, i, j := SanitizedIsPart(t);
        assert k > 0;
        assert |SanitizedUnlimited(t)| < |t|;
        SanitizedMeaning(t);
        CutKeepsStart(SanitizedUnlimited(t), MAX_NAME);
      }
    }
  }

  /** The documented promise fails on this name: its sanitized form is not valid, and sanitizing
      that again gives something else. */
  lemma PunctuatedTwiceExample()
    ensures Sanitized(".-.a") == ".a" && !ValidName(".a") && Sanitized(".a") == "a"
  {
    SqueezedExample();
    assert TrimLeftPunctuation(".-.a") == "-.a" && TrimLeftHyphens("-.a") == ".a";
    assert TrimLeftPunctuation(".a") == "a";
  }

  lemma SqueezedExample()
    ensures Squeezed(".-.a") == ".-.a" && Squeezed(".a") == ".a"
  {
    SqueezingTidy(".-.a");
    SqueezingTidy(".a");
  }

  // ----- The suffix -----

  /** The alphabet: the decimal digits, then the upper-case letters, then the lower-case ones. */
  function AlphabetAt(d: nat): char
    requires d < 62
  {
    if d < 10 then '0' + d as char else if d < 36 then 'A' + (d - 10) as char else 'a' + (d - 36) as char
  }

  function Pow62(k: nat): nat { if k == 0 then 1 else 62 * Pow62(k - 1) }

  /** The value of a base-62 numeral, most significant digit first; digits are positions in the
      alphabet. */
  function Value(digits: seq<nat>): nat {
    if digits == [] then 0 else Value(digits[..|digits| - 1]) * 62 + digits[|digits| - 1]
  }

  ghost predicate Spells(text: seq<char>, digits: seq<nat>) {
    |text| == |digits| && forall i :: 0 <= i < |digits| ==> digits[i] < 62 && text[i] == AlphabetAt(digits[i])
  }

  lemma {:induction false} ValuePrepends(d: nat, digits: seq<nat>)
    ensures Value([d] + digits) == d * Pow62(|digits|) + Value(digits)
  {
    if digits != [] {
      var init, last := digits[..|digits| - 1], digits[|digits| - 1];
      ValuePrepends(d, init);
      assert ([d] + digits)[..|digits|] == [d] + init;
      calc {
        Value([d] + digits);
        (d * Pow62(|init|) + Value(init)) * 62 + last;
        d * (62 * Pow62(|init|)) + Value(digits);
      }
    }
  }

  lemma {:induction false} ValueIsBounded(digits: seq<nat>)
    requires forall i :: 0 <= i < |digits| ==> digits[i] < 62
    ensures Value(digits) < Pow62(|digits|)
  {
    if digits != [] {
      ValueIsBounded(digits[..|digits| - 1]);
    }
  }

  /** The number is split into what the suffix so far spells and what is left of it. */
  lemma ShiftDigit(value: nat, left: nat, digits: seq<nat>)
    requires value == left * Pow62(|digits|) + Value(digits)
    ensures value == left / 62 * Pow62(|digits| + 1) + Value([left % 62] + digits)
  {
    ValuePrepends(left % 62, digits);
    Distribute(left / 62, left % 62, Pow62(|digits|));
  }

  lemma Distribute(q: nat, r: nat, w: nat)
    ensures (62 * q + r) * w == q * (62 * w) + r * w
  {
  }

  /** The suffix is the eight-digit base-62 numeral of the number modulo 62 to the eighth. */
  method BackendNameSuffix(digest: nat) returns (suffix: array<char>, ghost digits: seq<nat>)
    ensures suffix.Length == SUFFIX_LENGTH && fresh(suffix) && Spells(suffix[..], digits)
    ensures Value(digits) == digest % Pow62(SUFFIX_LENGTH)
  {
    suffix := new char[SUFFIX_LENGTH];
    digits := [];
    var value: nat, i: nat := digest, SUFFIX_LENGTH;
    while i > 0
      invariant 0 <= i <= SUFFIX_LENGTH && |digits| == SUFFIX_LENGTH - i
      invariant digest == value * Pow62(|digits|) + Value(digits)
      invariant forall j :: 0 <= j < |digits| ==> digits[j] < 62
      invariant forall j :: i <= j < SUFFIX_LENGTH ==> suffix[j] == AlphabetAt(digits[j - i])
    {
      ShiftDigit(digest, value, digits);
      i := i - 1;
      suffix[i] := AlphabetAt(value % 62);
      digits := [value % 62] + digits;
      value := value / 62;
    }
    ValueIsBounded(digits);
    ModuloOfSum(value, Pow62(SUFFIX_LENGTH), Value(digits));
  }

  lemma ModuloOfSum(q: nat, m: nat, r: nat)
    requires r < m
    ensures (q * m + r) % m == r
  {
    var x := q * m + r;
    DivisionOf(x, m);
    MultipleIsLarge(x / m - q, m);
    assert (x / m - q) * m == x / m * m - q * m;
  }

  lemma DivisionOf(x: nat, m: nat)
    requires m > 0
    ensures x == x / m * m + x % m && 0 <= x % m < m
  {
  }

  lemma MultipleIsLarge(d: int, m: nat)
    ensures d >= 1 ==> d * m >= m
    ensures d <= -1 ==> d * m + m <= 0
  {
  }

  /** A numeral spells one number, so digests that differ modulo 62 to the eighth have different
      suffixes. */
  lemma {:induction false} SpellingIsUnique(text: seq<char>, ds: seq<nat>, es: seq<nat>)
    requires Spells(text, ds) && Spells(text, es)
    ensures ds == es
  {
    forall i | 0 <= i < |ds| ensures ds[i] == es[i] {
      AlphabetIsInjective(ds[i], es[i]);
    }
  }

  lemma AlphabetIsInjective(d: nat, e: nat)
    requires d < 62 && e < 62 && AlphabetAt(d) == AlphabetAt(e)
    ensures d == e
  {
  }

  // ----- Rendering -----

  datatype Rendered = Ok(name: Name) | Empty | Invalid

  /** `templated` says that a template, prefix or suffix is configured. */
  function Render(templated: bool, candidate: Name, suffix: Name): Rendered
    requires |suffix| == SUFFIX_LENGTH
  {
    if !templated && |candidate| <= MAX_NAME && ValidName(candidate) then Ok(candidate)
    else
      var stem := SanitizedUnlimited(candidate);
      if stem == [] then Empty
      else
        var name := TrimRightHyphens(Truncated(stem, MAX_NAME - |suffix| - 1)) + ['-'] + suffix;
        if ValidName(name) then Ok(name) else Invalid
  }

  ghost predicate IsSuffix(suffix: Name) {
    |suffix| == SUFFIX_LENGTH && forall i :: 0 <= i < |suffix| ==> IsAlphanumeric(suffix[i])
  }

  /** The part of the stem that a rendered name starts with: as much as fits, without the hyphens that
      would then come last. */
  predicate IsCutOf(cut: Name, stem: Name, limit: nat) {
    && |cut| <= |stem| && |cut| <= limit && cut == stem[..|cut|]
    && (cut != [] ==> cut[|cut| - 1] != '-')
    && forall j :: |cut| <= j < |stem| && j < limit ==> stem[j] == '-'
  }

  /** What a rendered name is: the candidate as it is if that needs no change, and otherwise as much of
      the sanitized candidate as fits, a hyphen and the suffix. */
  lemma RenderShowsCandidate(templated: bool, candidate: Name, suffix: Name)
    requires IsSuffix(suffix) && Render(templated, candidate, suffix).Ok?
    ensures var name := Render(templated, candidate, suffix).name;
            if !templated && |candidate| <= 63 && ValidName(candidate) then name == candidate
            else
              && |name| > 9 && name[|name| - 9..] == "-" + suffix
              && IsCutOf(name[..|name| - 9], SanitizedUnlimited(candidate), 54)
  {
    if templated || |candidate| > MAX_NAME || !ValidName(candidate) {
      var stem := SanitizedUnlimited(candidate);
      var t := TrimRightHyphens(Truncated(stem, MAX_NAME - |suffix| - 1));
      SanitizedMeaning(candidate);
      CutKeepsStart(stem, MAX_NAME - |suffix| - 1);
      TrimCuts(Truncated(stem, MAX_NAME - |suffix| - 1));
      var name := Render(templated, candidate, suffix).name;
      assert name == t + (['-'] + suffix);
      assert name[|name| - 9..] == ['-'] + suffix && name[..|name| - 9] == t;
    }
  }

  lemma {:induction false} TrimCuts(s: Name)
    ensures IsCutOf(TrimRightHyphens(s), s, |s|)
  {
    if s != [] && s[|s| - 1] == '-' { TrimCuts(s[..|s| - 1]); }
  }

  /** Every name that rendering returns has at most 63 characters and matches the grammar, and
      rendering succeeds unless nothing is left of the candidate or it is punctuated twice. */
  lemma RenderMeaning(templated: bool, candidate: Name, suffix: Name)
    requires IsSuffix(suffix)
    ensures var r := Render(templated, candidate, suffix);
            && (r.Ok? ==> ValidName(r.name) && |r.name| <= MAX_NAME)
            && (r.Ok? <==> (!templated && |candidate| <= MAX_NAME && ValidName(candidate))
                           || (SanitizedUnlimited(candidate) != [] && !PunctuatedTwice(Squeezed(candidate))))
            && (r.Empty? <==>
                  SanitizedUnlimited(candidate) == [] &&
                  !(!templated && |candidate| <= MAX_NAME && ValidName(candidate)))
  {
    var stem := SanitizedUnlimited(candidate);
    SanitizedMeaning(candidate);
    CutKeepsStart(stem, MAX_NAME - |suffix| - 1);
    var t := TrimRightHyphens(Truncated(stem, MAX_NAME - |suffix| - 1));
    if stem != [] {
      var name := t + ['-'] + suffix;
      assert name[0] == t[0];
      assert forall i :: 0 <= i < |name| ==> IsNameChar(name[i]);
    }
  }

  /** What the suffix computation spells can end a name. */
  lemma SpelledIsSuffix(text: Name, digits: seq<nat>)
    requires Spells(text, digits) && |digits| == SUFFIX_LENGTH
    ensures IsSuffix(text)
  {
  }

  /** Requests whose digests differ modulo 62 to the eighth never get the same name from
      templates, whatever their candidates are. */
  lemma DifferentDigestsDiffer(d1: nat, s1: Name, ds1: seq<nat>, c1: Name, d2: nat, s2: Name, ds2: seq<nat>, c2: Name)
    requires Spells(s1, ds1) && |ds1| == SUFFIX_LENGTH && Value(ds1) == d1 % Pow62(SUFFIX_LENGTH)
    requires Spells(s2, ds2) && |ds2| == SUFFIX_LENGTH && Value(ds2) == d2 % Pow62(SUFFIX_LENGTH)
    requires d1 % Pow62(SUFFIX_LENGTH) != d2 % Pow62(SUFFIX_LENGTH)
    requires Render(true, c1, s1).Ok? && Render(true, c2, s2).Ok?
    ensures Render(true, c1, s1) != Render(true, c2, s2)
  {
    if s1 == s2 { SpellingIsUnique(s1, ds1, ds2); }
    SpelledIsSuffix(s1, ds1);
    SpelledIsSuffix(s2, ds2);
    DifferentSuffixesDiffer(c1, s1, c2, s2);
  }

  /** Requests with different suffixes never get the same name from templates. */
  lemma DifferentSuffixesDiffer(c1: Name, s1: Name, c2: Name, s2: Name)
    requires IsSuffix(s1) && IsSuffix(s2) && s1 != s2
    requires Render(true, c1, s1).Ok? && Render(true, c2, s2).Ok?
    ensures Render(true, c1, s1) != Render(true, c2, s2)
  {
    var n1, n2 := Render(true, c1, s1).name, Render(true, c2, s2).name;
    assert n1[|n1| - SUFFIX_LENGTH..] == s1 && n2[|n2| - SUFFIX_LENGTH..] == s2;
  }
}
