/**
 Public slugs for ASCII names (slug.ts:1-9, businesses.service.ts:1105-1124, business.dto.ts:8).
 */
module Slug {
  import opened Outcomes

  predicate IsWordChar(c: char) {
    'a' <= c <= 'z' || '0' <= c <= '9'
  }

  function Lower(c: char): char {
    if 'A' <= c <= 'Z' then c - 'A' + 'a' else c
  }

  function ToLowerCase(s: string): string {
    seq(|s|, k requires 0 <= k < |s| => Lower(s[k]))
  }

  predicate IsSpace(c: char) {
    c == ' ' || '\t' <= c <= '\r'
  }

  function TrimStart(s: string, drop: char -> bool): string {
    if s != [] && drop(s[0]) then TrimStart(s[1..], drop) else s
  }

  function TrimEnd(s: string, drop: char -> bool): string {
    if s != [] && drop(s[|s| - 1]) then TrimEnd(s[..|s| - 1], drop) else s
  }

  function Trim(s: string, drop: char -> bool): string {
    TrimEnd(TrimStart(s, drop), drop)
  }

  /** replace(/[^a-z0-9]+/g, "-"): inRun says that the character before was replaced. */
  function Hyphenate(s: string, inRun: bool): string {
    if s == [] then []
    else if IsWordChar(s[0]) then [s[0]] + Hyphenate(s[1..], false)
    else (if inRun then [] else ['-']) + Hyphenate(s[1..], true)
  }

  function ToSlug(value: string): string {
    Trim(Hyphenate(Trim(ToLowerCase(value), IsSpace), false), c => c == '-')
  }

  predicate AllWordChars(s: string) {
    forall k :: 0 <= k < |s| ==> IsWordChar(s[k])
  }

  /** ^[a-z0-9]+(?:-[a-z0-9]+)*$ */
  ghost predicate MatchesPattern(s: string)
    decreases |s|
  {
    exists n :: 0 < n <= |s| && AllWordChars(s[..n]) && (n == |s| || (s[n] == '-' && MatchesPattern(s[n + 1..])))
  }

  /** The same strings, told by neighbouring characters. */
  predicate WellSpaced(s: string) {
    && (forall k :: 0 <= k < |s| ==> IsWordChar(s[k]) || s[k] == '-')
    && (forall k :: 0 < k < |s| ==> IsWordChar(s[k - 1]) || IsWordChar(s[k]))
  }

  predicate HasForm(s: string) {
    s != [] && WellSpaced(s) && IsWordChar(s[0]) && IsWordChar(s[|s| - 1])
  }

  lemma {:induction false} FormMatches(s: string)
    requires HasForm(s)
    ensures MatchesPattern(s)
    decreases |s|
  {
    var n := FirstHyphen(s);
    assert AllWordChars(s[..n]);
    if n < |s| {
      var rest := s[n + 1..];
      assert forall k :: 0 <= k < |rest| ==> rest[k] == s[n + 1 + k];
      assert IsWordChar(s[n + 1]);
      FormMatches(rest);
    }
  }

  lemma {:induction false} FirstHyphen(s: string) returns (n: nat)
    requires HasForm(s)
    ensures 0 < n <= |s| && (forall k :: 0 <= k < n ==> IsWordChar(s[k]))
    ensures n < |s| ==> s[n] == '-' && n + 1 < |s|
  {
    n := 1;
    while n < |s| && s[n] != '-'
      invariant 1 <= n <= |s| && forall k :: 0 <= k < n ==> IsWordChar(s[k])
    {
      n := n + 1;
    }
  }

  lemma {:induction false} FirstPiece(s: string) returns (n: nat)
    requires MatchesPattern(s)
    ensures 0 < n <= |s| && AllWordChars(s[..n]) && (n == |s| || (s[n] == '-' && MatchesPattern(s[n + 1..])))
  {
    n :| 0 < n <= |s| && AllWordChars(s[..n]) && (n == |s| || (s[n] == '-' && MatchesPattern(s[n + 1..])));
  }

  lemma {:induction false} MatchHasForm(s: string)
    requires MatchesPattern(s)
    ensures HasForm(s)
    decreases |s|
  {
    var n := FirstPiece(s);
    if n < |s| {
      MatchHasForm(s[n + 1..]);
      JoinedHasForm(s[..n], s[n + 1..]);
      assert s == s[..n] + "-" + s[n + 1..];
    } else {
      assert s == s[..n];
    }
  }

  lemma JoinedHasForm(first: string, rest: string)
    requires first != [] && AllWordChars(first) && HasForm(rest)
    ensures HasForm(first + "-" + rest)
  {
    var s, n := first + "-" + rest, |first|;
    forall k | 0 <= k < |s|
      ensures if k < n then s[k] == first[k] else if k == n then s[k] == '-' else s[k] == rest[k - n - 1]
    {
    }
  }

  // ---------------------------------------------------------------- normalisation

  function Words(s: string): string {
    if s == [] then [] else (if IsWordChar(s[0]) then [s[0]] else []) + Words(s[1..])
  }

  lemma {:induction false} WordsAppend(s: string, t: string)
    ensures Words(s + t) == Words(s) + Words(t)
  {
    if s == [] {
      assert s + t == t;
    } else {
      WordsAppend(s[1..], t);
      var head := if IsWordChar(s[0]) then [s[0]] else [];
      assert (s + t)[0] == s[0] && (s + t)[1..] == s[1..] + t;
      assert head + (Words(s[1..]) + Words(t)) == (head + Words(s[1..])) + Words(t);
    }
  }

  lemma {:induction false} HyphenateIsWellSpaced(s: string, inRun: bool)
    ensures WellSpaced(Hyphenate(s, inRun))
    ensures inRun && Hyphenate(s, inRun) != [] ==> IsWordChar(Hyphenate(s, inRun)[0])
    ensures Words(Hyphenate(s, inRun)) == Words(s)
  {
    if s != [] {
      var rest := Hyphenate(s[1..], !IsWordChar(s[0]));
      HyphenateIsWellSpaced(s[1..], !IsWordChar(s[0]));
      var head := if IsWordChar(s[0]) then [s[0]] else if inRun then [] else ['-'];
      assert Hyphenate(s, inRun) == head + rest;
      WordsAppend(head, rest);
      assert Words(head) == if IsWordChar(s[0]) then [s[0]] else [];
    }
  }

  /** Trimming keeps a stretch of the string and loses no word character. */
  lemma {:induction false} TrimStartKeeps(s: string, drop: char -> bool)
    requires forall c :: drop(c) ==> !IsWordChar(c)
    ensures TrimStart(s, drop) != [] ==> !drop(TrimStart(s, drop)[0])
    ensures exists i :: 0 <= i <= |s| && TrimStart(s, drop) == s[i..]
    ensures Words(TrimStart(s, drop)) == Words(s)
  {
    if s != [] && drop(s[0]) {
      TrimStartKeeps(s[1..], drop);
      var i :| 0 <= i <= |s[1..]| && TrimStart(s[1..], drop) == s[1..][i..];
      assert TrimStart(s, drop) == s[i + 1..];
    } else {
      assert s == s[0..];
    }
  }

  lemma {:induction false} TrimEndKeeps(s: string, drop: char -> bool)
    requires forall c :: drop(c) ==> !IsWordChar(c)
    ensures TrimEnd(s, drop) != [] ==> !drop(TrimEnd(s, drop)[|TrimEnd(s, drop)| - 1])
    ensures exists i :: 0 <= i <= |s| && TrimEnd(s, drop) == s[..i]
    ensures Words(TrimEnd(s, drop)) == Words(s)
  {
    if s != [] && drop(s[|s| - 1]) {
      var front := s[..|s| - 1];
      TrimEndKeeps(front, drop);
      var i :| 0 <= i <= |front| && TrimEnd(front, drop) == front[..i];
      assert TrimEnd(s, drop) == s[..i];
      assert s == front + [s[|s| - 1]];
      WordsAppend(front, [s[|s| - 1]]);
    } else {
      assert s == s[..|s|];
    }
  }

  lemma TrimKeeps(s: string, drop: char -> bool)
    requires forall c :: drop(c) ==> !IsWordChar(c)
    ensures WellSpaced(s) ==> WellSpaced(Trim(s, drop))
    ensures Trim(s, drop) != [] ==> !drop(Trim(s, drop)[0]) && !drop(Trim(s, drop)[|Trim(s, drop)| - 1])
    ensures Words(Trim(s, drop)) == Words(s)
  {
    var i, j := TrimIsAStretch(s, drop);
    StretchIsWellSpaced(s, i, j);
    TrimmedEnds(s, drop);
    TrimStartKeeps(s, drop);
    TrimEndKeeps(TrimStart(s, drop), drop);
  }

  lemma TrimIsAStretch(s: string, drop: char -> bool) returns (i: nat, j: nat)
    requires forall c :: drop(c) ==> !IsWordChar(c)
    ensures i + j <= |s| && Trim(s, drop) == s[i..][..j]
  {
    TrimStartKeeps(s, drop);
    i :| 0 <= i <= |s| && TrimStart(s, drop) == s[i..];
    TrimEndKeeps(s[i..], drop);
    j :| 0 <= j <= |s[i..]| && TrimEnd(s[i..], drop) == s[i..][..j];
  }

  lemma TrimmedEnds(s: string, drop: char -> bool)
    requires forall c :: drop(c) ==> !IsWordChar(c)
    ensures Trim(s, drop) != [] ==> !drop(Trim(s, drop)[0]) && !drop(Trim(s, drop)[|Trim(s, drop)| - 1])
  {
    var t := TrimStart(s, drop);
    TrimStartKeeps(s, drop);
    TrimEndKeeps(t, drop);
    var j :| 0 <= j <= |t| && TrimEnd(t, drop) == t[..j];
    assert j > 0 ==> t[..j][0] == t[0];
  }

  lemma StretchIsWellSpaced(s: string, i: nat, j: nat)
    requires i + j <= |s|
    ensures WellSpaced(s) ==> WellSpaced(s[i..][..j])
  {
    var stretch := s[i..][..j];
    if WellSpaced(s) {
      forall k | 0 <= k < j
        ensures IsWordChar(stretch[k]) || stretch[k] == '-'
        ensures k > 0 ==> IsWordChar(stretch[k - 1]) || IsWordChar(stretch[k])
      {
        assert stretch[k] == s[i + k];
        assert k > 0 ==> stretch[k - 1] == s[i + k - 1];
      }
    }
  }

  /** A normalised name is empty or a slug the public pattern accepts, and spells the name's letters and digits in order. */
  lemma SlugMatchesPattern(value: string)
    ensures ToSlug(value) == [] || MatchesPattern(ToSlug(value))
    ensures Words(ToSlug(value)) == Words(ToLowerCase(value))
  {
    var trimmed := Trim(ToLowerCase(value), IsSpace);
    TrimKeeps(ToLowerCase(value), IsSpace);
    HyphenateIsWellSpaced(trimmed, false);
    TrimKeeps(Hyphenate(trimmed, false), c => c == '-');
    if ToSlug(value) != [] {
      FormMatches(ToSlug(value));
    }
  }

  lemma {:induction false} HyphenateKeepsForm(s: string)
    requires WellSpaced(s)
    ensures Hyphenate(s, false) == s
    decreases |s|
  {
    if s != [] {
      var rest := s[1..];
      TailIsWellSpaced(s);
      HyphenateKeepsForm(rest);
      assert s == [s[0]] + rest;
      if !IsWordChar(s[0]) {
        assert rest == [] || IsWordChar(rest[0]);
        assert Hyphenate(rest, true) == Hyphenate(rest, false);
      }
    }
  }

  lemma TailIsWellSpaced(s: string)
    requires WellSpaced(s) && s != []
    ensures WellSpaced(s[1..])
    ensures !IsWordChar(s[0]) ==> s[0] == '-' && (|s| == 1 || IsWordChar(s[1]))
  {
  }

  /** Normalising changes nothing that already matches the pattern, so doing it twice is doing it once. */
  lemma SlugIsAFixpoint(value: string)
    ensures MatchesPattern(value) ==> ToSlug(value) == value
    ensures ToSlug(ToSlug(value)) == ToSlug(value)
  {
    if MatchesPattern(value) {
      MatchingIsFixed(value);
    }
    SlugMatchesPattern(value);
    if MatchesPattern(ToSlug(value)) {
      MatchingIsFixed(ToSlug(value));
    } else {
      assert ToSlug([]) == [];
    }
  }

  lemma FormIsLowerCase(s: string)
    requires WellSpaced(s)
    ensures ToLowerCase(s) == s
  {
  }

  /** Nothing that is no letter or digit can be trimmed off. */
  lemma FormKeepsItsEnds(s: string, p: char -> bool)
    requires s != [] && IsWordChar(s[0]) && IsWordChar(s[|s| - 1])
    requires forall c :: IsWordChar(c) ==> !p(c)
    ensures Trim(s, p) == s
  {
  }

  lemma MatchingIsFixed(s: string)
    requires MatchesPattern(s)
    ensures ToSlug(s) == s
  {
    MatchHasForm(s);
    FormIsLowerCase(s);
    FormKeepsItsEnds(s, IsSpace);
    HyphenateKeepsForm(s);
    FormKeepsItsEnds(s, c => c == '-');
  }

  // ---------------------------------------------------------------- the slug in one pass

  /** The letters, lowered, and the digits; one hyphen between two of them for whatever stood between. */
  function Squeezed(s: string, started: bool, gap: bool): string {
    if s == [] then []
    else if 'A' <= s[0] <= 'Z' then
      (if started && gap then "-" else "") + [s[0] - 'A' + 'a'] + Squeezed(s[1..], true, false)
    else if 'a' <= s[0] <= 'z' || '0' <= s[0] <= '9' then
      (if started && gap then "-" else "") + [s[0]] + Squeezed(s[1..], true, false)
    else Squeezed(s[1..], started, true)
  }

  predicate NoCapitals(s: string) {
    forall k :: 0 <= k < |s| ==> !('A' <= s[k] <= 'Z')
  }

  lemma {:induction false} SqueezedLower(s: string, started: bool, gap: bool)
    ensures NoCapitals(ToLowerCase(s)) && Squeezed(ToLowerCase(s), started, gap) == Squeezed(s, started, gap)
  {
    if s != [] {
      assert ToLowerCase(s)[1..] == ToLowerCase(s[1..]);
      SqueezedLower(s[1..], true, false);
      SqueezedLower(s[1..], started, true);
    }
  }

  lemma {:induction false} TrimEndKeepsFront(front: string, s: string, drop: char -> bool)
    requires front != [] && !drop(front[|front| - 1])
    ensures TrimEnd(front + s, drop) == front + TrimEnd(s, drop)
    decreases |s|
  {
    if s == [] {
      assert front + s == front;
    } else {
      var last := |s| - 1;
      assert (front + s)[|front + s| - 1] == s[last] && (front + s)[..|front + s| - 1] == front + s[..last];
      if drop(s[last]) {
        TrimEndKeepsFront(front, s[..last], drop);
      }
    }
  }

  predicate IsHyphen(c: char) {
    c == '-'
  }

  /** After the first letter: what is pending of a gap, and the rest. */
  lemma {:induction false} SqueezedTail(s: string, gap: bool)
    requires NoCapitals(s)
    ensures Squeezed(s, true, gap) == TrimEnd((if gap then "-" else "") + Hyphenate(s, gap), IsHyphen)
  {
    if s == [] {
      assert (if gap then "-" else "") + [] == if gap then "-" else "";
    } else if IsWordChar(s[0]) {
      SqueezedTail(s[1..], false);
      NextLetter(s, gap);
    } else {
      SqueezedTail(s[1..], true);
      NextOther(s, gap);
    }
  }

  lemma NextLetter(s: string, gap: bool)
    requires NoCapitals(s) && s != [] && IsWordChar(s[0])
    requires Squeezed(s[1..], true, false) == TrimEnd("" + Hyphenate(s[1..], false), IsHyphen)
    ensures Squeezed(s, true, gap) == TrimEnd((if gap then "-" else "") + Hyphenate(s, gap), IsHyphen)
  {
    assert "" + Hyphenate(s[1..], false) == Hyphenate(s[1..], false);
    LetterStays(if gap then "-" else "", s[0], Hyphenate(s[1..], false));
  }

  lemma LetterStays(pending: string, c: char, rest: string)
    requires c != '-'
    ensures TrimEnd(pending + ([c] + rest), IsHyphen) == pending + [c] + TrimEnd(rest, IsHyphen)
  {
    assert pending + ([c] + rest) == (pending + [c]) + rest;
    TrimEndKeepsFront(pending + [c], rest, IsHyphen);
  }

  lemma NextOther(s: string, gap: bool)
    requires NoCapitals(s) && s != [] && !IsWordChar(s[0])
    requires Squeezed(s[1..], true, true) == TrimEnd("-" + Hyphenate(s[1..], true), IsHyphen)
    ensures Squeezed(s, true, gap) == TrimEnd((if gap then "-" else "") + Hyphenate(s, gap), IsHyphen)
  {
    var rest := Hyphenate(s[1..], true);
    assert (if gap then "-" else "") + ((if gap then [] else ['-']) + rest) == "-" + rest;
  }

  lemma {:induction false} SqueezedHead(s: string, gap: bool, inRun: bool)
    requires NoCapitals(s)
    ensures Squeezed(s, false, gap) == Trim(Hyphenate(s, inRun), IsHyphen)
  {
    if s != [] {
      if IsWordChar(s[0]) {
        SqueezedTail(s[1..], false);
        var rest := Hyphenate(s[1..], false);
        assert "" + rest == rest && "" + [s[0]] == [s[0]];
        TrimEndKeepsFront([s[0]], rest, IsHyphen);
      } else {
        SqueezedHead(s[1..], true, true);
        var rest := Hyphenate(s[1..], true);
        assert ("-" + rest)[1..] == rest && [] + rest == rest;
      }
    }
  }

  lemma {:induction false} SqueezedDropsStart(s: string, gap: bool, other: bool)
    ensures Squeezed(TrimStart(s, IsSpace), false, gap) == Squeezed(s, false, other)
  {
    if s != [] {
      if IsSpace(s[0]) {
        SqueezedDropsStart(s[1..], gap, true);
      } else {
        GapBeforeTheStart(s, gap, other);
      }
    }
  }

  lemma {:induction false} GapBeforeTheStart(s: string, gap: bool, other: bool)
    ensures Squeezed(s, false, gap) == Squeezed(s, false, other)
  {
  }

  lemma {:induction false} SqueezedDropsLast(s: string, c: char, started: bool, gap: bool)
    requires IsSpace(c)
    ensures Squeezed(s + [c], started, gap) == Squeezed(s, started, gap)
  {
    if s == [] {
      assert s + [c] == [c] && [c][1..] == [];
    } else {
      assert (s + [c])[0] == s[0] && (s + [c])[1..] == s[1..] + [c];
      SqueezedDropsLast(s[1..], c, true, false);
      SqueezedDropsLast(s[1..], c, started, true);
    }
  }

  lemma {:induction false} SqueezedDropsEnd(s: string, started: bool, gap: bool)
    ensures Squeezed(TrimEnd(s, IsSpace), started, gap) == Squeezed(s, started, gap)
  {
    if s != [] && IsSpace(s[|s| - 1]) {
      var last := |s| - 1;
      SqueezedDropsEnd(s[..last], started, gap);
      SqueezedDropsLast(s[..last], s[last], started, gap);
      assert s == s[..last] + [s[last]];
    }
  }

  lemma {:induction false} TrimKeepsNoCapitals(s: string)
    requires NoCapitals(s)
    ensures NoCapitals(Trim(s, IsSpace))
  {
    forall c: char | IsSpace(c)
      ensures !IsWordChar(c)
    {
    }
    var i, j := TrimIsAStretch(s, IsSpace);
  }

  /** The chain of replacements and trims is that one pass. */
  lemma SlugIsSqueezed(value: string)
    ensures ToSlug(value) == Squeezed(value, false, false)
  {
    var lower := ToLowerCase(value);
    SqueezedLower(value, false, false);
    TrimKeepsNoCapitals(lower);
    SqueezedDropsStart(lower, false, false);
    SqueezedDropsEnd(TrimStart(lower, IsSpace), false, false);
    SqueezedHead(Trim(lower, IsSpace), false, false);
    SameTrim(Hyphenate(Trim(lower, IsSpace), false), IsHyphen, c => c == '-');
  }

  lemma {:induction false} SameTrimStart(s: string, p: char -> bool, q: char -> bool)
    requires forall c :: p(c) <==> q(c)
    ensures TrimStart(s, p) == TrimStart(s, q)
  {
    if s != [] {
      SameTrimStart(s[1..], p, q);
    }
  }

  lemma {:induction false} SameTrimEnd(s: string, p: char -> bool, q: char -> bool)
    requires forall c :: p(c) <==> q(c)
    ensures TrimEnd(s, p) == TrimEnd(s, q)
  {
    if s != [] {
      SameTrimEnd(s[..|s| - 1], p, q);
    }
  }

  lemma SameTrim(s: string, p: char -> bool, q: char -> bool)
    requires forall c :: p(c) <==> q(c)
    ensures Trim(s, p) == Trim(s, q)
  {
    SameTrimStart(s, p, q);
    SameTrimEnd(TrimStart(s, p), p, q);
  }

  /** The pattern, told by neighbouring characters. */
  lemma PatternIsNeighbours(s: string)
    ensures MatchesPattern(s) <==>
      && s != [] && s[0] != '-' && s[|s| - 1] != '-'
      && (forall k :: 0 <= k < |s| ==> 'a' <= s[k] <= 'z' || '0' <= s[k] <= '9' || s[k] == '-')
      && (forall k :: 0 < k < |s| ==> s[k - 1] != '-' || s[k] != '-')
  {
    if MatchesPattern(s) {
      MatchHasForm(s);
    }
    if HasForm(s) {
      FormMatches(s);
    }
  }

  // ---------------------------------------------------------------- the free slug

  const CANDIDATES: nat := 100

  function Decimal(n: nat): string {
    if n < 10 then [(n as char) + '0'] else Decimal(n / 10) + [((n % 10) as char) + '0']
  }

  function Value(s: string): int {
    if s == [] then 0 else 10 * Value(s[..|s| - 1]) + (s[|s| - 1] as int - '0' as int)
  }

  lemma {:induction false} DecimalReadsBack(n: nat)
    ensures Value(Decimal(n)) == n && Decimal(n) != [] && AllWordChars(Decimal(n))
  {
    if n < 10 {
      assert Decimal(n)[..0] == [];
    } else {
      DecimalReadsBack(n / 10);
      assert Decimal(n)[..|Decimal(n)| - 1] == Decimal(n / 10);
    }
  }

  function Candidate(base: string, suffix: nat): string {
    if suffix == 0 then base else base + "-" + Decimal(suffix + 1)
  }

  lemma CandidateMatches(base: string, suffix: nat)
    requires MatchesPattern(base)
    ensures MatchesPattern(Candidate(base, suffix))
  {
    MatchHasForm(base);
    DecimalReadsBack(suffix + 1);
    var digits := Decimal(suffix + 1);
    var whole := Candidate(base, suffix);
    if suffix > 0 {
      assert forall k :: 0 <= k < |base| ==> whole[k] == base[k];
      assert forall k :: |base| < k < |whole| ==> whole[k] == digits[k - |base| - 1];
      FormMatches(whole);
    }
  }

  lemma CandidatesDiffer(base: string, j: nat, k: nat)
    requires j < k
    ensures Candidate(base, j) != Candidate(base, k)
  {
    DecimalReadsBack(j + 1);
    DecimalReadsBack(k + 1);
    if j > 0 {
      assert Candidate(base, j)[|base| + 1..] == Decimal(j + 1);
      assert Candidate(base, k)[|base| + 1..] == Decimal(k + 1);
    }
  }

  datatype SlugError = Empty | NoneAvailable

  ghost predicate AllTaken(base: string, n: nat, taken: set<string>) {
    forall k: nat :: k < n ==> Candidate(base, k) in taken
  }

  /** taken holds the slugs in use. */
  method CreateAvailableSlug(value: string, taken: set<string>) returns (result: Result<string, SlugError>)
    ensures result == Err(Empty) <==> ToSlug(value) == []
    ensures result == Err(NoneAvailable) <==>
            ToSlug(value) != [] && AllTaken(ToSlug(value), 100, taken)
    ensures result.Ok? ==> result.value !in taken && MatchesPattern(result.value)
    ensures result.Ok? ==> exists k :: 0 <= k < 100 && result.value == Candidate(ToSlug(value), k)
                             && AllTaken(ToSlug(value), k, taken)
  {
    var base := ToSlug(value);
    SlugMatchesPattern(value);
    if |base| == 0 {
      return Err(Empty);
    }
    var suffix: nat := 0;
    while suffix < CANDIDATES
      invariant suffix <= CANDIDATES
      invariant AllTaken(base, suffix, taken)
    {
      var candidate := if suffix == 0 then base else base + "-" + Decimal(suffix + 1);
      if candidate !in taken {
        assert candidate == Candidate(base, suffix);
        CandidateMatches(base, suffix);
        return Ok(candidate);
      }
      suffix := suffix + 1;
    }
    return Err(NoneAvailable);
  }

  /** The search gives up only when a hundred different slugs are in use. */
  lemma {:induction false} GivingUpNeedsAHundred(base: string, taken: set<string>, n: nat)
    requires AllTaken(base, n, taken)
    ensures |taken| >= n
  {
    if n > 0 {
      var last := Candidate(base, n - 1);
      forall k: nat | k < n - 1
        ensures Candidate(base, k) in taken - {last}
      {
        CandidatesDiffer(base, k, n - 1);
      }
      GivingUpNeedsAHundred(base, taken - {last}, n - 1);
    }
  }
}
