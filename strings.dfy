/** Text primitives shared by the scanners: Python's notion of whitespace,
    ASCII case folding, strip/split/join, Python slicing, and the code-point
    order in which Python compares and sorts strings. */
module Strings {
  import opened Wrappers

  // ---------------------------------------------------------------------------
  // Character classes
  // ---------------------------------------------------------------------------

  /** The characters for which Python's str.isspace() holds (and which the
      regex class \s matches in a str pattern). */
  predicate IsSpace(c: char) {
    c == ' ' || ('\t' <= c <= '\r') || ('\U{1c}' <= c <= '\U{1f}')
    || c == '\U{85}' || c == '\U{a0}' || c == '\U{1680}'
    || ('\U{2000}' <= c <= '\U{200a}') || c == '\U{2028}' || c == '\U{2029}'
    || c == '\U{202f}' || c == '\U{205f}' || c == '\U{3000}'
  }

  predicate IsUpperLetter(c: char) { 'A' <= c <= 'Z' }
  predicate IsLowerLetter(c: char) { 'a' <= c <= 'z' }
  predicate IsLetter(c: char) { IsUpperLetter(c) || IsLowerLetter(c) }
  predicate IsDigit(c: char) { '0' <= c <= '9' }
  /** The regex class \w, restricted to ASCII. */
  predicate IsWordChar(c: char) { IsLetter(c) || IsDigit(c) || c == '_' }

  function Lower(c: char): (d: char)
    ensures !IsUpperLetter(d)
    ensures IsLetter(c) <==> IsLetter(d)
    ensures !IsUpperLetter(c) ==> d == c
  {
    if IsUpperLetter(c) then (c as int + 32) as char else c
  }

  function Upper(c: char): (d: char)
    ensures !IsLowerLetter(d)
    ensures IsLetter(c) <==> IsLetter(d)
    ensures !IsLowerLetter(c) ==> d == c
  {
    if IsLowerLetter(c) then (c as int - 32) as char else c
  }

  /** str.lower() on the ASCII letters. */
  function LowerStr(s: string): (r: string)
    ensures |r| == |s| && forall i :: 0 <= i < |s| ==> r[i] == Lower(s[i])
  {
    seq(|s|, i requires 0 <= i < |s| => Lower(s[i]))
  }

  /** Lowercasing is idempotent on ASCII letters. */
  lemma LowerStrIdempotent(s: string)
    ensures LowerStr(LowerStr(s)) == LowerStr(s)
  {
    var l := LowerStr(s);
    assert forall i :: 0 <= i < |l| ==> LowerStr(l)[i] == l[i];
  }

  /** str.upper() on the ASCII letters. */
  function UpperStr(s: string): (r: string)
    ensures |r| == |s| && forall i :: 0 <= i < |s| ==> r[i] == Upper(s[i])
  {
    seq(|s|, i requires 0 <= i < |s| => Upper(s[i]))
  }

  /** str.isupper(): at least one cased character and none of them lower case. */
  predicate IsUpperText(s: string) {
    (exists i :: 0 <= i < |s| && IsUpperLetter(s[i]))
    && forall i :: 0 <= i < |s| ==> !IsLowerLetter(s[i])
  }

  /** str.title(): a letter is upper-cased when the character before it is not
      a letter, and lower-cased otherwise. */
  function TitleCase(s: string): (r: string)
    ensures |r| == |s|
    ensures forall i :: 0 <= i < |s| ==>
      r[i] == if i > 0 && IsLetter(s[i - 1]) then Lower(s[i]) else Upper(s[i])
  {
    seq(|s|, i requires 0 <= i < |s| =>
      if i > 0 && IsLetter(s[i - 1]) then Lower(s[i]) else Upper(s[i]))
  }

  /** Changing the case of a character changes letters only. */
  lemma CaseChangeKeeps(c: char, d: char)
    requires d == Upper(c) || d == Lower(c)
    ensures IsSpace(d) <==> IsSpace(c)
    ensures d == ' ' <==> c == ' '
    ensures Lower(d) == Lower(c)
  {
    if IsLetter(c) {
      assert IsLetter(d);
    }
  }

  /** Title-casing changes letters only: it keeps every space where it was
      and lower-cases to the same text. */
  lemma TitleCaseKeeps(s: string)
    ensures SpaceNormal(s) ==> SpaceNormal(TitleCase(s))
    ensures LowerStr(TitleCase(s)) == LowerStr(s)
  {
    var t := TitleCase(s);
    forall i | 0 <= i < |s|
      ensures IsSpace(t[i]) <==> IsSpace(s[i])
      ensures t[i] == ' ' <==> s[i] == ' '
      ensures Lower(t[i]) == Lower(s[i])
    {
      CaseChangeKeeps(s[i], t[i]);
    }
    assert LowerStr(t) == LowerStr(s);
  }

  // ---------------------------------------------------------------------------
  // Case-insensitive search (regex IGNORECASE on literal phrases)
  // ---------------------------------------------------------------------------

  /** The phrase p occurs in s at offset i, ignoring case. */
  predicate StartsAtCI(s: string, i: int, p: string) {
    0 <= i && i + |p| <= |s| && LowerStr(s[i..i + |p|]) == LowerStr(p)
  }

  /** The first offset at or after `from` where p occurs in s, ignoring case; -1 if none. */
  function IndexOfCI(s: string, p: string, from: nat): (r: int)
    ensures r == -1 || (from <= r && StartsAtCI(s, r, p))
    decreases |s| - from
  {
    if from + |p| > |s| then -1
    else if StartsAtCI(s, from, p) then from
    else IndexOfCI(s, p, from + 1)
  }

  /** IndexOfCI finds the first occurrence at or after `from`. */
  lemma {:induction false} IndexOfCIFirst(s: string, p: string, from: nat)
    ensures IndexOfCI(s, p, from) == -1 ==> forall i :: from <= i ==> !StartsAtCI(s, i, p)
    ensures IndexOfCI(s, p, from) != -1 ==> forall i :: from <= i < IndexOfCI(s, p, from) ==> !StartsAtCI(s, i, p)
    decreases |s| - from
  {
    if from + |p| <= |s| && !StartsAtCI(s, from, p) {
      IndexOfCIFirst(s, p, from + 1);
    }
  }

  /** re.search(p, s, re.IGNORECASE) for a literal phrase p. */
  predicate ContainsCI(s: string, p: string) {
    IndexOfCI(s, p, 0) >= 0
  }

  lemma ContainsCIMeans(s: string, p: string)
    ensures ContainsCI(s, p) <==> exists i :: StartsAtCI(s, i, p)
  {
    IndexOfCIFirst(s, p, 0);
    if !ContainsCI(s, p) {
      forall i ensures !StartsAtCI(s, i, p) {
        if 0 <= i { assert !StartsAtCI(s, i, p); }
      }
    }
  }

  /** s ends with the phrase p, ignoring case (regex `p$` on a stripped line). */
  predicate EndsWithCI(s: string, p: string) {
    |p| <= |s| && StartsAtCI(s, |s| - |p|, p)
  }

  // ---------------------------------------------------------------------------
  // strip / split / join
  // ---------------------------------------------------------------------------

  function TrimStart(s: string): (r: string)
    ensures |r| <= |s| && r == s[|s| - |r|..]
    ensures forall i :: 0 <= i < |s| - |r| ==> IsSpace(s[i])
    ensures r == [] || !IsSpace(r[0])
  {
    if s != [] && IsSpace(s[0]) then TrimStart(s[1..]) else s
  }

  function TrimEnd(s: string): (r: string)
    ensures |r| <= |s| && r == s[..|r|]
    ensures forall i :: |r| <= i < |s| ==> IsSpace(s[i])
    ensures r == [] || !IsSpace(r[|r| - 1])
  {
    if s != [] && IsSpace(s[|s| - 1]) then TrimEnd(s[..|s| - 1]) else s
  }

  /** str.strip(): drop leading and trailing whitespace. */
  function Strip(s: string): (r: string)
    ensures r == [] || (!IsSpace(r[0]) && !IsSpace(r[|r| - 1]))
    ensures |r| <= |s|
    decreases |s|
  {
    if s != [] && IsSpace(s[0]) then Strip(s[1..])
    else if s != [] && IsSpace(s[|s| - 1]) then Strip(s[..|s| - 1])
    else s
  }

  /** Stripping is trimming both ends. */
  lemma {:induction false} StripTrims(s: string)
    ensures Strip(s) == TrimEnd(TrimStart(s))
    decreases |s|
  {
    if s != [] && IsSpace(s[0]) {
      StripTrims(s[1..]);
    } else if s != [] && IsSpace(s[|s| - 1]) {
      var u := s[..|s| - 1];
      StripTrims(u);
      assert u != [] && u[0] == s[0];
    }
  }

  /** Number of leading characters of s that are not whitespace. */
  function WordLen(s: string): (n: nat)
    ensures n <= |s|
    ensures forall i :: 0 <= i < n ==> !IsSpace(s[i])
    ensures n < |s| ==> IsSpace(s[n])
  {
    if s == [] || IsSpace(s[0]) then 0 else 1 + WordLen(s[1..])
  }

  predicate IsWord(w: string) {
    w != [] && forall i :: 0 <= i < |w| ==> !IsSpace(w[i])
  }

  /** str.split() with no argument: the maximal runs of non-whitespace. */
  function Words(s: string): (ws: seq<string>)
    ensures forall k :: 0 <= k < |ws| ==> IsWord(ws[k])
    decreases |s|
  {
    if s == [] then []
    else if IsSpace(s[0]) then Words(s[1..])
    else
      var n := WordLen(s);
      [s[..n]] + Words(s[n..])
  }

  /** sep.join(parts) */
  function Join(sep: string, parts: seq<string>): (r: string)
    decreases |parts|
  {
    if parts == [] then []
    else if |parts| == 1 then parts[0]
    else parts[0] + sep + Join(sep, parts[1..])
  }

  /** ' '.join(s.split()), which is also what re.sub(r'\s+', ' ', s.strip()) computes. */
  function NormalizeSpace(s: string): string {
    Join(" ", Words(s))
  }

  /** A string with single spaces between non-blank runs and no other whitespace. */
  predicate SpaceNormal(r: string) {
    && (r == [] || (r[0] != ' ' && r[|r| - 1] != ' '))
    && (forall i :: 0 <= i < |r| && IsSpace(r[i]) ==> r[i] == ' ')
    && (forall i :: 0 <= i < |r| - 1 && r[i] == ' ' ==> r[i + 1] != ' ')
  }

  lemma {:induction false} JoinWordsNormal(ws: seq<string>)
    requires forall k :: 0 <= k < |ws| ==> IsWord(ws[k])
    ensures SpaceNormal(Join(" ", ws))
    ensures ws != [] ==> Join(" ", ws) != [] && Join(" ", ws)[0] == ws[0][0]
    decreases |ws|
  {
    if |ws| > 1 {
      var rest := Join(" ", ws[1..]);
      JoinWordsNormal(ws[1..]);
      var r := ws[0] + " " + rest;
      assert Join(" ", ws) == r;
      var n := |ws[0]|;
      forall i | 0 <= i < |r| && IsSpace(r[i]) ensures r[i] == ' ' {
        if i > n { assert r[i] == rest[i - n - 1]; }
      }
      forall i | 0 <= i < |r| - 1 && r[i] == ' ' ensures r[i + 1] != ' ' {
        if i > n { assert r[i] == rest[i - n - 1] && r[i + 1] == rest[i - n]; }
        else if i == n { assert r[i + 1] == rest[0] == ws[1][0]; }
      }
      assert r[|r| - 1] == rest[|rest| - 1];
    }
  }

  lemma NormalizeSpaceIsNormal(s: string)
    ensures SpaceNormal(NormalizeSpace(s))
  {
    JoinWordsNormal(Words(s));
  }

  lemma {:induction false} WordLenOfJoin(w: string, rest: string)
    requires IsWord(w)
    ensures WordLen(w + " " + rest) == |w|
    decreases |w|
  {
    if |w| > 1 {
      assert (w + " " + rest)[1..] == w[1..] + " " + rest;
      WordLenOfJoin(w[1..], rest);
    } else {
      assert (w + " " + rest)[1..] == " " + rest;
    }
  }

  lemma {:induction false} WordsOfWord(w: string)
    requires IsWord(w)
    ensures Words(w) == [w]
  {
    var n := WordLen(w);
    assert n == |w|;
    assert w[..n] == w;
    assert w[n..] == [];
    assert Words(w) == [w[..n]] + Words(w[n..]);
  }

  /** Splitting words joined by single spaces gives back the words. */
  lemma {:induction false} WordsOfJoin(ws: seq<string>)
    requires forall k :: 0 <= k < |ws| ==> IsWord(ws[k])
    ensures Words(Join(" ", ws)) == ws
    decreases |ws|
  {
    if ws == [] {
    } else if |ws| == 1 {
      WordsOfWord(ws[0]);
    } else {
      var w := ws[0];
      var rest := Join(" ", ws[1..]);
      var s := w + " " + rest;
      assert Join(" ", ws) == s;
      WordLenOfJoin(w, rest);
      assert s[..|w|] == w;
      assert s[|w|..] == " " + rest;
      assert (" " + rest)[1..] == rest;
      assert Words(" " + rest) == Words(rest);
      WordsOfJoin(ws[1..]);
      assert ws == [w] + ws[1..];
    }
  }

  /** Whitespace normalisation is idempotent. */
  lemma NormalizeSpaceIdempotent(s: string)
    ensures NormalizeSpace(NormalizeSpace(s)) == NormalizeSpace(s)
  {
    WordsOfJoin(Words(s));
  }

  /** s.split(sep) for a one-character separator. */
  function SplitOn(s: string, sep: char): (parts: seq<string>)
    ensures |parts| >= 1
    ensures forall k :: 0 <= k < |parts| ==> sep !in parts[k]
    decreases |s|
  {
    if sep !in s then [s]
    else
      var i := FirstIndex(s, sep);
      [s[..i]] + SplitOn(s[i + 1..], sep)
  }

  function FirstIndex(s: string, c: char): (i: nat)
    requires c in s
    ensures i < |s| && s[i] == c && c !in s[..i]
  {
    if s[0] == c then 0 else 1 + FirstIndex(s[1..], c)
  }

  /** Joining the pieces of s.split(sep) with sep gives back s. */
  lemma {:induction false} SplitOnJoin(s: string, sep: char)
    ensures Join([sep], SplitOn(s, sep)) == s
    decreases |s|
  {
    if sep in s {
      var i := FirstIndex(s, sep);
      var rest := SplitOn(s[i + 1..], sep);
      SplitOnJoin(s[i + 1..], sep);
      assert SplitOn(s, sep) == [s[..i]] + rest;
      assert s == s[..i] + [sep] + s[i + 1..];
    }
  }

  /** The stripped string is a slice of the original: s[a..b]. */
  lemma {:induction false} StripIsSlice(s: string) returns (a: nat, b: nat)
    ensures a <= b <= |s| && Strip(s) == s[a..b]
    decreases |s|
  {
    if s != [] && IsSpace(s[0]) {
      var a', b' := StripIsSlice(s[1..]);
      a, b := a' + 1, b' + 1;
      assert s[1..][a'..b'] == s[a..b];
    } else if s != [] && IsSpace(s[|s| - 1]) {
      a, b := StripIsSlice(s[..|s| - 1]);
      assert s[..|s| - 1][a..b] == s[a..b];
    } else {
      a, b := 0, |s|;
    }
  }

  /** The end of the run of digits that starts at offset i (regex \d* from i). */
  function DigitRun(s: string, i: nat): (j: nat)
    requires i <= |s|
    ensures i <= j <= |s|
    ensures forall k :: i <= k < j ==> IsDigit(s[k])
    ensures j < |s| ==> !IsDigit(s[j])
    decreases |s| - i
  {
    if i < |s| && IsDigit(s[i]) then DigitRun(s, i + 1) else i
  }

  /** str.replace(a, b) for single characters. */
  function ReplaceChar(s: string, a: char, b: char): (r: string)
    ensures |r| == |s|
    ensures forall i :: 0 <= i < |s| ==> r[i] == if s[i] == a then b else s[i]
  {
    seq(|s|, i requires 0 <= i < |s| => if s[i] == a then b else s[i])
  }

  /** The end of the whitespace run that starts at offset i (regex \s* from i). */
  function SkipSpaces(s: string, i: nat): (j: nat)
    requires i <= |s|
    ensures i <= j <= |s|
    ensures forall k :: i <= k < j ==> IsSpace(s[k])
    ensures j < |s| ==> !IsSpace(s[j])
    decreases |s| - i
  {
    if i < |s| && IsSpace(s[i]) then SkipSpaces(s, i + 1) else i
  }

  /** p occurs in s, case-sensitively (Python's `p in s`). */
  predicate Contains(s: string, p: string) {
    exists i | 0 <= i <= |s| - |p| :: StartsAt(s, i, p)
  }

  /** The phrase p occurs in s at offset i, case-sensitively. */
  predicate StartsAt(s: string, i: int, p: string) {
    0 <= i && i + |p| <= |s| && s[i..i + |p|] == p
  }

  /** re.sub(r'\s+', ' ', s): every maximal run of whitespace becomes one space. */
  function CollapseSpaces(s: string): string
    decreases |s|
  {
    if s == [] then []
    else if IsSpace(s[0]) then
      " " + CollapseSpaces(TrimStart(s))
    else
      var n := WordLen(s);
      s[..n] + CollapseSpaces(s[n..])
  }

  /** Dropping leading whitespace does not change the words of a string. */
  lemma {:induction false} WordsTrimStart(s: string)
    ensures Words(TrimStart(s)) == Words(s)
    decreases |s|
  {
    if s != [] && IsSpace(s[0]) { WordsTrimStart(s[1..]); }
  }

  lemma JoinCons(w: string, ws: seq<string>)
    requires ws != []
    ensures Join(" ", [w] + ws) == w + " " + Join(" ", ws)
  {
    assert ([w] + ws)[1..] == ws;
  }

  /** On a stripped string, collapsing whitespace runs is ' '.join(s.split()). */
  lemma {:induction false} CollapseStripped(s: string)
    requires s == [] || (!IsSpace(s[0]) && !IsSpace(s[|s| - 1]))
    ensures CollapseSpaces(s) == NormalizeSpace(s)
    decreases |s|
  {
    if s != [] {
      var n := WordLen(s);
      var w := s[..n];
      var rest := s[n..];
      assert Words(s) == [w] + Words(rest);
      assert CollapseSpaces(s) == w + CollapseSpaces(rest);
      if n == |s| {
        assert rest == [];
        assert Words(rest) == [] && CollapseSpaces(rest) == [];
        assert [w] + Words(rest) == [w];
      } else {
        CollapseStrippedRest(s, n);
        JoinCons(w, Words(rest));
        ConcatAssoc(w, " ", Join(" ", Words(rest)));
      }
    }
  }

  lemma {:induction false} CollapseStrippedRest(s: string, n: nat)
    requires s != [] && !IsSpace(s[0]) && !IsSpace(s[|s| - 1])
    requires n == WordLen(s) && n < |s|
    ensures CollapseSpaces(s[n..]) == " " + Join(" ", Words(s[n..]))
    ensures Words(s[n..]) != []
    decreases |s|, 0
  {
    var rest := s[n..];
    assert IsSpace(rest[0]);
    var t := TrimStart(rest);
    assert CollapseSpaces(rest) == " " + CollapseSpaces(t);
    assert t != [];
    assert t[|t| - 1] == s[|s| - 1];
    CollapseStripped(t);
    WordsTrimStart(rest);
    var m := WordLen(t);
    assert Words(t) == [t[..m]] + Words(t[m..]);
  }

  /** Stripping does not change the words of a string. */
  lemma StripWords(s: string)
    ensures Words(Strip(s)) == Words(s)
  {
    StripTrims(s);
    WordsTrimStart(s);
    WordsTrimEnd(TrimStart(s));
  }

  lemma {:induction false} WordsTrimEnd(s: string)
    ensures Words(TrimEnd(s)) == Words(s)
    decreases |s|
  {
    if s != [] && IsSpace(s[|s| - 1]) {
      var t := s[..|s| - 1];
      WordsTrimEnd(t);
      WordsDropLastSpace(t, s[|s| - 1]);
      assert t + [s[|s| - 1]] == s;
    }
  }

  /** A trailing whitespace character does not change the words. */
  lemma {:induction false} WordsDropLastSpace(t: string, c: char)
    requires IsSpace(c)
    ensures Words(t + [c]) == Words(t)
    decreases |t|
  {
    if t == [] {
      assert Words([c]) == Words([c][1..]);
    } else if IsSpace(t[0]) {
      assert (t + [c])[1..] == t[1..] + [c];
      WordsDropLastSpace(t[1..], c);
    } else {
      var n := WordLen(t);
      WordLenAppendSpace(t, c);
      assert (t + [c])[..n] == t[..n];
      if n < |t| {
        assert (t + [c])[n..] == t[n..] + [c];
        WordsDropLastSpace(t[n..], c);
      } else {
        assert (t + [c])[n..] == [c];
        assert t[n..] == [];
        assert Words([c]) == Words([c][1..]);
      }
    }
  }

  lemma {:induction false} WordLenAppendSpace(t: string, c: char)
    requires IsSpace(c)
    ensures WordLen(t + [c]) == WordLen(t)
    decreases |t|
  {
    if t != [] && !IsSpace(t[0]) {
      assert (t + [c])[1..] == t[1..] + [c];
      WordLenAppendSpace(t[1..], c);
    }
  }

  /** The number of occurrences of c in s (Python's s.count(c) for one character). */
  function CountChar(s: string, c: char): (n: nat)
    ensures n <= |s|
    ensures n == 0 <==> c !in s
  {
    if s == [] then 0 else (if s[0] == c then 1 else 0) + CountChar(s[1..], c)
  }

  lemma {:induction false} CountCharAppend(a: string, b: string, c: char)
    ensures CountChar(a + b, c) == CountChar(a, c) + CountChar(b, c)
  {
    if a == [] {
      assert a + b == b;
    } else {
      assert (a + b)[1..] == a[1..] + b;
      CountCharAppend(a[1..], b, c);
    }
  }

  /** Counts of the two parts of a concatenation add up. */
  lemma CountCharConcat(a: string, b: string, c: char, m: nat, n: nat)
    requires CountChar(a, c) == m && CountChar(b, c) == n
    ensures CountChar(a + b, c) == m + n
  {
    CountCharAppend(a, b, c);
  }

  /** A part without the character adds nothing to the count. */
  lemma CountCharAbsentPrefix(a: string, b: string, c: char)
    requires c !in a
    ensures CountChar(a + b, c) == CountChar(b, c)
  {
    CountCharAppend(a, b, c);
  }

  /** A character that occurs at two offsets is counted more than once. */
  lemma CountCharTwice(s: string, c: char, i: nat, j: nat)
    requires i < j < |s| && s[i] == c && s[j] == c
    ensures CountChar(s, c) > 1
  {
    assert s == s[..j] + s[j..];
    assert s[..j][i] == c && s[j..][0] == c;
    CountCharAppend(s[..j], s[j..], c);
  }

  /** A character that occurs once, at offset k, is counted once. */
  lemma CountCharOnce(s: string, c: char, k: nat)
    requires k < |s| && s[k] == c && c !in s[..k] && c !in s[k + 1..]
    ensures CountChar(s, c) == 1
  {
    assert s == s[..k] + [s[k]] + s[k + 1..];
    CountCharAppend(s[..k] + [s[k]], s[k + 1..], c);
    CountCharAppend(s[..k], [s[k]], c);
  }

  // ---------------------------------------------------------------------------
  // Python slicing
  // ---------------------------------------------------------------------------

  function Min(a: int, b: int): int { if a <= b then a else b }
  function Max(a: int, b: int): int { if a >= b then a else b }

  /** A leftmost search: the first Some among f(i), f(i + 1), ..., f(hi - 1),
      as re.search tries each start offset in turn. */
  function FirstFrom<T>(f: nat -> Option<T>, i: nat, hi: nat): Option<T>
    decreases hi - i
  {
    if i >= hi then None
    else
      match f(i)
      case Some(x) => Some(x)
      case None => FirstFrom(f, i + 1, hi)
  }

  /** The search finds nothing exactly when no offset in [i, hi) matches. */
  lemma {:induction false} FirstFromNone<T>(f: nat -> Option<T>, i: nat, hi: nat)
    ensures FirstFrom(f, i, hi).None? <==> forall m :: i <= m < hi ==> f(m).None?
    decreases hi - i
  {
    if i < hi && f(i).None? {
      FirstFromNone(f, i + 1, hi);
    }
  }

  /** What the search finds is the match at offset k, the first offset in
      [i, hi) that matches. */
  lemma {:induction false} FirstFromSome<T>(f: nat -> Option<T>, i: nat, hi: nat) returns (k: nat)
    requires FirstFrom(f, i, hi).Some?
    ensures i <= k < hi && f(k) == FirstFrom(f, i, hi)
    ensures forall m :: i <= m < k ==> f(m).None?
    decreases hi - i
  {
    if f(i).Some? {
      k := i;
    } else {
      k := FirstFromSome(f, i + 1, hi);
    }
  }

  /** What the search finds is the match at some offset in [i, hi). */
  lemma FirstFromIn<T>(f: nat -> Option<T>, i: nat, hi: nat)
    ensures FirstFrom(f, i, hi).Some? ==> exists k :: i <= k < hi && f(k) == FirstFrom(f, i, hi)
  {
    if FirstFrom(f, i, hi).Some? {
      var k := FirstFromSome(f, i, hi);
    }
  }

  /** What the search finds is the match at the first offset in [i, hi) that matches. */
  lemma FirstFromFirst<T>(f: nat -> Option<T>, i: nat, hi: nat)
    ensures FirstFrom(f, i, hi).None? <==> forall m :: i <= m < hi ==> f(m).None?
    ensures FirstFrom(f, i, hi).Some? ==>
              exists k :: i <= k < hi && f(k) == FirstFrom(f, i, hi) && forall m :: i <= m < k ==> f(m).None?
  {
    FirstFromNone(f, i, hi);
    if FirstFrom(f, i, hi).Some? {
      var k := FirstFromSome(f, i, hi);
    }
  }

  /** Concatenation is associative. */
  lemma ConcatAssoc<T>(x: seq<T>, y: seq<T>, z: seq<T>)
    ensures x + (y + z) == (x + y) + z
  {
  }

  /** A prefix grows by the next element. */
  lemma PrefixStep<T>(xs: seq<T>, j: nat)
    requires j < |xs|
    ensures xs[..j] + [xs[j]] == xs[..j + 1]
  {
  }

  /** s[a:b] for non-negative a and b: out-of-range ends are clamped to len(s). */
  function Slice<T>(s: seq<T>, a: nat, b: nat): (r: seq<T>)
    ensures a <= b <= |s| ==> r == s[a..b]
    ensures |r| <= |s|
  {
    var hi := Min(b, |s|);
    if a < hi then s[a..hi] else []
  }

  /** s[:n], where a negative n drops the last -n elements. */
  function Take<T>(s: seq<T>, n: int): (r: seq<T>)
    ensures |r| <= |s| && r == s[..|r|]
    ensures n >= 0 ==> |r| == Min(n, |s|)
    ensures n < 0 ==> |r| == Max(0, |s| + n)
  {
    if n >= 0 then s[..Min(n, |s|)] else s[..Max(0, |s| + n)]
  }

  // ---------------------------------------------------------------------------
  // Code-point order on strings, as Python's < on str
  // ---------------------------------------------------------------------------

  predicate LexLess(a: string, b: string) {
    if a == [] then b != []
    else if b == [] then false
    else if a[0] != b[0] then a[0] < b[0]
    else LexLess(a[1..], b[1..])
  }

  predicate LexLeq(a: string, b: string) { a == b || LexLess(a, b) }

  lemma {:induction false} LexIrreflexive(a: string)
    ensures !LexLess(a, a)
  {
    if a != [] { LexIrreflexive(a[1..]); }
  }

  lemma {:induction false} LexTransitive(a: string, b: string, c: string)
    requires LexLess(a, b) && LexLess(b, c)
    ensures LexLess(a, c)
  {
    if a != [] && b != [] && c != [] && a[0] == b[0] && b[0] == c[0] {
      LexTransitive(a[1..], b[1..], c[1..]);
    }
  }

  lemma {:induction false} LexTotal(a: string, b: string)
    ensures a == b || LexLess(a, b) || LexLess(b, a)
  {
    if a != [] && b != [] && a[0] == b[0] {
      LexTotal(a[1..], b[1..]);
      if a[1..] == b[1..] { assert a == [a[0]] + a[1..]; assert b == [b[0]] + b[1..]; }
    }
  }

  lemma LexAsymmetric(a: string, b: string)
    requires LexLess(a, b)
    ensures !LexLess(b, a)
  {
    if LexLess(b, a) { LexTransitive(a, b, a); LexIrreflexive(a); }
  }

  predicate StrictlySorted(xs: seq<string>) {
    forall i, j :: 0 <= i < j < |xs| ==> LexLess(xs[i], xs[j])
  }

  /** Insert x into a strictly increasing sequence, unless it is already there. */
  function InsertSorted(x: string, xs: seq<string>): (r: seq<string>)
    requires StrictlySorted(xs)
    ensures StrictlySorted(r)
    ensures forall y :: y in r <==> y == x || y in xs
    decreases |xs|
  {
    if xs == [] then [x]
    else if x == xs[0] then xs
    else if LexLess(x, xs[0]) then
      assert forall j :: 0 < j < |xs| ==> LexLess(x, xs[j]) by {
        forall j | 0 < j < |xs| ensures LexLess(x, xs[j]) { LexTransitive(x, xs[0], xs[j]); }
      }
      [x] + xs
    else
      LexTotal(x, xs[0]);
      var tail := InsertSorted(x, xs[1..]);
      assert forall y :: y in tail ==> LexLess(xs[0], y);
      [xs[0]] + tail
  }

  /** sorted(set(xs)): the distinct elements of xs in increasing order. */
  function SortedSet(xs: seq<string>): (r: seq<string>)
    ensures StrictlySorted(r)
    ensures forall y :: y in r <==> y in xs
    decreases |xs|
  {
    if xs == [] then [] else InsertSorted(xs[|xs| - 1], SortedSet(xs[..|xs| - 1]))
  }

  /** A strictly increasing sequence has no repeated element. */
  lemma StrictlySortedDistinct(xs: seq<string>, i: int, j: int)
    requires StrictlySorted(xs) && 0 <= i < j < |xs|
    ensures xs[i] != xs[j]
  {
    LexIrreflexive(xs[i]);
  }
}
