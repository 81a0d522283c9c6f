/** The licensing-rules splitter: page clean-up, the partition of the joined
    text at rule headers, and the split of each rule body at numbered,
    lettered and roman-numeral tokens. */
module LicensingRules {
  import opened Wrappers
  import opened Strings
  import opened Regex
  import opened Dicts

  // ---------------------------------------------------------------------------
  // Page clean-up
  // ---------------------------------------------------------------------------

  /** A line holding only "Page N". */
  const PAGE_FOOTER_PATTERN := "(?m)^\\s*Page\\s*\\d+\\s*$"
  /** A line holding only the publisher's courtesy notice. */
  const COURTESY_PATTERN := "(?m)^\\s*Courtesy of Michigan Administrative Rules\\s*$"
  /** A rule header: "R <digits>.<digits>" at the start of a line, then a period on that line. */
  const RULE_HEADER_PATTERN := "(?m)^[ \\t]*R\\s*(\\d+\\.\\d+)\\b[^\\n]*\\."

  /** The length of the run of newlines at the start of s. */
  function NewlineRun(s: string): (n: nat)
    ensures n <= |s|
    ensures forall k :: 0 <= k < n ==> s[k] == '\n'
    ensures n < |s| ==> s[n] != '\n'
  {
    if s != [] && s[0] == '\n' then 1 + NewlineRun(s[1..]) else 0
  }

  /** No three newlines in a row: at most one blank line between lines. */
  predicate NoTripleNewline(s: string) {
    forall i :: 0 <= i < |s| - 2 && s[i] == '\n' ==> !(s[i + 1] == '\n' && s[i + 2] == '\n')
  }

  /** What the newline run at the start of s is replaced by: two newlines
      when it is three or more long, the run itself otherwise. */
  function RunHead(s: string): (h: string)
  {
    var n := NewlineRun(s);
    if n >= 3 then "\n\n" else s[..n]
  }

  /** re.sub(r'\n{3,}', '\n\n', s): every run of three or more newlines becomes two. */
  function CollapseBlankLines(s: string): (r: string)
    ensures s == [] <==> r == []
    ensures s != [] ==> (r[0] == '\n' <==> s[0] == '\n')
    decreases |s|
  {
    if s == [] then []
    else if s[0] == '\n' then
      RunHead(s) + CollapseBlankLines(s[NewlineRun(s)..])
    else [s[0]] + CollapseBlankLines(s[1..])
  }

  /** After the collapse no blank-line run is longer than one line. */
  lemma {:induction false} CollapseBlankLinesBounded(s: string)
    ensures NoTripleNewline(CollapseBlankLines(s))
    decreases |s|
  {
    if s != [] {
      if s[0] == '\n' {
        var n := NewlineRun(s);
        var head: string := if n >= 3 then "\n\n" else s[..n];
        var rest := CollapseBlankLines(s[n..]);
        CollapseBlankLinesBounded(s[n..]);
        assert |head| <= 2;
        assert rest == [] || rest[0] != '\n';
        var r := head + rest;
        forall i | 0 <= i < |r| - 2 && r[i] == '\n'
          ensures !(r[i + 1] == '\n' && r[i + 2] == '\n')
        {
          if i >= |head| {
            assert r[i] == rest[i - |head|] && r[i + 1] == rest[i + 1 - |head|] && r[i + 2] == rest[i + 2 - |head|];
          } else if i + 1 == |head| {
            assert r[i + 1] == rest[0];
          } else {
            assert i + 2 == |head|;
            assert r[i + 2] == rest[0];
          }
        }
      } else {
        var rest := CollapseBlankLines(s[1..]);
        CollapseBlankLinesBounded(s[1..]);
        var r := [s[0]] + rest;
        forall i | 0 <= i < |r| - 2 && r[i] == '\n'
          ensures !(r[i + 1] == '\n' && r[i + 2] == '\n')
        {
          assert r[i] == rest[i - 1] && r[i + 1] == rest[i] && r[i + 2] == rest[i + 1];
        }
      }
    }
  }

  /** A text that already has no long blank-line run is left as it is, so the
      collapse is idempotent. */
  lemma {:induction false} CollapseBlankLinesFixed(s: string)
    requires NoTripleNewline(s)
    ensures CollapseBlankLines(s) == s
    decreases |s|
  {
    if s != [] {
      if s[0] == '\n' {
        var n := NewlineRun(s);
        if |s| >= 3 { assert !(s[1] == '\n' && s[2] == '\n'); }
        assert NoTripleNewline(s[n..]) by {
          forall i | 0 <= i < |s[n..]| - 2 && s[n..][i] == '\n'
            ensures !(s[n..][i + 1] == '\n' && s[n..][i + 2] == '\n')
          {
            assert s[n..][i] == s[n + i];
          }
        }
        CollapseBlankLinesFixed(s[n..]);
        assert s == s[..n] + s[n..];
      } else {
        assert NoTripleNewline(s[1..]) by {
          forall i | 0 <= i < |s[1..]| - 2 && s[1..][i] == '\n'
            ensures !(s[1..][i + 1] == '\n' && s[1..][i + 2] == '\n')
          {
            assert s[1..][i] == s[1 + i];
          }
        }
        CollapseBlankLinesFixed(s[1..]);
        assert s == [s[0]] + s[1..];
      }
    }
  }

  lemma CollapseBlankLinesIdempotent(s: string)
    ensures CollapseBlankLines(CollapseBlankLines(s)) == CollapseBlankLines(s)
  {
    CollapseBlankLinesBounded(s);
    CollapseBlankLinesFixed(CollapseBlankLines(s));
  }

  /** A text without newlines is left as it is. */
  lemma CollapseNoNewline(s: string)
    requires forall k :: 0 <= k < |s| ==> s[k] != '\n'
    ensures CollapseBlankLines(s) == s
  {
    CollapseBlankLinesFixed(s);
  }

  /** A run of n newlines becomes min(n, 2) newlines. */
  lemma CollapseRun(n: nat)
    ensures CollapseBlankLines(seq(n, _ => '\n')) == seq(if n >= 3 then 2 else n, _ => '\n')
  {
    var s: string := seq(n, _ => '\n');
    if n > 0 {
      assert NewlineRun(s) == n;
      assert s[n..] == [];
      assert s[..n] == s;
      if n >= 3 {
        assert seq(2, _ => '\n') == "\n\n";
      }
    }
  }

  /** The newline run at the start of s ends at n when s[..n] is newlines and s[n] is not. */
  lemma {:induction false} NewlineRunAt(s: string, n: nat)
    requires n <= |s| && (forall k :: 0 <= k < n ==> s[k] == '\n') && (n < |s| ==> s[n] != '\n')
    ensures NewlineRun(s) == n
    decreases n
  {
    if n > 0 {
      NewlineRunAt(s[1..], n - 1);
    }
  }

  /** The newline run at the start of a + b runs past a only when all of a is newlines. */
  lemma NewlineRunConcat(a: string, b: string)
    ensures NewlineRun(a + b) == if NewlineRun(a) < |a| then NewlineRun(a) else |a| + NewlineRun(b)
  {
    var s := a + b;
    var m := NewlineRun(a);
    if m < |a| {
      assert s[m] == a[m];
      NewlineRunAt(s, m);
    } else {
      var l := NewlineRun(b);
      assert forall k :: |a| <= k < |a| + l ==> s[k] == b[k - |a|];
      if |a| + l < |s| {
        assert s[|a| + l] == b[l];
      }
      NewlineRunAt(s, |a| + l);
    }
  }

  /** The collapse works piece by piece when the pieces do not meet inside
      a run of newlines. Together with CollapseNoNewline and CollapseRun this
      fixes the collapse of every text: cut it at the ends of its newline runs. */
  lemma {:induction false} CollapseConcat(a: string, b: string)
    requires a == [] || b == [] || a[|a| - 1] != '\n' || b[0] != '\n'
    ensures CollapseBlankLines(a + b) == CollapseBlankLines(a) + CollapseBlankLines(b)
    decreases |a|
  {
    if a == [] {
      assert a + b == b;
    } else if b == [] {
      assert a + b == a;
    } else if a[0] != '\n' {
      var s := a + b;
      assert s[0] == a[0] && s[1..] == a[1..] + b;
      CollapseConcat(a[1..], b);
      calc {
        CollapseBlankLines(s);
        [a[0]] + CollapseBlankLines(a[1..] + b);
        [a[0]] + (CollapseBlankLines(a[1..]) + CollapseBlankLines(b));
        ([a[0]] + CollapseBlankLines(a[1..])) + CollapseBlankLines(b);
      }
    } else {
      CollapseConcatRun(a, b);
    }
  }

  /** CollapseConcat when a starts with a newline: the run at the start of a
      is collapsed on its own. */
  lemma {:induction false} CollapseConcatRun(a: string, b: string)
    requires a != [] && b != [] && a[0] == '\n' && (a[|a| - 1] != '\n' || b[0] != '\n')
    ensures CollapseBlankLines(a + b) == CollapseBlankLines(a) + CollapseBlankLines(b)
    decreases |a|, 0
  {
    var m := NewlineRun(a);
    NewlineRunConcat(a, b);
    if m < |a| {
      assert a[m..][|a[m..]| - 1] == a[|a| - 1];
      CollapseConcat(a[m..], b);
      CollapseConcatRunInside(a, b, m);
      ConcatAssoc(RunHead(a), CollapseBlankLines(a[m..]), CollapseBlankLines(b));
    } else {
      assert b[0] != '\n';
      CollapseConcatRunWhole(a, b);
    }
  }

  /** The collapse of a + b when a starts with a run of m newlines that ends inside a. */
  lemma CollapseConcatRunInside(a: string, b: string, m: nat)
    requires 0 < m < |a| && a[0] == '\n' && NewlineRun(a) == m && NewlineRun(a + b) == m
    ensures CollapseBlankLines(a + b) == RunHead(a) + CollapseBlankLines(a[m..] + b)
    ensures CollapseBlankLines(a) == RunHead(a) + CollapseBlankLines(a[m..])
  {
    assert (a + b)[0] == a[0];
    assert (a + b)[m..] == a[m..] + b;
    assert (a + b)[..m] == a[..m];
    CollapseUnfold(a + b, a[m..] + b);
    CollapseUnfold(a, a[m..]);
  }

  /** One step of the collapse at a newline run: its head, then the rest collapsed. */
  lemma CollapseUnfold(s: string, rest: string)
    requires s != [] && s[0] == '\n' && rest == s[NewlineRun(s)..]
    ensures CollapseBlankLines(s) == RunHead(s) + CollapseBlankLines(rest)
  {
  }

  /** The collapse of a + b when a is a run of newlines and b does not start with one. */
  lemma CollapseConcatRunWhole(a: string, b: string)
    requires a != [] && a[0] == '\n' && NewlineRun(a) == |a| && NewlineRun(a + b) == |a|
    ensures CollapseBlankLines(a + b) == CollapseBlankLines(a) + CollapseBlankLines(b)
  {
    assert (a + b)[0] == a[0];
    assert (a + b)[|a|..] == b;
    assert (a + b)[..|a|] == a[..|a|];
    CollapseUnfold(a + b, b);
    CollapseUnfold(a, []);
  }

  /** A slice of a text without long blank-line runs has none either. */
  lemma NoTripleNewlineSlice(s: string, a: nat, b: nat)
    requires a <= b <= |s| && NoTripleNewline(s)
    ensures NoTripleNewline(s[a..b])
  {
    forall i | 0 <= i < |s[a..b]| - 2 && s[a..b][i] == '\n'
      ensures !(s[a..b][i + 1] == '\n' && s[a..b][i + 2] == '\n')
    {
      assert s[a..b][i] == s[a + i];
    }
  }

  lemma StripNoTripleNewline(s: string)
    requires NoTripleNewline(s)
    ensures NoTripleNewline(Strip(s))
  {
    var a, b := StripIsSlice(s);
    NoTripleNewlineSlice(s, a, b);
  }

  /** One non-empty page after clean-up: footer lines removed, blank-line runs
      collapsed, surrounding whitespace stripped. */
  function CleanPage(sub: Substituter, page: string): (r: string)
    ensures r == [] || (!IsSpace(r[0]) && !IsSpace(r[|r| - 1]))
    ensures NoTripleNewline(r)
    ensures r == Strip(CollapseBlankLines(sub(COURTESY_PATTERN, "", sub(PAGE_FOOTER_PATTERN, "", page))))
  {
    var p2 := sub(COURTESY_PATTERN, "", sub(PAGE_FOOTER_PATTERN, "", page));
    var collapsed := CollapseBlankLines(p2);
    CollapseBlankLinesBounded(p2);
    StripNoTripleNewline(collapsed);
    Strip(collapsed)
  }

  /** The cleaned pages: empty pages dropped, the others cleaned, in order. */
  function CleanPages(sub: Substituter, pages: seq<string>): (cleaned: seq<string>)
    ensures |cleaned| <= |pages|
  {
    if pages == [] then []
    else
      var init := CleanPages(sub, pages[..|pages| - 1]);
      var p := pages[|pages| - 1];
      if p == "" then init else init + [CleanPage(sub, p)]
  }

  /** The number of non-empty pages among the first n. */
  function NonEmptyCount(pages: seq<string>): nat {
    if pages == [] then 0
    else NonEmptyCount(pages[..|pages| - 1]) + (if pages[|pages| - 1] == "" then 0 else 1)
  }

  /** One cleaned page per non-empty page, each of them cleaned. */
  lemma {:induction false} CleanPagesShape(sub: Substituter, pages: seq<string>)
    ensures |CleanPages(sub, pages)| == NonEmptyCount(pages)
    ensures forall q :: q in CleanPages(sub, pages) ==> exists p :: p in pages && p != "" && q == CleanPage(sub, p)
    decreases |pages|
  {
    if pages != [] {
      var init := pages[..|pages| - 1];
      CleanPagesShape(sub, init);
      forall q | q in CleanPages(sub, pages)
        ensures exists p :: p in pages && p != "" && q == CleanPage(sub, p)
      {
        if q in CleanPages(sub, init) {
          var p :| p in init && p != "" && q == CleanPage(sub, p);
          assert p in pages;
        } else {
          assert pages[|pages| - 1] in pages;
        }
      }
    }
  }

  /** The page loop: each non-empty page is cleaned and appended. */
  method CleanPagesLoop(sub: Substituter, pages: seq<string>) returns (cleaned: seq<string>)
    ensures cleaned == CleanPages(sub, pages)
  {
    cleaned := [];
    var i := 0;
    while i < |pages|
      invariant 0 <= i <= |pages|
      invariant cleaned == CleanPages(sub, pages[..i])
    {
      assert pages[..i + 1][..i] == pages[..i];
      var p := pages[i];
      if p != "" {
        cleaned := cleaned + [CleanPage(sub, p)];
      }
      i := i + 1;
    }
    assert pages[..|pages|] == pages;
  }

  // ---------------------------------------------------------------------------
  // Tokens (1), (a), (iv)
  // ---------------------------------------------------------------------------

  /** The three token shapes: \(\d+\), \([a-z]\) and \([ivxlcdm]+\). */
  datatype TokenKind = Numeric | Lettered | Roman

  predicate InClass(kind: TokenKind, c: char) {
    match kind
    case Numeric => IsDigit(c)
    case Lettered => IsLowerLetter(c)
    case Roman => c in "ivxlcdm"
  }

  /** The end of the run of class characters that starts at offset i. */
  function ClassRun(s: string, kind: TokenKind, i: nat): (j: nat)
    requires i <= |s|
    ensures i <= j <= |s|
    ensures forall k :: i <= k < j ==> InClass(kind, s[k])
    ensures j < |s| ==> !InClass(kind, s[j])
    decreases |s| - i
  {
    if i < |s| && InClass(kind, s[i]) then ClassRun(s, kind, i + 1) else i
  }

  /** The end of the token that starts at offset i, or 0 when none starts there.
      A lettered token holds exactly one letter, the others one or more. */
  function TokenEnd(s: string, kind: TokenKind, i: nat): (e: nat)
    ensures e == 0 || (i + 3 <= e <= |s| && s[i] == '(' && s[e - 1] == ')')
  {
    if i < |s| && s[i] == '(' then
      var j := if kind == Lettered then (if i + 1 < |s| && InClass(kind, s[i + 1]) then i + 2 else i + 1)
               else ClassRun(s, kind, i + 1);
      if j > i + 1 && j < |s| && s[j] == ')' then j + 1 else 0
    else 0
  }

  /** The characters between a token's parentheses belong to its class. */
  lemma TokenInner(s: string, kind: TokenKind, i: nat)
    requires TokenEnd(s, kind, i) > 0
    ensures forall k :: i < k < TokenEnd(s, kind, i) - 1 ==> InClass(kind, s[k])
  {
  }

  /** No token starts inside another: its inner characters are never '('. */
  lemma TokensDisjoint(s: string, kind: TokenKind, i: nat, k: nat)
    requires TokenEnd(s, kind, i) > 0 && i < k < TokenEnd(s, kind, i)
    ensures TokenEnd(s, kind, k) == 0
  {
    var e := TokenEnd(s, kind, i);
    TokenInner(s, kind, i);
    if k < e - 1 { assert InClass(kind, s[k]); }
  }

  datatype Token = Token(start: nat, end: nat)

  /** re.finditer over the token pattern from offset `from`: a match is taken
      where one starts, and the scan resumes at its end. */
  function Tokens(s: string, kind: TokenKind, from: nat): (ts: seq<Token>)
    requires from <= |s|
    ensures forall j :: 0 <= j < |ts| ==> from <= ts[j].start && TokenEnd(s, kind, ts[j].start) == ts[j].end > 0
    ensures forall a, b :: 0 <= a < b < |ts| ==> ts[a].end <= ts[b].start
    decreases |s| - from
  {
    if from == |s| then []
    else
      var e := TokenEnd(s, kind, from);
      if e > 0 then [Token(from, e)] + Tokens(s, kind, e) else Tokens(s, kind, from + 1)
  }

  /** Where the scan resumes after offset `from`: past the token there, or one further. */
  function ScanNext(s: string, kind: TokenKind, from: nat): nat {
    if TokenEnd(s, kind, from) > 0 then TokenEnd(s, kind, from) else from + 1
  }

  /** One step of the scan. */
  lemma TokensStep(s: string, kind: TokenKind, from: nat)
    requires from < |s|
    ensures ScanNext(s, kind, from) <= |s|
    ensures Tokens(s, kind, from) ==
              (if TokenEnd(s, kind, from) > 0 then [Token(from, TokenEnd(s, kind, from))] else [])
              + Tokens(s, kind, ScanNext(s, kind, from))
  {
  }

  /** The scan finds every token that starts at or after `from`. */
  lemma {:induction false} TokensComplete(s: string, kind: TokenKind, from: nat, k: nat)
    requires from <= k < |s| && TokenEnd(s, kind, k) > 0
    ensures Token(k, TokenEnd(s, kind, k)) in Tokens(s, kind, from)
    decreases |s| - from
  {
    var next := ScanNext(s, kind, from);
    TokensStep(s, kind, from);
    if k == from {
    } else if k < next {
      TokensDisjoint(s, kind, from, k);
    } else {
      TokensComplete(s, kind, next, k);
    }
  }

  /** In a sequence of spans in increasing order, an offset between span j's
      end and span j + 1's start is no span's start. */
  lemma GapHoldsNoStart(ts: seq<Token>, j: nat, k: nat, n: nat)
    requires forall m :: 0 <= m < |ts| ==> ts[m].start < ts[m].end
    requires forall a, b :: 0 <= a < b < |ts| ==> ts[a].end <= ts[b].start
    requires j < |ts| && ts[j].end <= k < (if j + 1 < |ts| then ts[j + 1].start else n)
    ensures forall m :: 0 <= m < |ts| ==> ts[m].start != k
  {
    forall m | 0 <= m < |ts|
      ensures ts[m].start != k
    {
      if m < j {
        assert ts[m].end <= ts[j].start;
      } else if m > j + 1 {
        assert ts[j + 1].end <= ts[m].start;
      }
    }
  }

  /** Between one token's end and the next token's start no token starts. */
  lemma TokenGap(s: string, kind: TokenKind, j: nat, k: nat)
    requires j < |Tokens(s, kind, 0)|
    requires Tokens(s, kind, 0)[j].end <= k < SegmentEnd(s, Tokens(s, kind, 0), j)
    ensures TokenEnd(s, kind, k) == 0
  {
    var ts := Tokens(s, kind, 0);
    GapHoldsNoStart(ts, j, k, |s|);
    if TokenEnd(s, kind, k) > 0 {
      TokensComplete(s, kind, 0, k);
    }
  }

  /** Where the text of token j ends: the next token's start, or the end of s. */
  function SegmentEnd(s: string, ts: seq<Token>, j: nat): nat
    requires j < |ts|
  {
    if j + 1 < |ts| then ts[j + 1].start else |s|
  }

  /** The characters the id pattern [()\s] removes. */
  predicate Dropped(c: char) {
    c == '(' || c == ')' || IsSpace(c)
  }

  /** re.sub(r'[()\s]', '', t): t without parentheses and whitespace. */
  function TokenId(t: string): (id: string)
    ensures |id| <= |t|
    ensures forall k :: 0 <= k < |id| ==> !Dropped(id[k])
  {
    if t == [] then []
    else if Dropped(t[0]) then TokenId(t[1..])
    else [t[0]] + TokenId(t[1..])
  }

  /** Class characters are neither parentheses nor whitespace. */
  lemma ClassCharKept(kind: TokenKind, c: char)
    requires InClass(kind, c)
    ensures !Dropped(c)
  {
  }

  /** A text without dropped characters is its own id. */
  lemma {:induction false} TokenIdKeeps(t: string)
    requires forall k :: 0 <= k < |t| ==> !Dropped(t[k])
    ensures TokenId(t) == t
  {
    if t != [] {
      TokenIdKeeps(t[1..]);
      assert [t[0]] + t[1..] == t;
    }
  }

  /** A sequence after its first element: the middle, then the last element. */
  lemma TailSplit<T>(t: seq<T>)
    requires |t| >= 2
    ensures t[1..] == t[1..|t| - 1] + [t[|t| - 1]]
  {
  }

  /** Parentheses around kept characters: the id is what they enclose. */
  lemma TokenIdUnwrap(t: string)
    requires |t| >= 2 && t[0] == '(' && t[|t| - 1] == ')'
    requires forall k :: 0 < k < |t| - 1 ==> !Dropped(t[k])
    ensures TokenId(t) == t[1..|t| - 1]
  {
    var inner := t[1..|t| - 1];
    assert TokenId(t) == TokenId(t[1..]) by { assert Dropped(t[0]); }
    assert t[1..] == inner + [')'] by { TailSplit(t); }
    assert TokenId(inner + [')']) == TokenId(inner) by { TokenIdAppendClose(inner); }
    assert TokenId(inner) == inner by {
      forall k | 0 <= k < |inner| ensures !Dropped(inner[k]) { assert inner[k] == t[k + 1]; }
      TokenIdKeeps(inner);
    }
  }

  /** A token's id is the text between its parentheses. */
  lemma TokenIdInner(s: string, kind: TokenKind, i: nat)
    requires TokenEnd(s, kind, i) > 0
    ensures TokenId(s[i..TokenEnd(s, kind, i)]) == s[i + 1..TokenEnd(s, kind, i) - 1]
  {
    var e := TokenEnd(s, kind, i);
    TokenInner(s, kind, i);
    var t := s[i..e];
    forall k | 0 < k < |t| - 1 ensures !Dropped(t[k]) {
      assert t[k] == s[i + k];
      ClassCharKept(kind, s[i + k]);
    }
    TokenIdUnwrap(t);
    assert t[1..|t| - 1] == s[i + 1..e - 1];
  }

  lemma {:induction false} TokenIdAppendClose(t: string)
    ensures TokenId(t + [')']) == TokenId(t)
  {
    if t == [] {
      assert TokenId([')']) == TokenId([]);
    } else {
      assert (t + [')'])[1..] == t[1..] + [')'];
      TokenIdAppendClose(t[1..]);
    }
  }

  /** One split part: the token's id, its text, and the finer parts inside it. */
  datatype Part = Part(id: string, text: string, sub: Option<seq<Part>>)

  /** The part for token j: its id, and the stripped text up to the next token. */
  function TokenPart(s: string, ts: seq<Token>, j: nat): Part
    requires j < |ts|
  {
    Part(TokenId(Slice(s, ts[j].start, ts[j].end)), Strip(Slice(s, ts[j].end, SegmentEnd(s, ts, j))), None)
  }

  /** split_by_token: None when no token occurs, otherwise one part per token. */
  function SplitByToken(s: string, kind: TokenKind): (parts: Option<seq<Part>>)
    ensures parts.None? <==> Tokens(s, kind, 0) == []
    ensures parts.Some? ==> |parts.value| == |Tokens(s, kind, 0)| > 0
  {
    var ts := Tokens(s, kind, 0);
    if ts == [] then None else Some(PartsOf(s, ts))
  }

  /** One part per token, in order. */
  function PartsOf(s: string, ts: seq<Token>): (parts: seq<Part>)
    ensures |parts| == |ts|
  {
    seq(|ts|, j requires 0 <= j < |ts| => TokenPart(s, ts, j))
  }

  /** One pass of the token loop: the id and the text of token j. */
  method NextPart(s: string, ts: seq<Token>, j: nat) returns (part: Part)
    requires j < |ts|
    ensures part == PartsOf(s, ts)[j]
  {
    var key := TokenId(Slice(s, ts[j].start, ts[j].end));
    var end := if j + 1 < |ts| then ts[j + 1].start else |s|;
    var content := Strip(Slice(s, ts[j].end, end));
    part := Part(key, content, None);
  }

  /** The token loop of split_by_token: one part per token. */
  method PartsLoop(s: string, ts: seq<Token>) returns (acc: seq<Part>)
    ensures acc == PartsOf(s, ts)
  {
    ghost var all := PartsOf(s, ts);
    acc := [];
    for j := 0 to |ts|
      invariant acc == all[..j]
    {
      var part := NextPart(s, ts, j);
      PrefixStep(all, j);
      acc := acc + [part];
    }
    assert all[..|ts|] == all;
  }

  /** split_by_token. */
  method SplitParts(s: string, kind: TokenKind) returns (parts: Option<seq<Part>>)
    ensures parts == SplitByToken(s, kind)
  {
    var ts := Tokens(s, kind, 0);
    if |ts| == 0 {
      return None;
    }
    var acc := PartsLoop(s, ts);
    parts := Some(acc);
  }

  /** A well-formed id for a token kind: digits, one lower-case letter, or
      roman-numeral letters. */
  predicate IsIdOf(kind: TokenKind, id: string) {
    && id != []
    && (forall k :: 0 <= k < |id| ==> InClass(kind, id[k]))
    && (kind == Lettered ==> |id| == 1)
  }

  /** The id of the token at offset i is well formed for its kind. */
  lemma TokenIsId(s: string, kind: TokenKind, i: nat)
    requires TokenEnd(s, kind, i) > 0
    ensures IsIdOf(kind, TokenId(Slice(s, i, TokenEnd(s, kind, i))))
  {
    var e := TokenEnd(s, kind, i);
    TokenIdInner(s, kind, i);
    TokenInner(s, kind, i);
    var id := s[i + 1..e - 1];
    assert forall k :: 0 <= k < |id| ==> id[k] == s[i + 1 + k];
    if kind == Lettered {
      assert e == i + 3;
    }
  }

  /** Token j's part carries the token without its parentheses as its id. */
  lemma TokenPartId(s: string, kind: TokenKind, j: nat)
    requires j < |Tokens(s, kind, 0)|
    ensures IsIdOf(kind, TokenPart(s, Tokens(s, kind, 0), j).id)
  {
    var ts := Tokens(s, kind, 0);
    var i := ts[j].start;
    assert TokenEnd(s, kind, i) == ts[j].end > 0;
    TokenIsId(s, kind, i);
  }

  /** Each part's id is its token without the parentheses. */
  lemma PartIds(s: string, kind: TokenKind)
    requires SplitByToken(s, kind).Some?
    ensures forall j :: 0 <= j < |SplitByToken(s, kind).value| ==>
              IsIdOf(kind, SplitByToken(s, kind).value[j].id)
  {
    var parts := SplitByToken(s, kind).value;
    forall j | 0 <= j < |parts|
      ensures IsIdOf(kind, parts[j].id)
    {
      TokenPartId(s, kind, j);
    }
  }

  /** A part's text lies between its token and the next one: no token of the
      same kind starts anywhere in that stretch of the text. */
  lemma PartTextHasNoToken(s: string, kind: TokenKind, j: nat)
    requires j < |Tokens(s, kind, 0)|
    ensures var ts := Tokens(s, kind, 0);
            ts[j].end <= SegmentEnd(s, ts, j) <= |s| &&
            forall k :: ts[j].end <= k < SegmentEnd(s, ts, j) ==> TokenEnd(s, kind, k) == 0
  {
    var ts := Tokens(s, kind, 0);
    forall k | ts[j].end <= k < SegmentEnd(s, ts, j)
      ensures TokenEnd(s, kind, k) == 0
    {
      TokenGap(s, kind, j, k);
    }
  }

  // ---------------------------------------------------------------------------
  // Conditions
  // ---------------------------------------------------------------------------

  /** A part with its roman-numeral sub-parts attached, when it has any. */
  function WithRoman(p: Part): (r: Part)
    ensures r.id == p.id && r.text == p.text
    ensures r.sub.Some? <==> p.sub.Some? || Tokens(p.text, Roman, 0) != []
  {
    match SplitByToken(p.text, Roman)
    case Some(rs) => p.(sub := Some(rs))
    case None => p
  }

  /** The lettered parts, each with its roman sub-parts attached. */
  function WithRomanAll(lps: seq<Part>): seq<Part>
  {
    seq(|lps|, j requires 0 <= j < |lps| => WithRoman(lps[j]))
  }

  /** A numbered part: its lettered parts (each with roman sub-parts) when it
      has any, otherwise its roman parts directly. */
  function NumberedCondition(np: Part): (r: Part)
    ensures r.id == np.id && r.text == np.text
  {
    match SplitByToken(np.text, Lettered)
    case Some(lps) => np.(sub := Some(WithRomanAll(lps)))
    case None => WithRoman(np)
  }

  /** The numbered parts, each with its sub-parts attached. */
  function NumberedAll(nps: seq<Part>): seq<Part>
  {
    seq(|nps|, j requires 0 <= j < |nps| => NumberedCondition(nps[j]))
  }

  /** The conditions of a rule text: numbered parts take precedence; lettered
      parts are split at top level only when no numbered token occurs. */
  function Conditions(text: string): (cs: seq<Part>)
    ensures Tokens(text, Numeric, 0) == [] && Tokens(text, Lettered, 0) == [] ==> cs == []
  {
    match SplitByToken(text, Numeric)
    case Some(nps) => NumberedAll(nps)
    case None =>
      match SplitByToken(text, Lettered)
      case Some(lps) => WithRomanAll(lps)
      case None => []
  }

  /** Which token kind the top-level conditions come from: numbered tokens
      when there are any, otherwise lettered ones; each condition keeps the
      id and the text of the part it was made from. */
  lemma ConditionsPrecedence(text: string)
    ensures Tokens(text, Numeric, 0) != [] ==>
              |Conditions(text)| == |Tokens(text, Numeric, 0)| &&
              forall j :: 0 <= j < |Conditions(text)| ==>
                IsIdOf(Numeric, Conditions(text)[j].id) &&
                Conditions(text)[j].text == SplitByToken(text, Numeric).value[j].text
    ensures Tokens(text, Numeric, 0) == [] && Tokens(text, Lettered, 0) != [] ==>
              |Conditions(text)| == |Tokens(text, Lettered, 0)| &&
              forall j :: 0 <= j < |Conditions(text)| ==>
                IsIdOf(Lettered, Conditions(text)[j].id) &&
                Conditions(text)[j].text == SplitByToken(text, Lettered).value[j].text
  {
    if Tokens(text, Numeric, 0) != [] {
      var nps := SplitByToken(text, Numeric).value;
      PartIds(text, Numeric);
    } else if Tokens(text, Lettered, 0) != [] {
      var lps := SplitByToken(text, Lettered).value;
      PartIds(text, Lettered);
    }
  }

  /** One pass of the roman loop: the part with its roman sub-parts, if any. */
  method RomanPart(lp: Part) returns (r: Part)
    ensures r == WithRoman(lp)
  {
    r := lp;
    var romanParts := SplitParts(lp.text, Roman);
    if romanParts.Some? {
      r := r.(sub := romanParts);
    }
  }

  /** Attaches roman sub-parts to each lettered part, in place. */
  method AttachRoman(lps: seq<Part>) returns (r: seq<Part>)
    ensures r == WithRomanAll(lps)
  {
    ghost var all := WithRomanAll(lps);
    r := lps;
    var k := 0;
    while k < |r|
      invariant 0 <= k <= |r| == |lps|
      invariant r[..k] == all[..k]
      invariant r[k..] == lps[k..]
    {
      var lp := RomanPart(r[k]);
      assert r[k] == lps[k] by { assert r[k..][0] == lps[k..][0]; }
      ghost var prev := r;
      r := r[k := lp];
      assert r[..k + 1] == all[..k + 1] by {
        assert r[..k + 1] == prev[..k] + [lp];
        PrefixStep(all, k);
      }
      assert r[k + 1..] == prev[k..][1..] == lps[k..][1..];
      k := k + 1;
    }
    assert r == r[..k];
    assert all == all[..k];
  }

  /** One pass of the numbered-part loop: the part with its sub-parts attached. */
  method NumberedPart(np: Part) returns (r: Part)
    ensures r == NumberedCondition(np)
  {
    r := np;
    var letterParts := SplitParts(np.text, Lettered);
    if letterParts.Some? {
      var lps := AttachRoman(letterParts.value);
      r := r.(sub := Some(lps));
    } else {
      r := RomanPart(np);
    }
  }

  /** The condition loops of the rule loop. */
  method BuildConditions(ruleText: string) returns (conditions: seq<Part>)
    ensures conditions == Conditions(ruleText)
  {
    conditions := [];
    var numericParts := SplitParts(ruleText, Numeric);
    if numericParts.Some? {
      var nps := numericParts.value;
      ghost var all := NumberedAll(nps);
      var k := 0;
      while k < |nps|
        invariant 0 <= k <= |nps|
        invariant conditions == all[..k]
      {
        var np := NumberedPart(nps[k]);
        PrefixStep(all, k);
        conditions := conditions + [np];
        k := k + 1;
      }
      assert all[..|nps|] == all;
    } else {
      var letterPartsTop := SplitParts(ruleText, Lettered);
      if letterPartsTop.Some? {
        conditions := AttachRoman(letterPartsTop.value);
      }
    }
  }

  // ---------------------------------------------------------------------------
  // One rule
  // ---------------------------------------------------------------------------

  /** Every character of s[i..j] is whitespace. */
  predicate SpacesIn(s: string, i: nat, j: nat) {
    i <= j <= |s| && forall k :: i <= k < j ==> IsSpace(s[k])
  }

  /** s[i..j] is a non-empty run of digits. */
  predicate DigitsIn(s: string, i: nat, j: nat) {
    i < j <= |s| && forall k :: i <= k < j ==> IsDigit(s[k])
  }

  /** s[..n] has the shape `\s*R\s*\d+\.\d+\s*`: whitespace up to the 'R' at a,
      whitespace up to b, digits up to the '.' at c, digits up to d, and
      whitespace up to n. */
  predicate RulePrefixAt(s: string, a: nat, b: nat, c: nat, d: nat, n: nat) {
    && SpacesIn(s, 0, a) && a < |s| && s[a] == 'R'
    && SpacesIn(s, a + 1, b) && DigitsIn(s, b, c) && c < |s| && s[c] == '.'
    && DigitsIn(s, c + 1, d) && SpacesIn(s, d, n)
  }

  /** Where the leading `\s*R\s*\d+\.\d+\s*` of s ends, or 0 when s does not start so. */
  function RulePrefixEnd(s: string): (n: nat)
    ensures n <= |s|
  {
    var a := SkipSpaces(s, 0);
    if a < |s| && s[a] == 'R' then
      var b := SkipSpaces(s, a + 1);
      var c := DigitRun(s, b);
      if c > b && c < |s| && s[c] == '.' then
        var d := DigitRun(s, c + 1);
        if d > c + 1 then SkipSpaces(s, d) else 0
      else 0
    else 0
  }

  /** Skipping whitespace from i passes every whitespace character up to j. */
  lemma {:induction false} SkipSpacesPast(s: string, i: nat, j: nat)
    requires SpacesIn(s, i, j)
    ensures j <= SkipSpaces(s, i)
    decreases j - i
  {
    if i < j {
      SkipSpacesPast(s, i + 1, j);
    }
  }

  /** A digit run from i passes every digit up to j. */
  lemma {:induction false} DigitRunPast(s: string, i: nat, j: nat)
    requires i <= j <= |s| && forall k :: i <= k < j ==> IsDigit(s[k])
    ensures j <= DigitRun(s, i)
    decreases j - i
  {
    if i < j {
      DigitRunPast(s, i + 1, j);
    }
  }

  /** No digit is whitespace. */
  lemma DigitNotSpace(ch: char)
    requires IsDigit(ch)
    ensures !IsSpace(ch)
  {
  }

  /** Skipping whitespace from i stops at j when s[i..j] is whitespace and s[j] is not. */
  lemma SkipSpacesAt(s: string, i: nat, j: nat)
    requires SpacesIn(s, i, j) && j < |s| && !IsSpace(s[j])
    ensures SkipSpaces(s, i) == j
  {
    SkipSpacesPast(s, i, j);
  }

  /** A digit run from i stops at j when s[i..j] is digits and s[j] is not a digit. */
  lemma DigitRunAt(s: string, i: nat, j: nat)
    requires i <= j < |s| && (forall k :: i <= k < j ==> IsDigit(s[k])) && !IsDigit(s[j])
    ensures DigitRun(s, i) == j
  {
    DigitRunPast(s, i, j);
  }

  /** The whitespace and digits after the 'R' are skipped up to the '.'. */
  lemma RuleNumberRun(s: string, a: nat, b: nat, c: nat)
    requires SpacesIn(s, a + 1, b) && DigitsIn(s, b, c) && c < |s| && s[c] == '.'
    ensures SkipSpaces(s, a + 1) == b && DigitRun(s, b) == c
  {
    DigitNotSpace(s[b]);
    SkipSpacesAt(s, a + 1, b);
    DigitRunAt(s, b, c);
  }

  /** The digits after the '.' and the whitespace after them are skipped at
      least up to m. */
  lemma RuleNumberTail(s: string, c: nat, d: nat, m: nat)
    requires DigitsIn(s, c + 1, d) && SpacesIn(s, d, m)
    ensures d <= DigitRun(s, c + 1) && m <= SkipSpaces(s, DigitRun(s, c + 1))
  {
    DigitRunPast(s, c + 1, d);
    if m > d {
      assert IsSpace(s[d]);
      DigitRunAt(s, c + 1, d);
      SkipSpacesPast(s, d, m);
    }
  }

  /** A prefix of that shape is never longer than the one RulePrefixEnd finds. */
  lemma RulePrefixLongest(s: string, a: nat, b: nat, c: nat, d: nat, m: nat)
    requires RulePrefixAt(s, a, b, c, d, m)
    ensures 0 < m <= RulePrefixEnd(s)
  {
    SkipSpacesAt(s, 0, a);
    RuleNumberRun(s, a, b, c);
    RuleNumberTail(s, c, d, m);
  }

  /** RulePrefixEnd finds the match of the anchored pattern: it is positive
      exactly when s starts with a prefix of that shape, and then s[..n] is
      the longest such prefix. The character classes of the pattern are
      disjoint, so the greedy match the regex engine takes is the longest. */
  lemma RulePrefixEndSpec(s: string)
    ensures RulePrefixEnd(s) > 0 ==> exists a: nat, b: nat, c: nat, d: nat :: RulePrefixAt(s, a, b, c, d, RulePrefixEnd(s))
    ensures forall a: nat, b: nat, c: nat, d: nat, m: nat :: RulePrefixAt(s, a, b, c, d, m) ==> 0 < m <= RulePrefixEnd(s)
  {
    var a := SkipSpaces(s, 0);
    if a < |s| && s[a] == 'R' {
      var b := SkipSpaces(s, a + 1);
      var c := DigitRun(s, b);
      if c > b && c < |s| && s[c] == '.' {
        var d := DigitRun(s, c + 1);
        if d > c + 1 {
          assert RulePrefixAt(s, a, b, c, d, RulePrefixEnd(s));
        }
      }
    }
    forall a': nat, b': nat, c': nat, d': nat, m: nat | RulePrefixAt(s, a', b', c', d', m)
      ensures 0 < m <= RulePrefixEnd(s)
    {
      RulePrefixLongest(s, a', b', c', d', m);
    }
  }

  /** re.sub(r'^\s*R\s*\d+\.\d+\s*', '', s): s without its leading rule number. */
  function DropRuleNumber(s: string): (r: string)
    ensures |r| <= |s|
    ensures RulePrefixEnd(s) == 0 ==> r == s
    ensures |s| - |r| == RulePrefixEnd(s) && r == s[|s| - |r|..]
  {
    s[RulePrefixEnd(s)..]
  }

  /** The rest of a header line, stripped, without its one trailing period. */
  function DropPeriod(rest: string): (name: string)
    ensures rest == [] || rest[|rest| - 1] != '.' ==> name == rest
    ensures rest != [] && rest[|rest| - 1] == '.' ==> name == Strip(rest[..|rest| - 1])
  {
    if rest != [] && rest[|rest| - 1] == '.' then Strip(rest[..|rest| - 1]) else rest
  }

  /** The rule name: the header line without its rule number and without the
      trailing period. */
  function RuleName(header: string): (name: string)
    ensures var rest := Strip(DropRuleNumber(header));
            && (rest == [] || rest[|rest| - 1] != '.' ==> name == rest)
            && (rest != [] && rest[|rest| - 1] == '.' ==> name == Strip(rest[..|rest| - 1]))
    ensures name == [] || (!IsSpace(name[0]) && !IsSpace(name[|name| - 1]))
    ensures |name| <= |header|
  {
    DropPeriod(Strip(DropRuleNumber(header)))
  }

  /** `\bRule\s+(\d+)\b` matches at offset i, its whitespace ending at b and
      its digits at c. */
  predicate RuleLabelShape(s: string, i: nat, b: nat, c: nat) {
    && StartsAt(s, i, "Rule") && (i == 0 || !IsWordChar(s[i - 1]))
    && i + 4 < b && SpacesIn(s, i + 4, b) && DigitsIn(s, b, c)
    && (c == |s| || !IsWordChar(s[c]))
  }

  /** Where the label pattern matches, the whitespace and digit runs are the
      maximal ones (the classes are disjoint, so the regex cannot give back). */
  lemma RuleLabelShapeRuns(s: string, i: nat)
    ensures forall b: nat, c: nat :: RuleLabelShape(s, i, b, c) ==>
              SkipSpaces(s, i + 4) == b && DigitRun(s, b) == c
  {
    forall b: nat, c: nat | RuleLabelShape(s, i, b, c)
      ensures SkipSpaces(s, i + 4) == b && DigitRun(s, b) == c
    {
      DigitNotSpace(s[b]);
      SkipSpacesAt(s, i + 4, b);
      DigitRunPast(s, b, c);
    }
  }

  /** The digits of a `\bRule\s+(\d+)\b` match starting at offset i, if one does. */
  function RuleLabelAt(s: string, i: nat): (r: Option<string>)
    ensures r.Some? ==> exists b: nat, c: nat :: RuleLabelShape(s, i, b, c) && r.value == s[b..c]
    ensures forall b: nat, c: nat :: RuleLabelShape(s, i, b, c) ==> r == Some(s[b..c])
    ensures r.Some? ==> r.value != [] && forall k :: 0 <= k < |r.value| ==> IsDigit(r.value[k])
  {
    RuleLabelShapeRuns(s, i);
    if StartsAt(s, i, "Rule") && (i == 0 || !IsWordChar(s[i - 1])) then
      var a := i + 4;
      var b := SkipSpaces(s, a);
      var c := DigitRun(s, b);
      if b > a && c > b && (c == |s| || !IsWordChar(s[c])) then
        assert RuleLabelShape(s, i, b, c);
        Some(s[b..c])
      else None
    else None
  }

  /** re.search for `\bRule\s+(\d+)\b` from offset i: the digits of the leftmost match. */
  function FindRuleLabel(s: string, i: nat): (r: Option<string>)
    ensures r.None? <==> forall m: nat :: i <= m <= |s| ==> RuleLabelAt(s, m).None?
    ensures r.Some? ==> exists k :: i <= k <= |s| && RuleLabelAt(s, k) == r &&
                                    forall m :: i <= m < k ==> RuleLabelAt(s, m).None?
    ensures r.Some? ==> r.value != [] && forall k :: 0 <= k < |r.value| ==> IsDigit(r.value[k])
  {
    var f := (m: nat) => RuleLabelAt(s, m);
    FirstFromFirst(f, i, |s| + 1);
    assert forall m: nat :: f(m) == RuleLabelAt(s, m);
    FirstFrom(f, i, |s| + 1)
  }

  /** The last piece of s.split('.'). */
  function LastSegment(s: string): (r: string)
    ensures '.' !in r
  {
    var parts := SplitOn(s, '.');
    parts[|parts| - 1]
  }

  /** The rule label: "Rule <n>" from the first "Rule <n>" in the raw text,
      otherwise "Rule " and the part of the rule number after its last period. */
  function RuleLabel(raw: string, ruleNum: string): (r: string)
    ensures |r| >= 5 && r[..5] == "Rule "
    ensures FindRuleLabel(raw, 0).Some? ==> r == "Rule " + FindRuleLabel(raw, 0).value
    ensures FindRuleLabel(raw, 0).None? ==> r == "Rule " + LastSegment(ruleNum)
  {
    match FindRuleLabel(raw, 0)
    case Some(digits) => "Rule " + digits
    case None => "Rule " + LastSegment(ruleNum)
  }

  /** The first '.' at or after offset i, or |s| when there is none. */
  function NextDot(s: string, i: nat): (q: nat)
    requires i <= |s|
    ensures i <= q <= |s|
    ensures q < |s| ==> s[q] == '.'
    ensures forall k :: i <= k < q ==> s[k] != '.'
    decreases |s| - i
  {
    if i == |s| then i
    else if s[i] == '.' then i
    else NextDot(s, i + 1)
  }

  /** No '.' in s[a..b]. */
  predicate NoDotIn(s: string, a: nat, b: nat)
    requires b <= |s|
  {
    forall k :: a <= k < b ==> s[k] != '.'
  }

  /** The History segment found in a rule text: its span and its text. */
  datatype HistoryMatch = HistoryMatch(start: nat, end: nat, history: string)

  /** The History segment whose label starts exactly at offset i, if any:
      the label, then whitespace, then the shortest run of at least one
      character ending in a period; when the whitespace run is followed
      directly by the period, the whitespace gives back its last character
      to that run. */
  function HistoryAt(s: string, i: nat): (r: Option<HistoryMatch>)
    ensures r.Some? ==> StartsAt(s, i, "History:")
    ensures r.Some? ==> r.value.start == i && i + 10 <= r.value.end <= |s| && s[r.value.end - 1] == '.'
    ensures r.Some? ==> r.value.history != [] && r.value.history[|r.value.history| - 1] == '.'
  {
    if !StartsAt(s, i, "History:") then None
    else
      var a := i + 8;
      var p := SkipSpaces(s, a);
      if p == |s| then None
      else
        var q := NextDot(s, p + 1);
        if q < |s| then
          var h := s[p..q + 1];
          assert h[|h| - 1] == s[q];
          Some(HistoryMatch(i, q + 1, h))
        else if p > a && s[p] == '.' then
          var h := s[p - 1..p + 1];
          assert h[1] == s[p];
          Some(HistoryMatch(i, p + 1, h))
        else None
  }

  /** Where the label is at i and its whitespace ends at p: the history runs
      from p to the first '.' after p; when there is none and the whitespace
      is followed directly by '.', the whitespace gives back its last
      character, which with that '.' is the history; otherwise nothing
      matches at i. */
  lemma HistoryAtSpec(s: string, i: nat)
    ensures StartsAt(s, i, "History:") ==>
              var p := SkipSpaces(s, i + 8);
              var r := HistoryAt(s, i);
              && (r.Some? ==>
                    var e := r.value.end;
                    || (p + 1 < e && r.value.history == s[p..e] && NoDotIn(s, p + 1, e - 1))
                    || (e == p + 1 && p > i + 8 && r.value.history == s[p - 1..e] && NoDotIn(s, p + 1, |s|)))
              && (r.None? ==> p == |s| || (NoDotIn(s, p + 1, |s|) && (p == i + 8 || s[p] != '.')))
  {
    if StartsAt(s, i, "History:") {
      var p := SkipSpaces(s, i + 8);
      if p < |s| {
        var q := NextDot(s, p + 1);
        assert NoDotIn(s, p + 1, q);
      }
    }
  }

  /** re.search(r"History:\s*(.+?\.)", s, re.S) from offset i: the match at
      the leftmost offset where there is one (HistoryAt finds nothing where
      the label does not fit). */
  function FindHistory(s: string, i: nat): (r: Option<HistoryMatch>)
    ensures r.None? <==> forall m: nat :: i <= m <= |s| ==> HistoryAt(s, m).None?
    ensures r.Some? ==> i <= r.value.start && HistoryAt(s, r.value.start) == r
    ensures r.Some? ==> forall m :: i <= m < r.value.start ==> HistoryAt(s, m).None?
    decreases |s| + 1 - i
  {
    if i > |s| then None
    else
      match HistoryAt(s, i)
      case Some(h) => Some(h)
      case None => FindHistory(s, i + 1)
  }

  /** One parsed rule. */
  datatype Rule = Rule(text: string, name: string, ruleLabel: string,
                       conditions: seq<Part>, history: Option<string>)

  /** The rule text with its History segment taken out, and that History. */
  function SplitHistory(body: string): (r: (string, Option<string>))
    ensures FindHistory(body, 0).None? ==> r == (body, None)
    ensures FindHistory(body, 0).Some? ==>
              var h := FindHistory(body, 0).value;
              r == (Strip(body[..h.start] + body[h.end..]), Some(Strip(h.history)))
  {
    match FindHistory(body, 0)
    case Some(h) => (Strip(body[..h.start] + body[h.end..]), Some(Strip(h.history)))
    case None => (body, None)
  }

  /** The rule built from its raw text (header included), its header line and its number. */
  function BuildRule(raw: string, header: string, ruleNum: string): (rule: Rule)
    ensures rule.name == RuleName(header) && rule.ruleLabel == RuleLabel(raw, ruleNum)
    ensures rule.conditions == Conditions(rule.text)
    ensures rule.history.None? <==> FindHistory(Strip(DropRuleNumber(raw)), 0).None?
    ensures rule.history.None? ==> rule.text == Strip(DropRuleNumber(raw))
    ensures (rule.text, rule.history) == SplitHistory(Strip(DropRuleNumber(raw)))
  {
    var body := Strip(DropRuleNumber(raw));
    var (text, history) := SplitHistory(body);
    Rule(text, RuleName(header), RuleLabel(raw, ruleNum), Conditions(text), history)
  }

  // ---------------------------------------------------------------------------
  // The rule partition
  // ---------------------------------------------------------------------------

  /** Where rule i's raw text ends: the next header's start, or the end of the text. */
  function RuleEnd(text: string, ms: seq<Match>, i: nat): nat
    requires i < |ms|
  {
    if i + 1 < |ms| then ms[i + 1].start else |text|
  }

  /** Rule i's raw text: from its header's start to the next header's start, stripped. */
  function RawRuleText(text: string, ms: seq<Match>, i: nat): string
    requires i < |ms|
  {
    Strip(Slice(text, ms[i].start, RuleEnd(text, ms, i)))
  }

  /** Rule i's raw text lies within its window: nothing after the next header
      is attributed to it. */
  lemma RawRuleTextWithin(text: string, ms: seq<Match>, i: nat)
    requires i < |ms| && ms[i].start <= RuleEnd(text, ms, i) <= |text|
    ensures exists a: nat, b: nat :: ms[i].start <= a <= b <= RuleEnd(text, ms, i) &&
              RawRuleText(text, ms, i) == text[a..b]
  {
    var lo, hi := ms[i].start, RuleEnd(text, ms, i);
    var w := text[lo..hi];
    assert Slice(text, lo, hi) == w;
    var a, b := StripIsSlice(w);
    assert w[a..b] == text[lo + a..lo + b] by {
      forall k | 0 <= k < b - a ensures w[a..b][k] == text[lo + a..lo + b][k] {
        assert w[a + k] == text[lo + a + k];
      }
    }
    assert RawRuleText(text, ms, i) == text[lo + a..lo + b];
  }

  function RuleAt(text: string, ms: seq<Match>, i: nat): Rule
    requires i < |ms|
  {
    BuildRule(RawRuleText(text, ms, i), ms[i].Group(0), ms[i].Group(1))
  }

  /** The rule number of each header: its first group. */
  function RuleNumbers(ms: seq<Match>): (nums: seq<string>)
    ensures |nums| == |ms| && forall i :: 0 <= i < |ms| ==> nums[i] == ms[i].Group(1)
  {
    seq(|ms|, i requires 0 <= i < |ms| => ms[i].Group(1))
  }

  /** The rule of each header. */
  function RulesOf(text: string, ms: seq<Match>): (rules: seq<Rule>)
    ensures |rules| == |ms|
  {
    seq(|ms|, i requires 0 <= i < |ms| => RuleAt(text, ms, i))
  }

  /** The text the rules are read from: the cleaned pages joined by newlines. */
  function FullText(sub: Substituter, pages: seq<string>): string {
    Join("\n", CleanPages(sub, pages))
  }

  /** The rules of a document: the rule loop over the header matches. */
  function ParsedRules(sub: Substituter, scan: Scanner, pages: seq<string>): (rules: map<string, Rule>)
    ensures scan(RULE_HEADER_PATTERN, FullText(sub, pages)) == [] ==> rules == map[]
  {
    var text := FullText(sub, pages);
    var ms := scan(RULE_HEADER_PATTERN, text);
    Assign(RuleNumbers(ms), RulesOf(text, ms), |ms|)
  }

  /** The dictionary's keys are exactly the numbers the headers cite. */
  lemma ParsedRuleNumbers(sub: Substituter, scan: Scanner, pages: seq<string>)
    ensures var ms := scan(RULE_HEADER_PATTERN, FullText(sub, pages));
            forall k :: k in ParsedRules(sub, scan, pages) <==>
              exists i :: 0 <= i < |ms| && ms[i].Group(1) == k
  {
    var ms := scan(RULE_HEADER_PATTERN, FullText(sub, pages));
    KeysOfCited(RuleNumbers(ms), |ms|);
  }

  /** A rule number cited by several headers keeps the rule of the last one. */
  lemma LastHeaderWins(sub: Substituter, scan: Scanner, pages: seq<string>, i: nat)
    requires var ms := scan(RULE_HEADER_PATTERN, FullText(sub, pages));
             i < |ms| && forall j :: i < j < |ms| ==> ms[j].Group(1) != ms[i].Group(1)
    ensures var text := FullText(sub, pages);
            var ms := scan(RULE_HEADER_PATTERN, text);
            ms[i].Group(1) in ParsedRules(sub, scan, pages) &&
            ParsedRules(sub, scan, pages)[ms[i].Group(1)] == RuleAt(text, ms, i)
  {
    var text := FullText(sub, pages);
    var ms := scan(RULE_HEADER_PATTERN, text);
    AssignLastWins(RuleNumbers(ms), RulesOf(text, ms), |ms|, i);
  }

  /** One pass of the rule loop: the rule of header i. */
  method RuleFromMatch(fullText: string, matches: seq<Match>, i: nat) returns (rule: Rule)
    requires i < |matches|
    ensures rule == RulesOf(fullText, matches)[i]
  {
    var m := matches[i];
    var ruleNum := m.Group(1);
    var start := m.start;
    var end := if i + 1 < |matches| then matches[i + 1].start else |fullText|;
    var ruleTextRaw := Strip(Slice(fullText, start, end));
    var ruleText := Strip(DropRuleNumber(ruleTextRaw));
    var ruleName := RuleName(m.Group(0));
    var ruleLabel := RuleLabel(ruleTextRaw, ruleNum);
    var history: Option<string> := None;
    var hist := FindHistory(ruleText, 0);
    if hist.Some? {
      history := Some(Strip(hist.value.history));
      ruleText := Strip(ruleText[..hist.value.start] + ruleText[hist.value.end..]);
    }
    var conditions := BuildConditions(ruleText);
    assert ruleTextRaw == RawRuleText(fullText, matches, i);
    rule := Rule(ruleText, ruleName, ruleLabel, conditions, history);
  }

  /** One pass of the rule loop: rules[rule_num] = the rule of header i. */
  method StoreRule(fullText: string, matches: seq<Match>, rules: map<string, Rule>, i: nat)
    returns (next: map<string, Rule>)
    requires i < |matches|
    requires rules == Assign(RuleNumbers(matches), RulesOf(fullText, matches), i)
    ensures next == Assign(RuleNumbers(matches), RulesOf(fullText, matches), i + 1)
  {
    var rule := RuleFromMatch(fullText, matches, i);
    next := rules[matches[i].Group(1) := rule];
  }

  /** The rule loop: each header's rule stored under its number, in order. */
  method RuleLoop(fullText: string, matches: seq<Match>) returns (rules: map<string, Rule>)
    ensures rules == Assign(RuleNumbers(matches), RulesOf(fullText, matches), |matches|)
  {
    ghost var nums := RuleNumbers(matches);
    ghost var all := RulesOf(fullText, matches);
    rules := map[];
    assert rules == Assign(nums, all, 0);
    for i := 0 to |matches|
      invariant rules == Assign(nums, all, i)
    {
      rules := StoreRule(fullText, matches, rules, i);
    }
  }

  /** parse_rules_from_pages. */
  method ParseRulesFromPages(sub: Substituter, scan: Scanner, pages: seq<string>)
    returns (rules: map<string, Rule>)
    ensures rules == ParsedRules(sub, scan, pages)
  {
    var cleanedPages := CleanPagesLoop(sub, pages);
    var fullText := Join("\n", cleanedPages);
    var matches := scan(RULE_HEADER_PATTERN, fullText);
    rules := map[];
    if |matches| == 0 {
      return;
    }
    rules := RuleLoop(fullText, matches);
  }
}
