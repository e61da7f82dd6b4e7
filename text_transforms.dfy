/**
 * The string transforms the wrapper templates use: `kebabCase` (and the element selector
 * built from it), `getJSDocComments` and `checkGeneric`.
 */
module TextTransforms {
  import opened Wrappers
  import opened JsStrings
  import opened TypeSyntax

  predicate IsUpper(c: char) { 'A' <= c <= 'Z' }

  predicate IsLowerOrDigit(c: char) { 'a' <= c <= 'z' || '0' <= c <= '9' }

  predicate IsAlnum(c: char) { IsUpper(c) || IsLowerOrDigit(c) }

  /** The characters of the regular-expression class `\w`. */
  predicate IsWordChar(c: char) { IsAlnum(c) || c == '_' }

  // ---------------------------------------------------------------------------------------
  // kebabCase

  /** The number of capital letters from `i` on. */
  function UpperRun(s: string, i: nat): (n: nat)
    requires i <= |s|
    ensures i + n <= |s|
    ensures forall k :: i <= k < i + n ==> IsUpper(s[k])
    ensures i + n == |s| || !IsUpper(s[i + n])
    decreases |s| - i
  {
    if i < |s| && IsUpper(s[i]) then 1 + UpperRun(s, i + 1) else 0
  }

  /** The number of lower-case letters and digits from `i` on. */
  function LowerRun(s: string, i: nat): (n: nat)
    requires i <= |s|
    ensures i + n <= |s|
    ensures forall k :: i <= k < i + n ==> IsLowerOrDigit(s[k])
    ensures i + n == |s| || !IsLowerOrDigit(s[i + n])
    decreases |s| - i
  {
    if i < |s| && IsLowerOrDigit(s[i]) then 1 + LowerRun(s, i + 1) else 0
  }

  /**
   * The length of the match of `/[A-Z]{2,}(?=[A-Z][a-z0-9]*|\b)|[A-Z]?[a-z0-9]*|[A-Z]|[0-9]+/`
   * at `i`. A run of capitals is taken whole when a word boundary follows it, and otherwise
   * without its last capital, which starts the next word; failing that, an optional capital
   * and the lower-case letters and digits after it. The second alternative always matches,
   * possibly empty, so the last two are never reached. The match is empty exactly at the end
   * and at a character that is neither a letter nor a digit.
   */
  function MatchLength(s: string, i: nat): (n: nat)
    requires i <= |s|
    ensures i + n <= |s|
    ensures forall k :: i <= k < i + n ==> IsAlnum(s[k])
    ensures n == 0 <==> i == |s| || !IsAlnum(s[i])
  {
    var m := UpperRun(s, i);
    if m >= 2 && (i + m == |s| || !IsWordChar(s[i + m])) then m
    else if m >= 3 then m - 1
    else
      var u := if i < |s| && IsUpper(s[i]) then 1 else 0;
      u + LowerRun(s, i + u)
  }

  /**
   * `s.match(pattern)` with the global flag, from position `i`: after an empty match the
   * search moves on by one character, and the empty match at the very end is included.
   */
  function RawMatches(s: string, i: nat): seq<string>
    requires i <= |s|
    decreases |s| - i
  {
    if i == |s| then [""]
    else
      var n := MatchLength(s, i);
      if n == 0 then [""] + RawMatches(s, i + 1) else [s[i..i + n]] + RawMatches(s, i + n)
  }

  /** `.filter(Boolean)` on strings. */
  function NonEmpty(xs: seq<string>): (r: seq<string>)
    ensures forall w :: w in r <==> w in xs && w != ""
    decreases |xs|
  {
    if xs == [] then [] else (if xs[0] == "" then [] else [xs[0]]) + NonEmpty(xs[1..])
  }

  lemma NonEmptyCons(x: string, xs: seq<string>)
    ensures NonEmpty([x] + xs) == (if x == "" then [] else [x]) + NonEmpty(xs)
  {
    assert ([x] + xs)[0] == x && ([x] + xs)[1..] == xs;
  }

  lemma NonEmptyOne(w: string)
    requires w != ""
    ensures NonEmpty([w, ""]) == [w]
  {
    NonEmptyCons(w, [""]);
    NonEmptyCons("", []);
  }

  /** A word followed by an empty match contributes the word alone. */
  lemma DropEmptyAfter(w: string, r1: seq<string>, r2: seq<string>, r0: seq<string>)
    requires w != "" && r0 == [w] + r1 && r1 == [""] + r2
    ensures NonEmpty(r0) == [w] + NonEmpty(r2)
  {
    NonEmptyCons(w, r1);
    NonEmptyCons("", r2);
  }

  /** The matches from `i` on, when a word of `n` characters is matched at `i`. */
  lemma WordStep(s: string, i: nat, n: nat)
    requires i < |s| && MatchLength(s, i) == n > 0
    ensures RawMatches(s, i) == [s[i..i + n]] + RawMatches(s, i + n)
  {
  }

  /** The same, for a word that ends at `j`. */
  lemma WordStepTo(s: string, i: nat, j: nat)
    requires i < j <= |s| && MatchLength(s, i) == j - i
    ensures RawMatches(s, i) == [s[i..j]] + RawMatches(s, j)
  {
  }

  /** The matches from `i` on, when the match at `i` is empty. */
  lemma EmptyStep(s: string, i: nat)
    requires i < |s| && MatchLength(s, i) == 0
    ensures RawMatches(s, i) == [""] + RawMatches(s, i + 1)
  {
  }

  /** Where the search resumes after the match at `i`: past the word, or past the character when the match is empty. */
  function NextMatch(s: string, i: nat): (j: nat)
    requires i < |s|
    ensures i < j <= |s|
    ensures MatchLength(s, i) > 0 ==> j == i + MatchLength(s, i)
  {
    if MatchLength(s, i) == 0 then i + 1 else i + MatchLength(s, i)
  }

  lemma MatchesStep(s: string, i: nat)
    requires i < |s|
    ensures MatchLength(s, i) == 0 ==> RawMatches(s, i) == [""] + RawMatches(s, NextMatch(s, i))
    ensures MatchLength(s, i) > 0 ==> RawMatches(s, i) == [s[i..NextMatch(s, i)]] + RawMatches(s, NextMatch(s, i))
  {
  }

  lemma MatchesAtEnd(s: string)
    ensures RawMatches(s, |s|) == [""]
  {
  }

  /** A word that reaches the end of the string is the last match before the empty one at the end. */
  lemma LastMatch(s: string, i: nat)
    requires i < |s| && MatchLength(s, i) == |s| - i
    ensures RawMatches(s, i) == [s[i..], ""]
  {
    WordStepTo(s, i, |s|);
    MatchesAtEnd(s);
    TailPieces(s, i, RawMatches(s, i));
  }

  lemma TailPieces(s: string, i: nat, r: seq<string>)
    requires i <= |s| && r == [s[i..|s|]] + [""]
    ensures r == [s[i..], ""]
  {
    assert s[i..|s|] == s[i..];
  }

  function LowerChar(c: char): (l: char)
    ensures IsUpper(c) ==> 'a' <= l <= 'z'
    ensures !IsUpper(c) ==> l == c
  {
    if IsUpper(c) then (c as int - 'A' as int + 'a' as int) as char else c
  }

  /** `toLowerCase()` on letters and digits. */
  function LowerCase(w: string): (r: string)
    ensures |r| == |w| && forall k :: 0 <= k < |w| ==> r[k] == LowerChar(w[k])
  {
    seq(|w|, k requires 0 <= k < |w| => LowerChar(w[k]))
  }

  function LowerAll(ws: seq<string>): (r: seq<string>)
    ensures |r| == |ws| && forall k :: 0 <= k < |ws| ==> r[k] == LowerCase(ws[k])
  {
    seq(|ws|, k requires 0 <= k < |ws| => LowerCase(ws[k]))
  }

  /** The words `kebabCase` finds: the non-empty matches. */
  function Words(s: string): seq<string>
  {
    NonEmpty(RawMatches(s, 0))
  }

  function KebabCase(s: string): string
  {
    Join(LowerAll(Words(s)), "-")
  }

  /** The letters and digits of a string, in order. */
  function AlnumOf(t: string): string
    decreases |t|
  {
    if t == [] then [] else (if IsAlnum(t[0]) then [t[0]] else []) + AlnumOf(t[1..])
  }

  function Concat(ws: seq<string>): string
    decreases |ws|
  {
    if ws == [] then "" else ws[0] + Concat(ws[1..])
  }

  lemma {:induction false} AlnumOfAppend(a: string, b: string)
    ensures AlnumOf(a + b) == AlnumOf(a) + AlnumOf(b)
    decreases |a|
  {
    if a != [] {
      assert (a + b)[0] == a[0] && (a + b)[1..] == a[1..] + b;
      AlnumOfAppend(a[1..], b);
      var x := if IsAlnum(a[0]) then [a[0]] else [];
      assert AlnumOf(a + b) == x + (AlnumOf(a[1..]) + AlnumOf(b));
      assert AlnumOf(a) == x + AlnumOf(a[1..]);
    } else {
      assert a + b == b;
    }
  }

  lemma {:induction false} AlnumOfAlnum(a: string)
    requires forall k :: 0 <= k < |a| ==> IsAlnum(a[k])
    ensures AlnumOf(a) == a
    decreases |a|
  {
    if a != [] {
      assert forall k :: 0 <= k < |a[1..]| ==> IsAlnum(a[1..][k]);
      AlnumOfAlnum(a[1..]);
      assert IsAlnum(a[0]) && a == [a[0]] + a[1..];
    }
  }

  /** Non-empty runs of letters and digits. */
  predicate AlnumWords(ws: seq<string>)
  {
    forall w :: w in ws ==> w != "" && forall c :: c in w ==> IsAlnum(c)
  }

  /** The words found from `i` on are non-empty runs of letters and digits. */
  lemma {:induction false} MatchesAreWords(s: string, i: nat)
    requires i <= |s|
    ensures AlnumWords(NonEmpty(RawMatches(s, i)))
    decreases |s| - i
  {
    if i == |s| {
      MatchesAtEnd(s);
    } else {
      MatchesAreWords(s, NextMatch(s, i));
      AlnumWordsStep(s, i);
    }
  }

  lemma AlnumWordsStep(s: string, i: nat)
    requires i < |s| && AlnumWords(NonEmpty(RawMatches(s, NextMatch(s, i))))
    ensures AlnumWords(NonEmpty(RawMatches(s, i)))
  {
    var j := NextMatch(s, i);
    MatchesStep(s, i);
    if MatchLength(s, i) == 0 {
      AlnumWordsCons("", RawMatches(s, j));
    } else {
      SliceAlnum(s, i, j);
      AlnumWordsCons(s[i..j], RawMatches(s, j));
    }
  }

  lemma AlnumWordsCons(w: string, r: seq<string>)
    requires w == "" || forall c :: c in w ==> IsAlnum(c)
    requires AlnumWords(NonEmpty(r))
    ensures AlnumWords(NonEmpty([w] + r))
  {
    NonEmptyCons(w, r);
  }

  lemma SliceAlnum(s: string, i: nat, j: nat)
    requires i <= j <= |s| && forall k :: i <= k < j ==> IsAlnum(s[k])
    ensures forall c :: c in s[i..j] ==> IsAlnum(c)
  {
  }

  /** Together the words found from `i` on are exactly the letters and digits of `s[i..]`, in order. */
  lemma {:induction false} MatchesCoverAlnum(s: string, i: nat)
    requires i <= |s|
    ensures Concat(NonEmpty(RawMatches(s, i))) == AlnumOf(s[i..])
    decreases |s| - i
  {
    if i == |s| {
      MatchesAtEnd(s);
      assert s[i..] == [];
    } else {
      MatchesCoverAlnum(s, NextMatch(s, i));
      CoverStep(s, i);
    }
  }

  lemma CoverStep(s: string, i: nat)
    requires i < |s| && Concat(NonEmpty(RawMatches(s, NextMatch(s, i)))) == AlnumOf(s[NextMatch(s, i)..])
    ensures Concat(NonEmpty(RawMatches(s, i))) == AlnumOf(s[i..])
  {
    var j := NextMatch(s, i);
    MatchesStep(s, i);
    if MatchLength(s, i) == 0 {
      SkippedCharacter(s, i, j, RawMatches(s, j));
    } else {
      MatchedWord(s, i, j, RawMatches(s, j));
    }
  }

  /** An empty match at a character that is not a letter or digit adds nothing. */
  lemma SkippedCharacter(s: string, i: nat, j: nat, r: seq<string>)
    requires i < |s| && j == i + 1 && !IsAlnum(s[i])
    requires Concat(NonEmpty(r)) == AlnumOf(s[j..])
    ensures Concat(NonEmpty([""] + r)) == AlnumOf(s[i..])
  {
    NonEmptyCons("", r);
    assert NonEmpty([""] + r) == NonEmpty(r);
    assert s[i..][0] == s[i] && s[i..][1..] == s[j..];
    assert AlnumOf(s[i..]) == [] + AlnumOf(s[j..]);
  }

  /** A word of letters and digits is kept whole. */
  lemma MatchedWord(s: string, i: nat, j: nat, r: seq<string>)
    requires i < j <= |s| && forall k :: i <= k < j ==> IsAlnum(s[k])
    requires Concat(NonEmpty(r)) == AlnumOf(s[j..])
    ensures Concat(NonEmpty([s[i..j]] + r)) == AlnumOf(s[i..])
  {
    var w := s[i..j];
    var rest := NonEmpty(r);
    NonEmptyCons(w, r);
    assert s[i..] == w + s[j..];
    AlnumOfAppend(w, s[j..]);
    AlnumOfAlnum(w);
    assert Concat([w] + rest) == w + Concat(rest);
  }

  /** Lower-case letters, digits and dashes. */
  predicate IsKebabChar(c: char) { IsLowerOrDigit(c) || c == '-' }

  /** `s` with its dashes removed. */
  function WithoutDashes(t: string): string
    decreases |t|
  {
    if t == [] then [] else (if t[0] == '-' then [] else [t[0]]) + WithoutDashes(t[1..])
  }

  lemma {:induction false} WithoutDashesAppend(a: string, b: string)
    ensures WithoutDashes(a + b) == WithoutDashes(a) + WithoutDashes(b)
    decreases |a|
  {
    if a == [] {
      assert a + b == b;
    } else {
      assert (a + b)[0] == a[0] && (a + b)[1..] == a[1..] + b;
      WithoutDashesAppend(a[1..], b);
      var x := if a[0] == '-' then [] else [a[0]];
      assert WithoutDashes(a + b) == x + (WithoutDashes(a[1..]) + WithoutDashes(b));
    }
  }

  lemma {:induction false} WithoutDashesNone(a: string)
    requires '-' !in a
    ensures WithoutDashes(a) == a
    decreases |a|
  {
    if a != [] {
      assert a[0] in a && a == [a[0]] + a[1..];
      WithoutDashesNone(a[1..]);
    }
  }

  /** Removing the dashes from a dash-joined list of dash-free words concatenates the words. */
  lemma {:induction false} WithoutDashesJoin(ws: seq<string>)
    requires forall w :: w in ws ==> '-' !in w
    ensures WithoutDashes(Join(ws, "-")) == Concat(ws)
    decreases |ws|
  {
    if |ws| == 1 {
      WithoutDashesNone(ws[0]);
      assert Concat(ws) == ws[0] + Concat(ws[1..]);
    } else if |ws| > 1 {
      WithoutDashesJoin(ws[1..]);
      WithoutDashesAppend(ws[0] + "-", Join(ws[1..], "-"));
      WithoutDashesAppend(ws[0], "-");
      WithoutDashesNone(ws[0]);
    }
  }

  lemma {:induction false} ConcatLower(ws: seq<string>)
    ensures Concat(LowerAll(ws)) == LowerCase(Concat(ws))
    decreases |ws|
  {
    if ws != [] {
      ConcatLower(ws[1..]);
      assert LowerAll(ws) == [LowerCase(ws[0])] + LowerAll(ws[1..]);
      assert Concat(ws) == ws[0] + Concat(ws[1..]);
    }
  }

  lemma {:induction false} JoinKebabChars(ws: seq<string>)
    requires forall w :: w in ws ==> forall c :: c in w ==> IsLowerOrDigit(c)
    ensures forall c :: c in Join(ws, "-") ==> IsKebabChar(c)
    decreases |ws|
  {
    if |ws| > 1 {
      assert ws[0] in ws && forall w :: w in ws[1..] ==> w in ws;
      JoinKebabChars(ws[1..]);
      assert Join(ws, "-") == ws[0] + "-" + Join(ws[1..], "-");
    } else if |ws| == 1 {
      assert ws[0] in ws;
    }
  }

  /** The lower-cased words: non-empty, made of lower-case letters and digits. */
  lemma LoweredWords(s: string)
    ensures forall w :: w in LowerAll(Words(s)) ==> w != "" && forall c :: c in w ==> IsLowerOrDigit(c)
  {
    MatchesAreWords(s, 0);
    var ws := Words(s);
    forall w | w in LowerAll(ws)
      ensures w != "" && forall c :: c in w ==> IsLowerOrDigit(c)
    {
      var k :| 0 <= k < |ws| && w == LowerCase(ws[k]);
      assert ws[k] in ws;
      assert forall j :: 0 <= j < |w| ==> w[j] == LowerChar(ws[k][j]) && ws[k][j] in ws[k];
    }
  }

  /**
   * `kebabCase` yields lower-case letters, digits and dashes; split at its dashes it gives
   * back the lower-cased words, none of them empty (so no dash leads, trails or doubles);
   * and without its dashes it is the input's letters and digits, lower-cased, in order.
   */
  lemma KebabCaseShape(s: string)
    ensures forall c :: c in KebabCase(s) ==> IsKebabChar(c)
    ensures Words(s) != [] ==> Split(KebabCase(s), '-') == LowerAll(Words(s))
    ensures forall w :: w in LowerAll(Words(s)) ==> w != ""
    ensures WithoutDashes(KebabCase(s)) == LowerCase(AlnumOf(s))
    ensures KebabCase(s) == "" <==> AlnumOf(s) == ""
  {
    var ws := LowerAll(Words(s));
    LoweredWords(s);
    JoinKebabChars(ws);
    assert forall w :: w in ws ==> '-' !in w;
    if ws != [] {
      assert forall i :: 0 <= i < |ws| ==> '-' !in ws[i];
      SplitJoin(ws, '-');
    }
    WithoutDashesJoin(ws);
    ConcatLower(Words(s));
    MatchesCoverAlnum(s, 0);
    assert s[0..] == s;
    if ws != [] {
      assert ws[0] in ws;
      ContainsJoinPart(ws, "-", 0);
      if KebabCase(s) == "" {
        ContainsInEmpty(ws[0]);
      }
    }
  }

  /** Where the search resumes after the piece at `i`: past a dash, or past a word and the dash after it. */
  function NextPiece(t: string, i: nat): (j: nat)
    requires i < |t|
    ensures i < j <= |t|
  {
    if t[i] == '-' then i + 1
    else if i + LowerRun(t, i) == |t| then |t|
    else i + LowerRun(t, i) + 1
  }

  /** On a string of lower-case letters, digits and dashes, the words are the non-empty dash-separated pieces. */
  lemma {:induction false} KebabWords(t: string, i: nat)
    requires i <= |t| && forall c :: c in t ==> IsKebabChar(c)
    ensures NonEmpty(RawMatches(t, i)) == NonEmpty(Split(t[i..], '-'))
    decreases |t| - i
  {
    if i == |t| {
      assert t[i..] == [];
      assert RawMatches(t, i) == [""];
      assert Split(t[i..], '-') == [""];
      NonEmptyCons("", []);
    } else {
      KebabWords(t, NextPiece(t, i));
      KebabPiece(t, i);
    }
  }

  lemma KebabPiece(t: string, i: nat)
    requires i < |t| && forall c :: c in t ==> IsKebabChar(c)
    requires NonEmpty(RawMatches(t, NextPiece(t, i))) == NonEmpty(Split(t[NextPiece(t, i)..], '-'))
    ensures NonEmpty(RawMatches(t, i)) == NonEmpty(Split(t[i..], '-'))
  {
    if t[i] == '-' {
      KebabDash(t, i);
    } else {
      assert t[i] in t;
      assert IsLowerOrDigit(t[i]);
      var n := LowerRun(t, i);
      KebabWordLength(t, i);
      if i + n == |t| {
        KebabLastWord(t, i);
      } else {
        assert t[i + n] in t;
        assert t[i + n] == '-';
        KebabInnerWord(t, i);
      }
    }
  }

  lemma KebabDash(t: string, i: nat)
    requires i < |t| && t[i] == '-'
    requires NonEmpty(RawMatches(t, i + 1)) == NonEmpty(Split(t[i + 1..], '-'))
    ensures NonEmpty(RawMatches(t, i)) == NonEmpty(Split(t[i..], '-'))
  {
    EmptyStep(t, i);
    NonEmptyCons("", RawMatches(t, i + 1));
    SplitAtDash(t, i);
    NonEmptyCons("", Split(t[i + 1..], '-'));
  }

  lemma SplitAtDash(t: string, i: nat)
    requires i < |t| && t[i] == '-'
    ensures Split(t[i..], '-') == [""] + Split(t[i + 1..], '-')
  {
    assert t[i..][1..] == t[i + 1..];
  }

  lemma KebabWordLength(t: string, i: nat)
    requires i < |t| && IsLowerOrDigit(t[i])
    ensures MatchLength(t, i) == LowerRun(t, i) > 0
  {
    assert UpperRun(t, i) == 0;
  }

  lemma KebabLastWord(t: string, i: nat)
    requires i < |t| && MatchLength(t, i) == LowerRun(t, i) > 0 && i + LowerRun(t, i) == |t|
    ensures NonEmpty(RawMatches(t, i)) == NonEmpty(Split(t[i..], '-'))
  {
    LastWordMatched(t, i);
    LastWordSplit(t, i);
  }

  lemma LastWordMatched(t: string, i: nat)
    requires i < |t| && MatchLength(t, i) == |t| - i
    ensures NonEmpty(RawMatches(t, i)) == [t[i..]]
  {
    LastMatch(t, i);
    NonEmptyOne(t[i..]);
  }

  lemma LastWordSplit(t: string, i: nat)
    requires i < |t| && i + LowerRun(t, i) == |t|
    ensures NonEmpty(Split(t[i..], '-')) == [t[i..]]
  {
    var w := t[i..];
    assert forall k :: 0 <= k < |w| ==> IsLowerOrDigit(w[k]);
    assert '-' !in w;
    SplitNoSeparator(w, [], '-');
    assert w + [] == w;
    var e: string := [];
    assert Split(e, '-') == [""];
    assert Split(w, '-') == [w + ""] + [""][1..];
    NonEmptyCons(w, []);
  }

  lemma KebabInnerWord(t: string, i: nat)
    requires i < |t| && MatchLength(t, i) == LowerRun(t, i) > 0
    requires i + LowerRun(t, i) < |t| && t[i + LowerRun(t, i)] == '-'
    requires NonEmpty(RawMatches(t, i + LowerRun(t, i) + 1)) == NonEmpty(Split(t[i + LowerRun(t, i) + 1..], '-'))
    ensures NonEmpty(RawMatches(t, i)) == NonEmpty(Split(t[i..], '-'))
  {
    InnerWordMatched(t, i);
    InnerWordSplit(t, i);
  }

  lemma InnerWordMatched(t: string, i: nat)
    requires i < |t| && MatchLength(t, i) == LowerRun(t, i) > 0
    requires i + LowerRun(t, i) < |t| && t[i + LowerRun(t, i)] == '-'
    ensures NonEmpty(RawMatches(t, i)) == [t[i..i + LowerRun(t, i)]] + NonEmpty(RawMatches(t, i + LowerRun(t, i) + 1))
  {
    var n := LowerRun(t, i);
    InnerWordStep(t, i);
    DashAfterWord(t, i);
    DropEmptyAfter(t[i..i + n], RawMatches(t, i + n), RawMatches(t, i + n + 1), RawMatches(t, i));
  }

  lemma InnerWordStep(t: string, i: nat)
    requires i < |t| && MatchLength(t, i) == LowerRun(t, i) > 0
    ensures RawMatches(t, i) == [t[i..i + LowerRun(t, i)]] + RawMatches(t, i + LowerRun(t, i))
  {
    WordStep(t, i, LowerRun(t, i));
  }

  lemma DashAfterWord(t: string, i: nat)
    requires i < |t| && i + LowerRun(t, i) < |t| && t[i + LowerRun(t, i)] == '-'
    ensures RawMatches(t, i + LowerRun(t, i)) == [""] + RawMatches(t, i + LowerRun(t, i) + 1)
  {
    EmptyStep(t, i + LowerRun(t, i));
  }

  lemma InnerWordSplit(t: string, i: nat)
    requires i < |t| && LowerRun(t, i) > 0
    requires i + LowerRun(t, i) < |t| && t[i + LowerRun(t, i)] == '-'
    ensures NonEmpty(Split(t[i..], '-')) == [t[i..i + LowerRun(t, i)]] + NonEmpty(Split(t[i + LowerRun(t, i) + 1..], '-'))
  {
    var n := LowerRun(t, i);
    var w := t[i..i + n];
    assert forall k :: 0 <= k < |w| ==> IsLowerOrDigit(w[k]);
    assert '-' !in w;
    assert t[i..] == w + t[i + n..];
    SplitNoSeparator(w, t[i + n..], '-');
    assert t[i + n..][0] == '-' && t[i + n..][1..] == t[i + n + 1..];
    var sb := Split(t[i + n..], '-');
    assert sb == [""] + Split(t[i + n + 1..], '-');
    assert sb[0] == "" && sb[1..] == Split(t[i + n + 1..], '-');
    assert w + "" == w;
    assert Split(t[i..], '-') == [w] + Split(t[i + n + 1..], '-');
    NonEmptyCons(w, Split(t[i + n + 1..], '-'));
  }

  lemma {:induction false} NonEmptyKeeps(ws: seq<string>)
    requires forall w :: w in ws ==> w != ""
    ensures NonEmpty(ws) == ws
    decreases |ws|
  {
    if ws != [] {
      assert ws[0] in ws && forall w :: w in ws[1..] ==> w in ws;
      NonEmptyKeeps(ws[1..]);
      assert ws == [ws[0]] + ws[1..];
    }
  }

  lemma LowerCaseKeeps(w: string)
    requires forall c :: c in w ==> IsLowerOrDigit(c)
    ensures LowerCase(w) == w
  {
    assert forall k :: 0 <= k < |w| ==> w[k] in w;
  }

  /** `kebabCase` is idempotent: a kebab-case name is its own kebab case. */
  lemma KebabCaseIdempotent(s: string)
    ensures KebabCase(KebabCase(s)) == KebabCase(s)
  {
    var r := KebabCase(s);
    var ws := LowerAll(Words(s));
    KebabCaseShape(s);
    LoweredWords(s);
    KebabWords(r, 0);
    assert r[0..] == r;
    if ws == [] {
      assert r == "";
      assert Words(r) == NonEmpty([""]) == [];
    } else {
      NonEmptyKeeps(ws);
      assert Words(r) == ws;
      forall k | 0 <= k < |ws|
        ensures LowerCase(ws[k]) == ws[k]
      {
        assert ws[k] in ws;
        LowerCaseKeeps(ws[k]);
      }
      assert LowerAll(ws) == ws;
    }
  }

  /** The component names of the generator's list split as intended, except where the list overrides the name. */
  lemma GroupedBarKebab()
    ensures KebabCase("GroupedBar") == "grouped-bar"
  {
    GroupedBarWords();
    GroupedBarLowered();
  }

  lemma XYLabelsKebab()
    ensures KebabCase("XYLabels") == "xy-labels"
  {
    XYLabelsWords();
    XYLabelsLowered();
  }

  /** Why the list spells this one out as `topojson-map`. */
  lemma TopoJSONMapKebab()
    ensures KebabCase("TopoJSONMap") == "topo-json-map"
  {
    TopoJSONMapWords();
    TopoJSONMapLowered();
  }

  lemma GroupedBarLowered()
    ensures Join(LowerAll(["Grouped", "Bar"]), "-") == "grouped-bar"
  {
    assert LowerCase("Grouped") == "grouped" && LowerCase("Bar") == "bar";
    assert LowerAll(["Grouped", "Bar"]) == ["grouped", "bar"];
  }

  lemma XYLabelsLowered()
    ensures Join(LowerAll(["XY", "Labels"]), "-") == "xy-labels"
  {
    assert LowerCase("XY") == "xy" && LowerCase("Labels") == "labels";
    assert LowerAll(["XY", "Labels"]) == ["xy", "labels"];
  }

  lemma TopoJSONMapLowered()
    ensures Join(LowerAll(["Topo", "JSON", "Map"]), "-") == "topo-json-map"
  {
    assert LowerCase("Topo") == "topo" && LowerCase("JSON") == "json" && LowerCase("Map") == "map";
    assert LowerAll(["Topo", "JSON", "Map"]) == ["topo", "json", "map"];
    assert Join(["topo", "json", "map"], "-") == "topo" + "-" + Join(["json", "map"], "-");
  }

  /** A capital followed by lower-case letters or digits, up to a character that is neither, is one word. */
  lemma CapitalizedWord(s: string, i: nat, n: nat)
    requires 2 <= n && i + n <= |s|
    requires IsUpper(s[i]) && forall k :: i < k < i + n ==> IsLowerOrDigit(s[k])
    requires i + n == |s| || !IsLowerOrDigit(s[i + n])
    ensures MatchLength(s, i) == n
  {
    assert UpperRun(s, i + 1) == 0;
    assert UpperRun(s, i) == 1;
  }

  /** A run of capitals followed by a lower-case letter or digit loses its last capital to the next word. */
  lemma AcronymWord(s: string, i: nat, m: nat)
    requires 2 <= m && i + m + 1 < |s|
    requires forall k :: i <= k <= i + m ==> IsUpper(s[k])
    requires IsLowerOrDigit(s[i + m + 1])
    ensures MatchLength(s, i) == m
  {
  }

  lemma GroupedBarMatches(s: string)
    requires s == "GroupedBar"
    ensures RawMatches(s, 0) == ["Grouped", "Bar", ""]
  {
    CapitalizedWord(s, 0, 7);
    CapitalizedWord(s, 7, 3);
    TwoWords(s, 0, 7);
    GroupedBarPieces(s);
  }

  lemma GroupedBarPieces(s: string)
    requires s == "GroupedBar"
    ensures s[0..7] == "Grouped" && s[7..] == "Bar"
  {
  }

  lemma GroupedBarWords()
    ensures Words("GroupedBar") == ["Grouped", "Bar"]
  {
    GroupedBarMatches("GroupedBar");
    NonEmptyCons("Grouped", ["Bar", ""]);
    NonEmptyCons("Bar", [""]);
    NonEmptyCons("", []);
  }

  lemma XYLabelsMatches(s: string)
    requires s == "XYLabels"
    ensures RawMatches(s, 0) == ["XY", "Labels", ""]
  {
    AcronymWord(s, 0, 2);
    CapitalizedWord(s, 2, 6);
    TwoWords(s, 0, 2);
    XYLabelsPieces(s);
  }

  lemma XYLabelsPieces(s: string)
    requires s == "XYLabels"
    ensures s[0..2] == "XY" && s[2..] == "Labels"
  {
  }

  lemma XYLabelsWords()
    ensures Words("XYLabels") == ["XY", "Labels"]
  {
    XYLabelsMatches("XYLabels");
    NonEmptyCons("XY", ["Labels", ""]);
    NonEmptyCons("Labels", [""]);
    NonEmptyCons("", []);
  }

  lemma TopoJSONMapMatches(s: string)
    requires s == "TopoJSONMap"
    ensures RawMatches(s, 0) == ["Topo", "JSON", "Map", ""]
  {
    CapitalizedWord(s, 0, 4);
    AcronymWord(s, 4, 4);
    CapitalizedWord(s, 8, 3);
    ThreeWords(s, 4, 8);
    TopoJSONMapPieces(s);
  }

  lemma TopoJSONMapPieces(s: string)
    requires s == "TopoJSONMap"
    ensures s[0..4] == "Topo" && s[4..8] == "JSON" && s[8..] == "Map"
  {
  }

  /** A word from `i` to `j`, then the word of the rest. */
  lemma TwoWords(s: string, i: nat, j: nat)
    requires i < j < |s| && MatchLength(s, i) == j - i && MatchLength(s, j) == |s| - j
    ensures RawMatches(s, i) == [s[i..j], s[j..], ""]
  {
    WordStepTo(s, i, j);
    LastMatch(s, j);
  }

  /** A word from 0 to `i`, one from `i` to `j`, then the word of the rest. */
  lemma ThreeWords(s: string, i: nat, j: nat)
    requires 0 < i < j < |s|
    requires MatchLength(s, 0) == i && MatchLength(s, i) == j - i && MatchLength(s, j) == |s| - j
    ensures RawMatches(s, 0) == [s[0..i], s[i..j], s[j..], ""]
  {
    WordStepTo(s, 0, i);
    TwoWords(s, i, j);
  }

  lemma TopoJSONMapWords()
    ensures Words("TopoJSONMap") == ["Topo", "JSON", "Map"]
  {
    TopoJSONMapMatches("TopoJSONMap");
    NonEmptyCons("Topo", ["JSON", "Map", ""]);
    NonEmptyCons("JSON", ["Map", ""]);
    NonEmptyCons("Map", [""]);
    NonEmptyCons("", []);
  }

  // ---------------------------------------------------------------------------------------
  // The element selector

  /** `vis-${kebabCaseName ?? kebabCase(componentName)}`. */
  function Selector(componentName: string, kebabCaseName: Option<string>): (r: string)
    ensures StartsWith(r, "vis-")
  {
    "vis-" + match kebabCaseName { case Some(name) => name case None => KebabCase(componentName) }
  }

  /** Without an override the selector is `vis-` and the kebab case of the name, lower-case letters, digits and dashes only. */
  lemma SelectorFromName(componentName: string)
    ensures Selector(componentName, None)[4..] == KebabCase(componentName)
    ensures forall c :: c in Selector(componentName, None)[4..] ==> IsKebabChar(c)
  {
    KebabCaseShape(componentName);
  }

  /** An override is used as it is. */
  lemma SelectorOverride(componentName: string, name: string)
    ensures Selector(componentName, Some(name)) == "vis-" + name
  {
  }

  lemma PlotlineSelector()
    ensures Selector("Plotline", None) == "vis-plotline"
  {
    PlotlineKebab("Plotline");
  }

  lemma PlotlineMatches(s: string)
    requires s == "Plotline"
    ensures RawMatches(s, 0) == ["Plotline", ""]
  {
    CapitalizedWord(s, 0, 8);
    LastMatch(s, 0);
    assert s[0..] == s;
  }

  lemma PlotlineKebab(s: string)
    requires s == "Plotline"
    ensures Selector(s, None) == "vis-plotline"
  {
    PlotlineMatches(s);
    NonEmptyCons(s, [""]);
    NonEmptyCons("", []);
    PlotlineLowered();
  }

  lemma PlotlineLowered()
    ensures Join(LowerAll(["Plotline"]), "-") == "plotline"
  {
    assert LowerCase("Plotline") == "plotline";
    assert LowerAll(["Plotline"]) == ["plotline"];
  }

  // ---------------------------------------------------------------------------------------
  // getJSDocComments

  const Nbsp: char := '\U{00A0}'

  /** The indent of a continuation line of a comment block. */
  const DocIndent: string := "   * "

  /** `.replace(/\u00a0/g, '\\')`: every no-break space becomes a backslash; nothing else changes. */
  function ReplaceNbsp(s: string): (r: string)
    ensures |r| == |s| && Nbsp !in r
  {
    seq(|s|, k requires 0 <= k < |s| => if s[k] == Nbsp then '\\' else s[k])
  }

  /** The lines of a block: the first stays where it is, every later one gets the indent. */
  function IndentLines(lines: seq<string>): (r: seq<string>)
    ensures |r| == |lines|
  {
    seq(|lines|, k requires 0 <= k < |lines| => if k == 0 then lines[0] else DocIndent + lines[k])
  }

  /** The comment block of one JSDoc comment; an absent or empty comment gives `/**  */`. */
  function CommentBlock(doc: Option<string>): string
  {
    var text := if doc.Some? then doc.value else "";
    "/** " + Join(IndentLines(Split(ReplaceNbsp(text), '\n')), "\n") + " */"
  }

  /** The blocks of all comments, one after the other, separated by line breaks. */
  function JSDocComments(docs: seq<Option<string>>): string
  {
    Join(seq(|docs|, i requires 0 <= i < |docs| => CommentBlock(docs[i])), "\n")
  }

  /** `getJSDocComments`: maps each comment to its block, indenting the lines of a block in a loop. */
  method GetJSDocComments(docs: seq<Option<string>>) returns (r: string)
    ensures r == JSDocComments(docs)
  {
    var blocks: seq<string> := [];
    for i := 0 to |docs|
      invariant blocks == seq(i, k requires 0 <= k < i => CommentBlock(docs[k]))
    {
      var text := if docs[i].Some? then docs[i].value else "";
      var strings := Split(ReplaceNbsp(text), '\n');
      ghost var lines := strings;
      for j := 1 to |strings|
        invariant |strings| == |lines|
        invariant forall k :: 0 <= k < |lines| ==> strings[k] == if 1 <= k < j then DocIndent + lines[k] else lines[k]
      {
        strings := strings[j := DocIndent + strings[j]];
      }
      assert strings == IndentLines(lines);
      blocks := blocks + ["/** " + Join(strings, "\n") + " */"];
    }
    r := Join(blocks, "\n");
  }

  /** Drops the indent of every line after the first, where it is present. */
  function Unindent(lines: seq<string>): (r: seq<string>)
    ensures |r| == |lines|
  {
    seq(|lines|, k requires 0 <= k < |lines| =>
      if k > 0 && StartsWith(lines[k], DocIndent) then lines[k][|DocIndent|..] else lines[k])
  }

  /** Reads a comment block back: the text between the markers, split into lines, unindented and joined. */
  function Uncomment(block: string): (r: Option<string>)
    ensures r.Some? <==> |block| >= 7 && StartsWith(block, "/** ") && block[|block| - 3..] == " */"
  {
    if |block| >= 7 && StartsWith(block, "/** ") && block[|block| - 3..] == " */" then
      Some(Join(Unindent(Split(block[4..|block| - 3], '\n')), "\n"))
    else None
  }

  lemma UnindentIndent(lines: seq<string>)
    ensures Unindent(IndentLines(lines)) == lines
  {
    var ind := IndentLines(lines);
    forall k | 0 < k < |lines|
      ensures Unindent(ind)[k] == lines[k]
    {
      assert ind[k] == DocIndent + lines[k];
      assert ind[k][..|DocIndent|] == DocIndent;
      assert ind[k][|DocIndent|..] == lines[k];
    }
  }

  lemma IndentedLinesUnbroken(lines: seq<string>)
    requires forall k :: 0 <= k < |lines| ==> '\n' !in lines[k]
    ensures forall k :: 0 <= k < |lines| ==> '\n' !in IndentLines(lines)[k]
  {
    forall k | 0 < k < |lines|
      ensures '\n' !in IndentLines(lines)[k]
    {
      assert IndentLines(lines)[k] == DocIndent + lines[k];
    }
  }

  /** Reading a block back gives the comment, with its no-break spaces turned into backslashes. */
  lemma CommentBlockRoundTrip(doc: Option<string>)
    ensures Uncomment(CommentBlock(doc)) == Some(ReplaceNbsp(if doc.Some? then doc.value else ""))
  {
    var text := ReplaceNbsp(if doc.Some? then doc.value else "");
    var lines := Split(text, '\n');
    var body := Join(IndentLines(lines), "\n");
    var block := "/** " + body + " */";
    assert CommentBlock(doc) == block;
    assert block[..4] == "/** ";
    assert block[|block| - 3..] == " */";
    assert block[4..|block| - 3] == body;
    IndentedLinesUnbroken(lines);
    SplitJoin(IndentLines(lines), '\n');
    UnindentIndent(lines);
    JoinSplit(text, '\n');
  }

  /** A comment without no-break spaces comes back exactly. */
  lemma CommentBlockKeepsText(text: string)
    requires Nbsp !in text
    ensures Uncomment(CommentBlock(Some(text))) == Some(text)
  {
    CommentBlockRoundTrip(Some(text));
    assert ReplaceNbsp(text) == text;
  }

  /** No block holds a no-break space, and so neither does their join. */
  lemma JSDocCommentsWithoutNbsp(docs: seq<Option<string>>)
    ensures Nbsp !in JSDocComments(docs)
  {
    var blocks := seq(|docs|, i requires 0 <= i < |docs| => CommentBlock(docs[i]));
    forall i | 0 <= i < |docs|
      ensures Nbsp !in blocks[i]
    {
      var text := ReplaceNbsp(if docs[i].Some? then docs[i].value else "");
      var lines := Split(text, '\n');
      forall k | 0 <= k < |lines|
        ensures Nbsp !in IndentLines(lines)[k]
      {
        assert lines[k] in lines;
        ContainsJoinPart(lines, "\n", k);
        var a, b :| Join(lines, "\n") == a + lines[k] + b;
        JoinSplit(text, '\n');
        assert forall c :: c in lines[k] ==> c in a + lines[k] + b;
      }
      JoinExcludes(IndentLines(lines), "\n", Nbsp);
    }
    JoinExcludes(blocks, "\n", Nbsp);
  }

  /** Every comment's block appears in the output. */
  lemma JSDocCommentsHoldBlocks(docs: seq<Option<string>>, i: nat)
    requires i < |docs|
    ensures Contains(JSDocComments(docs), CommentBlock(docs[i]))
  {
    ContainsJoinPart(seq(|docs|, i requires 0 <= i < |docs| => CommentBlock(docs[i])), "\n", i);
  }

  // ---------------------------------------------------------------------------------------
  // checkGeneric

  /** The characters of the regular-expression class `\s`: white space and line terminators. */
  predicate IsJsWhitespace(c: char)
  {
    c == '\t' || c == '\n' || c == '\U{000B}' || c == '\U{000C}' || c == '\r' || c == ' '
    || c == '\U{00A0}' || c == '\U{1680}' || ('\U{2000}' <= c <= '\U{200A}')
    || c == '\U{2028}' || c == '\U{2029}' || c == '\U{202F}' || c == '\U{205F}'
    || c == '\U{3000}' || c == '\U{FEFF}'
  }

  /** `[<|\s]`, the character before a generic argument. */
  predicate IsGenericOpener(c: char)
  {
    c == '<' || c == '|' || IsJsWhitespace(c)
  }

  /** `/[<|\s](Datum)>/` matches at `i`. */
  predicate DatumAt(s: string, i: nat)
  {
    i + 7 <= |s| && IsGenericOpener(s[i]) && s[i + 1..i + 6] == "Datum" && s[i + 6] == '>'
  }

  /** `s.search(/[<|\s](Datum)>/)` from `from` on: the first match, if any. */
  function SearchDatum(s: string, from: nat): (r: Option<nat>)
    ensures r.Some? ==> from <= r.value && DatumAt(s, r.value)
    ensures r.Some? ==> forall j :: from <= j < r.value ==> !DatumAt(s, j)
    ensures r.None? ==> forall j :: from <= j ==> !DatumAt(s, j)
    decreases |s| - from
  {
    if from + 7 > |s| then None
    else if DatumAt(s, from) then Some(from)
    else SearchDatum(s, from + 1)
  }

  /** `generics?.find(t => t.name === 'Datum')` finds something. */
  predicate DeclaresDatum(generics: Option<seq<Generic>>)
  {
    generics.Some? && exists g :: g in generics.value && g.name == "Datum"
  }

  /**
   * `checkGeneric`: a type that mentions `Datum` as a generic argument, in a component
   * without a `Datum` type parameter, gets the component's first type parameter in its place
   * (the first mention only). Without any type parameter to use the generator throws.
   */
  function CheckGeneric(typ: string, generics: Option<seq<Generic>>): (r: Result<string>)
  {
    var found := SearchDatum(typ, 0);
    if found.Some? && !DeclaresDatum(generics) then
      if generics.None? || |generics.value| == 0 then Failure("TypeError: no type parameter to put in place of Datum")
      else Ok(typ[..found.value + 1] + generics.value[0].name + typ[found.value + 6..])
    else Ok(typ)
  }

  /** The type is kept exactly when it has no `Datum` argument or the component declares `Datum` itself. */
  lemma CheckGenericKeeps(typ: string, generics: Option<seq<Generic>>)
    ensures CheckGeneric(typ, generics) == Ok(typ) <==> (forall j :: !DatumAt(typ, j)) || DeclaresDatum(generics)
  {
    var found := SearchDatum(typ, 0);
    if found.Some? && !DeclaresDatum(generics) && generics.Some? && |generics.value| > 0 {
      var i := found.value;
      var name := generics.value[0].name;
      assert generics.value[0] in generics.value;
    }
  }

  /** The generator fails exactly when a `Datum` argument occurs and there is no type parameter at all. */
  lemma CheckGenericFails(typ: string, generics: Option<seq<Generic>>)
    ensures CheckGeneric(typ, generics).Failure? <==>
      (exists j :: DatumAt(typ, j)) && (generics.None? || |generics.value| == 0)
  {
    var found := SearchDatum(typ, 0);
    if found.Some? {
      assert DatumAt(typ, found.value);
    }
  }

  /**
   * A substitution touches only the first `Datum` argument: the text around it is kept, and
   * putting `Datum` back in place of the type parameter's name gives the original type.
   */
  lemma CheckGenericSubstitutes(typ: string, generics: Option<seq<Generic>>)
    requires CheckGeneric(typ, generics).Ok? && CheckGeneric(typ, generics) != Ok(typ)
    ensures SearchDatum(typ, 0).Some? && generics.Some? && |generics.value| > 0
    ensures var i := SearchDatum(typ, 0).value;
      var name := generics.value[0].name;
      var r := CheckGeneric(typ, generics).value;
      DatumAt(typ, i) && (forall j: nat :: j < i ==> !DatumAt(typ, j))
      && |r| == |typ| - 5 + |name|
      && r[..i + 1] == typ[..i + 1]
      && r[i + 1..i + 1 + |name|] == name
      && r[i + 1 + |name|..] == typ[i + 6..]
      && r[..i + 1] + "Datum" + r[i + 1 + |name|..] == typ
  {
    var i := SearchDatum(typ, 0).value;
    var name := generics.value[0].name;
    Splice(typ, i, name, CheckGeneric(typ, generics).value);
  }

  /** The pieces of `typ` with the five characters after `i` replaced by `name`. */
  lemma Splice(typ: string, i: nat, name: string, r: string)
    requires i + 6 <= |typ| && typ[i + 1..i + 6] == "Datum" && r == typ[..i + 1] + name + typ[i + 6..]
    ensures |r| == |typ| - 5 + |name|
    ensures r[..i + 1] == typ[..i + 1] && r[i + 1..i + 1 + |name|] == name && r[i + 1 + |name|..] == typ[i + 6..]
    ensures r[..i + 1] + "Datum" + r[i + 1 + |name|..] == typ
  {
    SplicePieces(typ[..i + 1], name, typ[i + 6..], r);
    assert typ == typ[..i + 1] + typ[i + 1..i + 6] + typ[i + 6..];
  }

  lemma SplicePieces(a: string, b: string, c: string, r: string)
    requires r == a + b + c
    ensures r[..|a|] == a && r[|a|..|a| + |b|] == b && r[|a| + |b|..] == c
  {
  }

  /** A `NumericAccessor<Datum>` property of a component whose type parameter is `N` becomes `NumericAccessor<N>`. */
  lemma CheckGenericExample()
    ensures CheckGeneric("NumericAccessor<Datum>", Some([Generic("N", None, None)])) == Ok("NumericAccessor<N>")
  {
    CheckGenericAt("NumericAccessor<Datum>", Some([Generic("N", None, None)]));
  }

  lemma CheckGenericAt(typ: string, generics: Option<seq<Generic>>)
    requires typ == "NumericAccessor<Datum>" && generics == Some([Generic("N", None, None)])
    ensures CheckGeneric(typ, generics) == Ok("NumericAccessor<N>")
  {
    assert DatumAt(typ, 15);
    assert SearchDatum(typ, 0) == Some(15) by {
      forall j: nat | j < 15
        ensures !DatumAt(typ, j)
      {
        assert !IsGenericOpener(typ[j]) || typ[j + 6] != '>';
      }
    }
    assert !DeclaresDatum(generics);
    assert typ[..16] == "NumericAccessor<" && typ[21..] == ">";
    assert typ[..16] + "N" + typ[21..] == "NumericAccessor<N>";
  }

}
