/**
 * Character-level versions of the Python string operations the naming core uses:
 * character deletion (`str.replace(c, "")`, `re.sub` with a character class),
 * whitespace handling (`str.strip`, `re.sub(r'\s+', ' ', s)`, `str.split()`), decimal rendering of
 * numbers, zero padding, `str.split` / `str.join` on one separator, list reversal
 * and a two-argument `os.path.join` with Windows separators.
 */
module Strings {

  // ---------------------------------------------------------------------------
  // Character classes
  // ---------------------------------------------------------------------------

  /** Python's `str.isspace()`; `\s` in a str pattern matches the same characters. */
  predicate IsSpace(c: char) {
    || ('\t' <= c <= '\r')
    || ('\U{1C}' <= c <= '\U{1F}')
    || c == ' ' || c == '\U{85}' || c == '\U{A0}' || c == '\U{1680}'
    || ('\U{2000}' <= c <= '\U{200A}')
    || c == '\U{2028}' || c == '\U{2029}' || c == '\U{202F}' || c == '\U{205F}' || c == '\U{3000}'
  }

  predicate IsDigit(c: char) {
    '0' <= c <= '9'
  }

  predicate IsAsciiLetter(c: char) {
    'a' <= c <= 'z' || 'A' <= c <= 'Z'
  }

  /** ASCII lower-casing, the case folding that `re.I` applies to the patterns of this program. */
  function ToLower(c: char): (r: char)
    ensures IsAsciiLetter(c) <==> IsAsciiLetter(r)
    ensures !IsAsciiLetter(c) ==> r == c
    ensures 'A' <= r <= 'Z' ==> false
  {
    if 'A' <= c <= 'Z' then (c as int + 32) as char else c
  }

  // ---------------------------------------------------------------------------
  // Deleting characters
  // ---------------------------------------------------------------------------

  /** The characters of `s` that are not in `bad`, in their original order. */
  function StripChars(s: string, bad: set<char>): (r: string)
    ensures |r| <= |s|
    ensures forall i :: 0 <= i < |r| ==> r[i] !in bad
    ensures forall c :: c in r ==> c in s
  {
    if s == [] then []
    else if s[0] in bad then StripChars(s[1..], bad)
    else [s[0]] + StripChars(s[1..], bad)
  }

  /** `sub` occurs in `s` in order, possibly with gaps. */
  predicate IsSubsequence(sub: string, s: string)
    decreases |s|
  {
    if sub == [] then true
    else if s == [] then false
    else if sub[0] == s[0] then IsSubsequence(sub[1..], s[1..])
    else IsSubsequence(sub, s[1..])
  }

  /** Every character outside `bad` survives as often as it occurs, and the kept ones keep their order. */
  lemma {:induction false} StripCharsKeepsOthers(s: string, bad: set<char>)
    ensures forall c :: multiset(StripChars(s, bad))[c] == if c in bad then 0 else multiset(s)[c]
    ensures IsSubsequence(StripChars(s, bad), s)
  {
    if s != [] {
      StripCharsKeepsOthers(s[1..], bad);
      assert s == [s[0]] + s[1..];
      assert multiset(s) == multiset{s[0]} + multiset(s[1..]);
      if s[0] !in bad {
        var r := StripChars(s[1..], bad);
        assert ([s[0]] + r)[1..] == r;
        assert multiset([s[0]] + r) == multiset{s[0]} + multiset(r);
      } else {
        SubsequenceCons(StripChars(s[1..], bad), s[0], s[1..]);
      }
    }
  }

  /** Putting a character in front keeps a subsequence a subsequence. */
  lemma {:induction false} SubsequenceCons(sub: string, c: char, s: string)
    requires IsSubsequence(sub, s)
    ensures IsSubsequence(sub, [c] + s)
    decreases |s|, 1
  {
    assert ([c] + s)[1..] == s;
    if sub != [] && sub[0] == c {
      SubsequenceDropFirst(sub, s);
    }
  }

  lemma {:induction false} SubsequenceDropFirst(sub: string, s: string)
    requires sub != [] && IsSubsequence(sub, s)
    ensures IsSubsequence(sub[1..], s)
    decreases |s|, 0
  {
    if s != [] {
      assert s == [s[0]] + s[1..];
      if sub[0] == s[0] {
        SubsequenceCons(sub[1..], s[0], s[1..]);
      } else {
        SubsequenceDropFirst(sub, s[1..]);
        SubsequenceCons(sub[1..], s[0], s[1..]);
      }
    }
  }

  /** Deleting one set of characters and then another is deleting their union. */
  lemma {:induction false} StripCharsCompose(s: string, a: set<char>, b: set<char>)
    ensures StripChars(StripChars(s, a), b) == StripChars(s, a + b)
  {
    if s != [] {
      StripCharsCompose(s[1..], a, b);
      if s[0] !in a {
        assert ([s[0]] + StripChars(s[1..], a))[1..] == StripChars(s[1..], a);
      }
    }
  }

  /** Deleting characters from a concatenation deletes them from each part. */
  lemma {:induction false} StripCharsAppend(a: string, b: string, bad: set<char>)
    ensures StripChars(a + b, bad) == StripChars(a, bad) + StripChars(b, bad)
  {
    if a != [] {
      StripCharsAppend(a[1..], b, bad);
      assert (a + b)[1..] == a[1..] + b;
      assert (a + b)[0] == a[0];
    } else {
      assert a + b == b;
    }
  }

  /** Deleting characters that do not occur changes nothing. */
  lemma {:induction false} StripCharsNoop(s: string, bad: set<char>)
    requires forall i :: 0 <= i < |s| ==> s[i] !in bad
    ensures StripChars(s, bad) == s
  {
    if s != [] {
      StripCharsNoop(s[1..], bad);
      assert s == [s[0]] + s[1..];
    }
  }

  // ---------------------------------------------------------------------------
  // Whitespace
  // ---------------------------------------------------------------------------

  /** Python's `str.lstrip()`. */
  function TrimStart(s: string): (r: string)
    ensures |r| <= |s| && r == s[|s| - |r|..]
    ensures r == [] || !IsSpace(r[0])
    ensures forall i :: 0 <= i < |s| - |r| ==> IsSpace(s[i])
  {
    if s != [] && IsSpace(s[0]) then TrimStart(s[1..]) else s
  }

  /** Python's `str.rstrip()`. */
  function TrimEnd(s: string): (r: string)
    ensures |r| <= |s| && r == s[..|r|]
    ensures r == [] || !IsSpace(r[|r| - 1])
    ensures forall i :: |r| <= i < |s| ==> IsSpace(s[i])
  {
    if s != [] && IsSpace(s[|s| - 1]) then TrimEnd(s[..|s| - 1]) else s
  }

  /** Python's `str.strip()` with no argument. */
  function Strip(s: string): string {
    TrimEnd(TrimStart(s))
  }

  /** Python's `str.rstrip(c)`: only the character `c` is removed from the end. */
  function TrimEndChar(s: string, c: char): (r: string)
    ensures |r| <= |s| && r == s[..|r|]
    ensures r == [] || r[|r| - 1] != c
    ensures forall i :: |r| <= i < |s| ==> s[i] == c
  {
    if s != [] && s[|s| - 1] == c then TrimEndChar(s[..|s| - 1], c) else s
  }

  /** Neither the first nor the last character is whitespace. */
  predicate NoEdgeSpace(s: string) {
    s == [] || (!IsSpace(s[0]) && !IsSpace(s[|s| - 1]))
  }

  /** Every whitespace character is a plain space, and no two whitespace characters are adjacent. */
  predicate Collapsed(s: string) {
    forall i :: 0 <= i < |s| && IsSpace(s[i]) ==> s[i] == ' ' && (i + 1 == |s| || !IsSpace(s[i + 1]))
  }

  /** `re.sub(r'\s+', ' ', s)`: each maximal run of whitespace becomes one space. */
  function CollapseSpace(s: string): (r: string)
    ensures (r == []) == (s == [])
    ensures s != [] ==> r[0] == (if IsSpace(s[0]) then ' ' else s[0])
    ensures Collapsed(r)
    ensures forall c :: c in r ==> c == ' ' || c in s
    decreases |s|
  {
    if s == [] then []
    else if IsSpace(s[0]) then [' '] + CollapseSpace(TrimStart(s[1..]))
    else [s[0]] + CollapseSpace(s[1..])
  }

  /** Collapsing an already collapsed string changes nothing. */
  lemma {:induction false} CollapseSpaceNoop(s: string)
    requires Collapsed(s)
    ensures CollapseSpace(s) == s
  {
    if s != [] {
      assert Collapsed(s[1..]) by {
        forall i | 0 <= i < |s[1..]| && IsSpace(s[1..][i])
          ensures s[1..][i] == ' ' && (i + 1 == |s[1..]| || !IsSpace(s[1..][i + 1]))
        {
          assert s[1..][i] == s[i + 1];
        }
      }
      CollapseSpaceNoop(s[1..]);
      if IsSpace(s[0]) {
        assert s[1..] == [] || !IsSpace(s[1]);
        assert TrimStart(s[1..]) == s[1..];
      }
      assert s == [s[0]] + s[1..];
    }
  }

  /** A contiguous piece of a collapsed string is collapsed. */
  lemma CollapsedSlice(s: string, lo: nat, hi: nat)
    requires lo <= hi <= |s| && Collapsed(s)
    ensures Collapsed(s[lo..hi])
  {
    var t := s[lo..hi];
    forall i | 0 <= i < |t| && IsSpace(t[i])
      ensures t[i] == ' ' && (i + 1 == |t| || !IsSpace(t[i + 1]))
    {
      assert t[i] == s[lo + i];
      if i + 1 < |t| {
        assert t[i + 1] == s[lo + i + 1];
      }
    }
  }

  /** `strip()` leaves no whitespace at either end, keeps a collapsed string collapsed, and adds no character. */
  lemma StripProperties(s: string)
    ensures NoEdgeSpace(Strip(s))
    ensures Collapsed(s) ==> Collapsed(Strip(s))
    ensures forall c :: c in Strip(s) ==> c in s
  {
    var t := TrimStart(s);
    var r := TrimEnd(t);
    if r != [] {
      assert r[0] == t[0];
    }
    if Collapsed(s) {
      CollapsedSlice(s, |s| - |t|, |s|);
      CollapsedSlice(t, 0, |r|);
    }
    StripFromString(s);
  }

  /** Every character of `strip(s)` is a character of `s`. */
  lemma StripFromString(s: string)
    ensures forall c :: c in Strip(s) ==> c in s
  {
    var t := TrimStart(s);
    SliceChars(s, |s| - |t|, |s|);
    SliceChars(t, 0, |TrimEnd(t)|);
  }

  /** Every character of a slice is a character of the string. */
  lemma SliceChars(s: string, lo: nat, hi: nat)
    requires lo <= hi <= |s|
    ensures forall c :: c in s[lo..hi] ==> c in s
  {
    forall c | c in s[lo..hi] ensures c in s {
      var i :| 0 <= i < hi - lo && s[lo..hi][i] == c;
      assert s[lo + i] == c;
    }
  }

  /** `strip()` of a string without edge whitespace changes nothing. */
  lemma StripNoop(s: string)
    requires NoEdgeSpace(s)
    ensures Strip(s) == s
  {
  }

  /** `strip()` removes exactly the whitespace padding around a string that has no edge whitespace. */
  lemma StripPadded(pre: string, x: string, post: string)
    requires forall i :: 0 <= i < |pre| ==> IsSpace(pre[i])
    requires forall i :: 0 <= i < |post| ==> IsSpace(post[i])
    requires x != [] && NoEdgeSpace(x)
    ensures Strip(pre + x + post) == x
  {
    assert pre + x + post == pre + (x + post);
    TrimStartPadded(pre, x + post);
    TrimEndPadded(x, post);
  }

  /** `lstrip()` removes exactly a whitespace prefix that a non-whitespace character ends. */
  lemma TrimStartPadded(pre: string, y: string)
    requires forall i :: 0 <= i < |pre| ==> IsSpace(pre[i])
    requires y != [] && !IsSpace(y[0])
    ensures TrimStart(pre + y) == y
  {
    var s := pre + y;
    var r := TrimStart(s);
    var k := |s| - |r|;
    assert s[|pre|] == y[0];
    assert k <= |pre|;
    assert forall i :: 0 <= i < |pre| ==> s[i] == pre[i];
    assert k == |pre|;
  }

  /** `rstrip()` removes exactly a whitespace suffix that a non-whitespace character precedes. */
  lemma TrimEndPadded(y: string, post: string)
    requires forall i :: 0 <= i < |post| ==> IsSpace(post[i])
    requires y != [] && !IsSpace(y[|y| - 1])
    ensures TrimEnd(y + post) == y
  {
    var s := y + post;
    var r := TrimEnd(s);
    assert s[|y| - 1] == y[|y| - 1];
    assert |r| >= |y|;
    assert forall i :: |y| <= i < |s| ==> s[i] == post[i - |y|];
    assert |r| == |y|;
    assert r == s[..|y|] == y;
  }

  /** `strip()` of a string made of whitespace only is empty. */
  lemma StripBlank(s: string)
    requires forall i :: 0 <= i < |s| ==> IsSpace(s[i])
    ensures Strip(s) == []
  {
  }

  /** The characters of `s` that are not whitespace, in their original order. */
  function NonSpace(s: string): (r: string)
    ensures forall i :: 0 <= i < |r| ==> !IsSpace(r[i])
  {
    if s == [] then []
    else if IsSpace(s[0]) then NonSpace(s[1..])
    else [s[0]] + NonSpace(s[1..])
  }

  lemma {:induction false} NonSpaceAppend(a: string, b: string)
    ensures NonSpace(a + b) == NonSpace(a) + NonSpace(b)
  {
    if a == [] {
      assert a + b == b;
    } else {
      NonSpaceAppend(a[1..], b);
      var ab := a + b;
      assert ab[1..] == a[1..] + b && ab[0] == a[0];
      if !IsSpace(a[0]) {
        assert NonSpace(ab) == [a[0]] + NonSpace(a[1..] + b);
      }
    }
  }

  /** Whitespace in front of `s[lo..]` contributes nothing. */
  lemma {:induction false} NonSpaceBlankPrefix(s: string, lo: nat)
    requires lo <= |s|
    requires forall i :: 0 <= i < lo ==> IsSpace(s[i])
    ensures NonSpace(s[lo..]) == NonSpace(s)
  {
    if lo > 0 {
      assert IsSpace(s[0]);
      assert forall i :: 0 <= i < lo - 1 ==> s[1..][i] == s[i + 1];
      NonSpaceBlankPrefix(s[1..], lo - 1);
      assert s[1..][lo - 1..] == s[lo..];
    }
  }

  /** Whitespace after `s[..hi]` contributes nothing. */
  lemma NonSpaceBlankSuffix(s: string, hi: nat)
    requires hi <= |s|
    requires forall i :: hi <= i < |s| ==> IsSpace(s[i])
    ensures NonSpace(s[..hi]) == NonSpace(s)
  {
    assert s == s[..hi] + s[hi..];
    NonSpaceAppend(s[..hi], s[hi..]);
    NonSpaceBlankFrom(s, hi);
  }

  lemma {:induction false} NonSpaceBlankFrom(s: string, lo: nat)
    requires lo <= |s|
    requires forall i :: lo <= i < |s| ==> IsSpace(s[i])
    ensures NonSpace(s[lo..]) == []
    decreases |s| - lo
  {
    if lo < |s| {
      var t := s[lo..];
      assert t[0] == s[lo] && t[1..] == s[lo + 1..];
      NonSpaceBlankFrom(s, lo + 1);
    }
  }

  /** Every character that is not whitespace is kept as often as it occurs. */
  lemma {:induction false} NonSpaceCount(s: string)
    ensures forall c :: multiset(NonSpace(s))[c] == if IsSpace(c) then 0 else multiset(s)[c]
  {
    if s != [] {
      NonSpaceCount(s[1..]);
      assert s == [s[0]] + s[1..];
      assert multiset(s) == multiset{s[0]} + multiset(s[1..]);
      if !IsSpace(s[0]) {
        var r := NonSpace(s[1..]);
        assert multiset([s[0]] + r) == multiset{s[0]} + multiset(r);
      }
    }
  }

  /** `strip()` and `rstrip(' ')` remove only whitespace. */
  lemma StripKeepsNonSpace(s: string)
    ensures NonSpace(Strip(s)) == NonSpace(s)
    ensures NonSpace(TrimEndChar(s, ' ')) == NonSpace(s)
  {
    var t := TrimStart(s);
    NonSpaceBlankPrefix(s, |s| - |t|);
    NonSpaceBlankSuffix(t, |TrimEnd(t)|);
    var r := TrimEndChar(s, ' ');
    assert forall i :: |r| <= i < |s| ==> s[i] == ' ';
    NonSpaceBlankSuffix(s, |r|);
  }

  /** Collapsing whitespace runs to single spaces keeps every other character, in order. */
  lemma {:induction false} CollapseKeepsNonSpace(s: string)
    ensures NonSpace(CollapseSpace(s)) == NonSpace(s)
    decreases |s|
  {
    if s != [] {
      if IsSpace(s[0]) {
        var t := TrimStart(s[1..]);
        CollapseKeepsNonSpace(t);
        NonSpaceBlankPrefix(s[1..], |s[1..]| - |t|);
        var r := [' '] + CollapseSpace(t);
        assert r[0] == ' ' && r[1..] == CollapseSpace(t);
        assert NonSpace(r) == NonSpace(CollapseSpace(t));
      } else {
        CollapseKeepsNonSpace(s[1..]);
        assert ([s[0]] + CollapseSpace(s[1..]))[1..] == CollapseSpace(s[1..]);
      }
    }
  }

  /** Index of the first whitespace character of `s`, or `|s|` when there is none. */
  function SpaceIndex(s: string): (k: nat)
    ensures k <= |s|
    ensures forall i :: 0 <= i < k ==> !IsSpace(s[i])
    ensures k < |s| ==> IsSpace(s[k])
  {
    if s == [] || IsSpace(s[0]) then 0 else 1 + SpaceIndex(s[1..])
  }

  /** A non-empty run of characters none of which is whitespace. */
  predicate IsWord(w: string) {
    w != [] && forall i :: 0 <= i < |w| ==> !IsSpace(w[i])
  }

  /** Python's `s.split()` with no argument: the maximal runs of non-whitespace characters, in order. */
  function Words(s: string): seq<string>
    decreases |s|
  {
    var t := TrimStart(s);
    if t == [] then []
    else
      var k := SpaceIndex(t);
      [t[..k]] + Words(t[k..])
  }

  /** Every string of the list is a word. */
  predicate AllWords(words: seq<string>) {
    forall i :: 0 <= i < |words| ==> IsWord(words[i])
  }

  /** Every piece of the split is a word. */
  lemma {:induction false} WordsAreWords(s: string)
    ensures AllWords(Words(s))
    decreases |s|
  {
    var t := TrimStart(s);
    if t != [] {
      var k := SpaceIndex(t);
      FirstWord(s);
      WordsAreWords(t[k..]);
      AllWordsCons(t[..k], Words(t[k..]));
    }
  }

  /** The first word of a string that is not blank, and what follows it. */
  lemma FirstWord(s: string)
    requires TrimStart(s) != []
    ensures var t := TrimStart(s);
      && 0 < SpaceIndex(t)
      && IsWord(t[..SpaceIndex(t)])
      && Words(s) == [t[..SpaceIndex(t)]] + Words(t[SpaceIndex(t)..])
  {
  }

  lemma AllWordsCons(w: string, words: seq<string>)
    requires IsWord(w) && AllWords(words)
    ensures AllWords([w] + words)
  {
    assert forall i :: 0 < i < |[w] + words| ==> ([w] + words)[i] == words[i - 1];
  }

  /** The one space `re.sub(r'\s+', ' ', s)` leaves for a whitespace run at the end of `s`. */
  function Trailing(s: string): string {
    if s != [] && IsSpace(s[|s| - 1]) then " " else ""
  }

  /** A prefix without whitespace passes through the collapsing unchanged. */
  lemma CollapseWordPrefix(s: string, k: nat)
    requires k <= |s|
    requires forall i :: 0 <= i < k ==> !IsSpace(s[i])
    ensures CollapseSpace(s) == s[..k] + CollapseSpace(s[k..])
  {
    assert s == s[..k] + s[k..];
    CollapseWordAppend(s[..k], s[k..]);
  }

  lemma {:induction false} CollapseWordAppend(w: string, r: string)
    requires forall i :: 0 <= i < |w| ==> !IsSpace(w[i])
    ensures CollapseSpace(w + r) == w + CollapseSpace(r)
  {
    if w != [] {
      var t := w[1..] + r;
      CollapseWordAppend(w[1..], r);
      CollapseCons(w[0], t);
      HeadTail(w, r);
      HeadTail(w, CollapseSpace(r));
    } else {
      assert w + r == r;
    }
  }

  /** A non-empty sequence is its head in front of its tail. */
  lemma HeadTail<T>(w: seq<T>, r: seq<T>)
    requires w != []
    ensures [w[0]] + (w[1..] + r) == w + r
  {
  }

  /** A character that is not whitespace is kept in front of the collapsed rest. */
  lemma CollapseCons(c: char, r: string)
    requires !IsSpace(c)
    ensures CollapseSpace([c] + r) == [c] + CollapseSpace(r)
  {
    assert ([c] + r)[1..] == r;
  }

  /** A leading whitespace run collapses to one space in front of the rest. */
  lemma CollapseLeading(s: string)
    ensures CollapseSpace(s) == (if |TrimStart(s)| < |s| then " " else "") + CollapseSpace(TrimStart(s))
  {
    if s != [] && IsSpace(s[0]) {
      assert TrimStart(s) == TrimStart(s[1..]);
    }
  }

  /**
   * On a string that does not start with whitespace, collapsing gives the words joined by
   * single spaces, followed by one space when the string ends in whitespace.
   */
  lemma {:induction false} CollapseWords(s: string)
    requires s == [] || !IsSpace(s[0])
    ensures CollapseSpace(s) == JoinWith(Words(s), ' ') + Trailing(s)
    decreases |s|
  {
    if s != [] {
      var u := TrimStart(s[SpaceIndex(s)..]);
      if u != [] {
        CollapseWords(u);
      }
      CollapseWordsStep(s, u);
    }
  }

  /** One step of CollapseWords: the first word, then the words after the whitespace that follows it. */
  lemma CollapseWordsStep(s: string, u: string)
    requires s != [] && !IsSpace(s[0])
    requires u == TrimStart(s[SpaceIndex(s)..])
    requires u != [] ==> CollapseSpace(u) == JoinWith(Words(u), ' ') + Trailing(u)
    ensures CollapseSpace(s) == JoinWith(Words(s), ' ') + Trailing(s)
  {
    if s[SpaceIndex(s)..] == [] {
      CollapseOneWord(s);
    } else if u == [] {
      CollapseWordBlankTail(s);
    } else {
      CollapseWordThenWords(s, u);
    }
  }

  /** A string that is one word collapses to itself. */
  lemma CollapseOneWord(s: string)
    requires s != [] && !IsSpace(s[0]) && s[SpaceIndex(s)..] == []
    ensures CollapseSpace(s) == JoinWith(Words(s), ' ') + Trailing(s)
  {
    var k := SpaceIndex(s);
    CollapseWordPrefix(s, k);
    WordsFirst(s);
    LastAfterWord(s, k);
    assert Words(s) == [s[..k]] && CollapseSpace(s) == s[..k] + [] && Trailing(s) == "";
  }

  /** One word and then whitespace only collapse to the word and one space. */
  lemma CollapseWordBlankTail(s: string)
    requires s != [] && !IsSpace(s[0])
    requires s[SpaceIndex(s)..] != [] && TrimStart(s[SpaceIndex(s)..]) == []
    ensures CollapseSpace(s) == JoinWith(Words(s), ' ') + Trailing(s)
  {
    var k := SpaceIndex(s);
    var w, rest := s[..k], s[k..];
    CollapseWordPrefix(s, k);
    WordsFirst(s);
    LastAfterWord(s, k);
    CollapseLeading(rest);
    WordsSkipSpace(rest);
    LastOfTrimStart(rest);
    assert CollapseSpace(rest) == " " + CollapseSpace([]) == " ";
    assert Words(s) == [w] && CollapseSpace(s) == w + " " && Trailing(s) == " ";
  }

  /** One word, whitespace, then a string starting with a word: the word, one space, then the rest collapsed. */
  lemma CollapseWordThenWords(s: string, u: string)
    requires s != [] && !IsSpace(s[0])
    requires s[SpaceIndex(s)..] != [] && u == TrimStart(s[SpaceIndex(s)..]) && u != []
    requires CollapseSpace(u) == JoinWith(Words(u), ' ') + Trailing(u)
    ensures CollapseSpace(s) == JoinWith(Words(s), ' ') + Trailing(s)
  {
    var k := SpaceIndex(s);
    var w, rest := s[..k], s[k..];
    CollapseWordPrefix(s, k);
    WordsFirst(s);
    LastAfterWord(s, k);
    CollapseLeading(rest);
    WordsSkipSpace(rest);
    LastOfTrimStart(rest);
    assert Words(s) == [w] + Words(u) && CollapseSpace(s) == w + (" " + CollapseSpace(u));
    CollapseWordsJoin(w, Words(u), CollapseSpace(u), Trailing(u));
  }

  /** What follows the first word is empty or starts with whitespace, and ends where the string ends. */
  lemma LastAfterWord(s: string, k: nat)
    requires k == SpaceIndex(s) && s != [] && !IsSpace(s[0])
    ensures s[k..] == [] ==> Trailing(s) == ""
    ensures s[k..] != [] ==> IsSpace(s[k..][0]) && Trailing(s[k..]) == Trailing(s)
  {
  }

  /** `lstrip()` keeps the last character, unless nothing but whitespace was there. */
  lemma LastOfTrimStart(s: string)
    requires s != []
    ensures TrimStart(s) == [] ==> Trailing(s) == " "
    ensures TrimStart(s) != [] ==> Trailing(TrimStart(s)) == Trailing(s)
  {
  }

  /** A word followed by one space and the collapsed remainder is the join with that word in front. */
  lemma CollapseWordsJoin(w: string, parts: seq<string>, cu: string, tail: string)
    requires parts != [] && cu == JoinWith(parts, ' ') + tail
    ensures w + (" " + cu) == JoinWith([w] + parts, ' ') + tail
  {
    JoinCons(w, parts, ' ');
  }

  /** A string that starts with a non-whitespace character starts with its first word. */
  lemma WordsFirst(s: string)
    requires s != [] && !IsSpace(s[0])
    ensures Words(s) == [s[..SpaceIndex(s)]] + Words(s[SpaceIndex(s)..])
  {
  }

  /** Leading whitespace does not change the words. */
  lemma WordsSkipSpace(s: string)
    ensures Words(s) == Words(TrimStart(s))
  {
    var t := TrimStart(s);
    assert TrimStart(t) == t;
  }

  /** The words of `s` joined by single spaces have no whitespace at either end. */
  lemma {:induction false} JoinWordsEdges(words: seq<string>)
    requires words != []
    requires AllWords(words)
    ensures JoinWith(words, ' ') != [] && NoEdgeSpace(JoinWith(words, ' '))
  {
    var w := words[0];
    assert IsWord(w);
    if |words| > 1 {
      JoinWordsEdges(words[1..]);
      var j := JoinWith(words, ' ');
      var rest := JoinWith(words[1..], ' ');
      assert j == w + [' '] + rest;
      assert j[0] == w[0] && j[|j| - 1] == rest[|rest| - 1];
    }
  }

  /**
   * `re.sub(r'\s+', ' ', s).strip()` is `' '.join(s.split())`: every whitespace run between two
   * words becomes exactly one space, and the runs at either end disappear.
   */
  lemma StripCollapseWords(s: string)
    ensures Strip(CollapseSpace(s)) == JoinWith(Words(s), ' ')
  {
    var t := TrimStart(s);
    CollapseLeading(s);
    WordsSkipSpace(s);
    if t == [] {
      StripCollapseBlank(s);
    } else {
      StripCollapseFromWord(t, if |t| < |s| then " " else "");
    }
  }

  /** A string of whitespace only collapses to nothing once stripped, and has no words. */
  lemma StripCollapseBlank(s: string)
    requires TrimStart(s) == []
    ensures Strip(CollapseSpace(s)) == [] && Words(s) == []
  {
    var pre := if |s| > 0 then " " else "";
    assert CollapseSpace(s) == pre by {
      CollapseLeading(s);
    }
    assert Strip(pre) == [] by {
      StripBlank(pre);
    }
  }

  /** The part of StripCollapseWords after the leading whitespace: one optional space in front is stripped too. */
  lemma StripCollapseFromWord(t: string, pre: string)
    requires t != [] && !IsSpace(t[0])
    requires pre == "" || pre == " "
    ensures Strip(pre + CollapseSpace(t)) == JoinWith(Words(t), ' ')
  {
    CollapseWords(t);
    WordsAreWords(t);
    JoinWordsEdges(Words(t));
    StripAround(pre, JoinWith(Words(t), ' '), Trailing(t));
  }

  /** `strip()` removes one optional space on either side of a string without edge whitespace. */
  lemma StripAround(pre: string, x: string, post: string)
    requires pre == "" || pre == " "
    requires post == "" || post == " "
    requires x != [] && NoEdgeSpace(x)
    ensures Strip(pre + (x + post)) == x
  {
    assert pre + (x + post) == pre + x + post;
    StripPadded(pre, x, post);
  }

  // ---------------------------------------------------------------------------
  // Decimal numbers
  // ---------------------------------------------------------------------------

  function DigitChar(d: nat): (c: char)
    requires d < 10
    ensures IsDigit(c) && c as int - '0' as int == d
  {
    ('0' as int + d) as char
  }

  /** Python's `str(n)` (and `f"{n}"`) of a natural number. */
  function DecimalString(n: nat): (r: string)
    ensures |r| >= 1
    ensures forall i :: 0 <= i < |r| ==> IsDigit(r[i])
    ensures r[0] == '0' <==> n == 0
    decreases n
  {
    if n < 10 then [DigitChar(n)] else DecimalString(n / 10) + [DigitChar(n % 10)]
  }

  /** The number a string of decimal digits denotes; leading zeros count for nothing. */
  function ParseDecimal(s: string): nat
    requires forall i :: 0 <= i < |s| ==> IsDigit(s[i])
  {
    if s == [] then 0
    else
      assert IsDigit(s[|s| - 1]);
      ParseDecimal(s[..|s| - 1]) * 10 + (s[|s| - 1] as int - '0' as int)
  }

  /** Rendering a number in decimal and reading it back gives the number. */
  lemma {:induction false} DecimalRoundTrip(n: nat)
    ensures ParseDecimal(DecimalString(n)) == n
    decreases n
  {
    if n >= 10 {
      DecimalRoundTrip(n / 10);
      var d := DecimalString(n);
      assert d[..|d| - 1] == DecimalString(n / 10);
    }
  }

  function Pow10(k: nat): (p: nat)
    ensures p >= 1
  {
    if k == 0 then 1 else 10 * Pow10(k - 1)
  }

  /** `n` takes at most `k` decimal digits exactly when it is below 10^k. */
  lemma {:induction false} DecimalLength(n: nat, k: nat)
    requires k >= 1
    ensures |DecimalString(n)| <= k <==> n < Pow10(k)
    decreases n
  {
    if n >= 10 {
      assert |DecimalString(n)| == |DecimalString(n / 10)| + 1;
      if k == 1 {
        assert Pow10(1) == 10;
      } else {
        DecimalLength(n / 10, k - 1);
        assert Pow10(k) == 10 * Pow10(k - 1);
        assert n / 10 < Pow10(k - 1) <==> n < 10 * Pow10(k - 1);
      }
    } else {
      assert Pow10(k) >= 10 by { PowAtLeastTen(k); }
    }
  }

  lemma {:induction false} PowAtLeastTen(k: nat)
    requires k >= 1
    ensures Pow10(k) >= 10
  {
    if k > 1 {
      PowAtLeastTen(k - 1);
    }
  }

  /** The decimal length of the numbers the naming code distinguishes. */
  lemma DigitCount(n: nat)
    ensures n < 10 <==> |DecimalString(n)| == 1
    ensures 10 <= n < 100 <==> |DecimalString(n)| == 2
    ensures 100 <= n < 1000 <==> |DecimalString(n)| == 3
    ensures n >= 1000 <==> |DecimalString(n)| >= 4
  {
    DecimalLength(n, 1);
    DecimalLength(n, 2);
    DecimalLength(n, 3);
    assert Pow10(1) == 10 && Pow10(2) == 100 && Pow10(3) == 1000;
  }

  function Zeros(k: nat): (r: string)
    ensures |r| == k && forall i :: 0 <= i < k ==> r[i] == '0'
  {
    if k == 0 then [] else ['0'] + Zeros(k - 1)
  }

  /** `s` with zeros added on the left until it is `width` long; a longer `s` is left whole. */
  function ZeroPad(s: string, width: nat): string {
    if |s| >= width then s else Zeros(width - |s|) + s
  }

  /** Leading zeros do not change the number a digit string denotes. */
  lemma {:induction false} ParseLeadingZeros(k: nat, s: string)
    requires forall i :: 0 <= i < |s| ==> IsDigit(s[i])
    ensures forall i :: 0 <= i < |Zeros(k) + s| ==> IsDigit((Zeros(k) + s)[i])
    ensures ParseDecimal(Zeros(k) + s) == ParseDecimal(s)
    decreases |s|, k
  {
    var z := Zeros(k) + s;
    assert forall i :: 0 <= i < |z| ==> IsDigit(z[i]) by {
      forall i | 0 <= i < |z| ensures IsDigit(z[i]) {
        if i >= k {
          assert z[i] == s[i - k];
        }
      }
    }
    if s == [] {
      assert z == Zeros(k);
      ZerosParseToZero(k);
    } else {
      var init := s[..|s| - 1];
      ParseLeadingZeros(k, init);
      assert z[..|z| - 1] == Zeros(k) + init;
      assert z[|z| - 1] == s[|s| - 1];
    }
  }

  lemma {:induction false} ZerosParseToZero(k: nat)
    ensures ParseDecimal(Zeros(k)) == 0
  {
    if k > 0 {
      ZerosParseToZero(k - 1);
      var init, shorter := Zeros(k)[..k - 1], Zeros(k - 1);
      assert forall i :: 0 <= i < k - 1 ==> init[i] == '0' == shorter[i];
      assert init == shorter;
    }
  }

  /**
   * A zero-padded decimal number is never truncated: it ends with the full rendering of the
   * number, is exactly `width` long when the number fits, and still denotes the number.
   */
  lemma ZeroPadDecimal(n: nat, width: nat)
    ensures var p := ZeroPad(DecimalString(n), width);
      && |p| == (if |DecimalString(n)| >= width then |DecimalString(n)| else width)
      && p[|p| - |DecimalString(n)|..] == DecimalString(n)
      && (forall i :: 0 <= i < |p| ==> IsDigit(p[i]))
      && ParseDecimal(p) == n
  {
    var d := DecimalString(n);
    var p := ZeroPad(d, width);
    assert ParseDecimal(p) == n by {
      DecimalRoundTrip(n);
      if |d| < width {
        ParseLeadingZeros(width - |d|, d);
      }
    }
    if |d| < width {
      assert p == Zeros(width - |d|) + d;
      assert p[|p| - |d|..] == d;
    }
  }

  // ---------------------------------------------------------------------------
  // Splitting and joining on one separator
  // ---------------------------------------------------------------------------

  /** Index of the first `c` in `s`, or `|s|` when there is none. */
  function IndexOf(s: string, c: char): (k: nat)
    ensures k <= |s| && c !in s[..k]
    ensures k < |s| ==> s[k] == c
  {
    if s == [] then 0
    else if s[0] == c then 0
    else
      var k := 1 + IndexOf(s[1..], c);
      assert s[..k] == [s[0]] + s[1..][..k - 1];
      k
  }

  /** Python's `s.split(sep)` for a one-character separator; `"".split(",")` is `[""]`. */
  function SplitOn(s: string, sep: char): (parts: seq<string>)
    ensures |parts| >= 1
    ensures forall i :: 0 <= i < |parts| ==> sep !in parts[i]
    decreases |s|
  {
    var k := IndexOf(s, sep);
    if k == |s| then [s] else [s[..k]] + SplitOn(s[k + 1..], sep)
  }

  /** Python's `sep.join(parts)`. */
  function JoinWith(parts: seq<string>, sep: char): string {
    if parts == [] then []
    else if |parts| == 1 then parts[0]
    else parts[0] + [sep] + JoinWith(parts[1..], sep)
  }

  /** Joining a piece in front of a non-empty list puts one separator between them. */
  lemma JoinCons(p: string, rest: seq<string>, sep: char)
    requires rest != []
    ensures JoinWith([p] + rest, sep) == p + [sep] + JoinWith(rest, sep)
  {
    assert ([p] + rest)[1..] == rest;
  }

  /** Joining the pieces of a split restores the string. */
  lemma {:induction false} SplitThenJoin(s: string, sep: char)
    ensures JoinWith(SplitOn(s, sep), sep) == s
    decreases |s|
  {
    var k := IndexOf(s, sep);
    if k < |s| {
      var rest := SplitOn(s[k + 1..], sep);
      SplitThenJoin(s[k + 1..], sep);
      assert SplitOn(s, sep) == [s[..k]] + rest;
      JoinCons(s[..k], rest, sep);
      assert s == s[..k] + [sep] + s[k + 1..];
    } else {
      assert SplitOn(s, sep) == [s];
    }
  }

  /** Splitting a join of separator-free pieces gives the pieces back. */
  lemma {:induction false} JoinThenSplit(parts: seq<string>, sep: char)
    requires |parts| >= 1
    requires forall i :: 0 <= i < |parts| ==> sep !in parts[i]
    ensures SplitOn(JoinWith(parts, sep), sep) == parts
  {
    if |parts| == 1 {
      SplitNoSeparator(parts[0], sep);
    } else {
      var rest := JoinWith(parts[1..], sep);
      SplitPrefix(parts[0], sep, rest);
      JoinThenSplit(parts[1..], sep);
    }
  }

  lemma SplitNoSeparator(s: string, sep: char)
    requires sep !in s
    ensures SplitOn(s, sep) == [s]
  {
    assert s[..|s|] == s;
  }

  /** A separator-free piece followed by the separator splits off as the first piece. */
  lemma SplitPrefix(x: string, sep: char, y: string)
    requires sep !in x
    ensures SplitOn(x + [sep] + y, sep) == [x] + SplitOn(y, sep)
  {
    var s := x + [sep] + y;
    assert s[..|x|] == x;
    IndexOfFirst(s, sep, |x|);
    assert s[|x| + 1..] == y;
  }

  /** The index of the first occurrence is where the character first occurs. */
  lemma {:induction false} IndexOfFirst(s: string, c: char, j: nat)
    requires j < |s| && s[j] == c && c !in s[..j]
    ensures IndexOf(s, c) == j
  {
    if j > 0 {
      assert s[0] == s[..j][0];
      assert s[1..][..j - 1] == s[1..j];
      IndexOfFirst(s[1..], c, j - 1);
    }
  }

  /** Text appended to a join lands on its last piece. */
  lemma {:induction false} JoinAppendLast(parts: seq<string>, sep: char, t: string)
    requires parts != []
    ensures JoinWith(parts, sep) + t == JoinWith(parts[..|parts| - 1] + [parts[|parts| - 1] + t], sep)
  {
    if |parts| > 1 {
      var rest := parts[1..];
      JoinAppendLast(rest, sep, t);
      var moved := parts[..|parts| - 1] + [parts[|parts| - 1] + t];
      assert moved[1..] == rest[..|rest| - 1] + [rest[|rest| - 1] + t];
      assert moved[0] == parts[0];
    }
  }

  // ---------------------------------------------------------------------------
  // Lines
  // ---------------------------------------------------------------------------

  /** The line boundaries of Python's `str.splitlines()`: \n, \v, \f, \r, \x1c-\x1e, \x85, U+2028, U+2029. */
  predicate IsLineBreak(c: char) {
    || ('\n' <= c <= '\r')
    || ('\U{1C}' <= c <= '\U{1E}')
    || c == '\U{85}' || c == '\U{2028}' || c == '\U{2029}'
  }

  /** The string holds no line boundary. */
  predicate NoLineBreak(s: string) {
    forall i :: 0 <= i < |s| ==> !IsLineBreak(s[i])
  }

  /** The index of the first line boundary, or |s| when there is none. */
  function IndexOfBreak(s: string): (k: nat)
    ensures k <= |s| && NoLineBreak(s[..k])
    ensures k < |s| ==> IsLineBreak(s[k])
  {
    if s == [] then 0
    else if IsLineBreak(s[0]) then 0
    else
      var k := 1 + IndexOfBreak(s[1..]);
      assert s[..k] == [s[0]] + s[1..][..k - 1];
      k
  }

  /**
   * Python's `str.splitlines()`: the lines between boundaries, "\r\n" counting as one boundary,
   * with no empty line after a final boundary.
   */
  function SplitLines(s: string): (lines: seq<string>)
    ensures lines == [] <==> s == []
    ensures forall i :: 0 <= i < |lines| ==> NoLineBreak(lines[i])
    ensures forall i, c :: 0 <= i < |lines| && c in lines[i] ==> c in s
    decreases |s|
  {
    if s == [] then []
    else
      var k := IndexOfBreak(s);
      if k == |s| then [s]
      else
        var width := if s[k] == '\r' && k + 1 < |s| && s[k + 1] == '\n' then 2 else 1;
        var rest := SplitLines(s[k + width..]);
        assert forall c :: c in s[..k] ==> c in s;
        assert forall c :: c in s[k + width..] ==> c in s;
        [s[..k]] + rest
  }

  /** The first boundary of a line followed by a boundary is at the line's end. */
  lemma IndexOfBreakAfterLine(line: string, rest: string)
    requires NoLineBreak(line) && rest != [] && IsLineBreak(rest[0])
    ensures IndexOfBreak(line + rest) == |line|
  {
    var s := line + rest;
    assert s[|line|] == rest[0];
    assert forall i :: 0 <= i < |line| ==> s[i] == line[i];
  }

  /**
   * Lines without boundaries, each ended by "\n", split back into those lines. The last one may
   * be empty, since its "\n" closes it.
   */
  lemma {:induction false} SplitLinesOfJoin(lines: seq<string>)
    requires lines != []
    requires forall i :: 0 <= i < |lines| ==> NoLineBreak(lines[i])
    ensures SplitLines(JoinWith(lines, '\n') + "\n") == lines
  {
    var first := lines[0];
    if |lines| == 1 {
      SplitLinesAfterLine(first, "");
      assert first + "\n" + "" == first + "\n";
    } else {
      var tail := JoinWith(lines[1..], '\n') + "\n";
      assert JoinWith(lines, '\n') + "\n" == first + "\n" + tail;
      SplitLinesAfterLine(first, tail);
      SplitLinesOfJoin(lines[1..]);
      assert lines == [first] + lines[1..];
    }
  }

  /** A line ended by "\n" is split off whole, whatever follows. */
  lemma SplitLinesAfterLine(line: string, rest: string)
    requires NoLineBreak(line)
    ensures SplitLines(line + "\n" + rest) == [line] + SplitLines(rest)
  {
    var s := line + "\n" + rest;
    IndexOfBreakAfterLine(line, "\n" + rest);
    assert s == line + ("\n" + rest);
    assert s[|line|] == '\n';
    assert s[|line| + 1..] == rest;
    assert s[..|line|] == line;
  }

  // ---------------------------------------------------------------------------
  // Lists and paths
  // ---------------------------------------------------------------------------

  /** Python's `list.reverse()`, as a value. */
  function Reverse<T>(s: seq<T>): (r: seq<T>)
    ensures |r| == |s|
    ensures forall i :: 0 <= i < |s| ==> r[i] == s[|s| - 1 - i]
  {
    if s == [] then [] else Reverse(s[1..]) + [s[0]]
  }

  /** Reversing twice restores the list. */
  lemma ReverseReverse<T>(s: seq<T>)
    ensures Reverse(Reverse(s)) == s
  {
  }

  const Separator: char := '\\'

  predicate IsSeparator(c: char) {
    c == '\\' || c == '/'
  }

  /**
   * Windows `os.path.join(directory, name)` for a `name` that carries neither a drive nor a
   * leading separator: a separator is put between the two unless `directory` is empty or
   * already ends with one.
   */
  function JoinPath(directory: string, name: string): string {
    if directory == [] then name
    else if IsSeparator(directory[|directory| - 1]) then directory + name
    else directory + [Separator] + name
  }

  /** The joined path starts with the directory, ends with the name, and adds at most one separator. */
  lemma JoinPathParts(directory: string, name: string)
    ensures var r := JoinPath(directory, name);
      && |directory| + |name| <= |r| <= |directory| + |name| + 1
      && r[..|directory|] == directory
      && r[|r| - |name|..] == name
  {
  }

  /** Joining one directory with two different names gives two different paths. */
  lemma JoinPathInjective(directory: string, a: string, b: string)
    requires a != b
    ensures JoinPath(directory, a) != JoinPath(directory, b)
  {
    var ra, rb := JoinPath(directory, a), JoinPath(directory, b);
    JoinPathParts(directory, a);
    JoinPathParts(directory, b);
    if |a| == |b| {
      assert ra[|ra| - |a|..] == a;
    } else {
      assert |ra| - |a| == |rb| - |b|;
    }
  }
}
