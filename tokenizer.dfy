/**
 * The word splitter of the search index (`GetDistinctWords` in SearchableIndex.cs): split the
 * text on white space, trim characters that are not letters or digits from both ends of each
 * token, drop tokens left empty, lower-case, de-duplicate and sort.
 */
module Tokenizer {
  import opened Wrappers
  import opened CollectionExtensions
  import opened Sorting

  /**
   * `char.IsWhiteSpace`: the controls U+0009..U+000D and U+0085, and the Unicode space, line and
   * paragraph separators.
   */
  predicate IsWhiteSpace(c: char) {
    || c == ' ' || ('\t' <= c <= '\r') || c == '\U{85}' || c == '\U{A0}' || c == '\U{1680}'
    || ('\U{2000}' <= c <= '\U{200A}') || c == '\U{2028}' || c == '\U{2029}' || c == '\U{202F}'
    || c == '\U{205F}' || c == '\U{3000}'
  }

  /** `char.IsLetterOrDigit`, restricted to the ASCII letters and digits. */
  predicate IsLetterOrDigit(c: char) {
    ('a' <= c <= 'z') || ('A' <= c <= 'Z') || ('0' <= c <= '9')
  }

  /** `char.ToLower`, restricted to the ASCII upper-case letters. */
  function ToLowerChar(c: char): char {
    if 'A' <= c <= 'Z' then (c as int + 32) as char else c
  }

  /** `string.ToLower`: every character lower-cased. */
  function ToLower(s: string): string {
    seq(|s|, i requires 0 <= i < |s| => ToLowerChar(s[i]))
  }

  /** No upper-case letter occurs in `s`. */
  predicate IsLowerCase(s: string) {
    forall i :: 0 <= i < |s| ==> !('A' <= s[i] <= 'Z')
  }

  /** Lower-casing keeps letters and digits apart from everything else, and white space too. */
  lemma ToLowerCharKeepsClass(c: char)
    ensures IsLetterOrDigit(ToLowerChar(c)) == IsLetterOrDigit(c)
    ensures IsWhiteSpace(ToLowerChar(c)) == IsWhiteSpace(c)
    ensures !('A' <= ToLowerChar(c) <= 'Z')
    ensures ToLowerChar(ToLowerChar(c)) == ToLowerChar(c)
  {
  }

  /** The length of the leading run of non-white-space characters of `s`. */
  function TokenLength(s: string): (n: nat)
    ensures n <= |s|
    ensures forall i :: 0 <= i < n ==> !IsWhiteSpace(s[i])
    ensures n < |s| ==> IsWhiteSpace(s[n])
  {
    if s == [] || IsWhiteSpace(s[0]) then 0 else 1 + TokenLength(s[1..])
  }

  /**
   * `text.Split((char[])null, StringSplitOptions.RemoveEmptyEntries)`: the maximal runs of
   * non-white-space characters of `s`, in order.
   */
  function Split(s: string): (r: seq<string>)
    ensures forall t :: t in r ==> t != []
    decreases |s|
  {
    if s == [] then []
    else if IsWhiteSpace(s[0]) then Split(s[1..])
    else
      var n := TokenLength(s);
      [s[..n]] + Split(s[n..])
  }

  /** `s` without its white-space characters. */
  function RemoveWhiteSpace(s: string): string {
    if s == [] then []
    else if IsWhiteSpace(s[0]) then RemoveWhiteSpace(s[1..])
    else [s[0]] + RemoveWhiteSpace(s[1..])
  }

  /** The concatenation of a sequence of strings. */
  function Concat(ts: seq<string>): string {
    if ts == [] then [] else ts[0] + Concat(ts[1..])
  }

  lemma {:induction false} RemoveWhiteSpaceAppend(a: string, b: string)
    ensures RemoveWhiteSpace(a + b) == RemoveWhiteSpace(a) + RemoveWhiteSpace(b)
    decreases |a|
  {
    if a == [] {
      assert a + b == b;
    } else {
      RemoveWhiteSpaceAppend(a[1..], b);
      assert (a + b)[0] == a[0];
      assert (a + b)[1..] == a[1..] + b;
      if IsWhiteSpace(a[0]) {
        assert RemoveWhiteSpace(a + b) == RemoveWhiteSpace(a[1..] + b);
      } else {
        assert RemoveWhiteSpace(a + b) == [a[0]] + RemoveWhiteSpace(a[1..] + b);
      }
    }
  }

  lemma {:induction false} RemoveWhiteSpaceNone(a: string)
    requires forall i :: 0 <= i < |a| ==> !IsWhiteSpace(a[i])
    ensures RemoveWhiteSpace(a) == a
    decreases |a|
  {
    if a != [] {
      RemoveWhiteSpaceNone(a[1..]);
    }
  }

  /**
   * Splitting loses only the white space: every token is non-empty and free of white space, and
   * the tokens, concatenated, are the non-white-space characters of `s` in their order.
   */
  lemma {:induction false} SplitTokens(s: string)
    ensures forall t :: t in Split(s) ==> t != [] && forall i :: 0 <= i < |t| ==> !IsWhiteSpace(t[i])
    ensures Concat(Split(s)) == RemoveWhiteSpace(s)
    decreases |s|
  {
    if s != [] {
      if IsWhiteSpace(s[0]) {
        SplitTokens(s[1..]);
      } else {
        var n := TokenLength(s);
        SplitTokens(s[n..]);
        assert s == s[..n] + s[n..];
        RemoveWhiteSpaceAppend(s[..n], s[n..]);
        RemoveWhiteSpaceNone(s[..n]);
        assert ([s[..n]] + Split(s[n..]))[1..] == Split(s[n..]);
      }
    }
  }

  /** Drops the leading characters of `t` that are not letters or digits. */
  function TrimStart(t: string): (r: string)
    ensures |r| <= |t|
    ensures r == [] || IsLetterOrDigit(r[0])
    decreases |t|
  {
    if t != [] && !IsLetterOrDigit(t[0]) then TrimStart(t[1..]) else t
  }

  /** Drops the trailing characters of `t` that are not letters or digits. */
  function TrimEnd(t: string): (r: string)
    ensures |r| <= |t|
    ensures r == [] || IsLetterOrDigit(r[|r| - 1])
    decreases |t|
  {
    if t != [] && !IsLetterOrDigit(t[|t| - 1]) then TrimEnd(t[..|t| - 1]) else t
  }

  /** A token with the non-letter, non-digit characters trimmed from both of its ends. */
  function Trim(t: string): (r: string)
    ensures |r| <= |t|
    ensures r == [] || IsLetterOrDigit(r[|r| - 1])
  {
    TrimEnd(TrimStart(t))
  }

  lemma {:induction false} TrimStartAt(t: string) returns (i: nat)
    ensures i <= |t| && TrimStart(t) == t[i..]
    ensures forall k :: 0 <= k < i ==> !IsLetterOrDigit(t[k])
    ensures i < |t| ==> IsLetterOrDigit(t[i])
    decreases |t|
  {
    if t != [] && !IsLetterOrDigit(t[0]) {
      var j := TrimStartAt(t[1..]);
      i := j + 1;
      assert t[1..][j..] == t[i..];
      assert forall k :: 1 <= k < i ==> t[k] == t[1..][k - 1];
    } else {
      i := 0;
    }
  }

  lemma {:induction false} TrimEndAt(t: string) returns (j: nat)
    ensures j <= |t| && TrimEnd(t) == t[..j]
    ensures forall k :: j <= k < |t| ==> !IsLetterOrDigit(t[k])
    ensures 0 < j ==> IsLetterOrDigit(t[j - 1])
    decreases |t|
  {
    if t != [] && !IsLetterOrDigit(t[|t| - 1]) {
      j := TrimEndAt(t[..|t| - 1]);
      assert t[..|t| - 1][..j] == t[..j];
    } else {
      j := |t|;
    }
  }

  /**
   * Trimming cuts only the edges: the result is the slice `t[i..j]` of the token, everything cut
   * off before `i` and after `j` is neither a letter nor a digit, and a non-empty result begins
   * and ends with a letter or digit. The characters inside the slice are kept as they are.
   */
  lemma TrimIsSlice(t: string) returns (i: nat, j: nat)
    ensures i <= j <= |t| && Trim(t) == t[i..j]
    ensures forall k :: 0 <= k < i || j <= k < |t| ==> !IsLetterOrDigit(t[k])
    ensures i < j ==> IsLetterOrDigit(t[i]) && IsLetterOrDigit(t[j - 1])
  {
    i := TrimStartAt(t);
    var e := TrimEndAt(t[i..]);
    j := i + e;
    assert t[i..][..e] == t[i..j];
    assert forall k :: j <= k < |t| ==> t[k] == t[i..][k - i];
    if i < j {
      assert t[i..][0] == t[i];
    }
  }

  /** The trimmed, non-empty tokens of `ts`, lower-cased, as a set. */
  function TokenWords(ts: seq<string>): set<string> {
    set t | t in ts && Trim(t) != [] :: ToLower(Trim(t))
  }

  lemma TokenWordsAppend(ts: seq<string>, t: string)
    ensures TokenWords(ts + [t]) == TokenWords(ts) + (if Trim(t) != [] then {ToLower(Trim(t))} else {})
  {
  }

  /** The words of a text: its trimmed, non-empty tokens, lower-cased, as a set. */
  function Words(text: string): set<string> {
    TokenWords(Split(text))
  }

  /** The words of a text that may be null; null has none. */
  function WordSet(text: Option<string>): set<string> {
    if text.None? then {} else Words(text.value)
  }

  /**
   * Every word is non-empty, lower-case and free of white space, begins and ends with a letter or
   * digit, and is the lower-cased slice of some token of the text.
   */
  lemma WordsWellFormed(text: string, w: string)
    requires w in Words(text)
    ensures w != [] && IsLowerCase(w)
    ensures IsLetterOrDigit(w[0]) && IsLetterOrDigit(w[|w| - 1])
    ensures forall k :: 0 <= k < |w| ==> !IsWhiteSpace(w[k])
    ensures exists t, i, j :: t in Split(text) && 0 <= i < j <= |t| && w == ToLower(t[i..j])
  {
    var t :| t in Split(text) && Trim(t) != [] && ToLower(Trim(t)) == w;
    SplitTokens(text);
    var i, j := TrimmedTokenWord(t);
  }

  /** The word a token yields: the lower-cased slice between its first and last letter or digit. */
  lemma TrimmedTokenWord(t: string) returns (i: nat, j: nat)
    requires Trim(t) != [] && forall k :: 0 <= k < |t| ==> !IsWhiteSpace(t[k])
    ensures i < j <= |t| && ToLower(Trim(t)) == ToLower(t[i..j])
    ensures var w := ToLower(Trim(t));
            && w != [] && IsLowerCase(w) && IsLetterOrDigit(w[0]) && IsLetterOrDigit(w[|w| - 1])
            && forall k :: 0 <= k < |w| ==> !IsWhiteSpace(w[k])
  {
    i, j := TrimIsSlice(t);
    var w := ToLower(Trim(t));
    assert |w| == j - i;
    ToLowerCharKeepsClass(t[i]);
    ToLowerCharKeepsClass(t[j - 1]);
    forall k | 0 <= k < |w| ensures !('A' <= w[k] <= 'Z') && !IsWhiteSpace(w[k]) {
      ToLowerCharKeepsClass(t[i + k]);
    }
  }

  /** Lower-casing a whole text leaves its tokens the same up to lower-casing. */
  lemma {:induction false} SplitToLower(s: string)
    ensures |Split(ToLower(s))| == |Split(s)|
    ensures forall n :: 0 <= n < |Split(s)| ==> Split(ToLower(s))[n] == ToLower(Split(s)[n])
    decreases |s|
  {
    var ls := ToLower(s);
    if s != [] {
      ToLowerCharKeepsClass(s[0]);
      assert ls[1..] == ToLower(s[1..]);
      if IsWhiteSpace(s[0]) {
        SplitToLower(s[1..]);
      } else {
        var n := TokenLength(s);
        TokenLengthToLower(s);
        assert ls[..n] == ToLower(s[..n]);
        assert ls[n..] == ToLower(s[n..]);
        SplitToLower(s[n..]);
      }
    }
  }

  lemma {:induction false} TokenLengthToLower(s: string)
    ensures TokenLength(ToLower(s)) == TokenLength(s)
    decreases |s|
  {
    if s != [] {
      ToLowerCharKeepsClass(s[0]);
      assert ToLower(s)[1..] == ToLower(s[1..]);
      TokenLengthToLower(s[1..]);
    }
  }

  lemma {:induction false} TrimToLower(t: string)
    ensures Trim(ToLower(t)) == ToLower(Trim(t))
  {
    TrimStartToLower(t);
    TrimEndToLower(TrimStart(t));
  }

  lemma {:induction false} TrimStartToLower(t: string)
    ensures TrimStart(ToLower(t)) == ToLower(TrimStart(t))
    decreases |t|
  {
    if t != [] {
      ToLowerCharKeepsClass(t[0]);
      assert ToLower(t)[1..] == ToLower(t[1..]);
      TrimStartToLower(t[1..]);
    }
  }

  lemma {:induction false} TrimEndToLower(t: string)
    ensures TrimEnd(ToLower(t)) == ToLower(TrimEnd(t))
    decreases |t|
  {
    if t != [] {
      ToLowerCharKeepsClass(t[|t| - 1]);
      assert ToLower(t)[..|t| - 1] == ToLower(t[..|t| - 1]);
      TrimEndToLower(t[..|t| - 1]);
    }
  }

  /**
   * Matching is case-insensitive: a text and its lower-cased form have the same words, because
   * the query goes through the same splitter.
   */
  lemma WordsIgnoreCase(text: string)
    ensures Words(ToLower(text)) == Words(text)
  {
    SplitToLower(text);
    forall w ensures w in Words(ToLower(text)) <==> w in Words(text) {
      if w in Words(ToLower(text)) {
        LowerWordIsWord(text, w);
      }
      if w in Words(text) {
        WordIsLowerWord(text, w);
      }
    }
  }

  lemma LowerWordIsWord(text: string, w: string)
    requires |Split(ToLower(text))| == |Split(text)|
    requires forall n :: 0 <= n < |Split(text)| ==> Split(ToLower(text))[n] == ToLower(Split(text)[n])
    requires w in Words(ToLower(text))
    ensures w in Words(text)
  {
    var ts, lts := Split(text), Split(ToLower(text));
    var lt :| lt in lts && Trim(lt) != [] && ToLower(Trim(lt)) == w;
    var n :| 0 <= n < |lts| && lts[n] == lt;
    TokenWordToLower(ts[n]);
    assert ts[n] in ts;
  }

  lemma WordIsLowerWord(text: string, w: string)
    requires |Split(ToLower(text))| == |Split(text)|
    requires forall n :: 0 <= n < |Split(text)| ==> Split(ToLower(text))[n] == ToLower(Split(text)[n])
    requires w in Words(text)
    ensures w in Words(ToLower(text))
  {
    var ts, lts := Split(text), Split(ToLower(text));
    var t :| t in ts && Trim(t) != [] && ToLower(Trim(t)) == w;
    var n :| 0 <= n < |ts| && ts[n] == t;
    TokenWordToLower(t);
    assert lts[n] in lts;
  }

  /** A token and its lower-cased form give the same word, or both none. */
  lemma TokenWordToLower(t: string)
    ensures Trim(ToLower(t)) != [] <==> Trim(t) != []
    ensures ToLower(Trim(ToLower(t))) == ToLower(Trim(t))
  {
    TrimToLower(t);
    ToLowerTwice(Trim(t));
  }

  lemma ToLowerTwice(s: string)
    ensures ToLower(ToLower(s)) == ToLower(s)
    ensures |ToLower(s)| == |s|
  {
    forall i | 0 <= i < |s| ensures ToLower(ToLower(s))[i] == ToLower(s)[i] {
      ToLowerCharKeepsClass(s[i]);
    }
  }

  /**
   * The two trimming loops of `GetDistinctWords`: `start` skips the leading characters that are
   * not letters or digits, `end` then backs over the trailing ones, and what lies between is the
   * trimmed token.
   */
  method TrimBounds(word: string) returns (start: nat, end: nat)
    ensures start <= end <= |word| && word[start..end] == Trim(word)
  {
    start := SkipLeading(word);
    end := SkipTrailing(word, start);
  }

  /** The first loop of the trimming: the index of the first letter or digit, or the length. */
  method SkipLeading(word: string) returns (start: nat)
    ensures start <= |word| && word[start..] == TrimStart(word)
  {
    start := 0;
    while start < |word| && !IsLetterOrDigit(word[start])
      invariant start <= |word|
      invariant TrimStart(word[start..]) == TrimStart(word)
    {
      assert word[start..][1..] == word[start + 1..];
      start := start + 1;
    }
  }

  /** The second loop of the trimming: backs `end` over the trailing non-letters and non-digits. */
  method SkipTrailing(word: string, start: nat) returns (end: nat)
    requires start <= |word| && word[start..] == TrimStart(word)
    ensures start <= end <= |word| && word[start..end] == Trim(word)
  {
    end := |word|;
    assert word[start..end] == word[start..];
    while end > start && !IsLetterOrDigit(word[end - 1])
      invariant start <= end <= |word|
      invariant TrimEnd(word[start..end]) == Trim(word)
    {
      ghost var t := word[start..end];
      assert t[|t| - 1] == word[end - 1] && t[..|t| - 1] == word[start..end - 1];
      assert TrimEnd(t) == TrimEnd(word[start..end - 1]);
      end := end - 1;
    }
  }


  /**
   * The loop of `GetDistinctWords` over the tokens: each trimmed, non-empty token is lower-cased
   * and added to a hash set, so the result holds every word of the tokens once.
   */
  method CollectWords(tokens: seq<string>) returns (distinct: seq<string>)
    ensures NoDuplicates(distinct)
    ensures forall w :: w in distinct <==> w in TokenWords(tokens)
  {
    var unique := new HashSet<string>();
    for n := 0 to |tokens|
      invariant unique.Valid()
      invariant forall w :: w in unique.items <==> w in TokenWords(tokens[..n])
    {
      var word := tokens[n];
      var start, end := TrimBounds(word);
      assert tokens[..n + 1] == tokens[..n] + [word];
      TokenWordsAppend(tokens[..n], word);
      if start < end {
        var _ := unique.Add(ToLower(word[start..end]));
      }
    }
    assert tokens[..|tokens|] == tokens;
    distinct := unique.items;
  }

  /** The ascending enumeration of a set of words, each once, in ordinal order. */
  ghost function SortedWords(s: set<string>): (r: seq<string>)
    ensures StrictlySorted(r, StrLess) && NoDuplicates(r)
    ensures forall w :: w in r <==> w in s
  {
    StrLessIsStrictTotalOrder();
    StrictlySortedDistinct(SortedElements(s, StrLess), StrLess);
    SortedElements(s, StrLess)
  }

  /** `Array.Sort` on strings under the ordinal order. */
  method SortWords(s: seq<string>) returns (r: seq<string>)
    ensures Sorted(r, StrLess)
    ensures multiset(r) == multiset(s)
  {
    StrLessIsStrictTotalOrder();
    r := Sort(s, StrLess);
  }

  /** Sorting distinct words gives the one ascending enumeration of the set they make up. */
  lemma SortedDistinctWords(items: seq<string>, r: seq<string>, s: set<string>)
    requires NoDuplicates(items) && Sorted(r, StrLess) && multiset(r) == multiset(items)
    requires forall w :: w in items <==> w in s
    ensures r == SortedWords(s)
  {
    StrLessIsStrictTotalOrder();
    SortedIsSortedElements(items, r, s, StrLess);
  }

  /**
   * `GetDistinctWords`: no words for a null or empty text; otherwise the words of the text,
   * each once, in ascending order.
   */
  method GetDistinctWords(text: Option<string>) returns (words: seq<string>)
    ensures text.None? || text.value == [] ==> words == []
    ensures words == SortedWords(WordSet(text))
  {
    if text.None? || text.value == [] {
      assert WordSet(text) == {};
      return [];
    }
    var distinct := CollectWords(Split(text.value));
    words := SortWords(distinct);
    SortedDistinctWords(distinct, words, WordSet(text));
  }
}
