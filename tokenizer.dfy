/** String operations behind the cleaning step: lower-casing, replacing
    special characters, collapsing and trimming whitespace, splitting into
    words and joining words back, with the shapes of text they produce. */
module Tokenizer {
  import opened Chars

  /** A lower-case word character. */
  predicate IsLowerWordChar(c: char)
  {
    IsWordChar(c) && !IsUpper(c)
  }

  /** Every character is whitespace or a lower-case word character. */
  predicate WordOrSpace(s: string)
  {
    forall i :: 0 <= i < |s| ==> IsSpace(s[i]) || IsLowerWordChar(s[i])
  }

  /** Every character is a plain space or a lower-case word character. */
  predicate WordOrPlainSpace(s: string)
  {
    forall i :: 0 <= i < |s| ==> s[i] == ' ' || IsLowerWordChar(s[i])
  }

  /** Two spaces stand side by side at position `i`. */
  predicate SpacePairAt(s: string, i: nat)
    requires i + 1 < |s|
  {
    s[i] == ' ' && s[i + 1] == ' '
  }

  /** No two spaces are adjacent. */
  predicate NoDoubleSpace(s: string)
  {
    forall i :: 0 <= i < |s| - 1 ==> !SpacePairAt(s, i)
  }

  /** The shape of a cleaned text: lower-case word characters separated by
      single spaces, with no space at either end. */
  predicate IsCleaned(t: string)
  {
    && WordOrPlainSpace(t)
    && NoDoubleSpace(t)
    && (|t| > 0 ==> t[0] != ' ' && t[|t| - 1] != ' ')
  }

  /** No character of `w` is whitespace. */
  predicate HasNoSpace(w: string)
  {
    forall i :: 0 <= i < |w| ==> !IsSpace(w[i])
  }

  /** A non-empty run of lower-case word characters. */
  predicate IsLowerWord(w: string)
  {
    |w| > 0 && forall i :: 0 <= i < |w| ==> IsLowerWordChar(w[i])
  }

  /** Every word of the list is a lower-case word. */
  predicate AllLowerWords(words: seq<string>)
  {
    forall k :: 0 <= k < |words| ==> IsLowerWord(words[k])
  }

  /** Lower-cases every character. */
  function LowerCase(s: string): (r: string)
    ensures |r| == |s|
    ensures forall i :: 0 <= i < |s| ==> !IsUpper(r[i])
    ensures forall i :: 0 <= i < |s| ==> (IsSpace(r[i]) <==> IsSpace(s[i]))
    ensures forall i :: 0 <= i < |s| ==> (IsWordChar(r[i]) <==> IsWordChar(s[i]))
  {
    seq(|s|, i requires 0 <= i < |s| => Lower(s[i]))
  }

  /** Removes special characters: every character that is neither a word
      character nor whitespace becomes one space, so the words on either side
      of it stay apart; the others stay where they are. */
  function ReplaceSpecials(s: string): (r: string)
    ensures |r| == |s|
    ensures forall i :: 0 <= i < |s| ==> IsWordChar(r[i]) || IsSpace(r[i])
    ensures forall i :: 0 <= i < |s| && (IsWordChar(s[i]) || IsSpace(s[i])) ==> r[i] == s[i]
    ensures forall i :: 0 <= i < |s| && !IsWordChar(s[i]) && !IsSpace(s[i]) ==> r[i] == ' '
  {
    seq(|s|, i requires 0 <= i < |s| => if IsWordChar(s[i]) || IsSpace(s[i]) then s[i] else ' ')
  }

  /** Drops the leading whitespace of `s`. */
  function DropSpaces(s: string): (r: string)
    ensures |r| <= |s| && r == s[|s| - |r|..]
    ensures |r| == 0 || !IsSpace(r[0])
  {
    if |s| > 0 && IsSpace(s[0]) then DropSpaces(s[1..]) else s
  }

  /** Drops the trailing whitespace of `s`. */
  function DropTrailingSpaces(s: string): (r: string)
    ensures |r| <= |s| && r == s[..|r|]
    ensures |r| == 0 || !IsSpace(r[|r| - 1])
  {
    if |s| > 0 && IsSpace(s[|s| - 1]) then DropTrailingSpaces(s[..|s| - 1]) else s
  }

  /** Every maximal run of whitespace becomes a single space. */
  function Collapse(s: string): (r: string)
    ensures |r| == 0 <==> |s| == 0
    ensures |s| > 0 ==> r[0] == if IsSpace(s[0]) then ' ' else s[0]
    ensures WordOrSpace(s) ==> WordOrPlainSpace(r)
    decreases |s|
  {
    if |s| == 0 then []
    else if IsSpace(s[0]) then [' '] + Collapse(DropSpaces(s))
    else [s[0]] + Collapse(s[1..])
  }

  /** Trims whitespace from both ends. */
  function Strip(s: string): (r: string)
    ensures |r| == 0 || (!IsSpace(r[0]) && !IsSpace(r[|r| - 1]))
  {
    DropTrailingSpaces(DropSpaces(s))
  }

  /** The longest prefix of `s` that holds no whitespace. */
  function TakeWord(s: string): (w: string)
    ensures |w| <= |s| && w == s[..|w|]
    ensures HasNoSpace(w)
    ensures |w| == |s| || IsSpace(s[|w|])
    ensures |s| > 0 && !IsSpace(s[0]) ==> |w| > 0
  {
    if |s| == 0 || IsSpace(s[0]) then [] else [s[0]] + TakeWord(s[1..])
  }

  /** Tokenizes: the maximal runs of non-whitespace characters, in order. */
  function Split(s: string): (words: seq<string>)
    decreases |s|
  {
    var t := DropSpaces(s);
    if |t| == 0 then []
    else
      var w := TakeWord(t);
      [w] + Split(t[|w|..])
  }

  /** A non-empty run without whitespace. */
  predicate IsWord(w: string)
  {
    |w| > 0 && HasNoSpace(w)
  }

  /** Every word is a non-empty run without whitespace. */
  lemma {:induction false} SplitWords(s: string)
    ensures forall k :: 0 <= k < |Split(s)| ==> IsWord(Split(s)[k])
    decreases |s|
  {
    var t := DropSpaces(s);
    SplitDropSpaces(s);
    if |t| == 0 {
      assert Split(t) == [];
    } else {
      var w := TakeWord(t);
      SplitFirstWord(t);
      SplitWords(t[|w|..]);
      WordsCons(w, Split(t[|w|..]));
    }
  }

  /** A word in front of words. */
  lemma WordsCons(w: string, words: seq<string>)
    requires IsWord(w)
    requires forall k :: 0 <= k < |words| ==> IsWord(words[k])
    ensures forall k :: 0 <= k < |[w] + words| ==> IsWord(([w] + words)[k])
  {
  }

  /** The words separated by single spaces. */
  function Join(words: seq<string>): string
  {
    if words == [] then ""
    else if |words| == 1 then words[0]
    else words[0] + " " + Join(words[1..])
  }

  /** Lower-casing and replacing leave only lower-case word characters and
      whitespace. */
  lemma {:induction false} NormalizedChars(text: string)
    ensures WordOrSpace(ReplaceSpecials(LowerCase(text)))
  {
    var l := LowerCase(text);
    var r := ReplaceSpecials(l);
    forall i | 0 <= i < |r|
      ensures IsSpace(r[i]) || IsLowerWordChar(r[i])
    {
      if !IsSpace(r[i]) {
        assert r[i] == l[i];
      }
    }
  }

  /** A slice of a text made of lower-case words and single spaces is again
      one. */
  lemma SliceShape(c: string, lo: nat, hi: nat)
    requires lo <= hi <= |c|
    requires WordOrPlainSpace(c) && NoDoubleSpace(c)
    ensures WordOrPlainSpace(c[lo..hi]) && NoDoubleSpace(c[lo..hi])
  {
    var t := c[lo..hi];
    forall i | 0 <= i < |t| - 1
      ensures !SpacePairAt(t, i)
    {
      assert t[i] == c[lo + i] && t[i + 1] == c[lo + i + 1];
      assert !SpacePairAt(c, lo + i);
    }
  }

  /** Everything `DropSpaces` drops is whitespace. */
  lemma {:induction false} LeadingBlank(s: string)
    ensures forall i :: 0 <= i < |s| - |DropSpaces(s)| ==> IsSpace(s[i])
    decreases |s|
  {
    if |s| > 0 && IsSpace(s[0]) {
      LeadingBlank(s[1..]);
      forall i | 1 <= i < |s| - |DropSpaces(s)|
        ensures IsSpace(s[i])
      {
        assert s[i] == s[1..][i - 1];
      }
    }
  }

  /** Everything `DropTrailingSpaces` drops is whitespace. */
  lemma {:induction false} TrailingBlank(s: string)
    ensures forall i :: |DropTrailingSpaces(s)| <= i < |s| ==> IsSpace(s[i])
    decreases |s|
  {
    if |s| > 0 && IsSpace(s[|s| - 1]) {
      var u := s[..|s| - 1];
      TrailingBlank(u);
      forall i | |DropTrailingSpaces(s)| <= i < |s| - 1
        ensures IsSpace(s[i])
      {
        assert s[i] == u[i];
      }
    }
  }

  /** Trimming keeps one slice of the text and drops only whitespace on
      either side of it. */
  lemma StripSlice(s: string) returns (k: nat)
    ensures k + |Strip(s)| <= |s| && Strip(s) == s[k..k + |Strip(s)|]
    ensures forall i :: 0 <= i < k ==> IsSpace(s[i])
    ensures forall i :: k + |Strip(s)| <= i < |s| ==> IsSpace(s[i])
  {
    k := |s| - |DropSpaces(s)|;
    StripIsSlice(s);
    LeadingBlank(s);
    StripTrailing(s);
  }

  /** The trimmed text is the slice after the leading whitespace. */
  lemma StripIsSlice(s: string)
    ensures |s| - |DropSpaces(s)| + |Strip(s)| <= |s|
    ensures Strip(s) == s[|s| - |DropSpaces(s)|..|s| - |DropSpaces(s)| + |Strip(s)|]
  {
    var d := DropSpaces(s);
    SliceOfSuffix(s, d, DropTrailingSpaces(d), |s| - |d|);
  }

  /** What follows the trimmed slice is whitespace. */
  lemma StripTrailing(s: string)
    ensures forall i :: |s| - |DropSpaces(s)| + |Strip(s)| <= i < |s| ==> IsSpace(s[i])
  {
    var d := DropSpaces(s);
    TrailingBlank(d);
    BlankTail(s, d, |s| - |d|, |DropTrailingSpaces(d)|);
  }

  /** Whitespace at the end of a suffix is whitespace at the end of the
      whole text. */
  lemma BlankTail(s: string, d: string, k: nat, n: nat)
    requires k <= |s| && d == s[k..] && n <= |d|
    requires forall j :: n <= j < |d| ==> IsSpace(d[j])
    ensures forall i :: k + n <= i < |s| ==> IsSpace(s[i])
  {
    forall i | k + n <= i < |s|
      ensures IsSpace(s[i])
    {
      assert s[i] == d[i - k];
    }
  }

  /** A prefix of a suffix is a slice. */
  lemma SliceOfSuffix(s: string, d: string, t: string, k: nat)
    requires k <= |s| && d == s[k..] && |t| <= |d| && t == d[..|t|]
    ensures k + |t| <= |s| && t == s[k..k + |t|]
  {
  }

  /** Trimming a text made of lower-case words and single spaces leaves a
      cleaned text. */
  lemma StripCleans(c: string)
    requires WordOrPlainSpace(c) && NoDoubleSpace(c)
    ensures IsCleaned(Strip(c))
  {
    var k := StripSlice(c);
    SliceShape(c, k, k + |Strip(c)|);
  }

  /** Putting a character in front of a text without adjacent spaces keeps it
      so, unless both the character and the text's first one are spaces. */
  lemma ConsSingleSpaces(x: char, c: string)
    requires NoDoubleSpace(c)
    requires x == ' ' && |c| > 0 ==> c[0] != ' '
    ensures NoDoubleSpace([x] + c)
  {
    var r := [x] + c;
    forall i | 0 <= i < |r| - 1
      ensures !SpacePairAt(r, i)
    {
      if i > 0 {
        assert r[i] == c[i - 1] && r[i + 1] == c[i];
        assert !SpacePairAt(c, i - 1);
      }
    }
  }

  /** Collapsing never leaves two spaces side by side. */
  lemma {:induction false} CollapseSingleSpaces(s: string)
    ensures NoDoubleSpace(Collapse(s))
    decreases |s|
  {
    if |s| > 0 {
      if IsSpace(s[0]) {
        var rest := DropSpaces(s);
        CollapseSingleSpaces(rest);
        ConsSingleSpaces(' ', Collapse(rest));
      } else {
        CollapseSingleSpaces(s[1..]);
        ConsSingleSpaces(s[0], Collapse(s[1..]));
      }
    }
  }

  /** Collapsing then trimming leaves a cleaned text. */
  lemma StripCollapseCleans(s: string)
    requires WordOrSpace(s)
    ensures IsCleaned(Strip(Collapse(s)))
  {
    CollapseSingleSpaces(s);
    StripCleans(Collapse(s));
  }

  /** The first word of a non-empty cleaned text is a lower-case word. */
  lemma FirstWordShape(t: string)
    requires IsCleaned(t) && |t| > 0
    ensures IsLowerWord(TakeWord(t))
  {
    var w := TakeWord(t);
    forall i | 0 <= i < |w|
      ensures IsLowerWordChar(w[i])
    {
      assert w[i] == t[i];
    }
  }

  /** Splitting a cleaned text takes its first word off the front. */
  lemma SplitFirstWord(t: string)
    requires |t| > 0 && !IsSpace(t[0])
    ensures Split(t) == [TakeWord(t)] + Split(t[|TakeWord(t)|..])
  {
    assert DropSpaces(t) == t;
  }

  /** Splitting ignores one whitespace character in front of a word. */
  lemma SplitSkipsSpace(t: string)
    requires |t| > 0 && IsSpace(t[0])
    requires |t| == 1 || !IsSpace(t[1])
    ensures Split(t) == Split(t[1..])
  {
    var u := t[1..];
    assert |u| == 0 || u[0] == t[1];
    assert DropSpaces(u) == u;
    assert DropSpaces(t) == u;
  }

  /** The space after the first word of a cleaned text is followed by a
      non-empty cleaned text. */
  lemma CleanedAfterSpace(t: string, k: nat)
    requires IsCleaned(t) && k < |t| && t[k] == ' '
    ensures k + 1 < |t| && t[k + 1] != ' '
    ensures IsCleaned(t[k + 1..])
  {
    assert k + 1 < |t|;
    assert !SpacePairAt(t, k);
    var u := t[k + 1..];
    assert u == t[k + 1..|t|];
    SliceShape(t, k + 1, |t|);
    assert u[0] == t[k + 1] && u[|u| - 1] == t[|t| - 1];
  }

  /** A string is its prefix, one character and its suffix. */
  lemma CutAt(t: string, k: nat)
    requires k < |t|
    ensures t == t[..k] + [t[k]] + t[k + 1..]
  {
  }

  /** Splitting a text that starts with a word followed by one space and a
      non-space character takes the word off and goes on after the space. */
  lemma SplitAtFirstSpace(t: string)
    requires |t| > 0 && !IsSpace(t[0])
    requires |TakeWord(t)| + 1 < |t| && !IsSpace(t[|TakeWord(t)| + 1])
    ensures Split(t) == [TakeWord(t)] + Split(t[|TakeWord(t)| + 1..])
  {
    var k := |TakeWord(t)|;
    SplitFirstWord(t);
    SkipSpaceAt(t, k);
  }

  /** Splitting from a lone whitespace character in front of a word is
      splitting from the word. */
  lemma SkipSpaceAt(t: string, k: nat)
    requires k + 1 < |t| && IsSpace(t[k]) && !IsSpace(t[k + 1])
    ensures Split(t[k..]) == Split(t[k + 1..])
  {
    var rest := t[k..];
    assert rest[0] == t[k] && rest[1] == t[k + 1];
    assert rest[1..] == t[k + 1..];
    SplitSkipsSpace(rest);
  }

  /** A text that is all one word splits into that word. */
  lemma LastWord(t: string)
    requires |t| > 0 && !IsSpace(t[0]) && |TakeWord(t)| == |t|
    ensures TakeWord(t) == t && Split(t) == [t]
  {
    assert TakeWord(t) == t[..|t|] == t;
    SplitFirstWord(t);
    assert t[|t|..] == [];
    assert Split([]) == [];
  }

  /** A cleaned text with a space is its first word, one space and a shorter
      non-empty cleaned text, and splitting takes the word off the front. */
  lemma NextWord(t: string)
    requires IsCleaned(t) && |t| > 0 && |TakeWord(t)| < |t|
    ensures t == TakeWord(t) + " " + t[|TakeWord(t)| + 1..]
    ensures IsCleaned(t[|TakeWord(t)| + 1..]) && |t[|TakeWord(t)| + 1..]| > 0
    ensures Split(t) == [TakeWord(t)] + Split(t[|TakeWord(t)| + 1..])
  {
    var k := |TakeWord(t)|;
    assert !IsSpace(t[0]);
    assert t[k] == ' ';
    CleanedAfterSpace(t, k);
    CutAt(t, k);
    assert !IsSpace(t[k + 1]);
    SplitAtFirstSpace(t);
  }

  /** A non-empty cleaned text is a lower-case word, either alone or followed
      by one space and a shorter non-empty cleaned text; splitting follows
      that decomposition. */
  lemma Decompose(t: string) returns (w: string, next: string)
    requires IsCleaned(t) && |t| > 0
    ensures IsLowerWord(w) && |next| < |t|
    ensures |next| == 0 ==> t == w && Split(t) == [w]
    ensures |next| > 0 ==> t == w + " " + next && IsCleaned(next)
    ensures |next| > 0 ==> Split(t) == [w] + Split(next) && |Split(next)| > 0
  {
    w := TakeWord(t);
    FirstWordShape(t);
    if |w| == |t| {
      next := [];
      assert !IsSpace(t[0]);
      LastWord(t);
    } else {
      next := t[|w| + 1..];
      NextWord(t);
      assert !IsSpace(next[0]);
      SplitFirstWord(next);
    }
  }

  /** Joining a word in front of a non-empty list puts one space after it. */
  lemma JoinCons(w: string, words: seq<string>)
    requires |words| > 0
    ensures Join([w] + words) == w + " " + Join(words)
  {
    assert ([w] + words)[1..] == words;
  }

  /** Splitting a cleaned text and joining the words with single spaces gives
      the text back. */
  lemma {:induction false} SplitJoin(t: string)
    requires IsCleaned(t)
    ensures Join(Split(t)) == t
    decreases |t|
  {
    if |t| > 0 {
      var w, next := Decompose(t);
      if |next| > 0 {
        SplitJoin(next);
        JoinCons(w, Split(next));
      }
    }
  }

  /** Every word of a cleaned text is a run of lower-case word characters. */
  lemma {:induction false} CleanedWords(t: string)
    requires IsCleaned(t)
    ensures AllLowerWords(Split(t))
    decreases |t|
  {
    if |t| > 0 {
      var w, next := Decompose(t);
      if |next| > 0 {
        CleanedWords(next);
        AllLowerCons(w, Split(next));
      } else {
        AllLowerCons(w, []);
        assert [w] + [] == [w];
      }
    }
  }

  /** A lower-case word in front of lower-case words. */
  lemma AllLowerCons(w: string, words: seq<string>)
    requires IsLowerWord(w) && AllLowerWords(words)
    ensures AllLowerWords([w] + words)
  {
  }

  /** Splitting skips leading whitespace. */
  lemma SplitDropSpaces(s: string)
    ensures Split(DropSpaces(s)) == Split(s)
  {
    var t := DropSpaces(s);
    assert DropSpaces(t) == t;
  }

  /** Text made only of whitespace has no words. */
  lemma BlankSplit(s: string)
    requires forall i :: 0 <= i < |s| ==> IsSpace(s[i])
    ensures Split(s) == []
  {
  }

  /** Text after a word is appended unchanged once the leading whitespace
      is gone. */
  lemma {:induction false} DropSpacesAppend(u: string, b: string)
    requires |DropSpaces(u)| > 0
    ensures DropSpaces(u + b) == DropSpaces(u) + b
    decreases |u|
  {
    assert (u + b)[0] == u[0];
    if IsSpace(u[0]) {
      calc {
        DropSpaces(u + b);
        DropSpaces((u + b)[1..]);
        { assert (u + b)[1..] == u[1..] + b; }
        DropSpaces(u[1..] + b);
        { DropSpacesAppend(u[1..], b); }
        DropSpaces(u[1..]) + b;
        DropSpaces(u) + b;
      }
    } else {
      assert DropSpaces(u + b) == u + b;
    }
  }

  /** The first word of a word followed by nothing or by whitespace is that
      word. */
  lemma {:induction false} TakeWordAppend(w: string, y: string)
    requires HasNoSpace(w)
    requires |y| == 0 || IsSpace(y[0])
    ensures TakeWord(w + y) == w
    decreases |w|
  {
    if |w| == 0 {
      assert w + y == y;
    } else {
      TakeWordAppend(w[1..], y);
      assert (w + y)[1..] == w[1..] + y;
    }
  }

  /** Splitting a word followed by nothing or by whitespace takes that word
      off the front. */
  lemma SplitWordThen(w: string, y: string)
    requires |w| > 0 && HasNoSpace(w)
    requires |y| == 0 || IsSpace(y[0])
    ensures Split(w + y) == [w] + Split(y)
  {
    TakeWordAppend(w, y);
    assert (w + y)[0] == w[0];
    SplitFirstWord(w + y);
    assert (w + y)[|w|..] == y;
  }

  /** A string is its prefix followed by the rest. */
  lemma TakeDrop(s: string, k: nat)
    requires k <= |s|
    ensures s[..k] + s[k..] == s
  {
  }

  /** Concatenation is associative. */
  lemma ConcatAssoc(a: string, b: string, c: string)
    ensures a + (b + c) == (a + b) + c
  {
  }

  /** Collapsing a text that starts with a word keeps the word and collapses
      what follows it. */
  lemma {:induction false} CollapseWord(s: string)
    requires |s| > 0 && !IsSpace(s[0])
    ensures Collapse(s) == TakeWord(s) + Collapse(s[|TakeWord(s)|..])
    decreases |s|
  {
    var u := s[1..];
    if |u| > 0 && !IsSpace(u[0]) {
      var w := TakeWord(u);
      assert TakeWord(s) == [s[0]] + w;
      calc {
        Collapse(s);
        [s[0]] + Collapse(u);
        { CollapseWord(u); }
        [s[0]] + (w + Collapse(u[|w|..]));
        { ConcatAssoc([s[0]], w, Collapse(u[|w|..])); }
        ([s[0]] + w) + Collapse(u[|w|..]);
        { assert u[|w|..] == s[|w| + 1..]; }
        TakeWord(s) + Collapse(s[|TakeWord(s)|..]);
      }
    } else {
      assert TakeWord(s) == [s[0]];
      assert Collapse(s) == [s[0]] + Collapse(u);
    }
  }

  /** Collapsing whitespace keeps every word, in order. */
  lemma {:induction false} SplitCollapse(s: string)
    ensures Split(Collapse(s)) == Split(s)
    decreases |s|, 1
  {
    if |s| > 0 {
      if IsSpace(s[0]) {
        SplitCollapseSpace(s);
      } else {
        SplitCollapseWord(s);
      }
    }
  }

  /** Collapsing keeps the words of a text that starts with whitespace. */
  lemma {:induction false} SplitCollapseSpace(s: string)
    requires |s| > 0 && IsSpace(s[0])
    ensures Split(Collapse(s)) == Split(s)
    decreases |s|, 0
  {
    var d := DropSpaces(s);
    var c := Collapse(d);
    calc {
      Split(Collapse(s));
      Split([' '] + c);
      { SplitDropSpaces([' '] + c); }
      Split(DropSpaces([' '] + c));
      { assert ([' '] + c)[1..] == c; }
      Split(DropSpaces(c));
      { SplitDropSpaces(c); }
      Split(c);
      { SplitCollapse(d); }
      Split(d);
      { SplitDropSpaces(s); }
      Split(s);
    }
  }

  /** Collapsing keeps the words of a text that starts with a word. */
  lemma {:induction false} SplitCollapseWord(s: string)
    requires |s| > 0 && !IsSpace(s[0])
    ensures Split(Collapse(s)) == Split(s)
    decreases |s|, 0
  {
    var w := TakeWord(s);
    var rest := s[|w|..];
    calc {
      Split(Collapse(s));
      { CollapseWord(s); }
      Split(w + Collapse(rest));
      { SplitWordThen(w, Collapse(rest)); }
      [w] + Split(Collapse(rest));
      { SplitCollapse(rest); }
      [w] + Split(rest);
      { SplitWordThen(w, rest); TakeDrop(s, |w|); }
      Split(s);
    }
  }

  /** Whitespace at the end adds no word. */
  lemma {:induction false} SplitAppendBlank(u: string, b: string)
    requires forall i :: 0 <= i < |b| ==> IsSpace(b[i])
    ensures Split(u + b) == Split(u)
    decreases |u|
  {
    var t := DropSpaces(u);
    if |t| == 0 {
      LeadingBlank(u);
      BlankSplit(u);
      BlankSplit(u + b);
    } else {
      var w := TakeWord(t);
      var r := t[|w|..];
      assert t == w + r;
      calc {
        Split(u + b);
        { SplitDropSpaces(u + b); }
        Split(DropSpaces(u + b));
        { DropSpacesAppend(u, b); }
        Split(t + b);
        { ConcatAssoc(w, r, b); }
        Split(w + (r + b));
        { SplitWordThen(w, r + b); }
        [w] + Split(r + b);
        { SplitAppendBlank(r, b); }
        [w] + Split(r);
        { SplitWordThen(w, r); }
        Split(t);
        { SplitDropSpaces(u); }
        Split(u);
      }
    }
  }

  /** Trimming keeps every word, in order. */
  lemma SplitStrip(s: string)
    ensures Split(Strip(s)) == Split(s)
  {
    var d := DropSpaces(s);
    var t := DropTrailingSpaces(d);
    var b := d[|t|..];
    assert d == t + b by { TakeDrop(d, |t|); }
    assert forall i :: 0 <= i < |b| ==> IsSpace(b[i]) by {
      TrailingBlank(d);
      forall i | 0 <= i < |b| ensures IsSpace(b[i]) {
        assert b[i] == d[|t| + i];
      }
    }
    calc {
      Split(Strip(s));
      Split(t);
      { SplitAppendBlank(t, b); }
      Split(t + b);
      Split(d);
      { SplitDropSpaces(s); }
      Split(s);
    }
  }

  /** Whitespace-only text, the empty text included, cleans to nothing. */
  lemma {:induction false} BlankCollapse(s: string)
    requires forall i :: 0 <= i < |s| ==> IsSpace(s[i])
    ensures Strip(Collapse(s)) == []
  {
    if |s| > 0 {
      assert DropSpaces(s) == [];
      assert Collapse(s) == [' '];
    }
  }
}
