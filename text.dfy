/** Text handling used by the responder: Python's `str.isspace`, `str.split()`,
    ASCII `str.lower()`, removal of `string.punctuation`, and the normalisation
    pipeline `preprocess_text` with its tokenizer and lemmatizer left abstract. */
module Text {

  /** Python's `str.isspace`, by code point: the separators `str.split()` uses. */
  predicate IsSpace(c: char) {
    var n := c as int;
    (9 <= n <= 13) || (28 <= n <= 32) || n == 0x85 || n == 0xA0 || n == 0x1680 ||
    (0x2000 <= n <= 0x200A) || n == 0x2028 || n == 0x2029 || n == 0x202F ||
    n == 0x205F || n == 0x3000
  }

  /** Membership in Python's `string.punctuation`: the ASCII characters
      !"#$%&'()*+,-./:;<=>?@[\]^_`{|}~ */
  predicate IsPunctuation(c: char) {
    var n := c as int;
    (33 <= n <= 47) || (58 <= n <= 64) || (91 <= n <= 96) || (123 <= n <= 126)
  }

  predicate IsUpper(c: char) {
    'A' <= c <= 'Z'
  }

  function LowerChar(c: char): (r: char)
    ensures !IsUpper(r)
    ensures IsSpace(r) <==> IsSpace(c)
    ensures IsPunctuation(r) <==> IsPunctuation(c)
    ensures !IsUpper(c) ==> r == c
    ensures IsUpper(c) ==> r as int == c as int + 32
  {
    if IsUpper(c) then (c as int + 32) as char else c
  }

  predicate NoSpace(s: string) {
    forall i :: 0 <= i < |s| ==> !IsSpace(s[i])
  }

  predicate AllSpace(s: string) {
    forall i :: 0 <= i < |s| ==> IsSpace(s[i])
  }

  predicate NoUpper(s: string) {
    forall i :: 0 <= i < |s| ==> !IsUpper(s[i])
  }

  predicate NoPunctuation(s: string) {
    forall i :: 0 <= i < |s| ==> !IsPunctuation(s[i])
  }

  /** `s.lower()`, restricted to ASCII letters. */
  function Lower(s: string): (r: string)
    ensures |r| == |s|
    ensures forall i :: 0 <= i < |s| ==> r[i] == LowerChar(s[i])
    ensures NoUpper(r)
    ensures forall i :: 0 <= i < |s| ==> (IsSpace(r[i]) <==> IsSpace(s[i]))
    ensures forall i :: 0 <= i < |s| ==> (IsPunctuation(r[i]) <==> IsPunctuation(s[i]))
    ensures NoUpper(s) ==> r == s
  {
    if s == [] then [] else [LowerChar(s[0])] + Lower(s[1..])
  }

  /** `''.join(c for c in s if c not in string.punctuation)`. */
  function StripPunctuation(s: string): (r: string)
    ensures |r| <= |s|
    ensures NoPunctuation(r)
    ensures forall c :: c in r <==> c in s && !IsPunctuation(c)
    ensures NoPunctuation(s) ==> r == s
  {
    if s == [] then []
    else if IsPunctuation(s[0]) then StripPunctuation(s[1..])
    else [s[0]] + StripPunctuation(s[1..])
  }

  /** The longest prefix of `s` free of whitespace. */
  function LeadingWord(s: string): (w: string)
    ensures |w| <= |s| && w == s[..|w|]
    ensures NoSpace(w)
    ensures |w| < |s| ==> IsSpace(s[|w|])
  {
    if s == [] || IsSpace(s[0]) then [] else [s[0]] + LeadingWord(s[1..])
  }

  /** Python's `s.split()` with no separator: the maximal runs of
      non-whitespace characters, left to right. */
  function Split(s: string): (words: seq<string>)
    ensures forall w :: w in words ==> |w| > 0 && NoSpace(w)
    ensures words == [] <==> AllSpace(s)
    decreases |s|
  {
    if s == [] then []
    else if IsSpace(s[0]) then Split(s[1..])
    else
      var w := LeadingWord(s);
      [w] + Split(s[|w|..])
  }

  /** `s[i..j]` is a maximal run of non-whitespace characters of `s`. */
  predicate RunAt(s: string, i: int, j: int) {
    0 <= i < j <= |s| && NoSpace(s[i..j]) &&
    (i == 0 || IsSpace(s[i - 1])) && (j == |s| || IsSpace(s[j]))
  }

  /** A run of a suffix of `s` is a run of `s`, moved by the suffix offset,
      unless it starts the suffix right after a non-whitespace character. */
  lemma RunOfSuffix(s: string, k: nat, i: int, j: int)
    requires 0 < k <= |s| && RunAt(s[k..], i, j)
    requires i > 0 || IsSpace(s[k - 1])
    ensures RunAt(s, i + k, j + k) && s[i + k..j + k] == s[k..][i..j]
  {
    assert s[i + k..j + k] == s[k..][i..j];
  }

  /** A run of a suffix that follows whitespace, or is itself preceded by
      whitespace, is a run of the whole text. */
  lemma LiftRun(s: string, k: nat, w: string)
    requires 0 < k <= |s|
    requires IsSpace(s[k - 1]) || (k < |s| && IsSpace(s[k]))
    requires exists i, j :: RunAt(s[k..], i, j) && s[k..][i..j] == w
    ensures exists i, j :: RunAt(s, i, j) && s[i..j] == w
  {
    var i, j :| RunAt(s[k..], i, j) && s[k..][i..j] == w;
    assert s[k..][i..j][0] == s[k + i];
    RunOfSuffix(s, k, i, j);
  }

  /** Every word `Split` yields is a maximal non-whitespace run of the text. */
  lemma {:induction false} SplitWordIsRun(s: string, w: string)
    requires w in Split(s)
    ensures exists i, j :: RunAt(s, i, j) && s[i..j] == w
    decreases |s|
  {
    if IsSpace(s[0]) {
      SplitWordIsRun(s[1..], w);
      LiftRun(s, 1, w);
    } else {
      var v := LeadingWord(s);
      assert |v| > 0 by { assert v == [s[0]] + LeadingWord(s[1..]); }
      if w == v {
        assert RunAt(s, 0, |v|);
      } else {
        SplitWordIsRun(s[|v|..], w);
        LiftRun(s, |v|, w);
      }
    }
  }

  /** A run of `s` that starts at or after `k` is a run of `s[k..]`. */
  lemma RunOfTail(s: string, k: nat, i: int, j: int)
    requires RunAt(s, i, j) && 0 < k <= i
    ensures RunAt(s[k..], i - k, j - k) && s[k..][i - k..j - k] == s[i..j]
  {
    assert s[k..][i - k..j - k] == s[i..j];
  }

  /** Where the text does not start with whitespace, its leading word is its
      first run, and every other run starts after it. */
  lemma LeadingWordIsFirstRun(s: string, i: int, j: int)
    requires RunAt(s, i, j) && !IsSpace(s[0])
    ensures i == 0 ==> j == |LeadingWord(s)|
    ensures i > 0 ==> i > |LeadingWord(s)|
  {
    var n := |LeadingWord(s)|;
    assert forall k :: 0 <= k < n ==> !IsSpace(s[k]) by {
      forall k | 0 <= k < n ensures !IsSpace(s[k]) {
        assert LeadingWord(s)[k] == s[k];
      }
    }
  }

  /** A run of a text that starts with whitespace is a run of its tail. */
  lemma RunAfterSpace(s: string, i: int, j: int)
    requires RunAt(s, i, j) && IsSpace(s[0])
    ensures 1 <= i && RunAt(s[1..], i - 1, j - 1) && s[1..][i - 1..j - 1] == s[i..j]
  {
    assert s[i..j][0] == s[i];
    RunOfTail(s, 1, i, j);
  }

  /** A run other than the first one of a text that starts with a word is a
      run of the text after that word. */
  lemma RunAfterWord(s: string, i: int, j: int)
    requires RunAt(s, i, j) && !IsSpace(s[0]) && i > 0
    ensures var n := |LeadingWord(s)|;
      n < i && RunAt(s[n..], i - n, j - n) && s[n..][i - n..j - n] == s[i..j]
  {
    LeadingWordIsFirstRun(s, i, j);
    RunOfTail(s, |LeadingWord(s)|, i, j);
  }

  /** The run at the start of a text is its leading word. */
  lemma FirstRun(s: string, j: int)
    requires RunAt(s, 0, j)
    ensures s[0..j] == LeadingWord(s)
  {
    LeadingWordIsFirstRun(s, 0, j);
  }

  /** Words of the tail after leading whitespace are words of the text. */
  lemma InSplitAfterSpace(s: string, w: string)
    requires s != [] && IsSpace(s[0]) && w in Split(s[1..])
    ensures w in Split(s)
  {
  }

  /** Words after the leading word are words of the text. */
  lemma InSplitAfterWord(s: string, w: string)
    requires s != [] && !IsSpace(s[0]) && w in Split(s[|LeadingWord(s)|..])
    ensures w in Split(s)
  {
  }

  /** The leading word of a text that starts with a word is its first word. */
  lemma LeadingWordInSplit(s: string)
    requires s != [] && !IsSpace(s[0])
    ensures LeadingWord(s) in Split(s)
  {
  }

  /** Every maximal non-whitespace run of the text is a word `Split` yields. */
  lemma {:induction false} RunIsSplitWord(s: string, i: int, j: int)
    requires RunAt(s, i, j)
    ensures s[i..j] in Split(s)
    decreases |s|
  {
    if IsSpace(s[0]) {
      RunAfterSpace(s, i, j);
      RunIsSplitWord(s[1..], i - 1, j - 1);
      InSplitAfterSpace(s, s[i..j]);
    } else if i == 0 {
      FirstRun(s, j);
      LeadingWordInSplit(s);
    } else {
      RunAfterWord(s, i, j);
      var n := |LeadingWord(s)|;
      RunIsSplitWord(s[n..], i - n, j - n);
      InSplitAfterWord(s, s[i..j]);
    }
  }

  /** The words of `s.split()` are exactly the maximal non-whitespace runs of `s`. */
  lemma SplitIsRuns(s: string)
    ensures forall w :: w in Split(s) <==> exists i, j :: RunAt(s, i, j) && s[i..j] == w
  {
    forall w | w in Split(s)
      ensures exists i, j :: RunAt(s, i, j) && s[i..j] == w
    {
      SplitWordIsRun(s, w);
    }
    forall i, j | RunAt(s, i, j)
      ensures s[i..j] in Split(s)
    {
      RunIsSplitWord(s, i, j);
    }
  }

  /** `" ".join(words)`. */
  function Join(words: seq<string>): string {
    if words == [] then ""
    else if |words| == 1 then words[0]
    else words[0] + " " + Join(words[1..])
  }

  lemma {:induction false} LeadingWordOf(w: string, rest: string)
    requires NoSpace(w)
    requires rest == [] || IsSpace(rest[0])
    ensures LeadingWord(w + rest) == w
    decreases |w|
  {
    if w == [] {
    } else {
      assert (w + rest)[1..] == w[1..] + rest;
      LeadingWordOf(w[1..], rest);
    }
  }

  lemma SplitOfWordThen(w: string, rest: string)
    requires |w| > 0 && NoSpace(w)
    requires rest == [] || IsSpace(rest[0])
    ensures Split(w + rest) == [w] + Split(rest)
  {
    LeadingWordOf(w, rest);
    assert (w + rest)[|w|..] == rest;
  }

  /** One more word in front of a non-empty joined tail. */
  lemma SplitJoinCons(w: string, words: seq<string>)
    requires |w| > 0 && NoSpace(w) && words != []
    requires Split(Join(words)) == words
    ensures Split(Join([w] + words)) == [w] + words
  {
    var tail := Join(words);
    assert ([w] + words)[1..] == words;
    assert Join([w] + words) == w + (" " + tail);
    SplitOfWordThen(w, " " + tail);
    assert (" " + tail)[1..] == tail;
  }

  /** Splitting words that were joined with single spaces gives them back. */
  lemma {:induction false} SplitJoin(words: seq<string>)
    requires forall i :: 0 <= i < |words| ==> |words[i]| > 0 && NoSpace(words[i])
    ensures Split(Join(words)) == words
  {
    if words == [] {
    } else if |words| == 1 {
      SplitOfWordThen(words[0], "");
      assert words[0] + "" == words[0];
    } else {
      SplitJoin(words[1..]);
      SplitJoinCons(words[0], words[1..]);
      assert words == [words[0]] + words[1..];
    }
  }

  /** The two foreign stages of `preprocess_text`: NLTK's `word_tokenize`
      and `WordNetLemmatizer.lemmatize`. */
  datatype Nlp = Nlp(tokenize: string -> seq<string>, lemmatize: string -> string)

  /** `[lemmatize(t) for t in tokens]`. */
  function LemmatizeAll(tokens: seq<string>, lemmatize: string -> string): (lemmas: seq<string>)
    ensures |lemmas| == |tokens|
    ensures forall i :: 0 <= i < |tokens| ==> lemmas[i] == lemmatize(tokens[i])
  {
    if tokens == [] then [] else [lemmatize(tokens[0])] + LemmatizeAll(tokens[1..], lemmatize)
  }

  /** `preprocess_text`: lower-case, drop punctuation, tokenize, lemmatize each token. */
  function Preprocess(text: string, nlp: Nlp): (lemmas: seq<string>)
    ensures var tokens := nlp.tokenize(StripPunctuation(Lower(text)));
            |lemmas| == |tokens| &&
            forall i :: 0 <= i < |tokens| ==> lemmas[i] == nlp.lemmatize(tokens[i])
  {
    LemmatizeAll(nlp.tokenize(StripPunctuation(Lower(text))), nlp.lemmatize)
  }

  lemma {:induction false} LowerAppend(a: string, b: string)
    ensures Lower(a + b) == Lower(a) + Lower(b)
  {
    if a == [] {
      assert a + b == b;
    } else {
      assert (a + b)[1..] == a[1..] + b;
      LowerAppend(a[1..], b);
    }
  }

  lemma {:induction false} StripPunctuationAppend(a: string, b: string)
    ensures StripPunctuation(a + b) == StripPunctuation(a) + StripPunctuation(b)
  {
    if a == [] {
      assert a + b == b;
    } else {
      assert (a + b)[1..] == a[1..] + b;
      StripPunctuationAppend(a[1..], b);
    }
  }

  /** Lower-casing and dropping punctuation commute. */
  lemma {:induction false} LowerStripCommute(s: string)
    ensures Lower(StripPunctuation(s)) == StripPunctuation(Lower(s))
  {
    if s != [] {
      LowerStripCommute(s[1..]);
      assert Lower(s) == [LowerChar(s[0])] + Lower(s[1..]);
      if !IsPunctuation(s[0]) {
        assert Lower(StripPunctuation(s)) == Lower([s[0]] + StripPunctuation(s[1..]));
        LowerAppend([s[0]], StripPunctuation(s[1..]));
      }
    }
  }

  /** Normalisation ignores letter case and punctuation in its input. */
  lemma PreprocessIgnoresCaseAndPunctuation(text: string, nlp: Nlp)
    ensures Preprocess(Lower(text), nlp) == Preprocess(text, nlp)
    ensures Preprocess(StripPunctuation(text), nlp) == Preprocess(text, nlp)
  {
    LowerStripCommute(text);
  }

  /** Words that are lower-case and punctuation-free stay so when joined. */
  lemma {:induction false} JoinClean(words: seq<string>)
    requires forall k :: 0 <= k < |words| ==> NoUpper(words[k]) && NoPunctuation(words[k])
    ensures NoUpper(Join(words)) && NoPunctuation(Join(words))
  {
    if |words| > 1 {
      JoinClean(words[1..]);
      var t := Join(words[1..]);
      assert Join(words) == words[0] + (" " + t);
      assert forall i :: 0 <= i < |" " + t| ==> (" " + t)[i] == ' ' || (" " + t)[i] == t[i - 1];
    }
  }

  lemma {:induction false} LemmatizeAllFixed(tokens: seq<string>, lemmatize: string -> string)
    requires forall k :: 0 <= k < |tokens| ==> lemmatize(tokens[k]) == tokens[k]
    ensures LemmatizeAll(tokens, lemmatize) == tokens
  {
    if tokens != [] {
      LemmatizeAllFixed(tokens[1..], lemmatize);
      assert tokens == [tokens[0]] + tokens[1..];
    }
  }

  /** Normalising text that is already normalised gives its words back:
      lower-case, punctuation-free base forms, joined by single spaces, that
      the tokenizer splits back into themselves. */
  lemma PreprocessNormalisedText(words: seq<string>, nlp: Nlp)
    requires forall k :: 0 <= k < |words| ==> NoUpper(words[k]) && NoPunctuation(words[k])
    requires forall k :: 0 <= k < |words| ==> nlp.lemmatize(words[k]) == words[k]
    requires nlp.tokenize(Join(words)) == words
    ensures Preprocess(Join(words), nlp) == words
  {
    JoinClean(words);
    LemmatizeAllFixed(words, nlp.lemmatize);
  }
}
