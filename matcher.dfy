/** Knowledge-base matching, the loop of `get_chatbot_response` after the
    greeting and farewell checks: every non-default key is scored by how many
    of its lemmas occur in the input's lemmas, and the best-scoring reply is
    kept, with the tie-break on lemma counts exactly as the source writes it. */
module Matcher {
  import opened Optional
  import opened Tables

  /** `preprocess_text` as the matcher sees it: text to its lemmas. */
  type Normaliser = string -> seq<string>

  /** A dictionary's keys are distinct. */
  predicate DistinctKeys(kb: seq<Entry>) {
    forall i, j :: 0 <= i < j < |kb| ==> kb[i].key != kb[j].key
  }

  predicate HasKey(kb: seq<Entry>, key: string) {
    exists i :: 0 <= i < |kb| && kb[i].key == key
  }

  /** A knowledge base the matcher can run on: a dictionary holding `"default"`. */
  predicate ValidKb(kb: seq<Entry>) {
    DistinctKeys(kb) && HasKey(kb, DefaultKey)
  }

  /** `kb[key]` for a dictionary kept as a sequence of entries. */
  function Lookup(kb: seq<Entry>, key: string): (r: Option<string>)
    ensures r.Some? <==> HasKey(kb, key)
    ensures r.Some? ==> exists i :: 0 <= i < |kb| && kb[i] == Entry(key, r.value)
    ensures DistinctKeys(kb) ==> forall i :: 0 <= i < |kb| && kb[i].key == key ==> r == Some(kb[i].response)
  {
    if kb == [] then None
    else if kb[0].key == key then Some(kb[0].response)
    else
      var r := Lookup(kb[1..], key);
      assert forall i :: 1 <= i < |kb| ==> kb[i] == kb[1..][i - 1];
      r
  }

  /** `KNOWLEDGE_BASE["default"]`. */
  function DefaultOf(kb: seq<Entry>): string
    requires ValidKb(kb)
  {
    Lookup(kb, DefaultKey).value
  }

  /** `sum(1 for lemma in key_lemmas if lemma in input_lemmas)`. */
  function Score(keyLemmas: seq<string>, inputLemmas: seq<string>): (n: nat)
    ensures n <= |keyLemmas|
  {
    if keyLemmas == [] then 0
    else (if keyLemmas[0] in inputLemmas then 1 else 0) + Score(keyLemmas[1..], inputLemmas)
  }

  /** The score is 0 exactly when no key lemma occurs in the input, and the
      full key length exactly when every key lemma does. */
  lemma {:induction false} ScoreExtremes(keyLemmas: seq<string>, inputLemmas: seq<string>)
    ensures Score(keyLemmas, inputLemmas) == 0 <==>
              forall i :: 0 <= i < |keyLemmas| ==> keyLemmas[i] !in inputLemmas
    ensures Score(keyLemmas, inputLemmas) == |keyLemmas| <==>
              forall i :: 0 <= i < |keyLemmas| ==> keyLemmas[i] in inputLemmas
  {
    if keyLemmas != [] {
      ScoreExtremes(keyLemmas[1..], inputLemmas);
      assert forall i :: 1 <= i < |keyLemmas| ==> keyLemmas[i] == keyLemmas[1..][i - 1];
    }
  }

  /** Every occurrence of a lemma in the key counts: the score of two key
      parts is the sum of their scores. */
  lemma {:induction false} ScoreAppend(k1: seq<string>, k2: seq<string>, inputLemmas: seq<string>)
    ensures Score(k1 + k2, inputLemmas) == Score(k1, inputLemmas) + Score(k2, inputLemmas)
  {
    if k1 == [] {
      assert k1 + k2 == k2;
    } else {
      assert (k1 + k2)[0] == k1[0];
      assert (k1 + k2)[1..] == k1[1..] + k2;
      ScoreAppend(k1[1..], k2, inputLemmas);
    }
  }

  /** The score depends only on which lemmas occur in the input, not on how
      often or where. */
  lemma {:induction false} ScoreOnlySeesMembership(keyLemmas: seq<string>, in1: seq<string>, in2: seq<string>)
    requires forall x :: x in in1 <==> x in in2
    ensures Score(keyLemmas, in1) == Score(keyLemmas, in2)
  {
    if keyLemmas != [] {
      ScoreOnlySeesMembership(keyLemmas[1..], in1, in2);
    }
  }

  /** The score one entry receives against the input. */
  function EntryScore(e: Entry, inputLemmas: seq<string>, norm: Normaliser): nat {
    Score(norm(e.key), inputLemmas)
  }

  /** The loop's two variables: `best_match_response` and `max_matches`. */
  datatype Best = Best(response: string, matches: nat)

  function Max(a: nat, b: nat): nat {
    if a < b then b else a
  }

  /** One iteration of the matching loop on entry `e`. */
  function Step(b: Best, e: Entry, inputLemmas: seq<string>, norm: Normaliser): (b': Best)
    ensures e.key == DefaultKey ==> b' == b
    ensures e.key != DefaultKey ==> b'.matches == Max(b.matches, EntryScore(e, inputLemmas, norm))
    ensures b' != b ==> b'.response == e.response && EntryScore(e, inputLemmas, norm) > 0
    ensures e.key != DefaultKey && EntryScore(e, inputLemmas, norm) > b.matches ==>
              b' == Best(e.response, EntryScore(e, inputLemmas, norm))
    ensures e.key != DefaultKey && EntryScore(e, inputLemmas, norm) < b.matches ==> b' == b
    // A positive tie replaces exactly when the entry's KEY has more lemmas
    // than the current best REPLY text has.
    ensures (e.key != DefaultKey && 0 < EntryScore(e, inputLemmas, norm) == b.matches &&
             |norm(e.key)| > |norm(b.response)|) ==> b' == Best(e.response, b.matches)
    ensures (e.key != DefaultKey && 0 < EntryScore(e, inputLemmas, norm) == b.matches &&
             |norm(e.key)| <= |norm(b.response)|) ==> b' == b
  {
    if e.key == DefaultKey then b
    else
      var keyLemmas := norm(e.key);
      var current := Score(keyLemmas, inputLemmas);
      if current > b.matches then Best(e.response, current)
      else if current == b.matches && current > 0 && |keyLemmas| > |norm(b.response)| then
        Best(e.response, b.matches)
      else b
  }

  /** The loop's state after the first `n` entries of `kb`, starting from the
      default reply with zero matches. */
  function SelectUpTo(kb: seq<Entry>, n: nat, inputLemmas: seq<string>, norm: Normaliser): (b: Best)
    requires ValidKb(kb) && n <= |kb|
    ensures b.matches == MaxScore(kb, n, inputLemmas, norm)
    ensures b.matches == 0 ==> b.response == DefaultOf(kb)
  {
    if n == 0 then Best(DefaultOf(kb), 0)
    else Step(SelectUpTo(kb, n - 1, inputLemmas, norm), kb[n - 1], inputLemmas, norm)
  }

  /** The loop's state once every entry has been seen. */
  function Select(kb: seq<Entry>, inputLemmas: seq<string>, norm: Normaliser): (b: Best)
    requires ValidKb(kb)
    ensures b.matches == MaxScore(kb, |kb|, inputLemmas, norm)
    ensures b.matches == 0 ==> b.response == DefaultOf(kb)
  {
    SelectUpTo(kb, |kb|, inputLemmas, norm)
  }

  /** Reference definition: the highest score among the first `n` entries,
      the default entry excluded, and 0 when there is none. */
  function MaxScore(kb: seq<Entry>, n: nat, inputLemmas: seq<string>, norm: Normaliser): nat
    requires n <= |kb|
  {
    if n == 0 then 0
    else if kb[n - 1].key == DefaultKey then MaxScore(kb, n - 1, inputLemmas, norm)
    else Max(MaxScore(kb, n - 1, inputLemmas, norm), EntryScore(kb[n - 1], inputLemmas, norm))
  }

  /** A reply the matcher may give: the default one or the reply of a
      non-default entry among the first `n`. */
  predicate IsCandidate(kb: seq<Entry>, n: nat, r: string)
    requires ValidKb(kb) && n <= |kb|
  {
    r == DefaultOf(kb) || exists i :: 0 <= i < n && kb[i].key != DefaultKey && kb[i].response == r
  }

  /** After `n` entries, `max_matches` is the maximum score so far; the
      reply is the default one while that maximum is 0, and otherwise the
      reply of a non-default entry whose score is that maximum. */
  lemma {:induction false} SelectUpToMeaning(kb: seq<Entry>, n: nat, inputLemmas: seq<string>, norm: Normaliser)
    requires ValidKb(kb) && n <= |kb|
    ensures SelectUpTo(kb, n, inputLemmas, norm).matches == MaxScore(kb, n, inputLemmas, norm)
    ensures SelectUpTo(kb, n, inputLemmas, norm).matches == 0 ==>
              SelectUpTo(kb, n, inputLemmas, norm).response == DefaultOf(kb)
    ensures SelectUpTo(kb, n, inputLemmas, norm).matches > 0 ==>
              exists i :: 0 <= i < n && kb[i].key != DefaultKey &&
                EntryScore(kb[i], inputLemmas, norm) == SelectUpTo(kb, n, inputLemmas, norm).matches &&
                kb[i].response == SelectUpTo(kb, n, inputLemmas, norm).response
  {
    if n > 0 {
      SelectUpToMeaning(kb, n - 1, inputLemmas, norm);
      var b := SelectUpTo(kb, n - 1, inputLemmas, norm);
      var b' := SelectUpTo(kb, n, inputLemmas, norm);
      if b' != b {
        assert EntryScore(kb[n - 1], inputLemmas, norm) == b'.matches;
      } else if b.matches > 0 {
        var i :| 0 <= i < n - 1 && kb[i].key != DefaultKey &&
                 EntryScore(kb[i], inputLemmas, norm) == b.matches && kb[i].response == b.response;
      }
    }
  }

  /** Once every entry is seen, `max_matches` is the highest score of any
      non-default entry, and the reply is the default one or the reply of a
      non-default entry; the default one whenever nothing scored. */
  lemma SelectMeaning(kb: seq<Entry>, inputLemmas: seq<string>, norm: Normaliser)
    requires ValidKb(kb)
    ensures Select(kb, inputLemmas, norm).matches == MaxScore(kb, |kb|, inputLemmas, norm)
    ensures IsCandidate(kb, |kb|, Select(kb, inputLemmas, norm).response)
    ensures Select(kb, inputLemmas, norm).matches == 0 ==> Select(kb, inputLemmas, norm).response == DefaultOf(kb)
  {
    SelectUpToMeaning(kb, |kb|, inputLemmas, norm);
  }

  /** An entry scores when some lemma of its key occurs in the input. */
  predicate Overlaps(e: Entry, inputLemmas: seq<string>, norm: Normaliser) {
    exists j :: 0 <= j < |norm(e.key)| && norm(e.key)[j] in inputLemmas
  }

  /** `MaxScore` bounds the score of every non-default entry it covers. */
  lemma {:induction false} MaxScoreIsUpperBound(kb: seq<Entry>, n: nat, inputLemmas: seq<string>, norm: Normaliser)
    requires n <= |kb|
    ensures forall i :: 0 <= i < n && kb[i].key != DefaultKey ==>
              EntryScore(kb[i], inputLemmas, norm) <= MaxScore(kb, n, inputLemmas, norm)
  {
    if n > 0 {
      MaxScoreIsUpperBound(kb, n - 1, inputLemmas, norm);
    }
  }

  /** `MaxScore` is no more than any common bound of the scores it covers. */
  lemma {:induction false} MaxScoreAtMost(kb: seq<Entry>, n: nat, bound: nat, inputLemmas: seq<string>, norm: Normaliser)
    requires n <= |kb|
    requires forall i :: 0 <= i < n && kb[i].key != DefaultKey ==> EntryScore(kb[i], inputLemmas, norm) <= bound
    ensures MaxScore(kb, n, inputLemmas, norm) <= bound
  {
    if n > 0 {
      MaxScoreAtMost(kb, n - 1, bound, inputLemmas, norm);
    }
  }

  /** When no non-default key shares a lemma with the input, every score is
      0 and the reply is the default one; and only then is the maximum 0. */
  lemma NoOverlapMeansDefault(kb: seq<Entry>, inputLemmas: seq<string>, norm: Normaliser)
    requires ValidKb(kb)
    ensures MaxScore(kb, |kb|, inputLemmas, norm) == 0 <==>
              forall i :: 0 <= i < |kb| && kb[i].key != DefaultKey ==> !Overlaps(kb[i], inputLemmas, norm)
    ensures MaxScore(kb, |kb|, inputLemmas, norm) == 0 ==> Select(kb, inputLemmas, norm) == Best(DefaultOf(kb), 0)
  {
    SelectUpToMeaning(kb, |kb|, inputLemmas, norm);
    MaxScoreIsUpperBound(kb, |kb|, inputLemmas, norm);
    forall i | 0 <= i < |kb| && kb[i].key != DefaultKey
      ensures EntryScore(kb[i], inputLemmas, norm) == 0 <==> !Overlaps(kb[i], inputLemmas, norm)
    {
      ScoreExtremes(norm(kb[i].key), inputLemmas);
    }
  }

  /** An empty input (an empty or blank line) matches nothing and gets the
      default reply. */
  lemma EmptyInputMeansDefault(kb: seq<Entry>, norm: Normaliser)
    requires ValidKb(kb)
    ensures Select(kb, [], norm) == Best(DefaultOf(kb), 0)
  {
    NoOverlapMeansDefault(kb, [], norm);
  }

  /** The tie-break as written: the first entry to reach the final maximum
      keeps its place unless a later entry with the same score has a key
      with more lemmas than that entry's REPLY text has lemmas. */
  lemma {:induction false} FirstMaximumKept(kb: seq<Entry>, j: nat, n: nat, inputLemmas: seq<string>, norm: Normaliser)
    requires ValidKb(kb) && j < n <= |kb| && kb[j].key != DefaultKey
    requires 0 < EntryScore(kb[j], inputLemmas, norm) == MaxScore(kb, n, inputLemmas, norm)
    requires forall i :: 0 <= i < j && kb[i].key != DefaultKey ==>
               EntryScore(kb[i], inputLemmas, norm) < EntryScore(kb[j], inputLemmas, norm)
    requires forall k :: j < k < n && kb[k].key != DefaultKey &&
               EntryScore(kb[k], inputLemmas, norm) == EntryScore(kb[j], inputLemmas, norm)
               ==> |norm(kb[k].key)| <= |norm(kb[j].response)|
    ensures SelectUpTo(kb, n, inputLemmas, norm) == Best(kb[j].response, EntryScore(kb[j], inputLemmas, norm))
  {
    var s := EntryScore(kb[j], inputLemmas, norm);
    if n == j + 1 {
      SelectUpToMeaning(kb, j, inputLemmas, norm);
      var b := SelectUpTo(kb, j, inputLemmas, norm);
      if b.matches > 0 {
        var i :| 0 <= i < j && kb[i].key != DefaultKey && EntryScore(kb[i], inputLemmas, norm) == b.matches;
      }
      assert b.matches < s;
    } else {
      MaxScoreIsUpperBound(kb, n - 1, inputLemmas, norm);
      assert s <= MaxScore(kb, n - 1, inputLemmas, norm) <= MaxScore(kb, n, inputLemmas, norm);
      FirstMaximumKept(kb, j, n - 1, inputLemmas, norm);
      var e := kb[n - 1];
      if e.key != DefaultKey {
        MaxScoreIsUpperBound(kb, n, inputLemmas, norm);
        assert EntryScore(e, inputLemmas, norm) <= s;
      }
    }
  }

  /** The tie-break as written, replacing side: an entry that ties the
      positive best score so far replaces the kept reply when its key has
      more lemmas than that REPLY text has. */
  lemma LongerTieReplaces(kb: seq<Entry>, k: nat, inputLemmas: seq<string>, norm: Normaliser)
    requires ValidKb(kb) && k < |kb| && kb[k].key != DefaultKey
    requires 0 < EntryScore(kb[k], inputLemmas, norm) == SelectUpTo(kb, k, inputLemmas, norm).matches
    requires |norm(kb[k].key)| > |norm(SelectUpTo(kb, k, inputLemmas, norm).response)|
    ensures SelectUpTo(kb, k + 1, inputLemmas, norm) == Best(kb[k].response, EntryScore(kb[k], inputLemmas, norm))
  {
  }

  /** The matching loop of `get_chatbot_response`. */
  method BestMatch(kb: seq<Entry>, inputLemmas: seq<string>, norm: Normaliser) returns (response: string, maxMatches: nat)
    requires ValidKb(kb)
    ensures Best(response, maxMatches) == Select(kb, inputLemmas, norm)
    ensures maxMatches == MaxScore(kb, |kb|, inputLemmas, norm)
    ensures IsCandidate(kb, |kb|, response)
    ensures maxMatches == 0 ==> response == DefaultOf(kb)
  {
    response := DefaultOf(kb);
    maxMatches := 0;
    for i := 0 to |kb|
      invariant Best(response, maxMatches) == SelectUpTo(kb, i, inputLemmas, norm)
    {
      ghost var before := Best(response, maxMatches);
      var e := kb[i];
      assert SelectUpTo(kb, i + 1, inputLemmas, norm) == Step(before, e, inputLemmas, norm);
      if e.key == DefaultKey {
        continue;
      }
      var keyLemmas := norm(e.key);
      var currentMatches := Score(keyLemmas, inputLemmas);
      if currentMatches > maxMatches {
        maxMatches := currentMatches;
        response := e.response;
      } else if currentMatches == maxMatches && currentMatches > 0 && |keyLemmas| > |norm(response)| {
        response := e.response;
      }
    }
    assert Best(response, maxMatches) == Select(kb, inputLemmas, norm);
    SelectMeaning(kb, inputLemmas, norm);
  }
}
