/** Concrete conversations. The greeting and farewell cases hold for any
    tokenizer and lemmatizer; the knowledge-base cases hold for any
    normaliser that turns each key into its words, as a whitespace tokenizer
    with every word its own lemma does. */
module Scenarios {
  import opened Text
  import opened Tables
  import Matcher
  import opened Responder

  /** A sentence of words joined by single spaces has a trigger exactly
      when one of its words, lower-cased, is one. */
  lemma WordsTrigger(sentence: string, words: seq<string>, triggers: seq<string>)
    requires sentence == Join(words)
    requires forall k :: 0 <= k < |words| ==> |words[k]| > 0 && NoSpace(words[k])
    ensures HasTrigger(sentence, triggers) <==> exists k :: 0 <= k < |words| && Lower(words[k]) in triggers
  {
    SplitJoin(words);
    if exists k :: 0 <= k < |words| && Lower(words[k]) in triggers {
      var k :| 0 <= k < |words| && Lower(words[k]) in triggers;
      assert words[k] in Split(sentence);
    }
  }

  /** A sentence of plain lower-case words has a trigger exactly when one
      of its words is one. */
  lemma PlainWordsTrigger(sentence: string, words: seq<string>, triggers: seq<string>)
    requires sentence == Join(words)
    requires forall k :: 0 <= k < |words| ==> |words[k]| > 0 && NoSpace(words[k]) && NoUpper(words[k])
    ensures HasTrigger(sentence, triggers) <==> exists k :: 0 <= k < |words| && words[k] in triggers
  {
    WordsTrigger(sentence, words, triggers);
    assert forall k :: 0 <= k < |words| ==> Lower(words[k]) == words[k];
  }

  lemma HelloThereWords()
    ensures HasTrigger("hello there", GreetingInputs)
  {
    PlainWordsTrigger("hello there", ["hello", "there"], GreetingInputs);
    assert ["hello", "there"][0] in GreetingInputs;
  }

  lemma ByeIsNoGreetingWord()
    ensures "bye" !in GreetingInputs
  {
  }

  lemma ByeWords()
    ensures !HasTrigger("bye", GreetingInputs) && HasTrigger("bye", FarewellInputs)
  {
    ByeIsNoGreetingWord();
    PlainWordsTrigger("bye", ["bye"], GreetingInputs);
    PlainWordsTrigger("bye", ["bye"], FarewellInputs);
    assert ["bye"][0] in FarewellInputs;
  }

  lemma HiByeWords()
    ensures HasTrigger("hi bye", GreetingInputs) && HasTrigger("hi bye", FarewellInputs)
  {
    PlainWordsTrigger("hi bye", ["hi", "bye"], GreetingInputs);
    PlainWordsTrigger("hi bye", ["hi", "bye"], FarewellInputs);
    assert ["hi", "bye"][0] in GreetingInputs;
    assert ["hi", "bye"][1] in FarewellInputs;
  }

  /** "hello there" is a greeting: any reply comes from the greeting pool
      and the conversation goes on. */
  method HelloThere(nlp: Nlp) returns (reply: string, exit: bool)
    ensures reply in GreetingResponses && !exit
  {
    HelloThereWords();
    reply, exit := GetChatbotResponse("hello there", nlp);
  }

  /** "bye" ends the conversation with a farewell. */
  method Bye(nlp: Nlp) returns (reply: string, exit: bool)
    ensures reply in FarewellResponses && exit
  {
    ByeWords();
    reply, exit := GetChatbotResponse("bye", nlp);
  }

  /** "hi bye" holds both a greeting and a farewell word: the greeting wins
      and the conversation does not end. */
  method HiBye(nlp: Nlp) returns (reply: string, exit: bool)
    ensures reply in GreetingResponses && !exit
  {
    HiByeWords();
    reply, exit := GetChatbotResponse("hi bye", nlp);
  }

  lemma HelloLowered()
    ensures Lower("Hello") == "hello"
  {
  }

  lemma CapitalisedHelloThereWords()
    ensures HasTrigger("Hello There", GreetingInputs)
  {
    WordsTrigger("Hello There", ["Hello", "There"], GreetingInputs);
    HelloLowered();
    assert Lower(["Hello", "There"][0]) in GreetingInputs;
  }

  /** "Hello There" is a greeting too: the words are lower-cased before the
      table lookup. */
  method CapitalisedHelloThere(nlp: Nlp) returns (reply: string, exit: bool)
    ensures reply in GreetingResponses && !exit
  {
    CapitalisedHelloThereWords();
    reply, exit := GetChatbotResponse("Hello There", nlp);
  }

  lemma SeeYaWordsAreNoFarewells()
    ensures "see" !in FarewellInputs && "ya" !in FarewellInputs
  {
  }

  /** "see ya" is never a farewell: its two words are checked one by one. */
  lemma SeeYaIsNoFarewell()
    ensures !HasTrigger("see ya", FarewellInputs)
  {
    SeeYaWordsAreNoFarewells();
    PlainWordsTrigger("see ya", ["see", "ya"], FarewellInputs);
  }

  /** The words of each non-default key, in knowledge-base order. */
  const KeyWords: seq<seq<string>> := [
    ["how", "are", "you"], ["what", "is", "your", "name"], ["what", "can", "you", "do"],
    ["who", "created", "you"], ["thank", "you"], ["thanks"], ["services"], ["products"],
    ["laptop"], ["order", "status"], ["support"]
  ]

  /** The normaliser turns every non-default key into its words. */
  predicate KeysAreTheirWords(norm: Matcher.Normaliser) {
    forall i :: 0 <= i < 11 ==> norm(KnowledgeBase[i].key) == KeyWords[i]
  }

  lemma KeyScores(norm: Matcher.Normaliser, inputLemmas: seq<string>)
    requires KeysAreTheirWords(norm)
    ensures forall i :: 0 <= i < 11 ==>
              Matcher.EntryScore(KnowledgeBase[i], inputLemmas, norm) == Matcher.Score(KeyWords[i], inputLemmas)
    ensures Matcher.ValidKb(KnowledgeBase) && KnowledgeBase[11].key == DefaultKey
    ensures forall i :: 0 <= i < 11 ==> KnowledgeBase[i].key != DefaultKey
  {
    KnowledgeBaseValid();
  }

  const NameInput: seq<string> := ["what", "is", "your", "name"]

  lemma NameScoresA()
    ensures
      Matcher.Score(KeyWords[0], NameInput) == 0 &&
      Matcher.Score(KeyWords[1], NameInput) == 4 &&
      Matcher.Score(KeyWords[2], NameInput) == 1
  {
    assert KeyWords[0] == ["how", "are", "you"];
    assert KeyWords[1] == ["what", "is", "your", "name"];
    assert KeyWords[2] == ["what", "can", "you", "do"];
  }

  lemma NameScoresB()
    ensures
      Matcher.Score(KeyWords[3], NameInput) == 0 &&
      Matcher.Score(KeyWords[4], NameInput) == 0 &&
      Matcher.Score(KeyWords[9], NameInput) == 0
  {
    assert KeyWords[3] == ["who", "created", "you"];
    assert KeyWords[4] == ["thank", "you"];
    assert KeyWords[9] == ["order", "status"];
  }

  lemma NameScoresC()
    ensures
      Matcher.Score(KeyWords[5], NameInput) == 0 &&
      Matcher.Score(KeyWords[6], NameInput) == 0 &&
      Matcher.Score(KeyWords[7], NameInput) == 0 &&
      Matcher.Score(KeyWords[8], NameInput) == 0 &&
      Matcher.Score(KeyWords[10], NameInput) == 0
  {
    assert KeyWords[5] == ["thanks"];
    assert KeyWords[6] == ["services"];
    assert KeyWords[7] == ["products"];
    assert KeyWords[8] == ["laptop"];
    assert KeyWords[10] == ["support"];
  }

  /** The score of every key's words against "what is your name". */
  lemma NameWordScores()
    ensures forall i :: 0 <= i < 11 ==> Matcher.Score(KeyWords[i], NameInput) == (if i == 1 then 4 else if i == 2 then 1 else 0)
  {
    NameScoresA();
    NameScoresB();
    NameScoresC();
    forall i | 0 <= i < 11
      ensures Matcher.Score(KeyWords[i], NameInput) == (if i == 1 then 4 else if i == 2 then 1 else 0)
    {
      if i == 0 {} else if i == 1 {} else if i == 2 {} else if i == 3 {} else if i == 4 {}
      else if i == 5 {} else if i == 6 {} else if i == 7 {} else if i == 8 {} else if i == 9 {} else {}
    }
  }

  lemma NameKeyScores(norm: Matcher.Normaliser)
    requires KeysAreTheirWords(norm)
    ensures Matcher.ValidKb(KnowledgeBase) && KnowledgeBase[11].key == DefaultKey
    ensures forall i :: 0 <= i < 11 ==>
              KnowledgeBase[i].key != DefaultKey &&
              Matcher.EntryScore(KnowledgeBase[i], NameInput, norm) == (if i == 1 then 4 else if i == 2 then 1 else 0)
  {
    NameWordScores();
    KeyScores(norm, NameInput);
  }

  /** "what is your name" matches every lemma of the second key and gets
      its reply. */
  lemma NameQuestion(norm: Matcher.Normaliser)
    requires KeysAreTheirWords(norm)
    ensures KnowledgeBaseMatch(NameInput, norm) == Matcher.Best(KnowledgeBase[1].response, 4)
  {
    NameKeyScores(norm);
    Matcher.MaxScoreIsUpperBound(KnowledgeBase, 12, NameInput, norm);
    Matcher.MaxScoreAtMost(KnowledgeBase, 12, 4, NameInput, norm);
    Matcher.FirstMaximumKept(KnowledgeBase, 1, 12, NameInput, norm);
  }

  const ThanksOrderInput: seq<string> := ["thanks", "order"]

  lemma ThanksOrderScoresA()
    ensures
      Matcher.Score(KeyWords[0], ThanksOrderInput) == 0 &&
      Matcher.Score(KeyWords[1], ThanksOrderInput) == 0 &&
      Matcher.Score(KeyWords[2], ThanksOrderInput) == 0
  {
    assert KeyWords[0] == ["how", "are", "you"];
    assert KeyWords[1] == ["what", "is", "your", "name"];
    assert KeyWords[2] == ["what", "can", "you", "do"];
  }

  lemma ThanksOrderScoresB()
    ensures
      Matcher.Score(KeyWords[3], ThanksOrderInput) == 0 &&
      Matcher.Score(KeyWords[4], ThanksOrderInput) == 0 &&
      Matcher.Score(KeyWords[9], ThanksOrderInput) == 1
  {
    assert KeyWords[3] == ["who", "created", "you"];
    assert KeyWords[4] == ["thank", "you"];
    assert KeyWords[9] == ["order", "status"];
  }

  lemma ThanksOrderScoresC()
    ensures
      Matcher.Score(KeyWords[5], ThanksOrderInput) == 1 &&
      Matcher.Score(KeyWords[6], ThanksOrderInput) == 0 &&
      Matcher.Score(KeyWords[7], ThanksOrderInput) == 0 &&
      Matcher.Score(KeyWords[8], ThanksOrderInput) == 0 &&
      Matcher.Score(KeyWords[10], ThanksOrderInput) == 0
  {
    assert KeyWords[5] == ["thanks"];
    assert KeyWords[6] == ["services"];
    assert KeyWords[7] == ["products"];
    assert KeyWords[8] == ["laptop"];
    assert KeyWords[10] == ["support"];
  }

  /** The score of every key's words against "thanks order". */
  lemma ThanksOrderWordScores()
    ensures forall i :: 0 <= i < 11 ==> Matcher.Score(KeyWords[i], ThanksOrderInput) == (if i == 5 || i == 9 then 1 else 0)
  {
    ThanksOrderScoresA();
    ThanksOrderScoresB();
    ThanksOrderScoresC();
    forall i | 0 <= i < 11
      ensures Matcher.Score(KeyWords[i], ThanksOrderInput) == (if i == 5 || i == 9 then 1 else 0)
    {
      if i == 0 {} else if i == 1 {} else if i == 2 {} else if i == 3 {} else if i == 4 {}
      else if i == 5 {} else if i == 6 {} else if i == 7 {} else if i == 8 {} else if i == 9 {} else {}
    }
  }

  lemma ThanksOrderKeyScores(norm: Matcher.Normaliser)
    requires KeysAreTheirWords(norm)
    ensures Matcher.ValidKb(KnowledgeBase) && KnowledgeBase[11].key == DefaultKey
    ensures forall i :: 0 <= i < 11 ==>
              KnowledgeBase[i].key != DefaultKey &&
              Matcher.EntryScore(KnowledgeBase[i], ThanksOrderInput, norm) == (if i == 5 || i == 9 then 1 else 0)
  {
    ThanksOrderWordScores();
    KeyScores(norm, ThanksOrderInput);
  }

  /** "thanks" ties with "order" of "order status" at one lemma each. The
      later tie is measured against the kept entry's REPLY ("You're
      welcome!"), not its key, so "order status" does not displace it;
      comparing it with the key "thanks" (one lemma) would have. */
  lemma ThanksOrderKeepsFirstTie(norm: Matcher.Normaliser)
    requires KeysAreTheirWords(norm)
    requires |norm(KnowledgeBase[5].response)| >= 2
    ensures KnowledgeBaseMatch(ThanksOrderInput, norm) == Matcher.Best(KnowledgeBase[5].response, 1)
  {
    ThanksOrderKeyScores(norm);
    Matcher.MaxScoreIsUpperBound(KnowledgeBase, 12, ThanksOrderInput, norm);
    Matcher.MaxScoreAtMost(KnowledgeBase, 12, 1, ThanksOrderInput, norm);
    Matcher.FirstMaximumKept(KnowledgeBase, 5, 12, ThanksOrderInput, norm);
  }

  const LaptopInput: seq<string> := ["tell", "me", "about", "your", "laptop", "products"]

  lemma LaptopScoresA()
    ensures
      Matcher.Score(KeyWords[0], LaptopInput) == 0 &&
      Matcher.Score(KeyWords[1], LaptopInput) == 1 &&
      Matcher.Score(KeyWords[2], LaptopInput) == 0
  {
    assert KeyWords[0] == ["how", "are", "you"];
    assert KeyWords[1] == ["what", "is", "your", "name"];
    assert KeyWords[2] == ["what", "can", "you", "do"];
  }

  lemma LaptopScoresB()
    ensures
      Matcher.Score(KeyWords[3], LaptopInput) == 0 &&
      Matcher.Score(KeyWords[4], LaptopInput) == 0 &&
      Matcher.Score(KeyWords[9], LaptopInput) == 0
  {
    assert KeyWords[3] == ["who", "created", "you"];
    assert KeyWords[4] == ["thank", "you"];
    assert KeyWords[9] == ["order", "status"];
  }

  lemma LaptopScoresC()
    ensures
      Matcher.Score(KeyWords[5], LaptopInput) == 0 &&
      Matcher.Score(KeyWords[6], LaptopInput) == 0 &&
      Matcher.Score(KeyWords[7], LaptopInput) == 1 &&
      Matcher.Score(KeyWords[8], LaptopInput) == 1 &&
      Matcher.Score(KeyWords[10], LaptopInput) == 0
  {
    assert KeyWords[5] == ["thanks"];
    assert KeyWords[6] == ["services"];
    assert KeyWords[7] == ["products"];
    assert KeyWords[8] == ["laptop"];
    assert KeyWords[10] == ["support"];
  }

  /** The score of every key's words against "tell me about your laptop products". */
  lemma LaptopWordScores()
    ensures forall i :: 0 <= i < 11 ==> Matcher.Score(KeyWords[i], LaptopInput) == (if i == 1 || i == 7 || i == 8 then 1 else 0)
  {
    LaptopScoresA();
    LaptopScoresB();
    LaptopScoresC();
    forall i | 0 <= i < 11
      ensures Matcher.Score(KeyWords[i], LaptopInput) == (if i == 1 || i == 7 || i == 8 then 1 else 0)
    {
      if i == 0 {} else if i == 1 {} else if i == 2 {} else if i == 3 {} else if i == 4 {}
      else if i == 5 {} else if i == 6 {} else if i == 7 {} else if i == 8 {} else if i == 9 {} else {}
    }
  }

  lemma LaptopKeyScores(norm: Matcher.Normaliser)
    requires KeysAreTheirWords(norm)
    ensures Matcher.ValidKb(KnowledgeBase) && KnowledgeBase[11].key == DefaultKey
    ensures forall i :: 0 <= i < 11 ==>
              KnowledgeBase[i].key != DefaultKey &&
              Matcher.EntryScore(KnowledgeBase[i], LaptopInput, norm) == (if i == 1 || i == 7 || i == 8 then 1 else 0)
  {
    LaptopWordScores();
    KeyScores(norm, LaptopInput);
  }

  /** "tell me about your laptop products": "your" (from "what is your
      name") is the first key lemma to score, and the later one-lemma ties
      "products" and "laptop" never displace a reply of at least one lemma,
      so the answer is the name reply. */
  lemma LaptopProductsGetsNameReply(norm: Matcher.Normaliser)
    requires KeysAreTheirWords(norm)
    requires |norm(KnowledgeBase[1].response)| >= 1
    ensures KnowledgeBaseMatch(LaptopInput, norm) == Matcher.Best(KnowledgeBase[1].response, 1)
  {
    LaptopKeyScores(norm);
    Matcher.MaxScoreIsUpperBound(KnowledgeBase, 12, LaptopInput, norm);
    Matcher.MaxScoreAtMost(KnowledgeBase, 12, 1, LaptopInput, norm);
    Matcher.FirstMaximumKept(KnowledgeBase, 1, 12, LaptopInput, norm);
  }

  /** A line of whitespace only has no word, hence no trigger word. */
  lemma BlankLineHasNoTrigger(line: string)
    requires AllSpace(line)
    ensures !HasTrigger(line, GreetingInputs) && !HasTrigger(line, FarewellInputs)
  {
    assert Split(line) == [];
  }

  /** Lower-casing and dropping punctuation leave a blank line blank. */
  lemma BlankLineStaysBlank(line: string)
    requires AllSpace(line)
    ensures AllSpace(StripPunctuation(Lower(line)))
  {
    var l := Lower(line);
    var r := StripPunctuation(l);
    assert AllSpace(l);
    forall i | 0 <= i < |r|
      ensures IsSpace(r[i])
    {
      assert r[i] in l;
    }
  }

  /** With a tokenizer that finds no token in whitespace, a blank line
      normalises to no lemma. */
  lemma BlankLineHasNoLemmas(line: string, nlp: Nlp)
    requires AllSpace(line)
    requires forall t :: AllSpace(t) ==> nlp.tokenize(t) == []
    ensures Preprocess(line, nlp) == []
  {
    BlankLineStaysBlank(line);
    assert nlp.tokenize(StripPunctuation(Lower(line))) == [];
  }

  /** Input that normalises to no lemma gets the default reply. */
  lemma NoLemmasGetsDefault(line: string, nlp: Nlp)
    requires Preprocess(line, nlp) == []
    ensures KnowledgeBaseReply(line, nlp) == DefaultResponse
  {
    KnowledgeBaseValid();
    Matcher.EmptyInputMeansDefault(KnowledgeBase, Normalise(nlp));
  }

  /** An empty or all-whitespace line has no trigger word and, with a
      tokenizer that finds no token in whitespace, gets the default reply
      without ending the conversation. */
  method BlankLine(line: string, nlp: Nlp) returns (reply: string, exit: bool)
    requires AllSpace(line)
    requires forall t :: AllSpace(t) ==> nlp.tokenize(t) == []
    ensures reply == DefaultResponse && !exit
  {
    BlankLineHasNoTrigger(line);
    BlankLineHasNoLemmas(line, nlp);
    NoLemmasGetsDefault(line, nlp);
    reply, exit := GetChatbotResponse(line, nlp);
  }
}
