/** The response selector of `chatbot.py`: greeting detection, then farewell
    detection, then knowledge-base matching, giving a reply and an exit flag. */
module Responder {
  import opened Optional
  import opened Text
  import opened Tables
  import Matcher

  /** Some whitespace-separated word of `sentence`, lower-cased, is exactly
      one of `triggers` (`word.lower() in TRIGGERS`). */
  predicate HasTrigger(sentence: string, triggers: seq<string>) {
    exists w :: w in Split(sentence) && Lower(w) in triggers
  }

  /** The scan shared by `respond_to_greeting` and `respond_to_farewell`:
      the first trigger word found yields a reply drawn from `pool`
      (`random.choice`, modelled as an arbitrary element); none yields `None`. */
  method RespondToTrigger(sentence: string, triggers: seq<string>, pool: seq<string>)
    returns (reply: Option<string>)
    requires pool != []
    ensures reply.Some? <==> HasTrigger(sentence, triggers)
    ensures reply.Some? ==> reply.value in pool
  {
    var words := Split(sentence);
    for i := 0 to |words|
      invariant forall k :: 0 <= k < i ==> Lower(words[k]) !in triggers
    {
      if Lower(words[i]) in triggers {
        assert pool[0] in pool;
        var r :| r in pool;
        return Some(r);
      }
    }
    return None;
  }

  method RespondToGreeting(sentence: string) returns (reply: Option<string>)
    ensures reply.Some? <==> HasTrigger(sentence, GreetingInputs)
    ensures reply.Some? ==> reply.value in GreetingResponses
  {
    reply := RespondToTrigger(sentence, GreetingInputs, GreetingResponses);
  }

  method RespondToFarewell(sentence: string) returns (reply: Option<string>)
    ensures reply.Some? <==> HasTrigger(sentence, FarewellInputs)
    ensures reply.Some? ==> reply.value in FarewellResponses
  {
    reply := RespondToTrigger(sentence, FarewellInputs, FarewellResponses);
  }

  /** `preprocess_text` with the given tokenizer and lemmatizer. */
  function Normalise(nlp: Nlp): Matcher.Normaliser {
    t => Preprocess(t, nlp)
  }

  /** The knowledge base is a dictionary that holds the `"default"` key, and
      `KNOWLEDGE_BASE["default"]` is its last entry's reply. */
  lemma KnowledgeBaseValid()
    ensures Matcher.ValidKb(KnowledgeBase)
    ensures Matcher.DefaultOf(KnowledgeBase) == DefaultResponse
  {
    assert KnowledgeBase[11].key == DefaultKey;
  }

  /** The default reply or the reply of a non-default knowledge-base entry. */
  predicate IsKnowledgeBaseReply(r: string) {
    r == DefaultResponse ||
    exists i :: 0 <= i < |KnowledgeBase| && KnowledgeBase[i].key != DefaultKey && KnowledgeBase[i].response == r
  }

  /** The matching loop's final state on the knowledge base. */
  function KnowledgeBaseMatch(inputLemmas: seq<string>, norm: Matcher.Normaliser): Matcher.Best {
    KnowledgeBaseValid();
    Matcher.Select(KnowledgeBase, inputLemmas, norm)
  }

  /** The reply the knowledge-base path gives for `userInput`. */
  function KnowledgeBaseReply(userInput: string, nlp: Nlp): string {
    KnowledgeBaseMatch(Preprocess(userInput, nlp), Normalise(nlp)).response
  }

  /** Every reply in the pools is a non-empty string, so a found reply is
      always truthy. */
  lemma RepliesAreNonEmpty()
    ensures forall r :: r in GreetingResponses ==> r != ""
    ensures forall r :: r in FarewellResponses ==> r != ""
  {
  }

  /** `get_chatbot_response`. A greeting word wins over everything; a
      farewell word, only when there is no greeting word, ends the
      conversation; otherwise the knowledge base answers. */
  method GetChatbotResponse(userInput: string, nlp: Nlp) returns (reply: string, exit: bool)
    ensures exit <==> !HasTrigger(userInput, GreetingInputs) && HasTrigger(userInput, FarewellInputs)
    ensures HasTrigger(userInput, GreetingInputs) ==> reply in GreetingResponses
    ensures exit ==> reply in FarewellResponses
    ensures !HasTrigger(userInput, GreetingInputs) && !HasTrigger(userInput, FarewellInputs) ==>
              reply == KnowledgeBaseReply(userInput, nlp)
    ensures !exit ==> reply in GreetingResponses || IsKnowledgeBaseReply(reply)
  {
    RepliesAreNonEmpty();
    var greeting := RespondToGreeting(userInput);
    if greeting.Some? && greeting.value != "" {
      return greeting.value, false;
    }
    var farewell := RespondToFarewell(userInput);
    if farewell.Some? && farewell.value != "" {
      return farewell.value, true;
    }
    var inputLemmas := Preprocess(userInput, nlp);
    KnowledgeBaseValid();
    var response, _ := Matcher.BestMatch(KnowledgeBase, inputLemmas, Normalise(nlp));
    return response, false;
  }

  /** A trigger that contains whitespace, such as "what's up" or "see ya",
      can never equal a lower-cased whitespace-separated word. */
  lemma MultiWordTriggerNeverMatches(sentence: string, trigger: string, k: nat)
    requires k < |trigger| && IsSpace(trigger[k])
    ensures forall w :: w in Split(sentence) ==> Lower(w) != trigger
  {
    forall w | w in Split(sentence)
      ensures Lower(w) != trigger
    {
      if k < |w| {
        assert !IsSpace(Lower(w)[k]);
      }
    }
  }

  /** Only the single-word greeting and farewell triggers can ever fire. */
  lemma EffectiveTriggers(sentence: string)
    ensures HasTrigger(sentence, GreetingInputs) <==>
              HasTrigger(sentence, ["hello", "hi", "greetings", "sup", "hey"])
    ensures HasTrigger(sentence, FarewellInputs) <==>
              HasTrigger(sentence, ["bye", "goodbye", "cya", "exit", "quit"])
  {
    MultiWordTriggerNeverMatches(sentence, "what's up", 6);
    MultiWordTriggerNeverMatches(sentence, "see ya", 3);
  }
}
