# Rule-based chatbot: response selector

This project models the response selector of `chatbot.py`, a small
rule-based console chatbot, and proves properties of it in Dafny.
For each line the user types, the chatbot:

1. looks for a greeting word: it splits the raw line on whitespace,
   lower-cases each word, and tests the word against `GREETING_INPUTS`;
2. otherwise looks for a farewell word, tested the same way against
   `FAREWELL_INPUTS`. A farewell ends the conversation;
3. otherwise normalises the line and matches it against `KNOWLEDGE_BASE`.
   Normalising means lower-casing, dropping punctuation, tokenizing and
   lemmatizing. Each non-default key scores one point per key lemma found
   in the input. The best score wins, starting from the default reply at
   score 0, with the tie-break of chatbot.py:118 kept exactly as written.

Modules:

- `Optional`: the `Option` type used for "no trigger word found".
- `Tables` (`tables.dfy`): the trigger tuples, the reply pools and the
  knowledge base. The knowledge base is a sequence of entries in the
  dictionary's insertion order, because that order decides ties.
- `Text` (`text.dfy`): the string operations involved.
  - `str.split()` with Python's `isspace` separators.
  - ASCII `str.lower()`.
  - Removal of `string.punctuation`.
  - `preprocess_text`, with NLTK's `word_tokenize` and
    `WordNetLemmatizer.lemmatize` as function parameters (`Nlp`).
- `Matcher` (`matcher.dfy`): the scoring loop of `get_chatbot_response`.
  - `BestMatch` is the imperative loop.
  - `Select` is the same computation written as a left fold of `Step`.
  - `MaxScore` independently defines the maximum score.
  - Lemmas relate the three.
  - The normaliser is an arbitrary function `string -> seq<string>`, so
    every matcher result holds for any tokenizer and lemmatizer.
- `Responder` (`responder.dfy`): `respond_to_greeting`,
  `respond_to_farewell` and `get_chatbot_response`.
- `Scenarios` (`scenarios.dfy`): concrete conversations.
  - Greetings, farewells and the greeting-wins-over-farewell case.
  - A capitalised greeting, "Hello There".
  - "see ya", a multi-word farewell that can never fire. The other one,
    "what's up", is covered for every sentence by
    `Responder.EffectiveTriggers`.
  - Blank lines, which get the default reply.
  - Knowledge-base matches under a normaliser that turns each key into its
    own words (`KeysAreTheirWords`), as a whitespace tokenizer whose every
    word is its own lemma does.

`random.choice` becomes a choice of some element of the pool (`:|`), so the
model states only that the reply belongs to the pool. Python's truthiness
test `if greeting_response:` is modelled as "found and non-empty".
`RepliesAreNonEmpty` shows that every reply in the pools is non-empty.

Two consequences of the code as written, which the model keeps:

- One might expect the laptop reply for "Tell me about your laptop
  products". The code gives the name reply instead. No key shares a lemma
  with that input until "your" matches the key "what is your name", with
  score 1. The later one-lemma matches "products" and "laptop" only tie
  with it. A tie replaces the best reply only when the new key has more
  lemmas than the current best reply text. One lemma is not more than the
  name reply's lemma count, so neither tie displaces it. Comparing with the
  best key's lemma count (4) would keep the name reply as well
  (`Scenarios.LaptopProductsGetsNameReply`).
- The tie-break compares a candidate key's lemma count with the lemma
  count of the current best REPLY text, not of the best key. The model
  keeps that comparison in both directions (`Matcher.Step`,
  `Matcher.FirstMaximumKept`, `Matcher.LongerTieReplaces`).
  `Scenarios.ThanksOrderKeepsFirstTie` shows an input where comparing with
  the best key would have picked a different entry.

## Model

| member | source | states |
|---|---|---|
| Responder.RespondToTrigger | chatbot.py:68-80 | The word-by-word scan returns a reply exactly when some whitespace-split word, lower-cased, is a trigger, and any reply it returns comes from the pool. |
| Responder.RespondToGreeting | chatbot.py:68-73 | A reply is returned exactly when some word, lower-cased, is in `GREETING_INPUTS`, and the reply is in `GREETING_RESPONSES`; otherwise `None`. |
| Responder.RespondToFarewell | chatbot.py:75-80 | A reply is returned exactly when some word, lower-cased, is in `FAREWELL_INPUTS`, and the reply is in `FAREWELL_RESPONSES`; otherwise `None`. |
| Responder.GetChatbotResponse | chatbot.py:82-121 | The exit flag is set exactly when there is a farewell word and no greeting word. A greeting word gives a greeting reply. A farewell gives a farewell reply. With neither, the reply is the knowledge-base match of the normalised input. Every non-exit reply is a greeting reply, the default reply or a non-default entry's reply. |
| Responder.MultiWordTriggerNeverMatches | chatbot.py:70-71 | A trigger containing whitespace never equals a lower-cased word of any sentence. |
| Responder.EffectiveTriggers | chatbot.py:15-18 | For every sentence, the greeting and farewell tests are equivalent to tests against the tuples without "what's up" and "see ya". |
| Responder.KnowledgeBaseValid | chatbot.py:23-41 | The knowledge-base keys are distinct, `"default"` is one of them, and `KNOWLEDGE_BASE["default"]` is the default reply. |
| Responder.RepliesAreNonEmpty | chatbot.py:16-19 | Every greeting and farewell reply is a non-empty, hence truthy, string. |
| Matcher.Lookup | chatbot.py:100 | Dictionary lookup finds a value exactly when the key is present, returns a value stored under that key, and with distinct keys returns the one value stored under it. |
| Matcher.Score | chatbot.py:111 | A key's score is at most its number of lemmas. |
| Matcher.ScoreExtremes | chatbot.py:111 | The score is 0 exactly when no key lemma occurs in the input. It equals the key's lemma count exactly when every key lemma occurs. |
| Matcher.ScoreAppend | chatbot.py:111 | Scores add up over concatenated keys, so a repeated key lemma counts each time. |
| Matcher.ScoreOnlySeesMembership | chatbot.py:111 | Two inputs with the same lemmas give every key the same score, however often a lemma repeats. |
| Matcher.Step | chatbot.py:105-119 | The default key leaves the best match unchanged. Any other entry raises the best score to the maximum of it and the entry's score. A higher score takes the entry's reply and score; a lower score keeps the best match. A positive tie takes the entry's reply exactly when the entry's key has more lemmas than the current best reply text; otherwise, and on a tie at 0, the best match is kept. |
| Matcher.SelectUpTo | chatbot.py:100-119 | After any prefix of the knowledge base, the loop state's score is the maximum score over that prefix, and a score of 0 means the default reply. |
| Matcher.Select | chatbot.py:100-121 | After the whole knowledge base, the loop state's score is the maximum score, and a score of 0 means the default reply. |
| Matcher.SelectUpToMeaning | chatbot.py:100-119 | After any prefix of the knowledge base, the kept score is the maximum score of that prefix. A kept score of 0 means the default reply. A positive kept score is the score of an earlier non-default entry, and the kept reply is that entry's reply. |
| Matcher.SelectMeaning | chatbot.py:100-121 | Over the whole knowledge base, the kept score is the maximum score, and the kept reply is the default reply or a non-default entry's reply. It is the default reply whenever the maximum is 0. |
| Matcher.MaxScoreIsUpperBound | chatbot.py:111-116 | No non-default entry scores above the maximum. |
| Matcher.MaxScoreAtMost | chatbot.py:111-116 | A bound on every non-default entry's score bounds the maximum. |
| Matcher.NoOverlapMeansDefault | chatbot.py:100-101 | The maximum is 0 exactly when no non-default key shares a lemma with the input. In that case the result is the default reply with score 0. |
| Matcher.EmptyInputMeansDefault | chatbot.py:100-119 | Input with no lemmas gets the default reply with score 0. |
| Matcher.FirstMaximumKept | chatbot.py:114-119 | Let an entry be the first to reach the positive maximum. If every later tie has no more key lemmas than that entry's REPLY has lemmas, that entry's reply is the result. |
| Matcher.LongerTieReplaces | chatbot.py:117-119 | A non-default entry that ties the positive best score and whose key has more lemmas than the current best reply text replaces the best reply with its own. |
| Matcher.BestMatch | chatbot.py:100-121 | The loop ends in the state that `Select` defines. Its score is the maximum score. Its reply is the default or a non-default entry's reply, and is the default when the score is 0. |
| Text.LowerChar | chatbot.py:71 | An upper-case ASCII letter becomes the letter 32 code points above it, the matching lower-case letter. Every other character is unchanged. The result is never upper-case, and whitespace and punctuation are preserved. |
| Text.Lower | chatbot.py:56 | `lower()` keeps the length and lower-cases each character in place, so it leaves no upper-case letter, preserves whitespace and punctuation position by position, and fixes text that has no upper-case letter. |
| Text.StripPunctuation | chatbot.py:58 | The result has no punctuation, keeps exactly the input's non-punctuation characters, is no longer than the input, and equals the input when the input has no punctuation. |
| Text.LeadingWord | chatbot.py:70 | The first word is a whitespace-free prefix followed by whitespace or the end. |
| Text.Split | chatbot.py:70 | `split()` yields only non-empty, whitespace-free words, and yields none exactly when the text is all whitespace. |
| Text.SplitIsRuns | chatbot.py:70 | The words `split()` yields are exactly the maximal non-whitespace runs of the text: every word is such a run, and every such run is a word. |
| Text.SplitWordIsRun | chatbot.py:70 | Every word `split()` yields is a maximal non-whitespace run of the text. |
| Text.RunIsSplitWord | chatbot.py:70 | Every maximal non-whitespace run of the text is a word `split()` yields. |
| Text.SplitJoin | chatbot.py:70 | Splitting non-empty, whitespace-free words joined by single spaces gives the words back. |
| Text.LemmatizeAll | chatbot.py:64 | Lemmatizing yields one lemma per token, the lemma of the token at the same position. |
| Text.Preprocess | chatbot.py:45-65 | The lemmas are, position by position, the lemmas of the tokens of the lower-cased, punctuation-free text. |
| Text.LowerStripCommute | chatbot.py:56-58 | Lower-casing and dropping punctuation commute. |
| Text.PreprocessIgnoresCaseAndPunctuation | chatbot.py:56-65 | Normalising gives the same lemmas for a text, its lower-cased form and its punctuation-free form. |
| Text.PreprocessNormalisedText | chatbot.py:56-65 | Lower-case, punctuation-free words that the tokenizer splits back and that are their own lemmas normalise to themselves. |
| Scenarios.HelloThere | chatbot.py:87-89 | "hello there" gets a greeting reply and does not end the conversation. |
| Scenarios.CapitalisedHelloThere | chatbot.py:68-89 | "Hello There" gets a greeting reply and does not end the conversation, because its words are lower-cased before the lookup. |
| Scenarios.Bye | chatbot.py:92-94 | "bye" gets a farewell reply and ends the conversation. |
| Scenarios.HiBye | chatbot.py:87-94 | "hi bye" gets a greeting reply and does not end the conversation. |
| Scenarios.SeeYaIsNoFarewell | chatbot.py:18 | "see ya" contains no farewell word. |
| Scenarios.BlankLine | chatbot.py:85-121 | A line of whitespace only, the empty line included, has no trigger word. With a tokenizer that finds no token in whitespace, it gets the default reply without ending the conversation. |
| Scenarios.NameQuestion | chatbot.py:104-119 | "what is your name" scores 4 on its own key and gets that key's reply. |
| Scenarios.ThanksOrderKeepsFirstTie | chatbot.py:117-119 | "thanks order" keeps the "thanks" reply, because the later tie "order status" has no more lemmas than that reply text. |
| Scenarios.LaptopProductsGetsNameReply | chatbot.py:104-119 | "tell me about your laptop products" gets the reply of "what is your name", not the laptop reply. |

## Left out

- NLTK's `word_tokenize` and `WordNetLemmatizer.lemmatize` (chatbot.py:61, 64) are foreign library code with dictionary data. They are the `tokenize` and `lemmatize` fields of `Text.Nlp`, so every result holds for any tokenizer and lemmatizer. The knowledge-base scenarios instead assume a normaliser that turns each key into its own words.
- `random.choice` (chatbot.py:72, 79): the model picks some element of the pool and states only that the reply belongs to the pool, not that the pick is uniform.
- Text.Lower: models `str.lower()` on ASCII letters only. Python lower-cases every Unicode letter, and that case table is not modelled.
- The non-string guard of `preprocess_text` (chatbot.py:50-54) cannot be reached: every input in the model is a string.
- The debug `print` calls (chatbot.py:8, 48, 53, 140) are output only.
- The interactive `__main__` loop, `input()`, the exception handler and `sys.exit` (chatbot.py:124-141) are console I/O and process handling.
