/** The constant tables of the chatbot: trigger words, reply pools and the
    knowledge base, in the order they are written. */
module Tables {

  /** One knowledge-base item: a key phrase and the reply it selects. */
  datatype Entry = Entry(key: string, response: string)

  /** The key whose reply is the fallback; it never takes part in matching. */
  const DefaultKey: string := "default"

  const GreetingInputs: seq<string> := ["hello", "hi", "greetings", "sup", "what's up", "hey"]
  const GreetingResponses: seq<string> :=
    ["hi", "hey", "*nods*", "hi there", "hello", "I am glad! You are talking to me"]

  const FarewellInputs: seq<string> := ["bye", "goodbye", "see ya", "cya", "exit", "quit"]
  const FarewellResponses: seq<string> := ["Goodbye!", "See you later!", "Bye!", "Have a great day!"]

  /** The knowledge base, as a sequence in dictionary insertion order. */
  const KnowledgeBase: seq<Entry> := [
    Entry("how are you", "I am a bot, so I don't have feelings, but I'm functioning perfectly and ready to assist you!"),
    Entry("what is your name", "I am a simple chatbot created to help you. You can call me Bot."),
    Entry("what can you do", "I can answer basic questions based on my knowledge base. Try asking about our services or products!"),
    Entry("who created you", "I was created by a human programmer."),
    Entry("thank you", "You're welcome! Happy to help."),
    Entry("thanks", "You're welcome!"),
    Entry("services", "We offer product information, order tracking, and customer support. What are you looking for?"),
    Entry("products", "We have a range of electronic gadgets like laptops, mice, keyboards, and monitors. Which one interests you?"),
    Entry("laptop", "Our laptops are powerful and versatile. Do you have a specific model in mind?"),
    Entry("order status", "To check your order status, please provide your order number."),
    Entry("support", "For technical support, please visit our support page or describe your issue."),
    Entry(DefaultKey, "I'm sorry, I don't understand that. Could you please rephrase or ask something else?")
  ]

  const DefaultResponse: string := KnowledgeBase[11].response
}
