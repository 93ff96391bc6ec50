/** The fixed texts of app/agent.py, gathered in one record so that the
    agent's control flow can be stated for any texts and instantiated
    with the ones the source uses. */
module Prompts {

  datatype Texts = Texts(
    /** The system message of the decision call. */
    decisionSystem: string,
    /** The decision prompt before and after the quoted query. */
    decisionHead: string,
    decisionTail: string,
    /** The system message when retrieval found nothing. */
    noDocumentsSystem: string,
    /** The system message of the answer from retrieved context. */
    contextSystem: string,
    /** The system message of the direct answer. */
    directSystem: string,
    /** The answer returned when processing fails. */
    errorAnswer: string,
    /** The context prompt around the context and the question. */
    contextHead: string,
    questionHead: string,
    contextTail: string)

  /** The decision prompt around the user's query. */
  function DecisionPrompt(t: Texts, query: string): (p: string) {
    t.decisionHead + query + t.decisionTail
  }

  /** The question with the retrieved context put before it. */
  function ContextPrompt(t: Texts, context: string, query: string): (p: string) {
    t.contextHead + context + t.questionHead + query + t.contextTail
  }

  /** The texts agent.py uses (lines 124-132, 137, 207, 216, 218-223,
      234 and 254), each written as a concatenation of its sentences and
      lines. */
  const AgentTexts: Texts := Texts(
    decisionSystem :=
      "You are a decision-making assistant. " + "Respond with only SEARCH or DIRECT.",
    decisionHead :=
      "You are a helpful assistant. "
      + "Analyze this user query and decide if you need to search through documents to answer it, "
      + "or if you can answer directly from your general knowledge.\n\n"
      + "User query: \"",
    decisionTail :=
      "\"\n\n"
      + "Respond with ONLY one word:\n"
      + "- \"SEARCH\" if you need to search documents "
      + "(for company-specific info, policies, products, technical details)\n"
      + "- \"DIRECT\" if you can answer from general knowledge\n\n"
      + "Response:",
    noDocumentsSystem :=
      "You are a helpful AI assistant. "
      + "The user asked a question but no relevant documents were found. "
      + "Politely inform them that you don't have specific information "
      + "about their query in the available documents, "
      + "but try to provide general helpful information if possible.",
    contextSystem :=
      "You are a helpful AI assistant. "
      + "Use the provided context from documents to answer the user's question accurately. "
      + "If the context doesn't contain enough information, say so. "
      + "Always cite the sources when providing information.",
    directSystem :=
      "You are a helpful AI assistant. "
      + "Answer the user's question clearly and concisely using your general knowledge.",
    errorAnswer :=
      "I apologize, but I encountered an error while processing your question. "
      + "Please try again.",
    contextHead := "Context from documents:\n",
    questionHead := "\n\nUser question: ",
    contextTail :=
      "\n\nPlease provide a clear, accurate answer based on the context above. "
      + "Mention which sources you're using.")

  /** Every system message agent.py sends is non-empty, so each call
      starts with a system message. */
  lemma AgentSystemsGiven()
    ensures AgentTexts.decisionSystem != "" && AgentTexts.noDocumentsSystem != ""
            && AgentTexts.contextSystem != "" && AgentTexts.directSystem != ""
  {
  }
}
