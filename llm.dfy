/** The language-model client, seen from its callers: one call yields a parsed JSON object or fails. */
module Llm {
  import opened JsonValues

  /**
   * The outcome of one `complete_json` call. The client asks for a JSON-object response
   * format, so a call that returns at all returns a dict; every failure (network, parse,
   * rate limit) is `Failed`.
   */
  datatype Reply = Replied(obj: Dict) | Failed(error: string)
}
