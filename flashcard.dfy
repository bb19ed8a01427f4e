/**
 * The flash card record of models/flashcard.py, with its two renderings:
 * the prompt text fed back into the chat transcript and the JSON object
 * returned to the HTTP client.
 */
module FlashCards {

  /**
   * `front`, `back` and `user_id` are the record's required fields; the
   * database key `id` and the `created_at` timestamp are persistence details
   * and are not part of this value.
   */
  datatype FlashCard = FlashCard(front: string, back: string, userId: int)

  /** `get_prompt_text`: the card as the turn loop quotes it back to the model. */
  function PromptText(c: FlashCard): (t: string)
    ensures |t| == |"Flash Card\nFront: "| + |c.front| + |" \nBack: "| + |c.back|
    ensures t[..18] == "Flash Card\nFront: "
    ensures t[18..18 + |c.front|] == c.front
    ensures t[18 + |c.front|..|t| - |c.back|] == " \nBack: "
    ensures t[|t| - |c.back|..] == c.back
  {
    "Flash Card\nFront: " + c.front + " \nBack: " + c.back
  }

  /** `to_json`: only the front and back are exposed. */
  function ToJson(c: FlashCard): (j: map<string, string>)
    ensures j.Keys == {"front", "back"}
    ensures j["front"] == c.front && j["back"] == c.back
  {
    map["front" := c.front, "back" := c.back]
  }

  /** The JSON form forgets the owner: cards that differ only in `user_id` render alike. */
  lemma ToJsonIgnoresOwner(c: FlashCard, d: FlashCard)
    ensures ToJson(c) == ToJson(d) <==> c.front == d.front && c.back == d.back
  {
    if ToJson(c) == ToJson(d) {
      assert ToJson(c)["front"] == ToJson(d)["front"];
      assert ToJson(c)["back"] == ToJson(d)["back"];
    }
  }
}
