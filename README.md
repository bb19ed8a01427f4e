# Flash card stream, modelled in Dafny

This project models the core of `flash_card_generator`, a small service
that turns a text into study flash cards by talking to a chat model.

A `FlashCardStream` is made from six settings: a text, a model name, the
owner's user id, `print_text`, `cards_per_chunk` and a chunk size. Only the
text, the model name, the user id and the chunk size affect the cards:
`print_text` only switches console output on or off, and `cards_per_chunk` is
stored but never read. When it is made, the stream encodes the text
with the model's tokenizer. It then cuts the tokens into chunks of
`chunk_size` tokens and decodes each chunk back into a text segment.
`get_flashcards` runs one conversation with the chat model per segment
and returns every card, segment after segment. Each conversation works
like this:

- It starts with three fixed messages: the system prompt, the instruction
  prompt and the segment.
- It then runs three turns. Each turn appends one assistant reminder per
  card of the previous turn, quoting the card's `get_prompt_text`.
- Each turn then appends the follow-up request, calls the model at
  temperature 0.1, removes the follow-up and parses the reply.

The parser splits the reply on whitespace. It finds the words that read
`front:` and `back:` once lower-cased. It pairs the i-th front marker with
the i-th back marker and makes one card per pair:

- the front is the words strictly between the two markers;
- the back is every word after the back marker, to the end of the reply;
- both are joined with single spaces and stripped.

Files:

- `seqs.dfy` (`Seqs`): small sequence helpers (`Min`, `Flatten`, slice lemmas).
- `py_str.dfy` (`PyStr`): the Python `str` behaviour the pipeline relies on:
  - `isspace` over its full code-point set;
  - `split()` with no separator and `' '.join`;
  - `strip()`;
  - `lower()` for the characters that can lower onto an ASCII letter.
- `flashcard.dfy` (`FlashCards`): the card record, `get_prompt_text` and `to_json`.
- `response_parser.dfy` (`ResponseParser`): `_extract_data_from_model_response`
  as a function, and what it promises.
- `segmenter.dfy` (`Segmenter`): the chunking that `_split_text` performs, as a function.
- `turn_protocol.dfy` (`TurnProtocol`): the conversation of
  `_build_flashcards_for_segment` and the concatenation in `get_flashcards`.
  Both are functions of the chat model's replies.
- `stream.dfy` (`Stream`): the class `FlashCardStream`. Its methods follow the
  source loop by loop, and each is proved against the functions above.

The chat model is a parameter: a function from a request to the text of the
reply. The model name, the full transcript and the temperature make up a
request. The tokenizer is also a parameter: an `Encoding` value with an
`encode` and a `decode` function.

## Model

| member | source | states |
|---|---|---|
| FlashCards.PromptText | flash_card_generator/models/flashcard.py:18-19 | the prompt text is the label `Flash Card\nFront: `, the front, ` \nBack: ` and the back, in that order; its length is the sum of the four |
| FlashCards.ToJson | flash_card_generator/models/flashcard.py:21-25 | the JSON object has exactly the keys `front` and `back`, holding the card's front and back |
| FlashCards.ToJsonIgnoresOwner | flash_card_generator/models/flashcard.py:21-25 | two cards render to the same JSON object if and only if their fronts and backs are equal; the owner is not exposed |
| PyStr.Split | flash_card_generator/flashcard_stream.py:129 | every word `split()` returns is non-empty and free of whitespace |
| PyStr.IsSpaceAscii | flash_card_generator/flashcard_stream.py:129 | the `isspace` set used by `split()` and `strip()` holds space, tab, newline and carriage return, and no printable ASCII character |
| PyStr.SplitAtSpace | flash_card_generator/flashcard_stream.py:129 | splitting a text at a whitespace character splits the two sides independently |
| PyStr.SplitJoin | flash_card_generator/flashcard_stream.py:138-139 | splitting the single-space join of a list of words gives the same words back |
| PyStr.Join | flash_card_generator/flashcard_stream.py:138-139 | `' '.join` puts exactly one separator between neighbouring words: the result is as long as all the words together plus one per gap |
| PyStr.TrimStart | flash_card_generator/flashcard_stream.py:138-139 | `lstrip` never lengthens the text, and what it keeps does not start with whitespace |
| PyStr.TrimEnd | flash_card_generator/flashcard_stream.py:138-139 | `rstrip` never lengthens the text, and what it keeps does not end with whitespace |
| PyStr.Strip | flash_card_generator/flashcard_stream.py:138-139 | the result of `strip()` neither starts nor ends with whitespace |
| PyStr.TrimStartSpec | flash_card_generator/flashcard_stream.py:138-139 | `lstrip` removes a prefix made only of whitespace and keeps the rest unchanged |
| PyStr.TrimEndSpec | flash_card_generator/flashcard_stream.py:138-139 | `rstrip` removes a suffix made only of whitespace and keeps the rest unchanged |
| PyStr.StripSpec | flash_card_generator/flashcard_stream.py:138-139 | `strip` keeps an infix of the text; what it drops on either side is whitespace, and the kept text neither starts nor ends with whitespace |
| PyStr.JoinEnds | flash_card_generator/flashcard_stream.py:138-139 | the join of words starts with the first word's first character and ends with the last word's last character |
| PyStr.StripJoin | flash_card_generator/flashcard_stream.py:138-139 | the `.strip()` after `' '.join(words[...])` never changes the joined text |
| PyStr.NormaliseIdempotent | flash_card_generator/flashcard_stream.py:138-139 | re-splitting and re-joining a card field gives the same field, and stripping it changes nothing |
| ResponseParser.MarkerIndices | flash_card_generator/flashcard_stream.py:132-133 | the marker positions are strictly increasing and all lie within the word list |
| PyStr.Lower | flash_card_generator/flashcard_stream.py:132-133 | `lower()` keeps the length, leaves no ASCII capital, and keeps every character that is neither a capital nor the Kelvin sign |
| ResponseParser.MarkerIndicesSound | flash_card_generator/flashcard_stream.py:132-133 | every listed position holds a word whose lower-case form is the marker |
| ResponseParser.MarkerIndicesComplete | flash_card_generator/flashcard_stream.py:132-133 | every word whose lower-case form is the marker has its position listed |
| ResponseParser.MarkerIndicesFrom | flash_card_generator/flashcard_stream.py:132-133 | the enumeration is unique: any strictly increasing list of exactly the marker positions is the list the comprehension builds |
| ResponseParser.MarkerIndicesCount | flash_card_generator/flashcard_stream.py:132-133 | the list has one index per marker word |
| ResponseParser.MarkerIsWord | flash_card_generator/flashcard_stream.py:129-133 | a word that lower-cases to `front:` or `back:` has no whitespace in it |
| ResponseParser.ZipCards | flash_card_generator/flashcard_stream.py:137 | `zip` stops at the shorter list: as many cards as the shorter of the two index lists |
| ResponseParser.Between | flash_card_generator/flashcard_stream.py:138 | `words[f+1:b]` holds the words at positions `f+1` to `b-1`, in order; it is empty when `b` is at most `f+1`, as Python's slice is |
| ResponseParser.After | flash_card_generator/flashcard_stream.py:139 | `words[b+1:]` holds every word after position `b`, in order, to the end of the reply |
| ResponseParser.CardAt | flash_card_generator/flashcard_stream.py:138-140 | the card made from one marker pair belongs to the stream's user; on the words of a reply, each field is exactly its words joined by single spaces, so the `.strip()` changes nothing |
| ResponseParser.ZipCardsAt | flash_card_generator/flashcard_stream.py:137-140 | the i-th card is built from the i-th front index and the i-th back index |
| ResponseParser.PairCardsNext | flash_card_generator/flashcard_stream.py:137-140 | one step of the zip loop: appending the next pair's card keeps every earlier card the card of its own pair |
| ResponseParser.ZipCardsFromPairs | flash_card_generator/flashcard_stream.py:136-142 | a list with one card per index pair, the t-th built from the t-th pair, is the zipped result |
| ResponseParser.Parse | flash_card_generator/flashcard_stream.py:128-142 | every card the parser returns belongs to the stream's user |
| ResponseParser.ParseCount | flash_card_generator/flashcard_stream.py:128-142 | the reply gives as many cards as the smaller of its number of front-marker words and its number of back-marker words |
| ResponseParser.ParseWithoutMarkers | flash_card_generator/flashcard_stream.py:128-142 | a reply without a front marker, or without a back marker, gives no cards and no error |
| ResponseParser.CardAtFields | flash_card_generator/flashcard_stream.py:138-140 | a card's front is the single-space join of the words between its markers, and splits back into exactly those words; the front is empty when the back marker comes first; its back is the single-space join of every word after the back marker, and splits back into them; both fields are stripped; the owner is the stream's user |
| ResponseParser.ParseCard | flash_card_generator/flashcard_stream.py:128-142 | the i-th parsed card comes from the i-th front-marker word and the i-th back-marker word, with the fields `CardAtFields` describes |
| ResponseParser.PairMarkers | flash_card_generator/flashcard_stream.py:132-133 | in `pre front: F back: B` with no other marker words, the front list is the single position after `pre`, and the back list is the single position after `F` |
| ResponseParser.ParseSinglePair | flash_card_generator/flashcard_stream.py:128-142 | a reply whose words are `pre front: F back: B`, with no other marker words, parses to the one card (join F, join B) |
| ResponseParser.TwoPairMarkers | flash_card_generator/flashcard_stream.py:132-133 | in `front: A back: B front: C back: D` the marker lists are the two front positions and the two back positions |
| ResponseParser.ParseWordsTwoPairs | flash_card_generator/flashcard_stream.py:137-140 | two marker pairs give two cards; the first card's back runs to the end of the reply, so it contains the second card's markers and text |
| ResponseParser.ParseWordsBackFirst | flash_card_generator/flashcard_stream.py:138 | a back marker before the front marker gives a card with an empty front, because Python's slice is empty when the end comes before the start |
| ResponseParser.ParseTwoCardReply | flash_card_generator/flashcard_stream.py:128-142 | `Front: A Back: B Front: C Back: D` parses to the cards (A, `B Front: C Back: D`) and (C, D) |
| ResponseParser.SplitPromptText | flash_card_generator/models/flashcard.py:19 | the words of a card's prompt text are `Flash`, `Card`, `Front:`, the front's words, `Back:` and the back's words |
| ResponseParser.PromptTextRoundTrip | flash_card_generator/models/flashcard.py:18-19 | parsing a card's prompt text gives back that one card, with whitespace-normalised fields and the same owner, when neither field holds a marker word |
| ResponseParser.PromptTextRoundTripExact | flash_card_generator/models/flashcard.py:18-19 | for a card whose fields are already normalised, that round trip gives back exactly the card |
| Segmenter.Chunks | flash_card_generator/flashcard_stream.py:63-65 | every chunk has between 1 and `chunk_size` tokens; all but the last have exactly `chunk_size`; there are ceil(tokens / chunk_size) chunks |
| Segmenter.ChunksConcat | flash_card_generator/flashcard_stream.py:63-65 | the chunks, concatenated in order, are the encoded text: nothing is lost or reordered |
| Segmenter.DecodeAll | flash_card_generator/flashcard_stream.py:66 | one segment per chunk, the k-th segment being the decoding of the k-th chunk |
| Segmenter.DecodeFirstChunk | flash_card_generator/flashcard_stream.py:63-66 | the first segment is the decoding of the first `min(chunk_size, len)` tokens; the rest come from the remaining tokens |
| Segmenter.Segments | flash_card_generator/flashcard_stream.py:58-68 | a text gets no segments exactly when it has no tokens, and otherwise ceil(tokens / chunk_size) segments |
| Segmenter.ReencodeSegments | flash_card_generator/flashcard_stream.py:58-68 | when re-encoding a decoded chunk gives that chunk back, the segments' encodings, concatenated, are the text's tokens |
| TurnProtocol.Reminders | flash_card_generator/flashcard_stream.py:98-106 | one assistant reminder per card, the k-th quoting the k-th card's prompt text |
| TurnProtocol.Seed | flash_card_generator/flashcard_stream.py:84-92 | the transcript starts with the system prompt, then the instruction prompt, then the segment unchanged as a user message |
| TurnProtocol.Reminder | flash_card_generator/flashcard_stream.py:98-106 | a reminder is an assistant message that ends with the card's prompt text, after a 42-character lead-in that `ReminderLeadIn` gives character for character |
| TurnProtocol.ReminderLeadIn | flash_card_generator/flashcard_stream.py:99-102 | every reminder starts with the same 42 characters, `Don't repeat this flashcard you justadded `: the two literals are joined with no space between `just` and `added` |
| TurnProtocol.RequestAfter | flash_card_generator/flashcard_stream.py:108-116 | a turn's request carries the stream's model and temperature 0.1, and one message per earlier card on top of the three seed messages and the follow-up; the follow-up is the last message |
| TurnProtocol.SegmentCards | flash_card_generator/flashcard_stream.py:94-126 | the conversation yields only cards the parser finds: a parser that finds none gives no cards |
| TurnProtocol.SegmentCardsFirstTurn | flash_card_generator/flashcard_stream.py:94-126 | the first request is the seed and the follow-up only, and the cards of its reply come first in the result of every number of turns |
| TurnProtocol.RemindersAppend | flash_card_generator/flashcard_stream.py:98-106 | the reminders of two card lists, one after the other, are the reminders of the concatenated list |
| TurnProtocol.SegmentCardsPrefix | flash_card_generator/flashcard_stream.py:94-126 | later turns only add cards: the cards after i turns are a prefix of the cards after any n >= i turns |
| TurnProtocol.TranscriptShape | flash_card_generator/flashcard_stream.py:84-116 | turn i sends the stream's model and temperature 0.1 with this transcript: the three seed messages; one assistant reminder for every card of turns 0..i-1, in order; and the follow-up, once, in last place |
| TurnProtocol.RequestAfterShape | flash_card_generator/flashcard_stream.py:98-116 | the request after any list of cards: the seed, then one reminder per card in order, then the follow-up, which appears nowhere else after the seed |
| TurnProtocol.TranscriptGrows | flash_card_generator/flashcard_stream.py:103-119 | because the follow-up is popped after each call, what turn i sends before its follow-up is a prefix of what every later turn sends |
| TurnProtocol.ReplyCardsOwner | flash_card_generator/flashcard_stream.py:140 | every card the parser makes belongs to the stream's user |
| TurnProtocol.SegmentCardsOwner | flash_card_generator/flashcard_stream.py:122-123 | every card of a segment's conversation comes from the parser, so it belongs to the user the parser assigns |
| TurnProtocol.ConstantReplyRepeats | flash_card_generator/flashcard_stream.py:96-126 | nothing removes duplicates: a model that always gives the same reply yields that reply's cards once per turn |
| TurnProtocol.Turns | flash_card_generator/flashcard_stream.py:96 | `range(n_cards)` runs `n_cards` turns, and none when `n_cards` is negative |
| TurnProtocol.StreamCards | flash_card_generator/flashcard_stream.py:50-56 | the first segment's cards come first in the stream's result |
| TurnProtocol.StreamCardsFlatten | flash_card_generator/flashcard_stream.py:50-56 | the stream's cards are each segment's cards, flattened in segment order |
| TurnProtocol.StreamCardsConcat | flash_card_generator/flashcard_stream.py:50-56 | the cards of two segment lists, one after the other, are the cards of the concatenated list |
| TurnProtocol.StreamCardsSnoc | flash_card_generator/flashcard_stream.py:52-54 | one more segment adds exactly that segment's cards, at the end |
| TurnProtocol.ConversationOwner | flash_card_generator/flashcard_stream.py:52-54 | with a parser that keeps the owner, every segment's conversation yields cards of that owner only |
| TurnProtocol.StreamCardsOwner | flash_card_generator/flashcard_stream.py:50-56 | every card of the stream belongs to the owner when each segment's cards do |
| Stream.FlashCardStream.constructor | flash_card_generator/flashcard_stream.py:31-48 | stores the six settings and sets `split_text` to the segments of the text |
| Stream.FlashCardStream.SplitText | flash_card_generator/flashcard_stream.py:58-68 | the loop stores exactly the decoded chunks of the encoded text, in order (see `Segmenter.Chunks`, `Segmenter.ChunksConcat`) |
| Stream.FlashCardStream.ExtractDataFromModelResponse | flash_card_generator/flashcard_stream.py:128-142 | the loop over the zipped marker pairs returns exactly the parsed cards of the reply (see `ParseCard`, `ParseCount`) |
| Stream.FlashCardStream.AddReminders | flash_card_generator/flashcard_stream.py:98-106 | the transcript gets one reminder per card of the previous turn, in order, after what it already held |
| Stream.FlashCardStream.BuildFlashcardsForSegment | flash_card_generator/flashcard_stream.py:79-126 | returns the cards of `n_cards` turns (none for a negative count); the t-th request sent is the request `TranscriptShape` describes for turn t |
| Stream.FlashCardStream.GetFlashcards | flash_card_generator/flashcard_stream.py:50-56 | returns every segment's cards, segment after segment, and every card belongs to the stream's user |
| Stream.NextSegment | flash_card_generator/flashcard_stream.py:52-54 | one iteration of the loop: the next segment's cards go after the cards of the earlier segments |
| Stream.TurnRequest | flash_card_generator/flashcard_stream.py:98-116 | one turn of the loop: the transcript so far plus the follow-up is exactly the request `RequestAt` gives for that turn, and after the pop the transcript holds the reminders of every card so far |
| Stream.RequestsNext | flash_card_generator/flashcard_stream.py:112-116 | recording one more turn's request keeps every recorded request equal to the one `RequestAt` describes for its turn |
| Stream.TurnCards | flash_card_generator/flashcard_stream.py:121-123 | the cards of one more turn are the earlier cards followed by the cards parsed from that turn's reply |

## Left out

- The tokenizer is a parameter, not a model. `tiktoken.encoding_for_model` and its error for an unknown model name are left out; `tiktoken`'s own encoding is too.
- The chat API call is a parameter that returns the reply text. Indexing the response dictionary (`_extract_text_from_response`) is left out, and so are network errors and API exceptions.
- `print` output (`print_text`, "Running message …") is left out. It does not affect any result.
- Loading `.env-secrets` and setting the API key are left out. They are configuration and do not affect any result.
- `app.py` (the HTTP endpoints) and `models/user.py` are not part of this model. Neither are the card's database id and `created_at` timestamp.
- PyStr.Lower: models `str.lower` only for A–Z and the Kelvin sign. These are the only characters that lower onto a letter of `front:` or `back:`, so the marker test is exact. Other case mappings are not modelled.
- Stream.FlashCardStream.constructor: requires a positive chunk size unless the text has no tokens. With a non-positive size and at least one token, the source's loop never ends.
- Stream.FlashCardStream.SplitText: has the same precondition, for the same reason.
- `cards_per_chunk` is stored but has no effect, as in the source.
- The copy `flashcards[:]` is a value here, so the model cannot show aliasing.
- The chat model is a function of the request, so the model does not capture sampling randomness. Two identical requests get the same reply here. The source calls the model at temperature 0.1, so a turn that repeats the previous transcript exactly may get a different reply there. A turn repeats the previous transcript when the previous reply gave no cards; so does a segment equal to an earlier one.
- Segmenter.ReencodeSegments: its hypothesis, that re-encoding a decoded chunk gives that chunk back, does not hold for the real tokenizer. A chunk cut inside a multi-byte character decodes with replacement characters. The lemma only shows what the chunking keeps when the hypothesis does hold.
