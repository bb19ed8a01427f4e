/**
 * `FlashCardStream`: holds a text, cuts it into token segments when it is
 * created, and asks the chat model for flash cards segment by segment.
 */
module Stream {
  import opened Seqs
  import opened PyStr
  import opened FlashCards
  import opened ResponseParser
  import opened Segmenter
  import opened TurnProtocol

  /** The module-level default segment length, in tokens. */
  const CHUNK_SIZE: int := 500

  class FlashCardStream {
    var text: string
    var model: string
    var userId: int
    var printText: bool
    var cardsPerChunk: int
    var chunkSize: int
    var splitText: seq<string>

    /**
     * Stores the settings and segments the text with the model's tokenizer
     * `enc`. A non-positive chunk size is only usable on a text without tokens.
     */
    constructor (text: string, model: string, userId: int, enc: Encoding,
                 printText: bool := true, cardsPerChunk: int := 2, chunkSize: int := CHUNK_SIZE)
      requires chunkSize > 0 || enc.encode(text) == []
      ensures this.text == text && this.model == model && this.userId == userId
      ensures this.printText == printText && this.cardsPerChunk == cardsPerChunk
      ensures this.chunkSize == chunkSize
      ensures splitText == Segments(enc, text, chunkSize)
    {
      this.text := text;
      this.model := model;
      this.userId := userId;
      this.printText := printText;
      this.cardsPerChunk := cardsPerChunk;
      this.chunkSize := chunkSize;
      splitText := [];
      new;
      SplitText(enc);
    }

    /** Encodes the text and decodes it back slice by slice, `chunkSize` tokens at a time. */
    method SplitText(enc: Encoding)
      requires chunkSize > 0 || enc.encode(text) == []
      modifies this`splitText
      ensures splitText == Segments(enc, text, chunkSize)
    {
      var encoded := enc.encode(text);
      var output: seq<string> := [];
      while |encoded| > 0
        invariant chunkSize > 0 || encoded == []
        invariant output + DecodeAll(enc.decode, Chunks(encoded, chunkSize)) == Segments(enc, text, chunkSize)
        decreases |encoded|
      {
        // Python slices stop at the end of the list.
        var n := Min(chunkSize, |encoded|);
        var chunk := encoded[..n];
        var rest := encoded[n..];
        DecodeFirstChunk(enc.decode, encoded, chunkSize);
        AppendAssoc(output, [enc.decode(chunk)], DecodeAll(enc.decode, Chunks(rest, chunkSize)));
        encoded := rest;
        output := output + [enc.decode(chunk)];
      }
      splitText := output;
    }

    /** The cards of one model reply: one per zipped (front, back) marker pair. */
    method ExtractDataFromModelResponse(input: string) returns (output: seq<FlashCard>)
      ensures output == Parse(input, userId)
    {
      var words := Split(input);
      var frontIndices := MarkerIndices(words, FRONT_MARKER);
      var backIndices := MarkerIndices(words, BACK_MARKER);
      output := [];
      var k := 0;
      while k < |frontIndices| && k < |backIndices|
        invariant k == |output|
        invariant PairCards(words, frontIndices, backIndices, userId, output)
      {
        var frontIdx, backIdx := frontIndices[k], backIndices[k];
        var front := Strip(Join(Between(words, frontIdx, backIdx)));
        var back := Strip(Join(After(words, backIdx)));
        PairCardsNext(words, frontIndices, backIndices, userId, output);
        output := output + [FlashCard(front, back, userId)];
        k := k + 1;
      }
      ZipCardsFromPairs(words, frontIndices, backIndices, userId, output);
    }

    /** The inner loop of a turn: one assistant reminder per card, in order. */
    static method AddReminders(messages: seq<Message>, newCards: seq<FlashCard>) returns (ms: seq<Message>)
      ensures ms == messages + Reminders(newCards)
    {
      ms := messages;
      var j := 0;
      while j < |newCards|
        invariant 0 <= j <= |newCards|
        invariant ms == messages + Reminders(newCards[..j])
      {
        assert newCards[..j + 1] == newCards[..j] + [newCards[j]];
        RemindersAppend(newCards[..j], [newCards[j]]);
        ms := ms + [Reminder(newCards[j])];
        j := j + 1;
      }
      assert newCards[..j] == newCards;
    }

    /**
     * Runs `nCards` turns of the conversation about `segment` and returns every
     * card parsed, turn after turn. `requests` records what the model was sent.
     */
    method BuildFlashcardsForSegment(chat: Chat, segment: string, nCards: int := DEFAULT_TURNS)
      returns (cards: seq<FlashCard>, ghost requests: seq<ChatRequest>)
      ensures cards == SegmentCards(chat, ReplyCards(userId), model, segment, Turns(nCards))
      ensures |requests| == Turns(nCards)
      ensures forall t :: 0 <= t < |requests| ==> requests[t] == RequestAt(chat, ReplyCards(userId), model, segment, t)
    {
      // The fields do not change during the conversation.
      var model, userId := this.model, this.userId;
      var messages := Seed(segment);
      cards := [];
      var newCards: seq<FlashCard> := [];
      ghost var older: seq<FlashCard> := [];
      requests := [];
      var i := 0;
      while i < nCards
        invariant 0 <= i <= Turns(nCards)
        invariant cards == SegmentCards(chat, ReplyCards(userId), model, segment, i)
        invariant cards == older + newCards
        invariant messages == Seed(segment) + Reminders(older)
        invariant |requests| == i
        invariant forall t :: 0 <= t < i ==> requests[t] == RequestAt(chat, ReplyCards(userId), model, segment, t)
      {
        ghost var parse := ReplyCards(userId);
        // One reminder per card of the previous turn.
        messages := AddReminders(messages, newCards);
        messages := messages + [FollowUp()];
        var request := ChatRequest(model, messages, TEMPERATURE);
        TurnRequest(chat, parse, model, segment, i, older, newCards);
        var reply := chat(request);
        RequestsNext(chat, parse, model, segment, i, requests);
        requests := requests + [request];
        messages := messages[..|messages| - 1];
        var flashcards := ExtractDataFromModelResponse(reply);
        TurnCards(chat, parse, model, segment, i, cards, flashcards);
        cards := cards + flashcards;
        older := older + newCards;
        newCards := flashcards;
        i := i + 1;
      }
      assert i == Turns(nCards);
    }

    /**
     * The cards of every segment, segment after segment, each from a
     * conversation of DEFAULT_TURNS turns; `cardsPerChunk` plays no part.
     */
    method GetFlashcards(chat: Chat) returns (cards: seq<FlashCard>)
      ensures cards == StreamCards(Conversation(chat, ReplyCards(userId), model, DEFAULT_TURNS), splitText)
      ensures forall k :: 0 <= k < |cards| ==> cards[k].userId == userId
    {
      ghost var run := Conversation(chat, ReplyCards(userId), model, DEFAULT_TURNS);
      cards := [];
      var i := 0;
      while i < |splitText|
        invariant 0 <= i <= |splitText|
        invariant cards == StreamCards(run, splitText[..i])
      {
        var segmentCards, _ := BuildFlashcardsForSegment(chat, splitText[i]);
        assert segmentCards == run(splitText[i]) by {
          assert Turns(DEFAULT_TURNS) == DEFAULT_TURNS;
        }
        NextSegment(run, splitText, i, cards, segmentCards);
        cards := cards + segmentCards;
        i := i + 1;
      }
      assert splitText[..i] == splitText;
      ReplyCardsOwner(userId);
      ConversationOwner(chat, ReplyCards(userId), userId, model, DEFAULT_TURNS);
      StreamCardsOwner(run, userId, splitText);
    }
  }

  /**
   * The request of turn `i` of `_build_flashcards_for_segment`: the transcript
   * so far, which holds the reminders of the cards before the previous turn's
   * and then of the previous turn's, followed by the follow-up.
   */
  lemma TurnRequest(chat: Chat, parse: ReplyParser, model: string, segment: string, i: nat,
                    older: seq<FlashCard>, newCards: seq<FlashCard>)
    requires older + newCards == SegmentCards(chat, parse, model, segment, i)
    ensures ChatRequest(model, Seed(segment) + Reminders(older) + Reminders(newCards) + [FollowUp()], TEMPERATURE)
            == RequestAt(chat, parse, model, segment, i)
    ensures Seed(segment) + Reminders(older) + Reminders(newCards) == Seed(segment) + Reminders(older + newCards)
  {
    RemindersAppend(older, newCards);
    AppendAssoc(Seed(segment), Reminders(older), Reminders(newCards));
  }

  /** Recording turn `i`'s request keeps every recorded request the one `RequestAt` describes. */
  lemma RequestsNext(chat: Chat, parse: ReplyParser, model: string, segment: string, i: nat, requests: seq<ChatRequest>)
    requires |requests| == i
    requires forall t :: 0 <= t < i ==> requests[t] == RequestAt(chat, parse, model, segment, t)
    ensures forall t :: 0 <= t < i + 1 ==>
              (requests + [RequestAt(chat, parse, model, segment, i)])[t] == RequestAt(chat, parse, model, segment, t)
  {
    var next := requests + [RequestAt(chat, parse, model, segment, i)];
    forall t | 0 <= t < i + 1
      ensures next[t] == RequestAt(chat, parse, model, segment, t)
    {
      if t < i {
        assert next[t] == requests[t];
      }
    }
  }

  /** Turn `i` adds the cards parsed from the reply to its request after the cards of the earlier turns. */
  lemma TurnCards(chat: Chat, parse: ReplyParser, model: string, segment: string, i: nat,
                  cards: seq<FlashCard>, flashcards: seq<FlashCard>)
    requires cards == SegmentCards(chat, parse, model, segment, i)
    requires flashcards == parse(chat(RequestAt(chat, parse, model, segment, i)))
    ensures cards + flashcards == SegmentCards(chat, parse, model, segment, i + 1)
  {
  }

  /** One iteration of `get_flashcards`: the next segment's cards go after the earlier segments' cards. */
  lemma NextSegment(run: SegmentRun, segments: seq<string>, i: nat, cards: seq<FlashCard>, segmentCards: seq<FlashCard>)
    requires i < |segments|
    requires cards == StreamCards(run, segments[..i])
    requires segmentCards == run(segments[i])
    ensures cards + segmentCards == StreamCards(run, segments[..i + 1])
  {
    assert segments[..i + 1] == segments[..i] + [segments[i]];
    StreamCardsSnoc(run, segments[..i], segments[i]);
  }
}
