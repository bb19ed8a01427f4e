/**
 * The conversation `_build_flashcards_for_segment` holds with the chat model
 * for one text segment. The transcript starts with three fixed seed messages;
 * every turn first adds one assistant reminder per card of the previous turn,
 * then a follow-up request, calls the model, removes the follow-up again and
 * parses the reply. This module gives the specification of that protocol as
 * functions of the chat model's replies.
 */
module TurnProtocol {
  import opened Seqs
  import opened FlashCards
  import opened ResponseParser

  datatype Role = System | User | Assistant

  datatype Message = Message(role: Role, content: string)

  /** One chat-completion call: the model name, the transcript and the sampling temperature. */
  datatype ChatRequest = ChatRequest(model: string, messages: seq<Message>, temperature: real)

  /** The chat model, as the text of the reply it gives to a request. */
  type Chat = ChatRequest -> string

  /** What the turn loop makes of a reply: the cards it parses out of it. */
  type ReplyParser = string -> seq<FlashCard>

  /** The stream's parser: `_extract_data_from_model_response` for the stream's user. */
  function ReplyCards(userId: int): ReplyParser
  {
    reply => Parse(reply, userId)
  }

  const SYSTEM_PROMPT: string :=
    "you are a helpful tutor that makes excellent flash\n" +
    "                cards for studying. you don't repeat yourself"

  const PROMPT: string :=
    "You are a tutor that helps students learn concepts by making\n" +
    "flash cards. I will send you text to make flashcards for. you will synthesize\n" +
    "the information and return a single flash card. A flash card text composed of \n" +
    "two keys \"front\" and \"back\". The front has a concept/question on it and\n" +
    "the back has a definition/answer. The next message has the text; please create one\n" +
    "json flash card to start with. An example of the output is:\n" +
    "Front: What \n" +
    "Back: \n"

  const FOLLOWUP: string :=
    "Thank you! Now return another flashcard object for the \n" +
    "next most important concept from the same text. Please don't repeat one\n" +
    "of the previous flashcards.\n"

  const TEMPERATURE: real := 0.1

  /** `n_cards`' default: the number of turns per segment. */
  const DEFAULT_TURNS: nat := 3

  /**
   * The three messages every segment's transcript starts with: the system
   * prompt, the instruction prompt, and then the segment itself, unchanged,
   * as a user message.
   */
  function Seed(segment: string): (ms: seq<Message>)
    ensures |ms| == 3
    ensures ms[0] == Message(System, SYSTEM_PROMPT) && ms[1] == Message(User, PROMPT)
    ensures ms[2].role == User && ms[2].content == segment
  {
    [Message(System, SYSTEM_PROMPT), Message(User, PROMPT), Message(User, segment)]
  }

  function FollowUp(): Message
  {
    Message(User, FOLLOWUP)
  }

  /** The reminder added for a card of the previous turn (the two literals have no space between them). */
  function Reminder(c: FlashCard): (m: Message)
    ensures m.role == Assistant
    ensures |m.content| == 42 + |PromptText(c)|
    ensures m.content[42..] == PromptText(c)
  {
    Message(Assistant, "Don't repeat this flashcard you just" + "added " + PromptText(c))
  }

  /** Every reminder starts with the same lead-in, whose two literals run together as "justadded". */
  lemma ReminderLeadIn(c: FlashCard)
    ensures Reminder(c).content[..42] == "Don't repeat this flashcard you just" + "added "
    ensures Reminder(c).content[..42] == "Don't repeat this flashcard you justadded "
  {
  }

  /** One reminder per card, in the cards' order. */
  function Reminders(cards: seq<FlashCard>): (ms: seq<Message>)
    ensures |ms| == |cards|
    ensures forall k :: 0 <= k < |cards| ==> ms[k] == Reminder(cards[k])
  {
    if cards == [] then [] else [Reminder(cards[0])] + Reminders(cards[1..])
  }

  lemma {:induction false} RemindersAppend(a: seq<FlashCard>, b: seq<FlashCard>)
    ensures Reminders(a + b) == Reminders(a) + Reminders(b)
  {
    if a != [] {
      assert (a + b)[1..] == a[1..] + b;
      RemindersAppend(a[1..], b);
    }
  }

  /** The request of the turn that comes after the turns that produced `earlier`. */
  function RequestAfter(model: string, segment: string, earlier: seq<FlashCard>): (r: ChatRequest)
    ensures r.model == model && r.temperature == TEMPERATURE
    ensures |r.messages| == |earlier| + 4
    ensures r.messages[|r.messages| - 1] == FollowUp()
  {
    ChatRequest(model, Seed(segment) + Reminders(earlier) + [FollowUp()], TEMPERATURE)
  }

  /**
   * The cards of a segment after `n` turns: the earlier turns' cards, then the
   * cards `parse` makes of the model's reply to turn `n - 1`, whose request
   * reminds the model of every earlier card.
   */
  function SegmentCards(chat: Chat, parse: ReplyParser, model: string, segment: string, n: nat): (cards: seq<FlashCard>)
    ensures (forall reply :: parse(reply) == []) ==> cards == []
    decreases n
  {
    if n == 0 then []
    else
      var earlier := SegmentCards(chat, parse, model, segment, n - 1);
      earlier + parse(chat(RequestAfter(model, segment, earlier)))
  }

  /** The request the model sees at turn `i` (counting from 0). */
  function RequestAt(chat: Chat, parse: ReplyParser, model: string, segment: string, i: nat): ChatRequest
  {
    RequestAfter(model, segment, SegmentCards(chat, parse, model, segment, i))
  }

  // ---------------------------------------------------------------------------
  // Properties of the protocol
  // ---------------------------------------------------------------------------

  /** Running more turns only adds cards after the earlier turns' cards. */
  lemma {:induction false} SegmentCardsPrefix(chat: Chat, parse: ReplyParser, model: string, segment: string, i: nat, n: nat)
    requires i <= n
    ensures var early := SegmentCards(chat, parse, model, segment, i);
            var late := SegmentCards(chat, parse, model, segment, n);
            |early| <= |late| && early == late[..|early|]
    decreases n
  {
    var early := SegmentCards(chat, parse, model, segment, i);
    var late := SegmentCards(chat, parse, model, segment, n);
    if i < n {
      SegmentCardsPrefix(chat, parse, model, segment, i, n - 1);
      var prev := SegmentCards(chat, parse, model, segment, n - 1);
      var added := parse(chat(RequestAfter(model, segment, prev)));
      assert late == prev + added;
      PrefixOfAppend(early, prev, added);
    } else {
      assert early == late[..|early|];
    }
  }

  /**
   * The first turn's request holds the seed and the follow-up only, and the
   * cards parsed from its reply come first in every later turn's result.
   */
  lemma SegmentCardsFirstTurn(chat: Chat, parse: ReplyParser, model: string, segment: string, n: nat)
    requires n > 0
    ensures RequestAfter(model, segment, []).messages == Seed(segment) + [FollowUp()]
    ensures parse(chat(RequestAfter(model, segment, []))) <= SegmentCards(chat, parse, model, segment, n)
  {
    var first := parse(chat(RequestAfter(model, segment, [])));
    assert SegmentCards(chat, parse, model, segment, 1) == [] + first;
    SegmentCardsPrefix(chat, parse, model, segment, 1, n);
  }

  /**
   * The transcript at turn `i`: the three seed messages, then one assistant
   * reminder for every card parsed in turns 0..i-1, in order, then the follow-up
   * as the only user message after the seed, in last place.
   */
  lemma TranscriptShape(chat: Chat, parse: ReplyParser, model: string, segment: string, i: nat)
    ensures var req := RequestAt(chat, parse, model, segment, i);
            var earlier := SegmentCards(chat, parse, model, segment, i);
            var ms := req.messages;
            req.model == model && req.temperature == TEMPERATURE &&
            |ms| == 3 + |earlier| + 1 &&
            ms[..3] == Seed(segment) &&
            ms[|ms| - 1] == FollowUp() &&
            (forall k :: 3 <= k < |ms| - 1 ==> ms[k].role == Assistant && ms[k] == Reminder(earlier[k - 3])) &&
            (forall k :: 3 <= k < |ms| ==> (ms[k] == FollowUp() <==> k == |ms| - 1))
  {
    RequestAfterShape(model, segment, SegmentCards(chat, parse, model, segment, i));
  }

  /** The transcript of the request that follows the cards `earlier`. */
  lemma RequestAfterShape(model: string, segment: string, earlier: seq<FlashCard>)
    ensures var ms := RequestAfter(model, segment, earlier).messages;
            ms[..3] == Seed(segment) &&
            (forall k :: 3 <= k < |ms| - 1 ==> ms[k].role == Assistant && ms[k] == Reminder(earlier[k - 3])) &&
            (forall k :: 3 <= k < |ms| ==> (ms[k] == FollowUp() <==> k == |ms| - 1))
  {
    var ms := RequestAfter(model, segment, earlier).messages;
    assert ms == Seed(segment) + Reminders(earlier) + [FollowUp()];
    RemindersLayout(Seed(segment), earlier, ms);
  }

  /** After a three-message seed come the reminders of `earlier`, then the follow-up alone. */
  lemma RemindersLayout(seed: seq<Message>, earlier: seq<FlashCard>, ms: seq<Message>)
    requires |seed| == 3 && ms == seed + Reminders(earlier) + [FollowUp()]
    ensures forall k :: 3 <= k < |ms| - 1 ==> ms[k].role == Assistant && ms[k] == Reminder(earlier[k - 3])
    ensures forall k :: 3 <= k < |ms| ==> (ms[k] == FollowUp() <==> k == |ms| - 1)
  {
    var rs := Reminders(earlier);
    forall k | 3 <= k < |ms| - 1
      ensures ms[k].role == Assistant && ms[k] == Reminder(earlier[k - 3])
    {
      assert ms[k] == rs[k - 3];
    }
  }

  /**
   * The transcript only grows: what turn `i` sends before its follow-up is a
   * prefix of what any later turn sends; in particular the seed is never changed.
   */
  lemma TranscriptGrows(chat: Chat, parse: ReplyParser, model: string, segment: string, i: nat, j: nat)
    requires i <= j
    ensures var mi := RequestAt(chat, parse, model, segment, i).messages;
            var mj := RequestAt(chat, parse, model, segment, j).messages;
            |mi| <= |mj| && mi[..|mi| - 1] == mj[..|mi| - 1]
  {
    SegmentCardsPrefix(chat, parse, model, segment, i, j);
    RequestAfterGrows(model, segment, SegmentCards(chat, parse, model, segment, i), SegmentCards(chat, parse, model, segment, j));
  }

  /** The request after more cards extends the request after fewer, up to its follow-up. */
  lemma RequestAfterGrows(model: string, segment: string, ei: seq<FlashCard>, ej: seq<FlashCard>)
    requires |ei| <= |ej| && ei == ej[..|ei|]
    ensures var mi := RequestAfter(model, segment, ei).messages;
            var mj := RequestAfter(model, segment, ej).messages;
            |mi| <= |mj| && mi[..|mi| - 1] == mj[..|mi| - 1]
  {
    var rest := ej[|ei|..];
    assert ej == ei + rest;
    RemindersAppend(ei, rest);
    ExtendMiddle(Seed(segment), Reminders(ei), Reminders(rest), FollowUp());
  }

  /** Every card `parse` makes belongs to `userId`. */
  ghost predicate KeepsOwner(parse: ReplyParser, userId: int)
  {
    forall reply, k :: 0 <= k < |parse(reply)| ==> parse(reply)[k].userId == userId
  }

  /** The stream's parser gives every card the stream's user. */
  lemma ReplyCardsOwner(userId: int)
    ensures KeepsOwner(ReplyCards(userId), userId)
  {
    forall reply, k | 0 <= k < |Parse(reply, userId)| ensures Parse(reply, userId)[k].userId == userId {
      ParseCard(reply, userId, k);
    }
  }

  /** Every card of a segment comes from `parse`, so it belongs to `userId` when all of `parse`'s cards do. */
  lemma {:induction false} SegmentCardsOwner(chat: Chat, parse: ReplyParser, userId: int, model: string, segment: string, n: nat)
    requires KeepsOwner(parse, userId)
    ensures forall k :: 0 <= k < |SegmentCards(chat, parse, model, segment, n)| ==>
              SegmentCards(chat, parse, model, segment, n)[k].userId == userId
    decreases n
  {
    if n > 0 {
      SegmentCardsOwner(chat, parse, userId, model, segment, n - 1);
      var earlier := SegmentCards(chat, parse, model, segment, n - 1);
      var reply := chat(RequestAfter(model, segment, earlier));
      assert SegmentCards(chat, parse, model, segment, n) == earlier + parse(reply);
      OwnedAppend(parse, userId, earlier, reply);
    }
  }

  /** Cards of one owner followed by what an owner-keeping parser makes of a reply are cards of that owner. */
  lemma OwnedAppend(parse: ReplyParser, userId: int, earlier: seq<FlashCard>, reply: string)
    requires KeepsOwner(parse, userId)
    requires forall k :: 0 <= k < |earlier| ==> earlier[k].userId == userId
    ensures forall k :: 0 <= k < |earlier + parse(reply)| ==> (earlier + parse(reply))[k].userId == userId
  {
  }

  /** `n` copies of `cards`, one after the other. */
  function Repeat(cards: seq<FlashCard>, n: nat): (r: seq<FlashCard>)
    ensures |r| == n * |cards|
  {
    if n == 0 then [] else Repeat(cards, n - 1) + cards
  }

  /**
   * Nothing removes duplicates: a model that always gives the same reply yields
   * that reply's cards once per turn.
   */
  lemma {:induction false} ConstantReplyRepeats(reply: string, parse: ReplyParser, model: string, segment: string, n: nat)
    ensures SegmentCards(_ => reply, parse, model, segment, n) == Repeat(parse(reply), n)
    decreases n
  {
    if n > 0 {
      ConstantReplyRepeats(reply, parse, model, segment, n - 1);
      var chat: Chat := _ => reply;
      assert SegmentCards(chat, parse, model, segment, n) == SegmentCards(chat, parse, model, segment, n - 1) + parse(reply);
    }
  }

  /** The number of turns `range(n_cards)` runs: none for a negative count. */
  function Turns(nCards: int): (r: nat)
    ensures nCards >= 0 ==> r == nCards
    ensures nCards < 0 ==> r == 0
  {
    if nCards > 0 then nCards else 0
  }

  /** What one segment's conversation yields: a segment's cards. */
  type SegmentRun = string -> seq<FlashCard>

  /** The conversation of `n` turns about each segment. */
  function Conversation(chat: Chat, parse: ReplyParser, model: string, n: nat): SegmentRun
  {
    segment => SegmentCards(chat, parse, model, segment, n)
  }

  /** The cards of a whole stream: each segment's cards, segment by segment. */
  function StreamCards(run: SegmentRun, segments: seq<string>): (cards: seq<FlashCard>)
    ensures segments != [] ==> run(segments[0]) <= cards
  {
    if segments == [] then []
    else run(segments[0]) + StreamCards(run, segments[1..])
  }

  /** The stream's cards are the per-segment card lists, flattened in segment order. */
  lemma {:induction false} StreamCardsFlatten(run: SegmentRun, segments: seq<string>)
    ensures StreamCards(run, segments) == Flatten(seq(|segments|, k requires 0 <= k < |segments| => run(segments[k])))
  {
    if segments != [] {
      StreamCardsFlatten(run, segments[1..]);
      var rest := segments[1..];
      assert seq(|segments|, k requires 0 <= k < |segments| => run(segments[k]))[1..] ==
             seq(|rest|, k requires 0 <= k < |rest| => run(rest[k]));
    }
  }

  /** A stream over two lists of segments yields the first list's cards, then the second's. */
  lemma {:induction false} StreamCardsConcat(run: SegmentRun, a: seq<string>, b: seq<string>)
    ensures StreamCards(run, a + b) == StreamCards(run, a) + StreamCards(run, b)
  {
    if a != [] {
      assert (a + b)[1..] == a[1..] + b;
      StreamCardsConcat(run, a[1..], b);
      assert (a + b)[0] == a[0];
      AppendAssoc(run(a[0]), StreamCards(run, a[1..]), StreamCards(run, b));
    } else {
      assert a + b == b;
    }
  }

  /** Adding one more segment to a stream adds that segment's cards at the end. */
  lemma StreamCardsSnoc(run: SegmentRun, segments: seq<string>, segment: string)
    ensures StreamCards(run, segments + [segment]) == StreamCards(run, segments) + run(segment)
  {
    StreamCardsConcat(run, segments, [segment]);
    assert StreamCards(run, [segment]) == run(segment);
  }

  /** Every card every segment yields belongs to `userId`. */
  ghost predicate RunKeepsOwner(run: SegmentRun, userId: int)
  {
    forall segment, k :: 0 <= k < |run(segment)| ==> run(segment)[k].userId == userId
  }

  /** A conversation whose parser keeps the owner keeps it for every segment. */
  lemma ConversationOwner(chat: Chat, parse: ReplyParser, userId: int, model: string, n: nat)
    requires KeepsOwner(parse, userId)
    ensures RunKeepsOwner(Conversation(chat, parse, model, n), userId)
  {
    forall segment
      ensures forall k :: 0 <= k < |SegmentCards(chat, parse, model, segment, n)| ==>
                SegmentCards(chat, parse, model, segment, n)[k].userId == userId
    {
      SegmentCardsOwner(chat, parse, userId, model, segment, n);
    }
  }

  /** Every card of a stream belongs to the stream's user. */
  lemma {:induction false} StreamCardsOwner(run: SegmentRun, userId: int, segments: seq<string>)
    requires RunKeepsOwner(run, userId)
    ensures forall k :: 0 <= k < |StreamCards(run, segments)| ==> StreamCards(run, segments)[k].userId == userId
  {
    if segments != [] {
      StreamCardsOwner(run, userId, segments[1..]);
      assert StreamCards(run, segments) == run(segments[0]) + StreamCards(run, segments[1..]);
    }
  }
}
