/**
 * The conversation controller: one chat's aiogram state (idle or
 * `OrderAdd.new_card`) and the handlers that read and write it and the store.
 */
module Bot {
  import opened Wrappers
  import opened PyText
  import opened Database
  import opened CardParser
  import opened Ranking

  /** A chat's state: `None` (idle) or `OrderAdd.new_card`. */
  datatype State = Idle | NewCard

  datatype ChatType = Private | Group | Supergroup | Channel

  /** What the bot sends back; the fixed texts are represented by their kind. */
  datatype Reply =
    | CategoryMenu                                 // "choose a category" with the category keyboard
    | CallbackAck                                  // an empty answer to the button press
    | CardInputTemplate                            // the card input template with the finish button
    | NoCardsNotice(category: string)              // button answer: no cards in this category
    | ChosenNotice(category: string)               // button answer: you chose this category
    | BestCardReport(cardName: string, cashback: real)
    | AddingCompleted
    | FormatErrorNotice
    | IncorrectCommand

  /**
   * The updates the handlers receive: `/start`, an inline button press with
   * its callback data, and any other text message.
   */
  datatype Event =
    | Start(username: Option<string>)
    | Callback(data: string)
    | Text(text: string, chatType: ChatType)

  /** The text of the finish button; in state `new_card` it ends the flow. */
  const FinishAdding: string := "Завершить добавление"

  /** The callback data of the "add card" button. */
  const AddPayload: string := "add"

  /** The state after one event, as the handlers set it. */
  function NextState(s: State, e: Event): State
  {
    match e
    case Start(_) => s
    case Callback(data) =>
      if data == "" then s            // no handler takes a press without data
      else if data == AddPayload then NewCard
      else Idle
    case Text(text, _) =>
      if s == NewCard && text == FinishAdding then Idle else s
  }

  /** The state after a sequence of events. */
  function Run(s: State, events: seq<Event>): State
    decreases |events|
  {
    if events == [] then s
    else
      NextState(Run(s, events[..|events| - 1]), events[|events| - 1])
  }

  /** An event that takes a chat out of `new_card`. */
  predicate Leaves(e: Event)
  {
    || (e.Callback? && e.data != "" && e.data != AddPayload)
    || (e.Text? && e.text == FinishAdding)
  }

  /**
   * Updates that neither press "add" nor leave `new_card` (`/start`, a press
   * without data, text other than the finish text) never change the state.
   */
  lemma {:induction false} RunKeepsState(s: State, events: seq<Event>)
    requires forall e :: e in events ==> !Leaves(e) && e != Callback(AddPayload)
    ensures Run(s, events) == s
    decreases |events|
  {
    if events != [] {
      var init := events[..|events| - 1];
      assert forall e :: e in init ==> e in events;
      RunKeepsState(s, init);
      assert events[|events| - 1] in events;
    }
  }

  /** Only the "add" button puts an idle chat into `new_card`. */
  lemma EntersOnlyByAdd(s: State, e: Event)
    requires s == Idle && NextState(s, e) == NewCard
    ensures e == Callback(AddPayload)
  {
  }

  /**
   * Starting idle, a chat is in `new_card` exactly when some "add" press has
   * not been followed by another non-empty press or by the finish text.
   */
  lemma {:induction false} InNewCardIff(events: seq<Event>)
    ensures Run(Idle, events) == NewCard <==>
      exists i :: (0 <= i < |events| && events[i] == Callback(AddPayload)
                   && forall j :: i < j < |events| ==> !Leaves(events[j]))
    decreases |events|
  {
    if events != [] {
      var n := |events| - 1;
      var init := events[..n];
      var e := events[n];
      InNewCardIff(init);
      if Run(Idle, events) == NewCard {
        if e != Callback(AddPayload) {
          assert Run(Idle, init) == NewCard && !Leaves(e);
          var i :| 0 <= i < |init| && init[i] == Callback(AddPayload)
                   && forall j :: i < j < |init| ==> !Leaves(init[j]);
          assert events[i] == Callback(AddPayload);
          assert forall j :: i < j < n ==> events[j] == init[j];
        } else {
          assert events[n] == Callback(AddPayload);
        }
      }
    }
  }

  /** The rows one persist loop appends: ids from `firstId` on, one per dict item, in dict order. */
  function NewRows(firstId: int, userId: int, name: string, d: Cashbacks): seq<Card>
  {
    seq(|d|, i requires 0 <= i < |d| => Card(firstId + i, userId, name, d[i].0, d[i].1))
  }

  /** The replies to a press on a category button. */
  function RankingReplies(cards: seq<Card>, category: string): (r: seq<Reply>)
    ensures r == [NoCardsNotice(category)] <==> forall c :: c in cards ==> c.category != category
    ensures r != [NoCardsNotice(category)] ==>
      |r| == 2 && r[0] == ChosenNotice(category) && exists c :: c in cards && c.category == category
  {
    match Rank(cards, category)
    case NoCards => [NoCardsNotice(category)]
    case BestCard(card, cashback) => [ChosenNotice(category), BestCardReport(card.cardName, cashback)]
  }

  /**
   * The replies to a category press: the "no cards" notice alone when the
   * chat has no row of that category; otherwise the chosen-category notice
   * and the report of the first row that reaches the largest cashback.
   */
  lemma RankingRepliesSpec(cards: seq<Card>, category: string)
    ensures (forall c :: c in cards ==> c.category != category) ==>
      RankingReplies(cards, category) == [NoCardsNotice(category)]
    ensures (exists c :: c in cards && c.category == category) ==>
      exists i :: (0 <= i < |cards| && cards[i].category == category
        && RankingReplies(cards, category) == [ChosenNotice(category), BestCardReport(cards[i].cardName, cards[i].cashback)]
        && (forall j :: 0 <= j < |cards| && cards[j].category == category ==> cards[j].cashback <= cards[i].cashback)
        && (forall j :: 0 <= j < i && cards[j].category == category ==> cards[j].cashback < cards[i].cashback))
  {
    if exists c :: c in cards && c.category == category {
      RankFirstOccurrence(cards, category);
      var r := Rank(cards, category);
      var i :| 0 <= i < |cards| && cards[i] == r.card
        && forall j :: 0 <= j < i && cards[j].category == category ==> cards[j].cashback < r.cashback;
      assert forall j :: 0 <= j < |cards| && cards[j].category == category ==> cards[j] in cards;
    }
  }

  /** Appending one dict item's row to the rows of the items before it. */
  lemma NewRowsSnoc(firstId: int, userId: int, name: string, d: Cashbacks, i: nat)
    requires i < |d|
    ensures NewRows(firstId, userId, name, d[..i + 1])
         == NewRows(firstId, userId, name, d[..i]) + [Card(firstId + i, userId, name, d[i].0, d[i].1)]
  {
  }

  /** The rows of a dict: owner and name as given, one row per key, each with its key's value. */
  lemma NewRowsOfDict(firstId: int, userId: int, name: string, d: Cashbacks)
    requires UniqueKeys(d)
    ensures var rows := NewRows(firstId, userId, name, d);
      && (forall r :: r in rows ==> r.userId == userId && r.cardName == name)
      && (forall a, b :: 0 <= a < b < |rows| ==> rows[a].category != rows[b].category)
      && (set r | r in rows :: r.category) == KeySet(d)
      && (forall r :: r in rows ==> Lookup(d, r.category) == Some(r.cashback))
  {
    var rows := NewRows(firstId, userId, name, d);
    forall k | k in KeySet(d) ensures k in (set r | r in rows :: r.category) {
      var i :| 0 <= i < |d| && d[i].0 == k;
      assert rows[i] in rows;
    }
  }

  /**
   * A well-formed submission stores one row per distinct category of its
   * later lines, each with the chat's user id, the first line as the card
   * name, and the cashback of the category's last line.
   */
  lemma SubmissionRows(text: string, sub: Submission, firstId: int, userId: int, rows: seq<Card>)
    requires ParseSubmission(text) == Success(sub)
    requires rows == NewRows(firstId, userId, sub.name, sub.cashbacks)
    ensures forall r :: r in rows ==> r.userId == userId && r.cardName == SplitLines(text)[0]
    ensures forall a, b :: 0 <= a < b < |rows| ==> rows[a].category != rows[b].category
    ensures (set r | r in rows :: r.category) == (set i | 1 <= i < |SplitLines(text)| :: Category(SplitLines(text)[i]))
    ensures forall r :: r in rows ==> Lookup(sub.cashbacks, r.category) == Some(r.cashback)
  {
    SubmissionContents(text);
    NewRowsOfDict(firstId, userId, sub.name, sub.cashbacks);
  }

  class Conversation {
    /** The chat id, used as the `user_id` of the chat's owner. */
    const chatId: int
    const store: Store
    var state: State

    ghost predicate Valid()
      reads this, store
    {
      store.Valid()
    }

    constructor (chatId: int, store: Store)
      requires store.Valid()
      ensures Valid()
      ensures this.chatId == chatId && this.store == store && state == Idle
    {
      this.chatId := chatId;
      this.store := store;
      state := Idle;
    }

    /**
     * `/start`: a new chat gets a Users row (and, because the prompt is
     * never awaited, no reply); a known chat gets the category menu.
     */
    method CheckUserInTable(username: Option<string>) returns (replies: seq<Reply>)
      requires Valid()
      modifies store
      ensures Valid()
      ensures state == old(state)
      ensures old(chatId in store.users) ==> replies == [CategoryMenu] && store.users == old(store.users)
      ensures old(chatId !in store.users) ==> replies == [] && store.users == old(store.users)[chatId := username]
      ensures store.cards == old(store.cards) && store.lastCardId == old(store.lastCardId)
    {
      var known := store.IsUserInTable(chatId);
      if !known {
        var _ := store.CreateUser(chatId, username);
        replies := [];
      } else {
        replies := [CategoryMenu];
      }
    }

    /** An inline button press: clear the state, then "add" or a category. */
    method InlineCallback(data: string) returns (replies: seq<Reply>)
      requires Valid()
      modifies this
      ensures Valid()
      ensures data == AddPayload ==> state == NewCard && replies == [CallbackAck, CardInputTemplate]
      ensures data != AddPayload ==> state == Idle && replies == RankingReplies(CardsOf(store.cards, chatId), data)
    {
      state := Idle;
      if data == AddPayload {
        state := NewCard;
        replies := [CallbackAck, CardInputTemplate];
      } else {
        var rows := store.GetValueDb("Cards", chatId);
        match Rank(rows.value, data)
        case NoCards =>
          replies := [NoCardsNotice(data)];
        case BestCard(card, cashback) =>
          replies := [ChosenNotice(data), BestCardReport(card.cardName, cashback)];
      }
    }

    /**
     * Text in state `new_card`: the finish text ends the flow; anything else
     * is parsed whole and then stored row by row, or answered with the
     * format error and nothing stored.
     */
    method FolderNameChosen(text: string) returns (replies: seq<Reply>)
      requires Valid()
      modifies this, store
      ensures Valid()
      ensures text == FinishAdding ==> state == Idle && replies == [AddingCompleted] && unchanged(store)
      ensures text != FinishAdding ==> state == old(state) && store.users == old(store.users)
      ensures text != FinishAdding && ParseSubmission(text).Failure? ==>
        replies == [FormatErrorNotice] && unchanged(store)
      ensures text != FinishAdding && ParseSubmission(text).Success? ==>
        var sub := ParseSubmission(text).value;
        && replies == []
        && store.cards == old(store.cards) + NewRows(old(store.lastCardId) + 1, chatId, sub.name, sub.cashbacks)
        && store.lastCardId == old(store.lastCardId) + |sub.cashbacks|
        && CardsOf(store.cards, chatId) == CardsOf(old(store.cards), chatId) + NewRows(old(store.lastCardId) + 1, chatId, sub.name, sub.cashbacks)
    {
      if text == FinishAdding {
        state := Idle;
        return [AddingCompleted];
      }
      var parsed := ParseSubmission(text);
      if parsed.Failure? {
        replies := [FormatErrorNotice];
      } else {
        var sub := parsed.value;
        StoreCashbacks(sub.name, sub.cashbacks);
        replies := [];
      }
    }

    /** The persist loop: `create_card` once per dict item, in dict order. */
    method StoreCashbacks(name: string, d: Cashbacks)
      requires Valid()
      modifies store
      ensures Valid()
      ensures store.cards == old(store.cards) + NewRows(old(store.lastCardId) + 1, chatId, name, d)
      ensures store.lastCardId == old(store.lastCardId) + |d|
      ensures store.users == old(store.users)
      ensures CardsOf(store.cards, chatId) == CardsOf(old(store.cards), chatId) + NewRows(old(store.lastCardId) + 1, chatId, name, d)
      ensures forall u :: u != chatId ==> CardsOf(store.cards, u) == CardsOf(old(store.cards), u)
    {
      ghost var cards0, first := store.cards, store.lastCardId + 1;
      assert NewRows(first, chatId, name, d[..0]) == [];
      assert store.cards == cards0 + [];
      var i := 0;
      while i < |d|
        invariant 0 <= i <= |d|
        invariant store.Valid()
        invariant store.cards == cards0 + NewRows(first, chatId, name, d[..i])
        invariant store.lastCardId == first - 1 + i
        invariant store.users == old(store.users)
      {
        var category, cashback := d[i].0, d[i].1;
        var _ := store.CreateCard(chatId, name, category, cashback);
        NewRowsSnoc(first, chatId, name, d, i);
        i := i + 1;
      }
      assert d[..i] == d;
      var rows := NewRows(first, chatId, name, d);
      forall u ensures CardsOf(store.cards, u) == CardsOf(cards0, u) + (if u == chatId then rows else []) {
        CardsOfAppendOwned(cards0, rows, chatId, u);
      }
    }

    /** Any other text: "unknown command", in private chats only. */
    method OtherText(chatType: ChatType) returns (replies: seq<Reply>)
      ensures chatType == Private ==> replies == [IncorrectCommand]
      ensures chatType != Private ==> replies == []
    {
      if chatType == Private {
        replies := [IncorrectCommand];
      } else {
        replies := [];
      }
    }

    /**
     * One update through the dispatcher, in the order the handlers are
     * registered: `/start` in any state, a press with data in any state,
     * text to the add-card handler in `new_card` and to the fallback otherwise.
     */
    method Dispatch(e: Event) returns (replies: seq<Reply>)
      requires Valid()
      modifies this, store
      ensures Valid()
      ensures state == NextState(old(state), e)
      ensures !e.Start? && !(e.Text? && old(state) == NewCard) ==> unchanged(store)
      ensures e.Start? ==> replies == (if chatId in old(store.users) then [CategoryMenu] else [])
      ensures e.Callback? && e.data == "" ==> replies == []
      ensures e.Callback? && e.data == AddPayload ==> replies == [CallbackAck, CardInputTemplate]
      ensures e.Callback? && e.data != "" && e.data != AddPayload ==>
        replies == RankingReplies(CardsOf(store.cards, chatId), e.data)
      ensures e.Text? && old(state) == Idle ==> replies == (if e.chatType == Private then [IncorrectCommand] else [])
      ensures e.Text? && old(state) == NewCard && e.text == FinishAdding ==>
        replies == [AddingCompleted] && unchanged(store)
      ensures e.Text? && old(state) == NewCard && e.text != FinishAdding && ParseSubmission(e.text).Success? ==>
        var sub := ParseSubmission(e.text).value;
        && replies == []
        && store.users == old(store.users)
        && store.cards == old(store.cards) + NewRows(old(store.lastCardId) + 1, chatId, sub.name, sub.cashbacks)
        && store.lastCardId == old(store.lastCardId) + |sub.cashbacks|
      ensures e.Text? && old(state) == NewCard && e.text != FinishAdding && ParseSubmission(e.text).Failure? ==>
        replies == [FormatErrorNotice] && unchanged(store)
      ensures e.Start? ==> store.cards == old(store.cards) && store.lastCardId == old(store.lastCardId)
      ensures e.Start? ==>
        store.users == if chatId in old(store.users) then old(store.users) else old(store.users)[chatId := e.username]
    {
      match e
      case Start(username) =>
        replies := CheckUserInTable(username);
      case Callback(data) =>
        if data == "" {
          replies := [];
        } else {
          replies := InlineCallback(data);
        }
      case Text(text, chatType) =>
        if state == NewCard {
          replies := FolderNameChosen(text);
        } else {
          replies := OtherText(chatType);
        }
    }
  }
}
