/**
 * The bot's store: the Users and Cards tables as in-memory state.
 *
 * Users is keyed by `user_id` (its primary key) and holds the optional
 * username. Cards is append-only; `card_id` comes from an AUTOINCREMENT
 * counter, so ids grow with every insert and are never handed out twice.
 */
module Database {
  import opened Wrappers

  /** One Cards row: (card_id, user_id, card_name, category, cashback). */
  datatype Card = Card(cardId: int, userId: int, cardName: string, category: string, cashback: real)

  /** The failures the store can report to its callers. */
  datatype DbError =
    | UnknownTable(table: string)   // `ValueError` raised before any query
    | NoSuchColumn(column: string)  // SQLite rejects a query naming a missing column
    | ConstraintError               // a second row with the same primary key

  /** The rows of `cards` owned by `userId`, in table order. */
  function CardsOf(cards: seq<Card>, userId: int): (r: seq<Card>)
    ensures |r| <= |cards|
    ensures forall c :: c in r <==> c in cards && c.userId == userId
  {
    if cards == [] then []
    else
      var last := cards[|cards| - 1];
      assert cards == cards[..|cards| - 1] + [last];
      CardsOf(cards[..|cards| - 1], userId) + (if last.userId == userId then [last] else [])
  }

  /** Selecting from a concatenation selects from each part. */
  lemma {:induction false} CardsOfAppend(a: seq<Card>, b: seq<Card>, userId: int)
    ensures CardsOf(a + b, userId) == CardsOf(a, userId) + CardsOf(b, userId)
    decreases |b|
  {
    if b != [] {
      var last := b[|b| - 1];
      assert (a + b)[..|a + b| - 1] == a + b[..|b| - 1];
      CardsOfAppend(a, b[..|b| - 1], userId);
    } else {
      assert a + b == a;
    }
  }

  /** Rows appended for one owner show up, in order, at the end of that owner's selection and nowhere else. */
  lemma CardsOfAppendOwned(cards: seq<Card>, rows: seq<Card>, owner: int, userId: int)
    requires forall r :: r in rows ==> r.userId == owner
    ensures userId == owner ==> CardsOf(cards + rows, userId) == CardsOf(cards, userId) + rows
    ensures userId != owner ==> CardsOf(cards + rows, userId) == CardsOf(cards, userId)
  {
    CardsOfAppend(cards, rows, userId);
    CardsOfOwned(rows, owner, userId);
  }

  lemma {:induction false} CardsOfOwned(rows: seq<Card>, owner: int, userId: int)
    requires forall r :: r in rows ==> r.userId == owner
    ensures CardsOf(rows, userId) == if userId == owner then rows else []
    decreases |rows|
  {
    if rows != [] {
      var init := rows[..|rows| - 1];
      var last := rows[|rows| - 1];
      assert rows == init + [last];
      assert CardsOf(rows, userId) == CardsOf(init, userId) + (if last.userId == userId then [last] else []);
      assert forall r :: r in init ==> r in rows;
      CardsOfOwned(init, owner, userId);
    }
  }

  /** Every id is at least 1, at most `last`, and ids strictly grow along the table. */
  ghost predicate IdsAssigned(cards: seq<Card>, last: nat)
  {
    && (forall i :: 0 <= i < |cards| ==> 1 <= cards[i].cardId <= last)
    && (forall i, j :: 0 <= i < j < |cards| ==> cards[i].cardId < cards[j].cardId)
  }

  class Store {
    /** Users: `user_id` to `username` (which may be NULL). */
    var users: map<int, Option<string>>
    /** Cards, in insertion order. */
    var cards: seq<Card>
    /** The AUTOINCREMENT counter of Cards: the largest `card_id` handed out so far. */
    var lastCardId: nat

    ghost predicate Valid()
      reads this
    {
      IdsAssigned(cards, lastCardId)
    }

    /** Empty tables, as the schema creates them. */
    constructor ()
      ensures Valid()
      ensures users == map[] && cards == [] && lastCardId == 0
    {
      users := map[];
      cards := [];
      lastCardId := 0;
    }

    /** Whether some Users row has this `user_id`. */
    method IsUserInTable(userId: int) returns (found: bool)
      ensures found <==> userId in users
    {
      found := userId in users;
    }

    /**
     * Rows of the table named `table` for `id`. Only "Cards" succeeds; the
     * "Users" query filters on a `chat_id` column the schema does not have.
     */
    method GetValueDb(table: string, id: int) returns (r: Result<seq<Card>, DbError>)
      ensures table != "Users" && table != "Cards" ==> r == Failure(UnknownTable(table))
      ensures table == "Users" ==> r == Failure(NoSuchColumn("chat_id"))
      ensures table == "Cards" ==> r.Success?
      ensures table == "Cards" ==> forall c :: c in r.value <==> c in cards && c.userId == id
      ensures table == "Cards" ==> r.value == CardsOf(cards, id)
    {
      if table != "Users" && table != "Cards" {
        return Failure(UnknownTable(table));
      }
      if table == "Users" {
        return Failure(NoSuchColumn("chat_id"));
      }
      r := Success(CardsOf(cards, id));
    }

    /** Inserts (user_id, username); fails on an id that is already present. */
    method CreateUser(userId: int, username: Option<string>) returns (r: Result<int, DbError>)
      requires Valid()
      modifies this
      ensures Valid()
      ensures old(userId in users) ==> r == Failure(ConstraintError) && users == old(users)
      ensures old(userId !in users) ==> r == Success(userId) && users == old(users)[userId := username]
      ensures cards == old(cards) && lastCardId == old(lastCardId)
    {
      if userId in users {
        return Failure(ConstraintError);
      }
      users := users[userId := username];
      r := Success(userId);
    }

    /** Appends one Cards row under a fresh id and returns that id. */
    method CreateCard(userId: int, cardName: string, category: string, cashback: real) returns (cardId: int)
      requires Valid()
      modifies this
      ensures Valid()
      ensures cardId == old(lastCardId) + 1 == lastCardId
      ensures forall i :: 0 <= i < |old(cards)| ==> old(cards)[i].cardId < cardId
      ensures cards == old(cards) + [Card(cardId, userId, cardName, category, cashback)]
      ensures users == old(users)
    {
      cardId := lastCardId + 1;
      lastCardId := cardId;
      cards := cards + [Card(cardId, userId, cardName, category, cashback)];
    }
  }
}
