# Cashback bot: conversation controller, card parser, ranking and store

This project models the core of a Telegram bot. A user registers payment
cards through the bot, gives each card a cashback rate per spending category,
and asks which card pays most in a given category. The model has five parts:

- **PyText** (`pytext.dfy`): the Python built-ins the parser calls, written
  over `seq<char>`. These are `str.split('\n')`, `str.split()` with no
  argument, using Python's whitespace set, and `float()` for decimal
  literals.
- **CardParser** (`cardparser.dfy`): the parser for the add-card message.
  The first line is the card name. Every later line gives
  `category = split()[0]` and `cashback = float(split()[1])`. A Python dict
  collects the pairs. It is modelled as a list of items in iteration order:
  a repeated key keeps its first position and takes the later value.
  `IndexError` and `ValueError` are the two error outcomes.
- **Ranking** (`ranking.dfy`): keeps the rows of one category (the list
  comprehension), then picks `cashbacks.index(max(cashbacks))`.
- **Database** (`database.dfy`): the SQLite store as a `Store` class. It has a
  Users map keyed by `user_id`, an append-only Cards sequence, and the
  AUTOINCREMENT counter, whose invariant says card ids grow strictly and are
  never reused. `get_value_db`, `create_user` and `create_card` are modelled
  with their error results.
- **Bot** (`bot.dfy`): one chat's conversation as a `Conversation` class.
  It holds the chat id, the aiogram state (`Idle` for `None`, `NewCard` for
  `OrderAdd.new_card`) and a reference to the shared store. Each handler is
  a method that returns the replies it sends, as reply kinds. `Dispatch`
  passes an update to the handlers in their registration order. `NextState`
  and `Run` are the state machine as pure functions.

The model follows what the code does; in particular:

- The card name is the first line as it stands. It is not trimmed and may
  be empty.
- A message with only one line is not a format error. It stores nothing and
  sends nothing.
- A later line may have more than two tokens. Tokens after the second are
  ignored.
- An empty later line raises `IndexError`, which is a format error.
- `/start` from a new chat creates the Users row and sends nothing. The
  add-card handler is called without `await`, so it never runs. The state
  is left as it was.
- `/start` does not clear the state of a chat that is in `new_card`.
- `get_value_db("Users", …)` is always a failure: its query filters on a
  `chat_id` column, and the Users schema has no such column.

## Model

| member | source | states |
|---|---|---|
| PyText.SplitLines | src/bot.py:188 | `text.split('\n')` never returns an empty list, and none of its pieces holds a newline |
| PyText.JoinSplitLines | src/bot.py:188 | joining the pieces of `split('\n')` with newlines gives back the original text |
| PyText.SplitJoinLines | src/bot.py:188 | splitting newline-free lines joined by newlines gives back exactly those lines |
| PyText.Words | src/bot.py:191 | every token of `str.split()` is non-empty and holds no whitespace |
| PyText.WordsAroundSpace | src/bot.py:191 | one whitespace character between two texts makes `split()` return the tokens of each text, concatenated |
| PyText.WordsOfWord | src/bot.py:191 | a whitespace-free non-empty string splits into itself |
| PyText.ParseNumber | src/bot.py:191 | a token accepted by the `float()` model is non-empty and holds only digits, signs, the point and exponent letters |
| PyText.NumberIsWord | src/bot.py:191 | any literal `float()` accepts is one `split()` token |
| PyText.NatRoundTrip | src/bot.py:191 | `float(str(n)) == n` for every natural number n |
| PyText.NegateLiteral | src/bot.py:191 | a leading minus sign negates the value of an unsigned literal |
| PyText.DecimalValue | src/bot.py:191 | `whole.frac` (either side may be empty, not both) reads as the digits of `whole` and `frac` divided by 10 to the length of `frac` |
| CardParser.Lookup | src/bot.py:190-193 | `d.get(k)` is present exactly for the keys of the dict; with unique keys it gives the value at k's position |
| CardParser.Put | src/bot.py:190-193 | `d[k] = v` overwrites in place when k is present (same keys, same order), appends otherwise, changes no other item, and keeps keys unique |
| CardParser.DictFrom | src/bot.py:190-193 | the dict built from the pairs has unique keys, exactly the pairs' keys, and no more items than pairs |
| CardParser.DictFromLastWins | src/bot.py:190-193 | the value stored for a key is the value of its last pair |
| CardParser.ParseLine | src/bot.py:191 | a line parses when it has at least two tokens and the second is a number; fewer tokens give `IndexError`, and a bad number gives `ValueError`; the key is the first token and the value is the second read as a number |
| CardParser.ExtraTokensIgnored | src/bot.py:191 | text added after the second token, behind whitespace, does not change the result |
| CardParser.ParseLineOfPair | src/bot.py:191 | the line `category number` parses to the category and the number's value |
| CardParser.ParseEntries | src/bot.py:190-193 | all lines parse, one pair per line in order, or the result is the exception of the first bad line, and bad lines exist exactly then |
| CardParser.ParseSubmission | src/bot.py:188-193 | the whole parse: on success the name is a newline-free start of the message (its first line) and the dict's keys are unique; FormatErrorIff, SubmissionContents, LaterLineWins, SingleLine and ParseRendered pin down the rest |
| CardParser.FormatErrorIff | src/bot.py:186-200 | a submission fails, so the format-error reply is sent, exactly when some line after the first is malformed |
| CardParser.SubmissionContents | src/bot.py:188-193 | on success the name is the first line, and the dict's keys are unique and are exactly the categories of the later lines |
| CardParser.LaterLineWins | src/bot.py:190-193 | a category's stored cashback is the number on its last line |
| CardParser.SingleLine | src/bot.py:188-193 | a message with no newline is a name with no categories, and it is not an error |
| CardParser.ParseRendered | src/bot.py:188-193 | parsing a message written as a name line plus `category number` lines gives that name and the dict of those pairs (the round trip) |
| CardParser.ParseEntriesAllSucceed | src/bot.py:190-193 | when every line parses to its pair, the comprehension yields exactly those pairs |
| Ranking.Filtered | src/bot.py:149 | the filtered rows are exactly the input rows of the requested category, no more of them than in the input |
| Ranking.FilteredPrefix | src/bot.py:149 | the k-th filtered row sits in the input at a position preceded by exactly the first k filtered rows (order is kept) |
| Ranking.CashbacksOf | src/bot.py:150 | one cashback per filtered row, position by position |
| Ranking.Max | src/bot.py:156 | `max` of a non-empty list is an element of it and at least every element |
| Ranking.IndexOf | src/bot.py:156 | `list.index(x)` is the first position holding x |
| Ranking.Rank | src/bot.py:148-162 | no card exactly when no row has the category; otherwise the pick is a row of that category, its cashback is the reported one, and no row of the category has more |
| Ranking.RankFirstOccurrence | src/bot.py:156-157 | every matching row before the pick has a strictly smaller cashback, so ties go to the earliest row |
| Ranking.HigherCashbackWins | src/bot.py:156-162 | of two rows in one category, the one with the larger cashback is picked |
| Database.CardsOf | src/database/core.py:56-62 | the selection holds exactly the rows of that user and is no longer than the table |
| Database.CardsOfAppend | src/database/core.py:56-62 | selecting from a concatenation gives the selections of the parts, in order |
| Database.CardsOfAppendOwned | src/database/core.py:56-62 | rows appended for one owner come last in that owner's selection and leave every other user's selection unchanged |
| Database.CardsOfOwned | src/database/core.py:56-62 | selecting the owner from rows that all belong to that owner gives all of them; any other user gets none |
| Database.Store.constructor | src/database/initializer.py:27-44 | the tables start empty, and the AUTOINCREMENT counter starts at zero |
| Database.Store.IsUserInTable | src/database/core.py:21-34 | true exactly when some Users row has the id |
| Database.Store.GetValueDb | src/database/core.py:37-62 | an unknown table name gives the unknown-table error; "Users" gives a no-such-column error; "Cards" gives exactly the rows of that user, in table order |
| Database.Store.CreateUser | src/database/core.py:102-120 | a new id gets one Users row `(user_id, username)` and returns the id; an existing id is a constraint error and changes nothing; Cards is untouched |
| Database.Store.CreateCard | src/database/core.py:123-150 | appends exactly one row under the next counter value, which is larger than every earlier id, and returns that id; Users is untouched |
| Bot.NextState | src/bot.py:133-184 | the state after one update: `/start` keeps it; a press with "add" gives `new_card`; any other press with data gives idle; the finish text in `new_card` gives idle; other text keeps it |
| Bot.EntersOnlyByAdd | src/bot.py:138-140 | the only update that takes an idle chat to `new_card` is the "add" press |
| Bot.InNewCardIff | src/bot.py:133-184 | starting idle, a chat is in `new_card` exactly when some "add" press has not been followed by another press with data or by the finish text |
| Bot.Run | src/bot.py:133-184 | the state after a sequence of updates, one `NextState` step each; InNewCardIff characterises it and RunKeepsState states its quiet case |
| Bot.RunKeepsState | src/bot.py:133-184 | updates that are neither the "add" press nor a press with other data nor the finish text (`/start`, an empty press, other text) leave the state as it was |
| Bot.RankingRepliesSpec | src/bot.py:148-163 | no row of the category gives only the "no cards" notice; otherwise the replies are the chosen-category notice and the name and cashback of the first row that reaches the maximum |
| Bot.RankingReplies | src/bot.py:152-163 | the replies are the "no cards" notice alone exactly when no row has the category; otherwise there are two replies, the chosen-category notice first, and some row has the category; RankingRepliesSpec names the row reported |
| Bot.SubmissionRows | src/bot.py:188-197 | a valid submission's rows carry the chat's user id and the first line as the name, have pairwise different categories, cover exactly the categories of the later lines, and each carries its category's stored cashback |
| Bot.NewRowsOfDict | src/bot.py:196-197 | the rows built from a dict have one row per key, with the given owner and name and the key's value |
| Bot.NewRowsSnoc | src/bot.py:196-197 | each loop step appends the row of the next dict item, with the next id |
| Bot.NewRows | src/bot.py:196-197 | the rows one persist loop appends, under consecutive ids in dict order; NewRowsOfDict and NewRowsSnoc state its contents and its loop step |
| Bot.Conversation.constructor | src/bot.py:60-62 | a chat starts idle, with no state set |
| Bot.Conversation.CheckUserInTable | src/bot.py:65-85 | a new chat gets a Users row and no reply; a known chat gets the category menu and no new row; the state and the Cards table are untouched |
| Bot.Conversation.InlineCallback | src/bot.py:121-163 | the state is cleared first; "add" then sets `new_card`, answers the press and sends the template; any other data leaves the chat idle and replies with the ranking of the chat's own rows in that category |
| Bot.Conversation.FolderNameChosen | src/bot.py:166-200 | the finish text clears the state, confirms, and stores nothing; a malformed message gets the format-error reply and stores nothing; a valid one appends one row per dict item, under fresh ids, and sends nothing; in both of those cases the state is unchanged |
| Bot.Conversation.StoreCashbacks | src/bot.py:196-197 | the loop appends, in dict order, one row per item under consecutive fresh ids; the chat's selection grows by exactly those rows, and other users' selections and Users are unchanged |
| Bot.Conversation.OtherText | src/bot.py:203-212 | the unknown-command reply is sent in private chats only |
| Bot.Conversation.Dispatch | src/bot.py:88-212 | one update moves the state as `NextState` says; `/start` replies with the menu only for a known chat, adds a new chat's Users row, and leaves Cards and the AUTOINCREMENT counter as they were; presses and idle text leave the store alone; an empty press is ignored; "add" answers with the acknowledgement and the template; another press replies with the ranking; the finish text in `new_card` replies that adding is complete and leaves the store alone; other text in `new_card` stores the parsed rows under the next ids with no reply, or stores nothing on a format error |

## Left out

- Bot construction, token loading, polling and the `__main__` bootstrap: these are transport and process start-up.
- The asynchronous dispatch: the handlers are run as sequential methods, one update at a time.
- aiogram keys a chat's state by chat and user. The model keys it by chat id, which is the same thing in a private chat.
- The `/help`, `/made_by` and `/add_card` handlers only send constant text or a button, and they change no state. Those three commands are not modelled as updates: `Dispatch`'s clauses for text (for example the idle-text reply) do not describe them, since their handlers are registered before the text handlers. Any other command, such as `/foo`, has no handler of its own and is modelled as ordinary text.
- Keyboards and message texts: they appear only as reply kinds (`Reply`). The category list on the keyboard plays no part, because categories are never checked against it.
- Reply formatting: the best-card report carries the card name and the cashback as a number. The text `f"{max(cashbacks)}%"` is not modelled.
- `create_db` in src/database/initializer.py: the model uses its schema only as the store's invariant and its empty start state. Indexes and error printing are not modelled.
- SQLite connections, commits and I/O failures: no store operation fails except for the error results above. A `create_card` failure midway through a submission therefore cannot happen in the model.
- SQLite does not enforce the Cards foreign key by default. The model does not check it either.
- AUTOINCREMENT running out of ids at 2^63-1 is not modelled: the ids are unbounded. Python ints and SQLite integers are unbounded in the model too.
- The order of `SELECT … WHERE user_id = ?` without `ORDER BY` is taken to be insertion order.
- PyText.ParseNumber: accepts an optional sign, digits with an optional decimal point, and an optional exponent. Python's `float()` also accepts `inf`, `infinity` and `nan`, underscores between digits, and non-ASCII digits. The model reports `ValueError` for those, and the real `float()` does not. One consequence: with `nan` as a cashback, SQLite binds the value as NULL, so `create_card` raises `sqlite3.IntegrityError` against the NOT NULL column (src/database/initializer.py:41). That exception is not caught at src/bot.py:199, so the rows of earlier dict items stay stored and no reply is sent; the model instead sends the format-error reply and stores nothing.
- PyText.ParseNumber: values are exact reals. IEEE-754 rounding is not modelled.
