# Slogan bot: a Dafny model of its scoring engine and admin conversation

The bot keeps two tables: slogans with a point value each, and users with a
running total. When someone posts in a group, the bot scans the slogan table
in order. The first slogan that occurs in the message, as a case-sensitive
substring, is credited to the sender, and the scan stops. The administrator,
and only the administrator, maintains the slogan table through a short
button-and-message conversation: add a slogan (its text, then its score),
remove one, or list them. Two commands report a user's total and a top-ten
leaderboard.

The model is spread over these modules:

- `OrderedDict` (ordered_dict.dfy): Python's insertion-ordered `dict` from
  strings to integers, as an association list with distinct keys. It covers
  lookup, `.get` with a default, assignment (which overwrites in place or
  appends), deletion (which closes the gap), and a map view.
- `IntText` (int_text.dfy): `int(text)` as a partial function, on a
  documented subset of what Python accepts, and `str(n)`. They are proved
  inverse (`int(str(n)) == n`), so `str` is injective on user ids.
- `Matching` (matching.dfy): the substring test, the first-match rule, and
  the credit a message earns.
- `Leaderboard` (leaderboard.dfy): a stable sort by score, highest first,
  and the top ten.
- `Conversation` (conversation.dfy): the conversation's states, the bot's
  replies, and the button handler as a pure transition function.
- `BotState` (bot_state.dfy): class `SloganBot`. It holds the module-level
  document (both tables) and the administrator's conversation: its state and
  the slogan staged between the text step and the score step. Each handler is
  a method that updates these fields in place. Its `Valid()` invariant says
  that both tables have distinct keys, and that the score step always has a
  staged slogan.
- `Walkthrough` (walkthrough.dfy): two complete interactions, proved only
  from the handlers' contracts.

Both tables are sequences rather than maps. Python dicts iterate in
insertion order, and the bot depends on that order in three places: it
decides which slogan matches first, it decides how leaderboard ties are
broken, and it is the order in which the slogan listing shows the table.

The administrator id is a constructor parameter. The document loaded at
start-up is passed to the constructor as two tables.

Behaviours of the code worth knowing, all of which the model keeps:

- The staged slogan is not cleared after it is saved.
- `/start` does not reset the conversation.
- Slogan text is not checked for being empty.
- Scores may be negative, so a user's total can go down.
- There is no digit-normalisation step. Python's `int` reads Persian and
  Arabic-Indic digits by itself (`IntText.ParseIntPersianDigits`).

## Model

| member | source | states |
|---|---|---|
| `OrderedDict.Get` | main.py:167 | finds a value exactly when the key is in the table, and that value is stored under the key |
| `OrderedDict.GetUnique` | main.py:152 | when keys are distinct, the value found under a key is the only value stored under it |
| `OrderedDict.HasKey` | main.py:134 | `k in d` holds exactly when some entry carries key `k` |
| `OrderedDict.Put` | main.py:123 | `d[k] = v`: afterwards `k` holds `v` and every other key keeps its value; an existing key is overwritten at its own position and a new key is appended at the end |
| `OrderedDict.PutDistinct` | main.py:123 | assignment keeps the keys distinct |
| `OrderedDict.Remove` | main.py:135 | `del d[k]`: removes exactly the entry of `k`, the others keep their relative order and values; the key is gone; without the key the table is unchanged |
| `OrderedDict.GetDefault` | main.py:152 | `d.get(k, 0)`: the value stored under `k` when the key is present, the default otherwise |
| `OrderedDict.GetAgreesWithMap` | main.py:167 | a lookup in the association list agrees with the dict seen as a mapping |
| `IntText.ParseInt` | main.py:118 | `int(text)` succeeds only when the stripped text is non-empty and ends in a digit, and gives a negative number only after a leading minus; what it accepts is stated by `UnsignedDigits`, `ParseShow` and the example lemmas |
| `IntText.ShowInt` | main.py:148 | `str(n)`: non-empty, a leading minus exactly when `n` is negative, ASCII digits after it with no leading zero ("0" for zero), so it is the canonical decimal text; `ParseShow` reads it back |
| `IntText.ParseShow` | main.py:118 | `int(str(n)) == n` for every integer `n` |
| `IntText.ShowIntInjective` | main.py:148 | different user ids give different score-table keys |
| `IntText.UnsignedDigits` | main.py:118 | a bare run of decimal digits parses as the number it denotes |
| `IntText.ParseIntAccepts` | main.py:117-118 | "10" is 10 |
| `IntText.ParseIntSignedPadded` | main.py:118 | " -7\n" (sign, surrounding whitespace) is -7 |
| `IntText.ParseIntGrouped` | main.py:118 | "1_000" is 1000 |
| `IntText.ParseIntPersianDigits` | main.py:118 | Persian "۱۲۳" is 123 |
| `IntText.ParseIntRefuses` | main.py:117-121 | "abc", "1__0" and "+" are refused |
| `Matching.Occurs` | main.py:151 | `slogan in text` is true exactly when the slogan occurs in the text at some position |
| `Matching.FirstMatch` | main.py:150-151 | returns nothing exactly when no slogan occurs in the text; otherwise returns the entry at the first table position whose slogan occurs, with no earlier slogan occurring |
| `Matching.FirstMatchStep` | main.py:150-160 | one step of the scan: the current entry matches, or the answer is that of the entries after it |
| `Matching.FirstMatchUnique` | main.py:150-160 | there is only one first match, so at most one slogan is credited per message |
| `Matching.Credit` | main.py:152 | the user's total (0 when absent) grows by the score, nobody else's changes, and keys stay distinct |
| `Matching.Score` | main.py:150-160 | the score table after one message keeps distinct keys |
| `Matching.ScoreEffect` | main.py:150-152 | with no matching slogan the score table is unchanged; otherwise the sender's total (0 if absent) grows by the first match's score and every other user keeps theirs |
| `Matching.CreditAdditive` | main.py:152 | two credits add up: `a` then `b` raise the total by `a + b` |
| `Leaderboard.Insert` | main.py:178-181 | inserting into a descending run gives a descending run with the entry added (as a multiset) |
| `Leaderboard.InsertWithScore` | main.py:178-181 | the inserted entry lands before the entries with the same score |
| `Leaderboard.SortByScore` | main.py:178-181 | the result is ordered by score, highest first, and is a permutation of the input |
| `Leaderboard.SortStable` | main.py:178-181 | for each score, its entries keep their input order (`sorted` is stable, even with `reverse=True`) |
| `Leaderboard.Top` | main.py:178-182 | `sorted(...)[:10]`: min(10, number of users) entries, highest score first; the rest of its meaning is `TopSpec` |
| `Leaderboard.TopSpec` | main.py:178-182 | the board has min(10, number of users) entries, highest first; every entry comes from the score table; nobody left off outscores anybody on it; ties keep insertion order |
| `Leaderboard.TopEmpty` | main.py:174-176 | the board is empty exactly when nobody has scored |
| `Conversation.ButtonHandler` | main.py:76-106 | a non-administrator is refused and their conversation ends; for the administrator `add_slogan` leads to the slogan-text step, `remove_slogan` to the remove step, `back_main` to idle, and `list_slogan` to idle with the whole table listed when it is non-empty and "none registered" when it is empty; unknown button data keeps the state; no button leads to the score step |
| `BotState.SloganBot.constructor` | main.py:38 | starts from the loaded tables with no conversation going on |
| `BotState.SloganBot.PressButton` | main.py:76-106 | neither table and no staged slogan changes; the administrator's conversation moves to the state the handler returns, or stays put; another user's press leaves it alone |
| `BotState.SloganBot.AddSloganText` | main.py:111-114 | stages the message as the slogan and moves to the score step; both tables unchanged |
| `BotState.SloganBot.AddSloganScore` | main.py:116-127 | an integer message sets the staged slogan's score (see `Put`) and ends the conversation; anything else leaves the table unchanged and stays at the score step |
| `BotState.SloganBot.RemoveSlogan` | main.py:132-140 | a registered slogan is deleted (see `Remove`); otherwise the table is unchanged; the conversation ends either way |
| `BotState.SloganBot.ReceiveText` | main.py:217-225 | the administrator's text goes to the handler of the current step; outside a conversation nothing changes |
| `BotState.SloganBot.CheckMessages` | main.py:145-160 | the score table becomes the one-message score of `Matching.Score`; the slogan table is untouched; the reply names the awarded score and the new total |
| `BotState.SloganBot.TotalPoint` | main.py:165-168 | the sender's total, or 0 when they never scored, as a table entry and through the map view |
| `BotState.SloganBot.LeaderBoard` | main.py:173-182 | the top ten of the score table (`TopSpec`); empty exactly when nobody has scored |
| `Walkthrough.RegisterSlogan` | main.py:84-127 | "add slogan", "GoTeam", "abc", "10" leaves exactly `GoTeam -> 10` registered and the conversation over |
| `Walkthrough.ScoreTwice` | main.py:150-160 | a member matching the 5-point slogan twice has a total of 10 |

## Left out

- Storage (main.py:27-36): reading and writing `data.json` is file I/O and
  JSON serialisation. The constructor takes the loaded tables. The full
  rewrite after each change is not modelled.
- Transport (main.py:14-15, 197-215, 234-249): the Flask webhook, the
  asyncio loop and thread, and the platform client.
- Failing saves and replies (main.py:124-126, 136-137, 152-159): every save
  and every reply is assumed to succeed. In the program a failing one raises
  after the table has changed, so the slogan is stored or deleted while the
  conversation stays at its step, and `check_messages` can credit a user
  without replying. `AddSloganScore` and `RemoveSlogan` always end the
  conversation.
- Concurrency between webhook tasks: the model is sequential, one update at
  a time.
- `start` (main.py:63-71), the keyboards (main.py:47-58) and the wording of
  every reply: these only render text. Replies are modelled as the `Reply`
  datatype.
- The sender's first name in the congratulation message (main.py:156): it
  is read from the incoming update, and the `Congratulations` reply leaves it
  out, carrying only the awarded score and the new total.
- The member-name lookup in `leader_board` (main.py:186-191): a remote
  platform call that falls back to `User <id>` when it fails. The model's
  board lists the ids.
- Handler routing outside the conversation (main.py:227-232). Several
  things depend on the platform's message metadata and the framework's update
  dispatch, which are not modelled:
  - A message that the conversation consumes is not also scored.
  - Commands are kept out of the conversation steps.
  - Only group messages reach `check_messages`.
  - Conversations are keyed by chat and user. The model keeps one
    conversation, the administrator's. A non-administrator's conversation can
    only ever be END.
- IntText.ParseInt: accepts only these. It strips ASCII whitespace (Python
  also strips Unicode spaces). It reads digits of the ASCII, Arabic-Indic and
  Persian scripts (Python reads every Unicode decimal digit).
- BotState.SloganBot.AddSloganScore: requires the conversation to be at the
  score step, as the conversation routing guarantees. The `KeyError` that a
  missing staged slogan would raise is therefore excluded by `Valid()` and
  not modelled.
