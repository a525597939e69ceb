# Chat-turn pipeline of the chatbot backend

This project models the `/chat` endpoint of the chatbot's Flask backend (`backend/app.py`). Each
request carries a message and an optional email:

- A missing or empty message is answered with "No message provided" and nothing else happens.
- Otherwise the email's session in the process-wide `user_memory` is created if it is new.
- `last_question` is overwritten with the message, and `"User: <m>"` is appended to the session history.
- `handle_message` computes the reply, and `"Bot: <r>"` is appended.
- The exchange is merged into the `history` column of the `users` table.

`handle_message` is a first-match cascade of case-insensitive substring tests:

1. A Tagalog gate over seven keywords, answered by one fixed apology.
2. Then "good morning", "hello", "bye", "my name is" and "preferences".
3. Then the completion service.

Only the "my name is" branch writes session state. It stores the stripped text after the last
case-sensitive "my name is" as the name.

The model is in five modules:

- `Optional`: Python's `None`-or-value.
- `PyStr`: the string built-ins the handler uses, restricted to ASCII. These are `lower()`, `t in s`,
  `split(sep)`, `sep.join(xs)` and `strip()`. Each has its defining properties proved:
  - joining the pieces of a split with the separator gives back the text;
  - no piece of a split holds the separator;
  - `split(sep)[-1]` is the suffix after the last cut;
  - `strip()` gives the trimmed middle of the text.
- `Routing`: the session record, the completion fallback, the Tagalog gate and `handle_message`.
  These are pure functions of the session, the message and the outcome of the completion call.
  The same cascade is also written as a rule list (`Classify`, `Respond`).
- `RoutingFacts`: what the cascade guarantees:
  - it is the rule list, first match wins;
  - the Tagalog short-circuit;
  - the dead "good morning" branch;
  - which rule writes the name;
  - the reply of each rule.
- `Users`: the `users` table, as far as `save_user_history` touches it, as a class over a map.
  Also the append-only history merge.
- `Sessions`: `user_memory` as a class over a map from the optional email to a session, the
  single turn `Turn` its method is proved against, and runs of turns.

Two facts about the code are proved rather than assumed:

- "good morning" contains the Tagalog keyword "oo", so the good-morning branch of the cascade can
  never fire. Any message containing "good morning" is answered with the Tagalog apology
  (`RoutingFacts.GoodMorningUnreachable`).
- Rules fire in declared order, not by specificity. "hello, my name is Sam" from a session without
  a name asks for the name instead of storing it (`RoutingFacts.HelloBeatsNameCapture`).

What the code does not do:

- `handle_message` has no good-evening rule and no rule that answers with the history or the last
  question.
- `handle_tagalog_response` ignores its arguments and returns one constant.
- The good-morning branch (`backend/app.py:122-123`) is dead code, as stated above.

The completion service's outcome is an input of the model (`CompletionResult`). It is either the
texts of the returned generations or an exception. The users table is an input of `ChatTurn` (a
`UserTable` object). The `user_memory` dictionary is the `SessionStore` object's `memory` field.

## Model

| member | source | states |
|---|---|---|
| PyStr.LowerChar | backend/app.py:122 | `lower()` on one ASCII character: `A`-`Z` move 32 code points up, everything else is kept, and the result is never an upper-case letter |
| PyStr.Lower | backend/app.py:122 | `s.lower()` keeps the length and folds every character independently |
| PyStr.LowerIdempotent | backend/app.py:122 | lower-casing twice is lower-casing once |
| PyStr.ContainsTransitive | backend/app.py:142-143 | substring containment is transitive: if `t in s` and `u in t` then `u in s` |
| PyStr.Contains | backend/app.py:122-143 | Python's `t in s`: some index of `s` starts an occurrence of `t` (the empty string occurs everywhere); its transitivity is `PyStr.ContainsTransitive` and its relation to suffixes `PyStr.ContainsSuffix` |
| PyStr.FindFrom | backend/app.py:132 | the search for the separator returns an occurrence at or after the start position |
| PyStr.FindFromLeast | backend/app.py:132 | no occurrence starts between the start position and the one found, so it is the leftmost |
| PyStr.ContainsSuffix | backend/app.py:131-132 | `t in s[from:]` holds exactly when an occurrence of `t` in `s` starts at or after `from` |
| PyStr.Join | backend/app.py:137 | `sep.join(xs)`: empty for no items, the item itself for one, items separated by `sep` otherwise; it is the partner of `Split` in `PyStr.SplitJoinRoundTrip` |
| PyStr.Split | backend/app.py:132 | `s.split(sep)` for the non-empty separator "my name is", cutting left to right at leftmost, non-overlapping occurrences; specified by `PyStr.SplitJoinRoundTrip` and `PyStr.SplitPiecesFree` |
| PyStr.SplitFrom | backend/app.py:132 | `split` yields at least one piece |
| PyStr.SplitJoinRoundTrip | backend/app.py:132 | joining the pieces of `s.split(sep)` with `sep` gives back `s` |
| PyStr.SplitFromJoin | backend/app.py:132 | the same round trip for the split of every suffix, which the induction runs over |
| PyStr.SplitPiecesFree | backend/app.py:132 | no piece of `s.split(sep)` contains `sep` |
| PyStr.SplitFromPiecesFree | backend/app.py:132 | the same for the split of every suffix |
| PyStr.PieceBeforeFree | backend/app.py:132 | the text before the leftmost separator holds no separator |
| PyStr.LastCut | backend/app.py:132 | the position where the last piece starts lies within the text |
| PyStr.LastPiece | backend/app.py:132 | `s.split(sep)[-1]`; specified by `PyStr.LastPieceOfSplit` and `PyStr.LastPieceSpec` |
| PyStr.LastPieceOfSplit | backend/app.py:132 | the suffix after the last cut is exactly `s.split(sep)[-1]` |
| PyStr.LastCutOfSplit | backend/app.py:132 | the same for the split of every suffix |
| PyStr.LastCutFree | backend/app.py:132 | no separator starts at or after the last cut |
| PyStr.LastCutPreceded | backend/app.py:132 | when the text holds a separator, the last cut is immediately preceded by one |
| PyStr.LastPieceSpec | backend/app.py:132 | `s.split(sep)[-1]` is a suffix of `s` that holds no `sep`. It is preceded by a `sep` when `s` holds one, and is all of `s` otherwise |
| PyStr.IsSpace | backend/app.py:155 | the characters `strip()` removes: Python's ASCII whitespace, tab through carriage return (9-13), the separators 28-31 and space (32); used by `PyStr.Strip` |
| PyStr.StripLeft | backend/app.py:132 | dropping leading whitespace leaves a suffix that does not start with whitespace, after an all-whitespace prefix |
| PyStr.StripRight | backend/app.py:132 | dropping trailing whitespace leaves a prefix that does not end with whitespace, before an all-whitespace suffix |
| PyStr.Strip | backend/app.py:155 | `strip()` returns a trimmed text that is the original minus an all-whitespace prefix and an all-whitespace suffix |
| PyStr.StripIdempotent | backend/app.py:155 | stripping twice is stripping once |
| PyStr.StripAllSpace | backend/app.py:155 | a text of whitespace only strips to the empty string |
| Routing.CallCohere | backend/app.py:148-157 | an exception, including the index error of an empty generation list, gives exactly the fixed error text. Otherwise the reply is the first generation's text, stripped |
| Routing.AnyIn | backend/app.py:141-143 | `any(k in text for k in keywords)` is true exactly when some keyword of the list occurs in the text |
| Routing.IsTagalog | backend/app.py:141-143 | `is_tagalog`: one of the seven keywords occurs in the lower-cased message, by `Routing.AnyIn`'s contract; its effect on the reply is `RoutingFacts.TagalogShortCircuit` |
| Routing.CaptureName | backend/app.py:132 | `user_message.split("my name is")[-1].strip()` on the original-case message; specified by `RoutingFacts.CaptureNameSpec` |
| Routing.HandleMessage | backend/app.py:115-139 | the cascade itself; specified by `RoutingFacts.HandleMessageFollowsRules` (first match in declared order) and the per-rule lemmas `TagalogShortCircuit`, `GoodMorningUnreachable`, `HelloAndByeKeepName`, `NameCaptureSetsName`, `PreferencesReply`, `FallbackReply` and `OnlyNameCaptureWritesName` |
| Routing.FirstRule | backend/app.py:122-139 | returns the index of a rule whose keyword occurs, with no earlier rule matching, or the list length when none matches |
| RoutingFacts.FirstRuleIs | backend/app.py:122-139 | the first-match index is the unique index that matches with no earlier match |
| RoutingFacts.FirstPrimaryRule | backend/app.py:122-137 | on the five keyword rules, the first match is the first keyword test of the cascade that succeeds |
| RoutingFacts.HandleMessageFollowsRules | backend/app.py:115-139 | `handle_message` is exactly: classify by the Tagalog gate and then the first matching rule in declared order, then run that rule's handler |
| RoutingFacts.CompletionIffNoKeyword | backend/app.py:119-139 | a message reaches the completion service if and only if no Tagalog keyword and no rule keyword occurs in its lower-cased form |
| RoutingFacts.TagalogShortCircuit | backend/app.py:119-120 | once any Tagalog keyword occurs in the lower-cased message, the reply is the fixed apology and the name is unchanged, whatever else the message holds |
| RoutingFacts.GoodMorningIsTagalog | backend/app.py:141-143 | a message whose lower-cased form contains "good morning" passes the Tagalog gate, because "good morning" contains "oo" |
| RoutingFacts.GoodMorningUnreachable | backend/app.py:119-123 | the good-morning rule is never selected, and a "good morning" message is answered with the apology |
| RoutingFacts.OnlyNameCaptureWritesName | backend/app.py:131-134 | only the name-capture rule changes the name; it sets it to the captured name, and every other rule leaves it as it was |
| RoutingFacts.HelloAndByeKeepName | backend/app.py:125-129 | "hello" greets a stored non-empty name and otherwise asks for one. "bye" replies with the farewell. Neither changes the name |
| RoutingFacts.NameCaptureSetsName | backend/app.py:131-134 | name capture stores the captured name and confirms it in the reply |
| RoutingFacts.CaptureNameSpec | backend/app.py:132 | the name is the stripped text after the last case-sensitive "my name is", which holds no further "my name is". With only a case-insensitive match, the whole stripped message becomes the name |
| RoutingFacts.PreferencesReply | backend/app.py:136-137 | the preferences reply is the prefix followed by the preferences joined with ", "; with none it is exactly the prefix. The name is unchanged |
| RoutingFacts.FallbackReply | backend/app.py:139-157 | a message matching no rule is answered by the completion fallback, and a failed call gives the fixed error text. The name is unchanged |
| RoutingFacts.HelloBeatsNameCapture | backend/app.py:125-134 | a message holding both "hello" and "my name is", from a session without a name, asks for the name and leaves the name as it was (`None` or the falsy `""`) |
| Users.UserEntry | backend/app.py:109 | the session entry `"User: " + m`, also the first half of the stored line; used by `Sessions.Turn` and `Sessions.PersistedLineMatchesSession` |
| Users.BotEntry | backend/app.py:111 | the session entry `"Bot: " + r`; used the same way |
| Users.HistoryLine | backend/app.py:166 | the stored line: user entry, a bar, bot entry, newline; `Sessions.PersistedLineMatchesSession` ties it to the session entries |
| Users.MergeHistory | backend/app.py:159-168 | a registered email's history gains exactly the line "User: m", a bar, "Bot: r" and a newline, and its other fields and every other row are unchanged. An unregistered or absent email leaves the table unchanged |
| Users.MergeAllAppends | backend/app.py:159-168 | over any run of exchanges the stored history is append-only: the old history followed by one line per exchange, in order. No other row changes |
| Users.UserTable.constructor | backend/app.py:162-163 | the table `save_user_history` queries starts as the given rows, the `users` table as registration left it |
| Users.UserTable.SaveUserHistory | backend/app.py:159-168 | the new table is the merge of the old one, so a registered email's old history is a prefix of its new one |
| Sessions.SessionOf | backend/app.py:105-106 | the session a turn starts from: the stored one, or for an unseen email the fresh record `Routing.FreshSession` with no name, no preferences, empty history and no last question; `Sessions.SessionStore.ChatTurn` states that an existing one is never replaced |
| Sessions.Turn | backend/app.py:108-111 | an accepted turn appends exactly the user entry and then the bot entry to the history, and sets the last question to the message. It keeps the preferences and answers with `handle_message`'s reply and name |
| Sessions.HandleMessageReadsNameAndPreferences | backend/app.py:115-139 | `handle_message` depends only on the session's name and preferences, so the entries the turn records before calling it do not change the reply |
| Sessions.PersistedLineMatchesSession | backend/app.py:109-112 | the line merged into the table is the two entries the turn added to the session, joined by a bar |
| Sessions.RunTurns | backend/app.py:108-111 | a run of turns yields one reply per message |
| Sessions.ExchangesLength | backend/app.py:109-111 | N exchanges contribute 2N history entries |
| Sessions.ExchangesAlternate | backend/app.py:109-111 | entry 2k is the user entry of turn k, and entry 2k+1 is the bot entry of its reply |
| Sessions.RunTurnsHistory | backend/app.py:108-111 | after N turns the history is the old history followed by the 2N alternating user and bot entries. The preferences are unchanged and the last question is the last message |
| Sessions.NameRoundTrip | backend/app.py:125-134 | after a turn that captured a name, a "hello" turn greets that name if it is non-empty, and asks again if it is empty |
| Sessions.TurnKeepsNoPreferences | backend/app.py:106-111 | sessions are created with no preferences and no turn adds one, so every stored session keeps an empty list |
| Sessions.PreferencesAlwaysEmpty | backend/app.py:136-137 | so on such a store the preferences rule always replies with the bare prefix |
| Sessions.TakeTurn | backend/app.py:108-111 | the steps `chat` performs on the session record compute exactly `Turn` |
| Sessions.SessionStore.constructor | backend/app.py:21 | `user_memory` starts empty |
| Sessions.SessionStore.ChatTurn | backend/app.py:97-113 | an absent or empty message gives "No message provided" with the sessions and the table untouched. Otherwise exactly one session changes: the email's stored session, or a fresh one for an unseen email, becomes the result of `Turn`. The reply is that turn's reply, and the table is merged with that exchange |

## Left out

- HTTP plumbing: Flask routing, CORS, environment loading and JSON request parsing (`backend/app.py:1-19`). `ChatTurn` takes the decoded `message` and `email` fields as arguments, with an absent field as `None`.
- A JSON `message` that is not a string, for which `lower()` would raise: the message is a string or absent.
- A JSON `email` that is not a string or null: the key is an optional string.
- `register`, `login` and `protected` (`backend/app.py:44-95`): these are password hashing, JWT tokens and clock-based expiry, all foreign library calls.
- `create_user_table` and `get_db_connection` are SQL plumbing and are not part of this model. The `users` table is a map from email to its record, as far as `save_user_history` reads and writes it.
- The completion network call (`backend/app.py:150-154`), with its model name, prompt and token cap: its outcome is an input.
- Database failures, such as an exception in `save_user_history` after `user_memory` was already updated: the merge always succeeds.
- A NULL `history` column, for which the concatenation at line 166 would raise: a stored history is always a string, since registration writes the empty string.
- Concurrency: races on the shared `user_memory` dictionary and on the read-modify-write of the stored history. The model is single-threaded.
- Unicode: `lower()` folds only ASCII letters and `strip()` removes only ASCII whitespace.
- Aliasing of the session record: the source updates the dictionary entry in place. `ChatTurn` computes the new record and writes it back once, which gives the same final state.
- Writers of `preferences`: no code in this file adds a preference, so the model has none.
- The example "hello, my name is Sam" is proved in its general form (`RoutingFacts.HelloBeatsNameCapture`), not for that literal string.
