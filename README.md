# Blessed Guardian: admin allow-list and command handler

A model of the logic of a LINE group-chat bot (`app.py`). The bot keeps a
persistent allow-list of admin user ids and answers text messages:

- The admin store (`Store`) is the `Admin` table. It holds user ids, and the
  unique `user_id` column means no id is stored twice. At startup the
  configured initial admin is inserted if absent; the startup block seeds
  the configured id without checking that it is non-empty (app.py:28-30).
  `add_admin` inserts an id only if it is absent, `is_admin` looks an id up
  and `get_admins` lists every id.
- The message handler (`Bot`) strips the text of a message. If the text
  starts with `!`, the sender must be an admin or gets a refusal. Commands
  are then tried in order: `!admins` exactly (roster), then the `!admin`
  prefix (promote the first mentioned user), then the `!kick` prefix (a fixed
  refusal to kick), then any other `!` text (unknown command). Outside
  commands, an exact `whoami` is answered with the sender's id on any
  sender's request, and any other text gets no reply.
- `Text` holds the string operations the handler needs. These are Python's
  `str.strip()` over the exact set of characters `str.isspace()` accepts,
  `startswith`, `'\n'.join`, and a line splitter that undoes the join.

Replies are returned as values (`Option<string>`, with the source's exact
texts) instead of being sent through the messaging API. The mention
annotation of a message is an explicit `Option<seq<Option<string>>>`: either
no annotation, or the mentionees' user ids in order, each of which may be
absent (the LINE SDK leaves `user_id` unset for some mentionees).

## Model

| member | source | states |
|---|---|---|
| Store.NoDuplicates | app.py:24 | definition: the unique constraint on `user_id`, no two rows carry the same id |
| Store.First | app.py:28 | definition: a query's `.first()`, the first matching row or `None`; also used at app.py:52 and app.py:57 |
| Store.FilterBy | app.py:52 | the rows a lookup by id returns all carry that id, and there is one exactly when the id is stored |
| Store.AtMostOneRow | app.py:22-24 | under the unique constraint a lookup by id finds at most one row, and exactly one for a stored id |
| Store.Inserted | app.py:51-54 | insert-if-absent: the id is present afterwards, the set of ids grows by exactly that id, existing rows are kept in order, an id already present leaves the table unchanged (so a second insert adds nothing), and no duplicate is ever created |
| Store.AdminStore.constructor | app.py:27 | a freshly created table is empty and duplicate-free |
| Store.AdminStore.GetAdmins | app.py:48-49 | the list holds each stored id once, and `is_admin(u)` holds exactly when `u` is in the list |
| Store.AdminStore.IsAdmin | app.py:56-57 | the id lookup finds a row exactly when the id is stored |
| Store.AdminStore.AddAdmin | app.py:51-54 | the table becomes insert-if-absent of the id and stays duplicate-free; afterwards exactly one row carries the id; admin status changes for that id only; if the id was already an admin nothing changes |
| Store.AdminStore.Startup | app.py:26-30 | seeding the initial admin inserts it if absent, so after any number of restarts exactly one row carries it |
| Store.OpenStore | app.py:26-30 | started on an empty database, the admin list is exactly the initial admin |
| Text.IsSpace | app.py:67 | definition: the characters Python's `str.isspace()` accepts, which `strip()` removes |
| Text.StartsWith | app.py:70 | definition: Python's `str.startswith`, also used at app.py:85 and app.py:99 |
| Text.Join | app.py:79 | definition: Python's `sep.join(xs)`; its partner is `Text.SplitJoin` |
| Text.TrimStart | app.py:67 | the result is a suffix of the input, what was removed is all whitespace, and the result does not start with whitespace |
| Text.TrimEnd | app.py:67 | the result is a prefix of the input, what was removed is all whitespace, and the result does not end with whitespace |
| Text.Strip | app.py:67 | the stripped text is no longer than the input and neither starts nor ends with whitespace |
| Text.StripCharacterized | app.py:67 | whitespace, then a core with no whitespace at either end, then whitespace, strips to exactly that core |
| Text.StripUnpadded | app.py:67 | text with no whitespace at either end is left unchanged by stripping |
| Text.StripIdempotent | app.py:67 | stripping a stripped text changes nothing |
| Text.Split | app.py:79 | not a model of that line, which only joins: Split is one-character `str.split`, the inverse used to read the roster back into lines; it yields at least one piece and no piece contains the separator |
| Text.SplitJoin | app.py:79 | joining a non-empty list of pieces with a separator none of them contains, then splitting, gives back the list |
| Bot.ExtractMention | app.py:59-62 | definition: the first mentionee's user id when the message has a mention with at least one mentionee, `None` otherwise; what the handler does with it is stated by `Bot.HandleMessage` |
| Bot.Truthy | app.py:87 | definition: the truth test `if mention_id:`, false for `None` and for the empty id |
| Bot.Classify | app.py:70-111 | the handler's branch for a stripped text, in its order: `!` text is privileged; `!admins` exactly is the roster; any other `!admin` prefix (such as `!adminsX`) is a promotion; a `!kick` prefix is a kick request; other `!` text is unknown; exactly `whoami` (case-sensitive) is who-am-I; anything else is ignored |
| Bot.ClassifyExamples | app.py:78-111 | `!admins` is the roster while `!adminsX`, `!adminfoo` and `!admin` are promotions; `!kick…` is a kick request; `!` and `!help` are unknown; `whoami` is answered but `WhoAmI` is ignored |
| Bot.RosterReply | app.py:79-82 | definition: the `!admins` reply text, the header followed by the ids joined by newlines; its partner is `Bot.RosterLines` |
| Bot.RosterLines | app.py:79-82 | the roster reply starts with the header, and the lines after it are exactly the stored ids, each once |
| Bot.HandleMessage | app.py:64-115 | a non-admin's `!` command of any kind gets exactly the refusal and leaves the store unchanged; an admin gets the roster, promotion when the first mentionee carries a non-empty user id (store becomes insert-if-absent of that id, who is then an admin), the mention request when there is no mention, no mentionee, or a first mentionee whose id is missing or empty, the kick refusal, or the unknown-command reply, per branch; `whoami` gets the sender's id without an admin check; other text gets no reply; only an admin's promotion with a non-empty mentionee id changes the store, and the store only grows |
| Bot.PromoteTwice | app.py:85-92 | an admin's promotion of a non-empty id, sent twice, is acknowledged both times, makes the id an admin and leaves exactly one row for it |
| Bot.FreshStartGate | app.py:70-76 | on a fresh database only the initial admin passes the gate: any other sender's `!` command is refused |

## Left out

- HTTP routes (`index`, `callback`, app.py:32-46): webhook signature verification happens inside the LINE SDK, and the 400 response is a Flask `abort`.
- Sending replies through `line_bot_api.reply_message`: the model returns the reply text instead.
- The bot-joined greeting (`handle_join`, app.py:117-122): it is a constant reply with no logic.
- Loading configuration from the environment (app.py:11-20): the initial admin id is a plain string parameter. An unset variable (`None`) is not modelled.
- Database sessions, commits, the auto-increment primary key, the 128-character column width, and database failures. The model appends new ids at the end, but the source gives the retrieval order of `get_admins` no meaning.
- Concurrent `add_admin` calls: the model is sequential, and the unique constraint appears only as the no-duplicates invariant.
- The probing of the message object with `hasattr` in `extract_mention`: the mention is an explicit optional list.
- `group_id` (app.py:68): it is read but never used.
- Absence of `source.user_id` on the event: the sender is always a string.
- Bot.RosterLines: stated for a non-empty store of ids without newlines. An empty store joins to the empty string, and an id that contains a newline would split into several lines.
