# telegram_openai_assistant: a verified model of the conversation core

This project models the core of a bridge between Telegram group chats and
the OpenAI Assistants API. It covers two source files.

- **`conversation_manager.py`** keeps the registry of group ids and provider
  threads.
  - It maps each group to a thread, one lock per group, and a table of
    user names.
  - It reads the `[INFORMACIÓN DEL USUARIO: Nombre=…]` tag on incoming
    messages.
  - It sends each outgoing chunk through an HTML, then Markdown, then
    plain-text fallback.
  - It reformats text for HTML with `prepare_text_for_html`.
- **`assistant_handler.py`** runs one assistant session per bot.
  - A streamed text turn cuts paragraphs at blank lines and flushes the
    rest when the stream ends.
  - An image turn uploads the image, with a fallback from a file
    reference to an inline attachment.
  - The image turn then polls the run, sending one-time queued notices and
    a deadline that keeps moving, and extracts the run's replies.
  - A per-thread "in progress" flag refuses a second turn while one is
    running.
  - The message history is bounded.
  - The file also holds two pure helpers, `clean_text_and_split` and
    `process_markdown`.

Modules:

- `Strings` and `Scan` hold shared helpers.
  - `Strings` covers stripping, occurrence and replacement.
  - `Scan` is a left-to-right `re.sub`/`re.split` driver. Each regular
    expression of the source gets its own hand-written matcher.
- `AssistantText` models `clean_text_and_split` and `process_markdown`.
- `HtmlFormat` models `prepare_text_for_html`.
- `UserInfo` models the user tag and the greeting personalisation.
- `Assistant` models the `AssistantHandler` class.
- `Conversation` models the `ConversationManager` class.

Dictionaries that the source mutates become fields of type `map`. The
`{group_id: thread_id}` dictionary is a class, `ThreadTable`, because it is
shared. `register_bots` gives every handler a reference to the manager's own
table, so the later "copy to every handler" loops write into that same
table. The model keeps this aliasing literally: each handler has a `threads`
field that points at the manager's `ThreadTable`.

The `Dict[str, Bot]` of registered bots is a sequence of bots with distinct names, in insertion order.

Provider and chat calls are parameters.

- A thread creation is an `Option<string>`.
- A streamed turn is a list of text deltas plus whether the stream ended
  cleanly.
- An image turn is an `ImageScript`: one outcome per provider call, and one
  `(elapsed seconds, fetched status)` pair per pass of the poll loop.
- The chat's answer to each send is a predicate `accepts`.

Two behaviours of the code are worth knowing before reading the model.

- `set_thread_id` looks for an existing mapping before it looks at the
  hint (`conversation_manager.py:56-59`), so an existing mapping wins over
  a different hint. See `Conversation.ConversationManager.SetThreadId`.
- `prepare_text_for_html` is not idempotent: `"##### # t"` becomes
  `"### t"` and then `"t"` (`HtmlFormat.NotIdempotent`).

## Model

| member | source | states |
|---|---|---|
| AssistantText.PinPassUnchanged | telegram_openai_assistant/assistant_handler.py:17-25 | The 📌-title split followed by `''.join` gives back the original text, whatever it is. |
| AssistantText.CleanTextAndSplit | telegram_openai_assistant/assistant_handler.py:9-33 | Every paragraph returned is non-blank after stripping and contains no `"\n\n"`. Every non-blank piece of the split at `\n\n+` is returned. |
| AssistantText.NonBlank | telegram_openai_assistant/assistant_handler.py:31 | A paragraph is kept exactly when it was in the list and is not blank. The filter never adds entries. |
| AssistantText.ParagraphsHaveNoBlankLine | telegram_openai_assistant/assistant_handler.py:28 | No piece of `re.split(r'\n\n+', text)` contains a blank line. |
| AssistantText.ParagraphsRoundTrip | telegram_openai_assistant/assistant_handler.py:28 | When the text has no run of three newlines, joining the pieces with `"\n\n"` gives the text back. |
| AssistantText.CollapseSpacesSpec | telegram_openai_assistant/assistant_handler.py:42 | The `' +'` pass gives `Squeezed(text, ' ')`, a recursive definition that drops a space standing right before another one. So no two spaces are neighbours afterwards, and the pass changes the text exactly when two spaces stood side by side. |
| AssistantText.TightenColonsSpec | telegram_openai_assistant/assistant_handler.py:45 | The `\s+:` pass gives `Tightened(text)`, a recursive definition that drops each character starting a whitespace run that reaches a colon. So no whitespace stands before a colon afterwards, and the pass changes the text exactly when some whitespace did. |
| AssistantText.NoColonNoLabels | telegram_openai_assistant/assistant_handler.py:48-54 | The two numbered-item passes leave a text without colons unchanged. |
| AssistantText.NoHashNoHeadings | telegram_openai_assistant/assistant_handler.py:51 | The heading pass leaves a text without `#` unchanged. |
| AssistantText.NoStarNoBold | telegram_openai_assistant/assistant_handler.py:58-61 | The bold pass and the asterisk clean-up leave a text without `*` unchanged. |
| AssistantText.LoneStarsKept | telegram_openai_assistant/assistant_handler.py:58-61 | The last two passes leave unchanged a text with no two adjacent asterisks and no `"* *"`. |
| AssistantText.HeadingExample | telegram_openai_assistant/assistant_handler.py:36-63 | `process_markdown("### " + t)` is `"*" + t + "*"` for a one-line title `t` without markup. |
| AssistantText.BoldExample | telegram_openai_assistant/assistant_handler.py:36-63 | `process_markdown("**" + b + "**")` is `"*" + b + "*"` for a bold text `b` without markup. |
| AssistantText.NumberedExample | telegram_openai_assistant/assistant_handler.py:36-63 | `process_markdown(d + ".  **  " + l + "  **  :")` is `d + ". *" + l + "*:"` for digits `d` and a plain label `l`. |
| AssistantText.PlainTextOnlyCollapsed | telegram_openai_assistant/assistant_handler.py:36-63 | Text without `:`, `#` or `*` only has its runs of spaces collapsed. |
| AssistantText.TripleStarKeepsDouble | telegram_openai_assistant/assistant_handler.py:61 | As written, `process_markdown("***")` is `"**"`: a doubled asterisk survives the pass meant to remove them. |
| AssistantText.IntendedLeavesNoDoubleStar | telegram_openai_assistant/assistant_handler.py:60-61 | With the last pass squashing every run of asterisks, no output of `process_markdown` contains `"**"`. |
| HtmlFormat.PlainUnchanged | telegram_openai_assistant/conversation_manager.py:98-131 | Text with none of `#`, `*`, `:`, `•`, newline or `&` goes through `prepare_text_for_html` unchanged. |
| HtmlFormat.OnlyColonsTightened | telegram_openai_assistant/conversation_manager.py:98-131 | Text without markup only loses the whitespace before its colons. It comes out unchanged exactly when no whitespace stood before a colon. |
| HtmlFormat.HeadingMarkerRemoved | telegram_openai_assistant/conversation_manager.py:104 | `"###"`, whitespace and a heading format exactly as the heading alone would, so the marker is removed. |
| HtmlFormat.MarkerDropped | telegram_openai_assistant/conversation_manager.py:104 | The heading-marker step removes `###` together with the whitespace after it. |
| HtmlFormat.BoldTagged | telegram_openai_assistant/conversation_manager.py:108-110 | `**b**` becomes `<b>b</b>`. |
| HtmlFormat.SpacedBoldTagged | telegram_openai_assistant/conversation_manager.py:108 | `** b **` becomes `<b>b</b>` through the spaced form. |
| HtmlFormat.BoldHtml | telegram_openai_assistant/conversation_manager.py:98-131 | The whole formatter turns `**b**` into `<b>b</b>` for plain `b`. |
| HtmlFormat.SpacedBoldHtml | telegram_openai_assistant/conversation_manager.py:98-131 | The whole formatter turns `** b **` into `<b>b</b>` for plain `b`. |
| HtmlFormat.DashRewritten | telegram_openai_assistant/conversation_manager.py:119 | A newline, optional whitespace, `-` and whitespace become `"\n• "`. |
| HtmlFormat.DashItemHtml | telegram_openai_assistant/conversation_manager.py:98-131 | The whole formatter turns a dash item that starts a line into a bullet item. |
| HtmlFormat.BulletAlreadySpaced | telegram_openai_assistant/conversation_manager.py:117-125 | A bullet written by the dash step is left alone by the bullet-spacing steps. |
| HtmlFormat.UnescapeNothingElse | telegram_openai_assistant/conversation_manager.py:128-129 | The last step changes nothing in a text that holds none of the four escaped tags. |
| HtmlFormat.TagUnescaped | telegram_openai_assistant/conversation_manager.py:128-129 | Each of `&lt;b&gt;`, `&lt;/b&gt;`, `&lt;i&gt;` and `&lt;/i&gt;` becomes its tag wherever it stands between two texts free of `&`, and those texts are kept. |
| HtmlFormat.OtherEscapeKept | telegram_openai_assistant/conversation_manager.py:128-129 | Any other escaped name `&lt;n&gt;` (with `n` free of `&` and not one of `b`, `/b`, `i`, `/i`) stays escaped. |
| HtmlFormat.NotIdempotent | telegram_openai_assistant/conversation_manager.py:104 | A second run can change the result of the first: `"##### # t"` gives `"### t"`, then `"t"`. |
| UserInfo.ExtractName | telegram_openai_assistant/conversation_manager.py:151-153 | An extracted name is non-empty and holds no `]`, and it is the name of the leftmost complete tag, as `re.search` finds it. No name is found exactly when no position of the message holds a complete tag. |
| UserInfo.TagRoundTrip | telegram_openai_assistant/conversation_manager.py:151-153 | For a message the handlers built as tag + blank line + text, the name read back is the name put in. |
| UserInfo.UntaggedKept | telegram_openai_assistant/conversation_manager.py:156 | A message without a tag is forwarded unchanged. |
| UserInfo.TaggedStripped | telegram_openai_assistant/conversation_manager.py:156 | For a tag followed by a text that holds no complete tag of its own, removing the tag also removes the whitespace after it: what is forwarded is the text with its leading whitespace stripped. |
| UserInfo.Lower | telegram_openai_assistant/conversation_manager.py:186 | `lower()` keeps the length and lowers each capital letter. |
| UserInfo.NoNameNoChange | telegram_openai_assistant/conversation_manager.py:184 | With no saved name, a chunk is sent as it is. |
| UserInfo.GreetingNamed | telegram_openai_assistant/conversation_manager.py:186-187 | In a chunk that opens with `Hola`, only that first `Hola` gets the name after it. |
| UserInfo.GreetingWithoutHolaKept | telegram_openai_assistant/conversation_manager.py:186-189 | A chunk that greets with `buenos días` and holds no capitalised `Hola` is sent unchanged, even when it says `espero`: that rule is only tried for chunks that do not greet. |
| UserInfo.HopeNamed | telegram_openai_assistant/conversation_manager.py:188-189 | A non-greeting chunk that says `espero` gets `", " + name` before its first `!` only. |
| Assistant.AssistantHandler.StreamResponse | telegram_openai_assistant/assistant_handler.py:75-144 | With no thread: nothing is sent and nothing changes. With the flag raised: only the busy notice is sent. Otherwise the flag is false afterwards on every path, and the chunks and history entries are those of the stream. |
| Assistant.AssistantHandler.RunTextTurn | telegram_openai_assistant/assistant_handler.py:91-144 | After the flag is raised it is lowered again whether or not the post went through. The user entry and the replies are recorded only when it did. |
| Assistant.AssistantHandler.RelayStream | telegram_openai_assistant/assistant_handler.py:108-138 | The chunks sent are `Delivered(deltas, completes)`. Each one is appended to the history as an assistant entry, in delivery order. |
| Assistant.SplitParagraph | telegram_openai_assistant/assistant_handler.py:117-131 | One delta is one step of the stream's specification: the buffer is cut at its first blank line at most once. |
| Assistant.StreamKeepsText | telegram_openai_assistant/assistant_handler.py:116-131 | No streamed text is lost: the deltas are the cut pieces, each followed by its blank line, then the buffer. |
| Assistant.PiecesHaveNoBreak | telegram_openai_assistant/assistant_handler.py:120-122 | No cut piece contains `"\n\n"`. |
| Assistant.OneCutPerDelta | telegram_openai_assistant/assistant_handler.py:120-131 | There are at most as many cuts as deltas. |
| Assistant.ChunksStripped | telegram_openai_assistant/assistant_handler.py:124-137 | Every delivered chunk is stripped and non-empty. There are at most one per delta plus one for the flush. |
| Assistant.UnbrokenReplyOneChunk | telegram_openai_assistant/assistant_handler.py:133-137 | A reply without a blank line goes out as one stripped chunk when the stream ends cleanly, and not at all otherwise. |
| Assistant.PollRun | telegram_openai_assistant/assistant_handler.py:274-313 | The loop makes no more passes than the script has. |
| Assistant.StatusOf | telegram_openai_assistant/assistant_handler.py:274-279 | A provider status name is read as a status whose name it is, and never as `OtherStatus` of one of the five names the loop compares against. |
| Assistant.StatusNamesAgree | telegram_openai_assistant/assistant_handler.py:274-279 | For such statuses, reading the name back gives the status, and the loop's tests on constructors agree with its string comparisons on `completed`, `failed`, `cancelled`, `expired` and `queued`. |
| Assistant.WaitForRun | telegram_openai_assistant/assistant_handler.py:268-313 | The `while` loop over the loop variables ends in the state that `PollRun` specifies, with the same notices. |
| Assistant.PollOnce | telegram_openai_assistant/assistant_handler.py:275-313 | One pass of the loop body is one `PollStep`. |
| Assistant.EndsOnlyWhenTerminal | telegram_openai_assistant/assistant_handler.py:274 | The loop stops before the script ends only on `completed`, `failed`, `cancelled` or `expired`. |
| Assistant.FailedFetchesKeepWaiting | telegram_openai_assistant/assistant_handler.py:302-313 | Failed status fetches never end the loop: it makes every pass and the status is unchanged. |
| Assistant.DeadlineGrows | telegram_openai_assistant/assistant_handler.py:295-301 | The deadline grows by exactly 60 seconds for each slow notice sent and in no other way, starting from 120. |
| Assistant.QueuedNoticeOnce | telegram_openai_assistant/assistant_handler.py:280-284 | The queued notice is sent at most once, and never if it was already sent. |
| Assistant.StillQueuedNoticeOnce | telegram_openai_assistant/assistant_handler.py:286-290 | The still-queued notice is sent at most once. |
| Assistant.StillQueuedAfterQueued | telegram_openai_assistant/assistant_handler.py:280-290 | From the loop's start, a still-queued notice is only sent if the queued notice was sent too. |
| Assistant.NoStillQueuedWithin30 | telegram_openai_assistant/assistant_handler.py:287 | No still-queued notice is sent while at most 30 seconds have passed since the run was created. |
| Assistant.TraceNotices | telegram_openai_assistant/assistant_handler.py:274-313 | The loop's notices are those of its passes, one pass per poll consumed, in order. |
| Assistant.StillQueuedLater | telegram_openai_assistant/assistant_handler.py:280-290 | A pass sends the still-queued notice only when an earlier pass sent the queued notice more than 30 seconds before it, or when the loop was entered with the queue clock already running for more than 30 seconds. |
| Assistant.StillQueuedAfterQueuedBy30 | telegram_openai_assistant/assistant_handler.py:268-290 | From the run's first status, every still-queued notice is sent more than 30 seconds after the pass that sent the queued notice. |
| Assistant.PassNotices | telegram_openai_assistant/assistant_handler.py:279-297 | One pass sends the queued notice exactly when the status is `queued` and it was not sent yet; the still-queued notice exactly when the status is `queued`, it was sent, and more than 30 seconds passed since the queue clock started; the slow notice exactly when the elapsed time exceeds the deadline. |
| Assistant.TracePass | telegram_openai_assistant/assistant_handler.py:274-313 | Pass `j` of the loop is one pass from the loop variables it starts from, and is made only while the status is not terminal. |
| Assistant.LoopNotices | telegram_openai_assistant/assistant_handler.py:274-297 | Each pass of the loop sends each of the three notices exactly when its loop variables and clock reading call for it, as one pass does. |
| Assistant.QueuedScriptExample | telegram_openai_assistant/assistant_handler.py:268-313 | A run queued at 0 and 10 seconds, running at 35 and completed at 40 is told once that it is queued and once that it is still queued, and nothing else. |
| Assistant.CollectReplies | telegram_openai_assistant/assistant_handler.py:324-332 | The nested loops collect `RunTexts` of the listed messages. |
| Assistant.RunTextsExactly | telegram_openai_assistant/assistant_handler.py:324-332 | A text is collected exactly when it is a text item of an assistant message with the run's id. |
| Assistant.TextsOfExactly | telegram_openai_assistant/assistant_handler.py:328-330 | A message's collected texts are exactly its text items. |
| Assistant.AssistantHandler.StreamImageResponse | telegram_openai_assistant/assistant_handler.py:146-349 | It has the same two early returns as a text turn. Otherwise the sends and history entries are `ImageTurn`'s, and the flag ends as `ImageTurn`'s pending bit. |
| Assistant.AssistantHandler.RunImageTurn | telegram_openai_assistant/assistant_handler.py:163-349 | Each attachment failure sends its notice, lowers the flag and records nothing. Otherwise the user entry is recorded and the analysis follows. |
| Assistant.AssistantHandler.RunAnalysis | telegram_openai_assistant/assistant_handler.py:255-349 | The flag is lowered once the status is terminal, and stays raised while the run is still awaited. |
| Assistant.AssistantHandler.Conclude | telegram_openai_assistant/assistant_handler.py:318-342 | On `completed`, the run's texts are sent and each is recorded, or one no-reply notice is sent. Any other status sends one failure notice naming it. |
| Assistant.AssistantHandler.Deliver | telegram_openai_assistant/assistant_handler.py:334-337 | Each reply is sent and appended to the history, in order. |
| Assistant.ImagePendingIff | telegram_openai_assistant/assistant_handler.py:163-349 | The turn is left in progress exactly when the image was attached, the run was created, and no terminal status was seen. |
| Assistant.ImageTurnShape | telegram_openai_assistant/assistant_handler.py:167-252 | The first message is always the analysing notice. The history gains the user's entry exactly when the image was attached. |
| Assistant.ImageNotAttached | telegram_openai_assistant/assistant_handler.py:179-246 | A failed text post, a failed upload, or an image refused in both forms ends the turn. The analysing notice and one failure notice are sent, nothing is recorded and the flag is lowered. When the post and the upload went through, that notice is the cannot-process one. |
| Assistant.ImageRepliesDelivered | telegram_openai_assistant/assistant_handler.py:318-340 | On `completed`, the run's texts follow the loop notices and are recorded after the user entry. With no texts, one notice naming the model is sent. |
| Assistant.ImageRunFailed | telegram_openai_assistant/assistant_handler.py:341-342 | Any other terminal status ends with one notice naming the status and the model. |
| Assistant.TrimmedIsLast | telegram_openai_assistant/assistant_handler.py:351-355 | The trimmed history has at most 20 entries and is a suffix of the history. It is the whole history when that has 20 entries or fewer. |
| Assistant.TrimEarlyOrLate | telegram_openai_assistant/assistant_handler.py:351-355 | Trimming before more entries arrive gives the same history as trimming after. |
| Assistant.AssistantHandler.TrimMessageHistory | telegram_openai_assistant/assistant_handler.py:351-355 | The history becomes its trimmed form, and nothing else changes. |
| Conversation.ConversationManager.RegisterBots | telegram_openai_assistant/conversation_manager.py:24-31 | The bots are stored and every handler then holds the manager's own table, so all views agree. The table, the user data, the locks and each handler's flags and history are unchanged. |
| Conversation.ConversationManager.GetThreadId | telegram_openai_assistant/conversation_manager.py:37-39 | There is a result exactly when the group is active (`is_active`), and it is the stored id. |
| Conversation.ConversationManager.GetThreadLock | telegram_openai_assistant/conversation_manager.py:41-45 | A new lock is made only on a group's first request. Later requests return the stored lock and change nothing. |
| Conversation.ConversationManager.LockTwice | telegram_openai_assistant/conversation_manager.py:41-45 | Two requests for the same group get the same lock. |
| Conversation.ConversationManager.SetThreadId | telegram_openai_assistant/conversation_manager.py:47-90 | A usable stored id is returned and nothing changes, whatever the hint. Otherwise a non-empty hint is stored, or else a usable new id; otherwise the result is None and the table is unchanged. The handlers' views agree afterwards. |
| Conversation.ConversationManager.FanOut | telegram_openai_assistant/conversation_manager.py:65-67 | Copying a new mapping into every handler changes nothing beyond the manager's own write, because all handlers share its table. |
| Conversation.ConversationManager.GetNextBot | telegram_openai_assistant/conversation_manager.py:92-96 | There is a result exactly when some bot is registered, and it is the name of the first bot registered, as `next(iter(...))` gives it. |
| Conversation.ConversationManager.SaveUserInfo | telegram_openai_assistant/conversation_manager.py:133-138 | The user table becomes `SavedName` of the old one. |
| Conversation.LatestNameWins | telegram_openai_assistant/conversation_manager.py:133-144 | After saving a name, `get_user_name` returns it for that group. Other groups, and the group's other keys, are unchanged. |
| Conversation.UnknownGroupUnnamed | telegram_openai_assistant/conversation_manager.py:140-144 | A group never saved has the empty name. |
| Conversation.ReceivedTagged | telegram_openai_assistant/conversation_manager.py:150-157 | A tagged message saves its name, and the forwarded text is what followed the tag, when that text holds no further tag. |
| Conversation.ReceivedUntagged | telegram_openai_assistant/conversation_manager.py:150-157 | An untagged message saves nothing and is forwarded as it is. |
| Conversation.SendToTelegram | telegram_openai_assistant/conversation_manager.py:180-216 | The calls made are the fallback chain for the personalised chunk, up to the first one the chat accepts. |
| Conversation.AttemptsFallBack | telegram_openai_assistant/conversation_manager.py:182-216 | There are one to three calls, in the order HTML (converted text), Markdown, plain. Each call before the last failed, and the last succeeded unless all three were made. |
| Conversation.SendAll | telegram_openai_assistant/conversation_manager.py:180-219 | The callback is applied to each chunk in order. |
| Conversation.DeliveriesBounded | telegram_openai_assistant/conversation_manager.py:180-216 | Each chunk costs between one and three send calls. |
| Conversation.UnnamedDeliveriesOpenWithHtml | telegram_openai_assistant/conversation_manager.py:191-197 | Without a saved name, a chunk's first call is its HTML-converted text in HTML mode. |
| Conversation.ConversationManager.Admit | telegram_openai_assistant/conversation_manager.py:150-163 | The tag's name is saved and the tag removed. The thread is resolved with the group's current id as hint, so a usable stored id is kept; otherwise a new thread is created when a bot is registered, and otherwise there is none. |
| Conversation.ResolvedTouchesOnlyGroup | telegram_openai_assistant/conversation_manager.py:47-90 | Resolving a group's thread leaves every other group as it was. The group ends with a usable thread exactly when it had one or a usable one was created, and a usable stored id is kept. |
| Conversation.ConversationManager.Sync | telegram_openai_assistant/conversation_manager.py:172-178 | The answering handler is the first bot's and holds the manager's table, so forcing the mapping into it changes nothing. |
| Conversation.ConversationManager.HandleTurn | telegram_openai_assistant/conversation_manager.py:146-221 | The thread table ends as `Resolved` of the old one, and the group has a lock that only it gained. With no thread or no bot, nothing is sent and no handler changes. With the first bot busy on the thread, only the busy notice is sent and its handler is unchanged. Otherwise it runs the text turn on the untagged message, and every chunk goes out through the fallback chain with the saved name. Other handlers never change. |
| Conversation.ConversationManager.AnswerText | telegram_openai_assistant/conversation_manager.py:167-219 | The first bot streams the turn, or sends only the busy notice and changes nothing when busy; the sends are the fallback chains of its chunks, and no other handler changes. |
| Conversation.ConversationManager.HandleImage | telegram_openai_assistant/conversation_manager.py:223-297 | The same steps, thread table outcome, locks, busy branch and frame as a text turn, with the image turn's sends, history entries and flag. |
| Conversation.ConversationManager.AnswerImage | telegram_openai_assistant/conversation_manager.py:243-295 | The first bot runs the image turn, or sends only the busy notice and changes nothing when busy; the sends are the fallback chains of its messages, and no other handler changes. |
| Conversation.ConversationManager.EndConversation | telegram_openai_assistant/conversation_manager.py:308-320 | Returns true exactly when the group had a mapping. Afterwards the group is gone from the table and from every handler's view, other groups keep their ids, and the user table is untouched. |
| Conversation.ConversationManager.SharedTableAgrees | telegram_openai_assistant/conversation_manager.py:30-31 | While every handler holds the manager's table, each handler's view equals the manager's, group by group. |

## Left out

- Logging (`print`), `asyncio` scheduling and the locks' mutual exclusion are not modelled. The model is sequential; only the memoisation of the locks is kept.
- Real time is not modelled. Each pass of the poll loop reads the clock once, so `elapsed` and the queue clock share that reading.
- Assistant.WaitForRun: does not model the backoff sleep `min(5, 1 + elapsed/20)` or the extra 5 s after a failed fetch. They only affect the elapsed values in the script.
- Assistant.WaitForRun: a run that never reaches a terminal status would loop forever. The model ends when the script of passes ends, and the turn is then reported as still pending with its flag raised.
- The OpenAI and Telegram calls are parameters, as are file opening and base64 encoding. Only their outcomes are modelled: success or failure, the ids and statuses returned, the messages listed, and which sends the chat accepts.
- Conversation.SendToTelegram: the chat's acceptance is a function of the send, so the same send is always answered the same way.
- Conversation.ConversationManager.HandleImage: the outer `except` at lines 296-306 is not modelled. `stream_image_response` catches every error of its own and the callback swallows its failures, so that branch is unreachable.
- Statuses in an `ImageScript` are given as constructors. A script that puts `OtherStatus("completed")` where the provider would say `completed` is not what the provider can send; `Assistant.StatusOf` is how a provider name is read, and it never builds one.
- The error text passed to a notice (`str(e)`) is a parameter of the script.
- An exception inside `send_to_telegram` or the text stream is only modelled as "the stream did not complete" (`completes == false`), which skips the final flush.
- UserInfo.Lower: models `str.lower()` for ASCII and Latin-1 capitals only.
- HtmlFormat and AssistantText: `\d` matches ASCII digits only, and `\s` is the set of characters `Strings.IsSpace` lists; other Unicode digits and spaces are not modelled.
- `user_data` is a map from group to a small dictionary. Only the `name` key is ever written or read.
- `process_markdown` is modelled as a standalone function. Nothing in the two files calls it.
- `trim_message_history` is a standalone operation. Nothing in the two files calls it.
- `Bot.application` and the platform handlers, the bot wiring and the liveness endpoint are not part of this model.

## Findings

| source | as written | input that shows it | evidently intended | confidence | as-written member | corrected member |
|---|---|---|---|---|---|---|
| telegram_openai_assistant/assistant_handler.py:61 | `text.replace('**', '*')` replaces non-overlapping pairs left to right once, so a run of three asterisks leaves two | `process_markdown("***")` returns `"**"` | "remove any duplicated asterisk that is left": no `"**"` in the output | not executed | AssistantText.TripleStarKeepsDouble | AssistantText.IntendedLeavesNoDoubleStar |
