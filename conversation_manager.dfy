// The conversation registry: group ids mapped to provider threads (one map,
// shared with every bot's assistant handler), one lock per group, the user
// name table, and the delivery of a turn's chunks to the chat with the
// HTML, then Markdown, then plain-text fallback.

module Conversation {
  import opened Strings
  import opened HtmlFormat
  import opened UserInfo
  import opened Assistant

  /** An `asyncio.Lock`; only its identity matters here. */
  class Lock {
    constructor ()
    {
    }
  }

  /** A registered bot: its name in `all_bots` and its assistant handler. */
  datatype Bot = Bot(name: string, handler: AssistantHandler)

  predicate DistinctNames(bots: seq<Bot>) {
    forall i, j :: 0 <= i < j < |bots| ==> bots[i].name != bots[j].name
  }

  // The user table.

  /** `user_data`: per group a small dictionary, of which only `name` is used. */
  type UserData = map<int, map<string, string>>

  /** `save_user_info`: the group's dictionary, created when missing, gets the name. */
  function SavedName(data: UserData, g: int, name: string): UserData {
    data[g := (if g in data then data[g] else map[])["name" := name]]
  }

  /** `get_user_name`: the saved name, or the empty string. */
  function NameOf(data: UserData, g: int): string {
    if g in data && "name" in data[g] then data[g]["name"] else ""
  }

  /** The latest saved name is the one read back, for that group only; the
      group's other keys and every other group stay as they were. */
  lemma LatestNameWins(data: UserData, g: int, name: string, h: int)
    ensures NameOf(SavedName(data, g, name), g) == name
    ensures h != g ==> NameOf(SavedName(data, g, name), h) == NameOf(data, h)
    ensures SavedName(data, g, name).Keys == data.Keys + {g}
    ensures g in data ==> forall k :: k in data[g] && k != "name" ==> SavedName(data, g, name)[g][k] == data[g][k]
  {
  }

  /** A group never saved has the empty name. */
  lemma UnknownGroupUnnamed(data: UserData, g: int)
    requires g !in data
    ensures NameOf(data, g) == ""
  {
  }

  /** The user table after the tag extraction of an incoming message, and the
      message that is forwarded. */
  function Received(data: UserData, g: int, message: string): (UserData, string) {
    match ExtractUserName(message)
    case Some(name) => (SavedName(data, g, name), StripUserTags(message))
    case None => (data, message)
  }

  /** A tagged message saves its name, and the forwarded text is what follows
      the tag; an untagged one changes nothing. */
  lemma ReceivedTagged(data: UserData, g: int, name: string, text: string)
    requires name != [] && ']' !in name && ExtractUserName(text).None?
    ensures Received(data, g, Tagged(name, text)) == (SavedName(data, g, name), LStrip(text))
  {
    var m := Tagged(name, text);
    TagRoundTrip(name, text);
    TaggedStripped(name, text);
    ReceivedNamed(data, g, m, name);
  }

  lemma ReceivedNamed(data: UserData, g: int, m: string, name: string)
    requires ExtractUserName(m) == Some(name)
    ensures Received(data, g, m) == (SavedName(data, g, name), StripUserTags(m))
  {
  }

  /** A message without a tag is forwarded as it is and saves nothing. */
  lemma ReceivedUntagged(data: UserData, g: int, message: string)
    requires ExtractUserName(message).None?
    ensures Received(data, g, message) == (data, message)
  {
  }

  // Delivery to the chat.

  datatype ParseMode = Html | Markdown | NoMode

  /** One `bot.send_message` call. */
  datatype Attempt = Attempt(text: string, mode: ParseMode)

  /** The three forms a chunk can go out in, in the order they are tried. */
  function Chain(chunk: string): seq<Attempt> {
    [Attempt(PrepareTextForHtml(chunk), Html), Attempt(chunk, Markdown), Attempt(chunk, NoMode)]
  }

  /** The calls `send_to_telegram` makes for an already personalised chunk:
      the chain up to the first one the chat accepts. */
  function Attempts(chunk: string, accepts: Attempt -> bool): seq<Attempt> {
    var chain := Chain(chunk);
    if accepts(chain[0]) then chain[..1]
    else if accepts(chain[1]) then chain[..2]
    else chain
  }

  /** At most three calls, in the chain's order, stopping at the first
      accepted one; when none is accepted all three were made. */
  lemma AttemptsFallBack(chunk: string, accepts: Attempt -> bool)
    ensures var a := Attempts(chunk, accepts);
      && 1 <= |a| <= 3
      && a == Chain(chunk)[..|a|]
      && (forall i :: 0 <= i < |a| - 1 ==> !accepts(a[i]))
      && (accepts(a[|a| - 1]) || |a| == 3)
    ensures Attempts(chunk, accepts)[0] == Attempt(PrepareTextForHtml(chunk), Html)
  {
  }

  /** The calls made for a turn's chunks, one `send_to_telegram` after another. */
  function Deliveries(chunks: seq<string>, name: string, accepts: Attempt -> bool): seq<Attempt> {
    if chunks == [] then []
    else Deliveries(chunks[..|chunks| - 1], name, accepts) + Attempts(Personalize(chunks[|chunks| - 1], name), accepts)
  }

  /** Every chunk costs one to three calls. */
  lemma {:induction false} DeliveriesBounded(chunks: seq<string>, name: string, accepts: Attempt -> bool)
    ensures |chunks| <= |Deliveries(chunks, name, accepts)| <= 3 * |chunks|
  {
    if chunks != [] {
      DeliveriesBounded(chunks[..|chunks| - 1], name, accepts);
      AttemptsFallBack(Personalize(chunks[|chunks| - 1], name), accepts);
    }
  }

  /** With no saved name, each chunk's first call carries its HTML form. */
  lemma {:induction false} UnnamedDeliveriesOpenWithHtml(chunk: string, accepts: Attempt -> bool)
    ensures Deliveries([chunk], "", accepts)[0] == Attempt(PrepareTextForHtml(chunk), Html)
  {
    NoNameNoChange(chunk);
    assert [chunk][..0] == [];
    AttemptsFallBack(chunk, accepts);
  }

  /** `send_to_telegram(chunk)`: the chunk is personalised once, and that text
      is what every call carries; failures are swallowed. */
  method SendToTelegram(chunk: string, userName: string, accepts: Attempt -> bool) returns (attempts: seq<Attempt>)
    ensures attempts == Attempts(Personalize(chunk, userName), accepts)
  {
    var text := chunk;
    if userName != [] {
      text := Personalize(chunk, userName);
    }
    var html := Attempt(PrepareTextForHtml(text), Html);
    attempts := [html];
    if !accepts(html) {
      var markdown := Attempt(text, Markdown);
      attempts := attempts + [markdown];
      if !accepts(markdown) {
        attempts := attempts + [Attempt(text, NoMode)];
      }
    }
  }

  /** The callback applied to each chunk a turn hands it, in order. */
  method SendAll(chunks: seq<string>, userName: string, accepts: Attempt -> bool) returns (attempts: seq<Attempt>)
    ensures attempts == Deliveries(chunks, userName, accepts)
  {
    attempts := [];
    for i := 0 to |chunks|
      invariant attempts == Deliveries(chunks[..i], userName, accepts)
    {
      assert chunks[..i + 1][..i] == chunks[..i];
      var sent := SendToTelegram(chunks[i], userName, accepts);
      attempts := attempts + sent;
    }
    assert chunks[..|chunks|] == chunks;
  }

  /** The thread table after a turn resolves the group's thread with its own
      stored id as the hint: a usable stored id is kept, otherwise the id of
      a newly created thread is recorded when there is a bot to create it
      and the creation gave a usable id; otherwise the table stays as it was. */
  function Resolved(entries: map<int, string>, g: int, hasBot: bool, created: Option<string>): map<int, string> {
    if g in entries && entries[g] != "" then entries
    else if hasBot && created.Some? && created.value != "" then entries[g := created.value]
    else entries
  }

  /** Resolving touches no other group, and leaves the group with a usable
      thread exactly when it had one or a usable one was created. */
  lemma ResolvedTouchesOnlyGroup(entries: map<int, string>, g: int, hasBot: bool, created: Option<string>, h: int)
    ensures h != g ==> ThreadOf(Resolved(entries, g, hasBot, created), h) == ThreadOf(entries, h)
    ensures h != g ==> (h in Resolved(entries, g, hasBot, created) <==> h in entries)
    ensures ThreadOf(Resolved(entries, g, hasBot, created), g).Some? <==>
      ThreadOf(entries, g).Some? || (hasBot && created.Some? && created.value != "")
    ensures ThreadOf(entries, g).Some? ==> ThreadOf(Resolved(entries, g, hasBot, created), g) == ThreadOf(entries, g)
  {
  }

  class ConversationManager {
    var bots: seq<Bot>
    const threads: ThreadTable
    var userData: UserData
    var locks: map<int, Lock>

    /** Every registered bot's handler holds the manager's own thread table. */
    ghost predicate Valid()
      reads this, set b | b in bots :: b.handler
    {
      DistinctNames(bots) && forall b :: b in bots ==> b.handler.threads == threads
    }

    /** What each handler sees agrees with the manager's table, group by group. */
    ghost predicate CachesAgree()
      reads this, threads, set b | b in bots :: b.handler, set b | b in bots :: b.handler.threads
    {
      forall b :: b in bots ==> b.handler.threads.entries == threads.entries
    }

    lemma SharedTableAgrees()
      requires Valid()
      ensures CachesAgree()
    {
    }

    constructor ()
      ensures Valid() && fresh(threads)
      ensures bots == [] && threads.entries == map[] && userData == map[] && locks == map[]
    {
      bots := [];
      threads := new ThreadTable();
      userData := map[];
      locks := map[];
    }

    /** `register_bots`: the bots are kept, and each handler is given the
        manager's table itself. */
    method RegisterBots(newBots: seq<Bot>)
      requires DistinctNames(newBots)
      modifies this, set b | b in newBots :: b.handler
      ensures Valid() && CachesAgree()
      ensures bots == newBots && userData == old(userData) && locks == old(locks)
      ensures threads.entries == old(threads.entries)
      ensures forall b :: b in newBots ==> b.handler.inProgress == old(b.handler.inProgress) && b.handler.history == old(b.handler.history)
    {
      bots := newBots;
      for i := 0 to |bots|
        invariant bots == newBots && userData == old(userData) && locks == old(locks)
        invariant forall j :: 0 <= j < i ==> bots[j].handler.threads == threads
        invariant forall b :: b in newBots ==> b.handler.inProgress == old(b.handler.inProgress) && b.handler.history == old(b.handler.history)
      {
        bots[i].handler.threads := threads;
      }
    }

    /** `is_active`. */
    function IsActive(g: int): bool
      reads this, threads
    {
      g in threads.entries
    }

    /** `get_thread_id`: `threads.get(group_id)`. */
    function GetThreadId(g: int): (r: Option<string>)
      reads this, threads
      ensures r.Some? <==> IsActive(g)
      ensures r.Some? ==> r.value == threads.entries[g]
    {
      if g in threads.entries then Some(threads.entries[g]) else None
    }

    /** `get_thread_lock`: a lock is made for a group on its first request
        only; every later request gets that same lock. */
    method GetThreadLock(g: int) returns (lock: Lock)
      modifies this
      ensures g in old(locks) ==> lock == old(locks)[g] && locks == old(locks)
      ensures g !in old(locks) ==> fresh(lock) && locks == old(locks)[g := lock]
      ensures bots == old(bots) && userData == old(userData)
    {
      if g !in locks {
        var created := new Lock();
        locks := locks[g := created];
      }
      lock := locks[g];
    }

    /** Two requests for the same group get the same lock. */
    method LockTwice(g: int) returns (first: Lock, second: Lock)
      modifies this
      ensures first == second && g in locks && locks[g] == first
      ensures bots == old(bots) && userData == old(userData)
    {
      first := GetThreadLock(g);
      second := GetThreadLock(g);
    }

    /** `set_thread_id(group_id, thread_id)`. `created` is what
        `threads.create()` gives: the new thread's id, or None when the call
        raises. A stored id is kept whatever the hint; otherwise a non-empty
        hint, or else a usable new id, is stored; anything else leaves every
        map as it was. */
    method SetThreadId(g: int, hint: Option<string>, created: Option<string>) returns (r: Option<string>)
      requires Valid()
      modifies this, threads
      ensures Valid() && CachesAgree()
      ensures bots == old(bots) && userData == old(userData)
      ensures g in locks && locks == old(locks)[g := locks[g]] && (g in old(locks) ==> locks == old(locks))
      ensures g in old(threads.entries) && old(threads.entries)[g] != "" ==>
        r == Some(old(threads.entries)[g]) && threads.entries == old(threads.entries)
      ensures !(g in old(threads.entries) && old(threads.entries)[g] != "") && hint.Some? && hint.value != "" ==>
        r == hint && threads.entries == old(threads.entries)[g := hint.value]
      ensures !(g in old(threads.entries) && old(threads.entries)[g] != "") && !(hint.Some? && hint.value != "") ==>
        if |bots| > 0 && created.Some? && created.value != "" then
          r == created && threads.entries == old(threads.entries)[g := created.value]
        else
          r == None && threads.entries == old(threads.entries)
      ensures r.Some? ==> r.value != "" && ThreadOf(threads.entries, g) == r
    {
      var lock := GetThreadLock(g);
      var existing := GetThreadId(g);
      if existing.Some? && existing.value != "" {
        return existing;
      }
      if hint.Some? && hint.value != "" {
        threads.entries := threads.entries[g := hint.value];
        FanOut(g, hint.value);
        return hint;
      }
      if |bots| == 0 || created.None? || created.value == "" {
        // no bot to ask, the call raised, or the thread has no usable id
        return None;
      }
      threads.entries := threads.entries[g := created.value];
      FanOut(g, created.value);
      r := created;
    }

    /** The loop that copies a new mapping into every handler's table: as they
        all hold the manager's table, it changes nothing further. */
    method FanOut(g: int, id: string)
      requires Valid() && g in threads.entries && threads.entries[g] == id
      modifies threads
      ensures threads.entries == old(threads.entries)
    {
      for i := 0 to |bots|
        invariant threads.entries == old(threads.entries)
      {
        var handler := bots[i].handler;
        handler.threads.entries := handler.threads.entries[g := id];
      }
    }

    /** `get_next_bot`: the first registered bot's name. */
    function GetNextBot(): (r: Option<string>)
      reads this
      ensures r.Some? <==> |bots| > 0
      ensures r.Some? ==> r.value == bots[0].name
    {
      if bots == [] then None else Some(bots[0].name)
    }

    /** `save_user_info`. */
    method SaveUserInfo(g: int, name: string)
      modifies this
      ensures userData == SavedName(old(userData), g, name)
      ensures bots == old(bots) && locks == old(locks)
    {
      var entry := if g in userData then userData[g] else map[];
      userData := userData[g := entry["name" := name]];
    }

    /** `get_user_name`. */
    function GetUserName(g: int): string
      reads this
    {
      NameOf(userData, g)
    }

    /** The common start of `handle_turn` and `handle_image`: the tag is read
        and removed, and the group's thread is resolved with its own stored id
        as the hint, which only ever keeps a usable id or asks for a new one. */
    method Admit(g: int, message: string, created: Option<string>) returns (forwarded: string, thread: Option<string>)
      requires Valid()
      modifies this, threads
      ensures Valid() && CachesAgree() && bots == old(bots)
      ensures (userData, forwarded) == Received(old(userData), g, message)
      ensures g in locks && locks == old(locks)[g := locks[g]] && (g in old(locks) ==> locks == old(locks))
      ensures var usable := g in old(threads.entries) && old(threads.entries)[g] != "";
        && (usable ==> thread == Some(old(threads.entries)[g]) && threads.entries == old(threads.entries))
        && (!usable && |bots| > 0 && created.Some? && created.value != "" ==>
              thread == created && threads.entries == old(threads.entries)[g := created.value])
        && (!usable && !(|bots| > 0 && created.Some? && created.value != "") ==>
              thread == None && threads.entries == old(threads.entries))
      ensures thread.Some? ==> ThreadOf(threads.entries, g) == thread
    {
      forwarded := message;
      var userName := ExtractUserName(message);
      if userName.Some? {
        SaveUserInfo(g, userName.value);
        forwarded := StripUserTags(message);
      }
      thread := SetThreadId(g, GetThreadId(g), created);
    }

    /** The handler of the bot that answers, with the mapping forced into its
        table; as that is the manager's table, the write changes nothing. */
    method Sync(g: int, id: string) returns (handler: AssistantHandler)
      requires Valid() && |bots| > 0 && g in threads.entries && threads.entries[g] == id
      modifies threads
      ensures handler == bots[0].handler && handler.threads == threads
      ensures threads.entries == old(threads.entries)
    {
      // `all_bots[get_next_bot()]`: the names are distinct, so this is the first bot
      // the write happens only when the entry differs; writing the same value
      // is the same no-op
      handler := bots[0].handler;
      handler.threads.entries := handler.threads.entries[g := id];
    }

    /** `handle_turn`. The provider's side is given: `created` for a thread it
        may have to create, `posted`, `deltas` and `completes` for the text
        turn, and `accepts` for which sends the chat takes. Returns the chunks
        the answering handler hands to `send_to_telegram` and the sends made
        for them. */
    method HandleTurn(g: int, message: string, created: Option<string>, posted: bool, deltas: seq<string>, completes: bool,
                      accepts: Attempt -> bool)
      returns (chunks: seq<string>, attempts: seq<Attempt>)
      requires Valid()
      modifies this, threads, set b | b in bots :: b.handler
      ensures Valid() && CachesAgree() && bots == old(bots)
      ensures userData == Received(old(userData), g, message).0
      ensures threads.entries == Resolved(old(threads.entries), g, |bots| > 0, created)
      ensures g in locks && locks == old(locks)[g := locks[g]] && (g in old(locks) ==> locks == old(locks))
      ensures attempts == Deliveries(chunks, NameOf(userData, g), accepts)
      ensures ThreadOf(threads.entries, g).None? || bots == [] ==>
        chunks == [] && forall b :: b in bots ==>
        b.handler.inProgress == old(b.handler.inProgress) && b.handler.history == old(b.handler.history)
      ensures bots != [] ==> forall b :: b in bots && b.handler != bots[0].handler ==>
        b.handler.inProgress == old(b.handler.inProgress) && b.handler.history == old(b.handler.history)
      ensures ThreadOf(threads.entries, g).Some? && bots != [] && Busy(old(bots[0].handler.inProgress), ThreadOf(threads.entries, g).value) ==>
        && chunks == [BusyNotice]
        && bots[0].handler.inProgress == old(bots[0].handler.inProgress) && bots[0].handler.history == old(bots[0].handler.history)
      ensures ThreadOf(threads.entries, g).Some? && bots != [] && !Busy(old(bots[0].handler.inProgress), ThreadOf(threads.entries, g).value) ==>
        && chunks == (if posted then Delivered(deltas, completes) else [])
        && bots[0].handler.inProgress == old(bots[0].handler.inProgress)[ThreadOf(threads.entries, g).value := false]
        && bots[0].handler.history == old(bots[0].handler.history)
             + (if posted then [Entry(UserRole, Received(old(userData), g, message).1)] + Replies(chunks) else [])
    {
      chunks, attempts := [], [];
      var forwarded, thread := Admit(g, message, created);
      if thread.None? {
        return;
      }
      var nextBot := GetNextBot();
      if nextBot.None? {
        return;
      }
      chunks, attempts := AnswerText(g, thread.value, forwarded, posted, deltas, completes, accepts);
    }

    /** The rest of `handle_turn` once a thread and a bot are found: the
        first bot's handler streams the turn, and each chunk it hands over is
        sent with the user's saved name. */
    method AnswerText(g: int, id: string, forwarded: string, posted: bool, deltas: seq<string>, completes: bool,
                      accepts: Attempt -> bool)
      returns (chunks: seq<string>, attempts: seq<Attempt>)
      requires Valid() && bots != [] && ThreadOf(threads.entries, g) == Some(id)
      modifies threads, set b | b in bots :: b.handler
      ensures Valid() && threads.entries == old(threads.entries)
      ensures attempts == Deliveries(chunks, NameOf(userData, g), accepts)
      ensures forall b :: b in bots && b.handler != bots[0].handler ==>
        b.handler.inProgress == old(b.handler.inProgress) && b.handler.history == old(b.handler.history)
      ensures Busy(old(bots[0].handler.inProgress), id) ==>
        && chunks == [BusyNotice]
        && bots[0].handler.inProgress == old(bots[0].handler.inProgress) && bots[0].handler.history == old(bots[0].handler.history)
      ensures !Busy(old(bots[0].handler.inProgress), id) ==>
        && chunks == (if posted then Delivered(deltas, completes) else [])
        && bots[0].handler.inProgress == old(bots[0].handler.inProgress)[id := false]
        && bots[0].handler.history == old(bots[0].handler.history)
             + (if posted then [Entry(UserRole, forwarded)] + Replies(chunks) else [])
    {
      var handler := Sync(g, id);
      assert handler.inProgress == old(bots[0].handler.inProgress) && handler.history == old(bots[0].handler.history);
      var userName := GetUserName(g);
      chunks := handler.StreamResponse(g, forwarded, posted, deltas, completes);
      assert ThreadOf(threads.entries, g) == Some(id);
      assert forall b :: b in bots ==> b.handler.threads == threads;
      attempts := SendAll(chunks, userName, accepts);
    }

    /** `handle_image`, with the provider's side of the image turn given as a
        script. Its outer `except` is not modelled: the image turn catches
        every error of its own. */
    method HandleImage(g: int, message: string, created: Option<string>, sc: ImageScript, accepts: Attempt -> bool)
      returns (chunks: seq<string>, attempts: seq<Attempt>)
      requires Valid()
      modifies this, threads, set b | b in bots :: b.handler
      ensures Valid() && CachesAgree() && bots == old(bots)
      ensures userData == Received(old(userData), g, message).0
      ensures threads.entries == Resolved(old(threads.entries), g, |bots| > 0, created)
      ensures g in locks && locks == old(locks)[g := locks[g]] && (g in old(locks) ==> locks == old(locks))
      ensures attempts == Deliveries(chunks, NameOf(userData, g), accepts)
      ensures ThreadOf(threads.entries, g).None? || bots == [] ==>
        chunks == [] && forall b :: b in bots ==>
        b.handler.inProgress == old(b.handler.inProgress) && b.handler.history == old(b.handler.history)
      ensures bots != [] ==> forall b :: b in bots && b.handler != bots[0].handler ==>
        b.handler.inProgress == old(b.handler.inProgress) && b.handler.history == old(b.handler.history)
      ensures ThreadOf(threads.entries, g).Some? && bots != [] && Busy(old(bots[0].handler.inProgress), ThreadOf(threads.entries, g).value) ==>
        && chunks == [BusyNotice]
        && bots[0].handler.inProgress == old(bots[0].handler.inProgress) && bots[0].handler.history == old(bots[0].handler.history)
      ensures ThreadOf(threads.entries, g).Some? && bots != [] && !Busy(old(bots[0].handler.inProgress), ThreadOf(threads.entries, g).value) ==>
        var o := ImageTurn(Received(old(userData), g, message).1, sc);
        && chunks == o.sends
        && bots[0].handler.inProgress == old(bots[0].handler.inProgress)[ThreadOf(threads.entries, g).value := o.pending]
        && bots[0].handler.history == old(bots[0].handler.history) + o.entries
    {
      chunks, attempts := [], [];
      var forwarded, thread := Admit(g, message, created);
      if thread.None? {
        return;
      }
      var nextBot := GetNextBot();
      if nextBot.None? {
        return;
      }
      chunks, attempts := AnswerImage(g, thread.value, forwarded, sc, accepts);
    }

    /** The rest of `handle_image` once a thread and a bot are found. */
    method AnswerImage(g: int, id: string, forwarded: string, sc: ImageScript, accepts: Attempt -> bool)
      returns (chunks: seq<string>, attempts: seq<Attempt>)
      requires Valid() && bots != [] && ThreadOf(threads.entries, g) == Some(id)
      modifies threads, set b | b in bots :: b.handler
      ensures Valid() && threads.entries == old(threads.entries)
      ensures attempts == Deliveries(chunks, NameOf(userData, g), accepts)
      ensures forall b :: b in bots && b.handler != bots[0].handler ==>
        b.handler.inProgress == old(b.handler.inProgress) && b.handler.history == old(b.handler.history)
      ensures Busy(old(bots[0].handler.inProgress), id) ==>
        && chunks == [BusyNotice]
        && bots[0].handler.inProgress == old(bots[0].handler.inProgress) && bots[0].handler.history == old(bots[0].handler.history)
      ensures !Busy(old(bots[0].handler.inProgress), id) ==>
        && chunks == ImageTurn(forwarded, sc).sends
        && bots[0].handler.inProgress == old(bots[0].handler.inProgress)[id := ImageTurn(forwarded, sc).pending]
        && bots[0].handler.history == old(bots[0].handler.history) + ImageTurn(forwarded, sc).entries
    {
      var handler := Sync(g, id);
      assert handler.inProgress == old(bots[0].handler.inProgress) && handler.history == old(bots[0].handler.history);
      var userName := GetUserName(g);
      chunks := handler.StreamImageResponse(g, forwarded, sc);
      assert ThreadOf(threads.entries, g) == Some(id);
      assert forall b :: b in bots ==> b.handler.threads == threads;
      attempts := SendAll(chunks, userName, accepts);
    }

    /** `end_conversation`: true exactly when the group had a thread; then the
        group is gone from the table and from every handler's view of it, and
        nothing else changes, the user table included. */
    method EndConversation(g: int) returns (ended: bool)
      requires Valid()
      modifies threads
      ensures Valid() && CachesAgree()
      ensures ended <==> g in old(threads.entries)
      ensures threads.entries == old(threads.entries) - {g}
      ensures !IsActive(g)
      ensures forall h :: h != g ==> GetThreadId(h) == old(GetThreadId(h))
    {
      if g !in threads.entries {
        return false;
      }
      threads.entries := threads.entries - {g};
      for i := 0 to |bots|
        invariant threads.entries == old(threads.entries) - {g}
      {
        // `del` when present; removing an absent key is the same no-op
        var handler := bots[i].handler;
        handler.threads.entries := handler.threads.entries - {g};
      }
      ended := true;
    }
  }
}
