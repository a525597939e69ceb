/** `user_memory` and the `/chat` turn (backend/app.py:97-113): a session per email, created on
    first contact and never replaced, whose history records every exchange. */
module Sessions {
  import opened Optional
  import opened Routing
  import opened RoutingFacts
  import opened Users

  /** The JSON `email` field; absent is `None`, and `None` is a key like any other. */
  type Email = Option<string>

  /** What `chat` answers: the 400 error, or the bot's reply. */
  datatype ChatResponse = BadRequest(error: string) | Reply(response: string)

  const NoMessageError := "No message provided"

  /** The session a turn for `email` starts from: the stored one, else a fresh one. */
  function SessionOf(memory: map<Email, Session>, email: Email): Session {
    if email in memory then memory[email] else FreshSession
  }

  /** A session after one accepted turn, and the reply of that turn. */
  datatype TurnOutcome = TurnOutcome(session: Session, reply: string)

  /** One accepted turn on a session: `last_question` is overwritten, the user's entry is
      appended, `handle_message` answers (and may set the name), then the bot's entry is appended. */
  function Turn(s: Session, m: string, c: CompletionResult): (t: TurnOutcome)
    ensures t.session.history == s.history + [UserEntry(m), BotEntry(t.reply)]
    ensures t.session.lastQuestion == Some(m)
    ensures t.session.preferences == s.preferences
    ensures t.reply == HandleMessage(s, m, c).reply && t.session.name == HandleMessage(s, m, c).name
  {
    var s1 := s.(lastQuestion := Some(m));
    var s2 := s1.(history := s1.history + [UserEntry(m)]);
    var h := HandleMessage(s2, m, c);
    HandleMessageReadsNameAndPreferences(s2, s, m, c);
    var s3 := s2.(name := h.name);
    TurnOutcome(s3.(history := s3.history + [BotEntry(h.reply)]), h.reply)
  }

  /** `handle_message` reads only the name and the preferences of the session. */
  lemma HandleMessageReadsNameAndPreferences(s: Session, s': Session, m: string, c: CompletionResult)
    requires s.name == s'.name && s.preferences == s'.preferences
    ensures HandleMessage(s, m, c) == HandleMessage(s', m, c)
  {
  }

  /** The line the turn adds to the stored transcript is the two session entries it adds, joined. */
  lemma PersistedLineMatchesSession(s: Session, m: string, c: CompletionResult)
    ensures var t := Turn(s, m, c); var h := t.session.history;
      |h| >= 2 && HistoryLine(m, t.reply) == h[|h| - 2] + " | " + h[|h| - 1] + "\n"
  {
  }

  /** A run of accepted turns on one session, one completion outcome per turn. */
  function RunTurns(s: Session, msgs: seq<string>, cs: seq<CompletionResult>): (t: (Session, seq<string>))
    requires |cs| == |msgs|
    ensures |t.1| == |msgs|
    decreases |msgs|
  {
    if msgs == [] then (s, [])
    else
      var first := Turn(s, msgs[0], cs[0]);
      var rest := RunTurns(first.session, msgs[1..], cs[1..]);
      (rest.0, [first.reply] + rest.1)
  }

  /** The entries a run of exchanges adds to a session's history: each user message followed
      by the reply to it. */
  function Exchanges(msgs: seq<string>, replies: seq<string>): seq<string>
    requires |replies| == |msgs|
    decreases |msgs|
  {
    if msgs == [] then [] else [UserEntry(msgs[0]), BotEntry(replies[0])] + Exchanges(msgs[1..], replies[1..])
  }

  /** The exchange entries alternate user and bot, turn by turn, two per turn. */
  lemma {:induction false} ExchangesAlternate(msgs: seq<string>, replies: seq<string>, k: nat)
    requires |replies| == |msgs| && k < |msgs|
    ensures |Exchanges(msgs, replies)| == 2 * |msgs|
    ensures Exchanges(msgs, replies)[2 * k] == UserEntry(msgs[k])
    ensures Exchanges(msgs, replies)[2 * k + 1] == BotEntry(replies[k])
    decreases k
  {
    ExchangesLength(msgs, replies);
    if k > 0 {
      ExchangesAlternate(msgs[1..], replies[1..], k - 1);
    }
  }

  lemma {:induction false} ExchangesLength(msgs: seq<string>, replies: seq<string>)
    requires |replies| == |msgs|
    ensures |Exchanges(msgs, replies)| == 2 * |msgs|
    decreases |msgs|
  {
    if msgs != [] {
      ExchangesLength(msgs[1..], replies[1..]);
    }
  }

  /** After a run of turns the history is the old history followed by the run's exchanges, so
      N turns add exactly 2N alternating entries and never touch the old ones; preferences never
      change, and the last question is the last message. */
  lemma {:induction false} RunTurnsHistory(s: Session, msgs: seq<string>, cs: seq<CompletionResult>)
    requires |cs| == |msgs|
    ensures RunTurns(s, msgs, cs).0.history == s.history + Exchanges(msgs, RunTurns(s, msgs, cs).1)
    ensures RunTurns(s, msgs, cs).0.preferences == s.preferences
    ensures msgs != [] ==> RunTurns(s, msgs, cs).0.lastQuestion == Some(msgs[|msgs| - 1])
    decreases |msgs|
  {
    if msgs != [] {
      var first := Turn(s, msgs[0], cs[0]);
      RunTurnsHistory(first.session, msgs[1..], cs[1..]);
      var replies := RunTurns(s, msgs, cs).1;
      assert replies[1..] == RunTurns(first.session, msgs[1..], cs[1..]).1;
      if |msgs| > 1 {
        assert msgs[1..][|msgs| - 2] == msgs[|msgs| - 1];
      }
    }
  }

  /** Name round trip: once a turn captured a non-empty name, a following "hello" turn greets
      it; a capture of the empty name (a bare "my name is") is falsy, so "hello" asks again. */
  lemma NameRoundTrip(s: Session, m1: string, c1: CompletionResult, m2: string, c2: CompletionResult)
    requires Classify(m1) == NameCapture && Classify(m2) == Hello
    ensures var t1 := Turn(s, m1, c1); var t2 := Turn(t1.session, m2, c2);
      t1.session.name == Some(CaptureName(m1)) &&
      t2.reply == (if CaptureName(m1) != "" then "Hello " + CaptureName(m1) + "!" else "Hi there! What's your name?")
  {
    var t1 := Turn(s, m1, c1);
    NameCaptureSetsName(s, m1, c1);
    HelloAndByeKeepName(t1.session, m2, c2);
  }

  /** Every stored session has the empty preference list it was created with. */
  predicate NoPreferences(memory: map<Email, Session>) {
    forall e :: e in memory ==> memory[e].preferences == []
  }

  /** Nothing in this core writes `preferences`: an accepted turn keeps every stored session's
      list empty. */
  lemma TurnKeepsNoPreferences(memory: map<Email, Session>, email: Email, m: string, c: CompletionResult)
    requires NoPreferences(memory)
    ensures NoPreferences(memory[email := Turn(SessionOf(memory, email), m, c).session])
  {
  }

  /** So on a store built by chat turns the preferences rule answers with the bare prefix. */
  lemma PreferencesAlwaysEmpty(memory: map<Email, Session>, email: Email, m: string, c: CompletionResult)
    requires NoPreferences(memory) && Classify(m) == Preferences
    ensures HandleMessage(SessionOf(memory, email), m, c).reply == "Your preferences: "
  {
    PreferencesReply(SessionOf(memory, email), m, c);
  }

  /** The steps `chat` takes on the session record of an accepted turn, in the source's order.
      `Turn` is the same computation as a function, so that lemmas about runs of turns can use it;
      this method is the statement-by-statement form and is proved equal to it. */
  method TakeTurn(s: Session, m: string, c: CompletionResult) returns (session: Session, reply: string)
    ensures session == Turn(s, m, c).session && reply == Turn(s, m, c).reply
  {
    session := s.(lastQuestion := Some(m));
    session := session.(history := session.history + [UserEntry(m)]);
    var handled := HandleMessage(session, m, c);
    session := session.(name := handled.name);
    reply := handled.reply;
    session := session.(history := session.history + [BotEntry(reply)]);
  }

  /** Process-wide `user_memory`. */
  class SessionStore {
    var memory: map<Email, Session>

    constructor ()
      ensures memory == map[]
    {
      memory := map[];
    }

    /** `chat`: reject an absent or empty message before touching anything; otherwise create the
        session of an unseen email, record the turn in it, and merge the exchange into the
        stored transcript. */
    method ChatTurn(email: Email, message: Option<string>, completion: CompletionResult, table: UserTable)
      returns (out: ChatResponse)
      modifies this, table
      ensures message.None? || message.value == "" ==>
        out == BadRequest(NoMessageError) && memory == old(memory) && table.rows == old(table.rows)
      ensures message.Some? && message.value != "" ==>
        var t := Turn(SessionOf(old(memory), email), message.value, completion);
        out == Reply(t.reply) &&
        memory == old(memory)[email := t.session] &&
        table.rows == MergeHistory(old(table.rows), email, message.value, t.reply)
    {
      if message.None? || message.value == "" {
        return BadRequest(NoMessageError);
      }
      var m := message.value;
      // an unseen email starts from a fresh record; `user_data` in the source is the very
      // record then stored in `user_memory`, so writing the finished record back is the same
      var before := if email in memory then memory[email] else FreshSession;
      var session, reply := TakeTurn(before, m, completion);
      memory := memory[email := session];
      table.SaveUserHistory(email, m, reply);
      out := Reply(reply);
    }
  }
}
