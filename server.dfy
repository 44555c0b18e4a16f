/**
 * The chat endpoint of backend/main.py: the in-memory history of every session, extended
 * in place by each request, and the context window handed to the conversation graph. The
 * graph itself is a parameter `invoke` from the context text to the reply.
 */
module Server {
  import opened Wrappers
  import opened Text

  /** One history entry, `{"role": …, "message": …}`. */
  datatype Message = Message(role: string, message: string)

  const DefaultSession := "default"

  /** How an entry appears in the context: `role: message`. */
  function Line(m: Message): string {
    m.role + ": " + m.message
  }

  /** `history[-6:]`: the last six entries, or all of them when there are fewer. */
  function LastSix(history: seq<Message>): (window: seq<Message>)
    ensures |window| <= 6 && |window| <= |history|
    ensures |window| == if |history| <= 6 then |history| else 6
    ensures |history| <= 6 ==> window == history
    ensures window == history[|history| - |window|..]
  {
    if |history| <= 6 then history else history[|history| - 6..]
  }

  function Lines(ms: seq<Message>): (lines: seq<string>)
    ensures |lines| == |ms|
    ensures forall k :: 0 <= k < |ms| ==> lines[k] == Line(ms[k])
  {
    seq(|ms|, k requires 0 <= k < |ms| => Line(ms[k]))
  }

  /** The context text: the window's lines joined by newlines. */
  function Context(history: seq<Message>): (c: string)
    ensures history == [] ==> c == ""
    ensures |history| == 1 ==> c == Line(history[0])
  {
    Join(Lines(LastSix(history)), "\n")
  }

  /**
   * The message just appended is the last line of the context. When the history already held
   * an entry, the line of that entry comes just before it, separated by a newline.
   */
  lemma ContextEndsWithLatest(history: seq<Message>, m: Message)
    ensures var c := Context(history + [m]);
      |Line(m)| <= |c| && c[|c| - |Line(m)|..] == Line(m)
    ensures history != [] ==>
      var c := Context(history + [m]);
      var tail := Line(history[|history| - 1]) + "\n" + Line(m);
      |tail| <= |c| && c[|c| - |tail|..] == tail
  {
    var window := LastSix(history + [m]);
    var n := |window|;
    assert window[n - 1] == m;
    var lines := Lines(window);
    if n == 1 {
      assert lines == [Line(m)];
    } else {
      assert lines == lines[..n - 1] + [Line(m)];
      JoinSnoc(lines[..n - 1], Line(m), "\n");
      if history != [] {
        var front := Join(lines[..n - 1], "\n");
        var prev := Line(history[|history| - 1]);
        assert window[n - 2] == history[|history| - 1];
        assert lines[..n - 1][n - 2] == prev;
        JoinEndsWithLast(lines[..n - 1], "\n");
        var c := front + "\n" + Line(m);
        assert c[|c| - |prev + "\n" + Line(m)|..] == front[|front| - |prev|..] + "\n" + Line(m);
      }
    }
  }

  /** Only the last six entries matter to the context: older ones never reach the graph. */
  lemma ContextForgetsOlder(older: seq<Message>, recent: seq<Message>)
    requires |recent| >= 6
    ensures Context(older + recent) == Context(recent)
  {
    var h := older + recent;
    assert h[|h| - 6..] == recent[|recent| - 6..];
  }

  /** Writing a key twice leaves the map the second write alone would give. */
  lemma UpdateTwice<K, V>(m: map<K, V>, k: K, first: V, second: V)
    ensures m[k := first][k := second] == m[k := second]
  {
  }

  class ChatServer {
    /** `chat_histories`: the entries of every session seen so far. */
    var histories: map<string, seq<Message>>

    constructor()
      ensures histories == map[]
    {
      histories := map[];
    }

    /** The history of a session, empty for a session not seen before. */
    function HistoryOf(session: string): seq<Message>
      reads this
    {
      if session in histories then histories[session] else []
    }

    /**
     * One POST to /chat. The user's entry is appended before the graph is called, so the context
     * ends with it; the reply is appended after; no other session changes; the response carries
     * the reply and the session's whole updated history.
     */
    method Chat(message: Option<string>, sessionId: Option<string>, invoke: string -> string)
      returns (reply: string, history: seq<Message>)
      modifies this
      ensures var session := sessionId.GetOr(DefaultSession);
        var user := Message("user", message.GetOr(""));
        var before := old(HistoryOf(session));
        && reply == invoke(Context(before + [user]))
        && history == before + [user, Message("bot", reply)]
        && histories == old(histories)[session := history]
    {
      var session := sessionId.GetOr(DefaultSession);
      ghost var before := HistoryOf(session);
      ghost var start := histories;
      if session !in histories {
        histories := histories[session := []];
      }
      assert histories[session] == before;
      ghost var prepared := histories;
      var user := Message("user", message.GetOr(""));
      var withUser := histories[session] + [user];
      histories := histories[session := withUser];
      var context := Context(withUser);
      reply := invoke(context);
      history := withUser + [Message("bot", reply)];
      histories := histories[session := history];
      UpdateTwice(prepared, session, withUser, history);
      if session !in start {
        UpdateTwice(start, session, [], history);
      }
    }
  }
}
