// api/MCP/auth_client.py: an access token cached in memory and in a file, with an estimated expiry.
// Times are in seconds.

module TokenCache {
  import opened Collections

  /** Server lifetime of a token, and TOKEN_BUFFER_MINUTES. */
  const LIFETIME := 30 * 60
  const BUFFER := 5 * 60

  /** The "expires" entry of the token file; `Unparsable` makes `fromisoformat` raise. */
  datatype Expiry = Absent | Unparsable | At(time: int)

  /**
   * The token file; `Garbled` is anything that is not JSON, such as a half-written file, `NoObject` is JSON
   * that is no object, on which the reading raises an error that is not caught.
   */
  datatype Content = Missing | Garbled | NoObject | Stored(token: Option<string>, expires: Expiry)

  datatype Memory = Memory(token: Option<string>, expires: Option<int>)

  /** The server's answer to a login: when it issued the token, and when the client got it. */
  datatype Reply = Refused | Granted(token: string, issuedAt: int, receivedAt: int)

  datatype WriteOutcome = Written | NotWritten | Torn

  predicate Present(token: Option<string>) {
    token.Some? && token.value != ""
  }

  predicate Usable(memory: Memory, now: int) {
    Present(memory.token) && memory.expires.Some? && memory.expires.value > now
  }

  /** What the memory holds after reading the file: the token first, then the expiry if it can be read. */
  function Loaded(memory: Memory, content: Content): Memory {
    match content
    case Stored(token, At(time)) => Memory(token, Some(time))
    case Stored(token, _) => Memory(token, memory.expires)
    case _ => memory
  }

  /** The file after an attempt to save the memory. */
  function Saved(content: Content, memory: Memory, outcome: WriteOutcome): Content {
    match outcome
    case Written => Stored(memory.token, if memory.expires.Some? then At(memory.expires.value) else Absent)
    case NotWritten => content
    case Torn => Garbled
  }

  /**
   * What a restarted client finds in the file after a save: the saved token with its expiry if it was written,
   * what was there before if it was not, and nothing at all if the write was torn.
   */
  lemma SaveThenLoad(content: Content, memory: Memory, outcome: WriteOutcome)
    requires memory.token.Some? && memory.expires.Some?
    ensures Loaded(Memory(None, None), Saved(content, memory, outcome))
         == match outcome
            case Written => memory
            case NotWritten => Loaded(Memory(None, None), content)
            case Torn => Memory(None, None)
  {
  }

  function LoggedIn(reply: Reply): Memory
    requires reply.Granted?
  {
    Memory(Some(reply.token), Some(reply.receivedAt + LIFETIME - BUFFER))
  }

  /** The memory after the first half of `get_valid_token`. */
  function Asked(memory: Memory, content: Content): Memory {
    if Present(memory.token) then memory else Loaded(memory, content)
  }

  // ----- the client ------------------------------------------------------------------------

  /** The token file, shared by all clients on the machine. */
  class TokenFile {
    var content: Content

    constructor ()
      ensures content == Missing
    {
      content := Missing;
    }
  }

  class AuthClient {
    const file: TokenFile
    const hasCredentials: bool
    var token: Option<string>
    var expires: Option<int>

    ghost function State(): Memory
      reads this
    {
      Memory(token, expires)
    }

    constructor (file: TokenFile, hasCredentials: bool)
      ensures this.file == file && this.hasCredentials == hasCredentials && State() == Memory(None, None)
    {
      this.file, this.hasCredentials := file, hasCredentials;
      token, expires := None, None;
    }

    method LoadTokenFromFile(now: int) returns (valid: bool, raised: bool)
      modifies this`token, this`expires
      ensures State() == Loaded(old(State()), file.content)
      ensures raised <==> file.content.NoObject?
      ensures valid <==> file.content.Stored? && !file.content.expires.Unparsable?
                         && expires.Some? && expires.value > now + BUFFER
    {
      if !file.content.Stored? {
        return false, file.content.NoObject?;
      }
      token := file.content.token;
      match file.content.expires {
        case Absent =>
        case At(time) => expires := Some(time);
        case Unparsable => return false, false;
      }
      return expires.Some? && expires.value > now + BUFFER, false;
    }

    method SaveTokenToFile(outcome: WriteOutcome)
      modifies file
      ensures file.content == Saved(old(file.content), State(), outcome)
    {
      match outcome
      case Written =>
        file.content := Stored(token, if expires.Some? then At(expires.value) else Absent);
      case NotWritten =>
      case Torn => file.content := Garbled;
    }

    /** None stands for an AuthenticationError, which changes nothing. */
    method Authenticate(reply: Reply, outcome: WriteOutcome) returns (result: Option<string>)
      modifies this`token, this`expires, file
      ensures result == if hasCredentials && reply.Granted? then Some(reply.token) else None
      ensures result.None? ==> State() == old(State()) && file.content == old(file.content)
      ensures result.Some? ==> State() == LoggedIn(reply) && file.content == Saved(old(file.content), State(), outcome)
    {
      if !hasCredentials {
        return None;
      }
      match reply
      case Refused => return None;
      case Granted(newToken, _, receivedAt) =>
        token := Some(newToken);
        expires := Some(receivedAt + LIFETIME - BUFFER);
        SaveTokenToFile(outcome);
        return token;
    }

    /**
     * `reply` is what the server would answer if it is asked. None stands for an error raised, by a refused
     * login or by the file; after the latter the server is not asked.
     */
    method GetValidToken(now: int, reply: Reply, outcome: WriteOutcome) returns (result: Option<string>)
      modifies this`token, this`expires, file
      ensures !Present(old(token)) && old(file.content).NoObject? ==>
                result == None && State() == old(State()) && file.content == old(file.content)
      ensures Present(old(token)) || !old(file.content).NoObject? ==>
              var asked := Asked(old(State()), old(file.content));
              if Usable(asked, now) then
                result == asked.token && State() == asked && file.content == old(file.content)
              else if hasCredentials && reply.Granted? then
                result == Some(reply.token) && State() == LoggedIn(reply)
                && file.content == Saved(old(file.content), State(), outcome)
              else result == None && State() == asked && file.content == old(file.content)
    {
      if !Present(token) {
        var _, raised := LoadTokenFromFile(now);
        if raised {
          return None;
        }
      }
      if Present(token) && expires.Some? && expires.value > now {
        return token;
      }
      result := Authenticate(reply, outcome);
    }
  }

  // ----- all runs --------------------------------------------------------------------------

  /** Any number of clients, in one or several processes, around one token file. */
  datatype World = World(clients: map<int, Memory>, content: Content)

  /**
   * `Ask` is the part of `get_valid_token` up to the login request, `Answer` the part after the server
   * has answered; other events of the same or other clients may come in between.
   */
  datatype Event = Start(client: int) | Ask(client: int, now: int) | Answer(client: int, reply: Reply, outcome: WriteOutcome)

  function Next(w: World, event: Event): World {
    match event
    case Start(c) => w.(clients := w.clients[c := Memory(None, None)])
    case Ask(c, _) => if c in w.clients then w.(clients := w.clients[c := Asked(w.clients[c], w.content)]) else w
    case Answer(c, reply, outcome) =>
      if c in w.clients && reply.Granted?
      then World(w.clients[c := LoggedIn(reply)], Saved(w.content, LoggedIn(reply), outcome))
      else w
  }

  function Exec(events: seq<Event>): World {
    if events == [] then World(map[], Missing)
    else Next(Exec(events[..|events| - 1]), events[|events| - 1])
  }

  /** A token that the event hands to its caller, and when. */
  datatype Use = Use(token: string, time: int)

  function Handed(w: World, event: Event): Option<Use> {
    match event
    case Start(_) => None
    case Ask(c, now) =>
      if c in w.clients && Usable(Asked(w.clients[c], w.content), now)
      then Some(Use(Asked(w.clients[c], w.content).token.value, now)) else None
    case Answer(c, reply, _) =>
      if c in w.clients && reply.Granted? then Some(Use(reply.token, reply.receivedAt)) else None
  }

  predicate IsLogin(events: seq<Event>, i: nat) {
    i < |events| && events[i].Answer? && events[i].reply.Granted?
  }

  /** Token and expiry stem from the same login of the run. */
  ghost predicate FromOneLogin(events: seq<Event>, token: string, expires: int) {
    exists i: nat :: IsLogin(events, i) && token == events[i].reply.token
                     && expires == events[i].reply.receivedAt + LIFETIME - BUFFER
  }

  ghost predicate MemoryFromLogin(events: seq<Event>, memory: Memory) {
    memory.token.Some? ==> memory.expires.Some? && FromOneLogin(events, memory.token.value, memory.expires.value)
  }

  ghost predicate ContentFromLogin(events: seq<Event>, content: Content) {
    content.Stored? ==> content.token.Some? && content.expires.At? && FromOneLogin(events, content.token.value, content.expires.time)
  }

  lemma LaterStillFromLogin(events: seq<Event>, event: Event, token: string, expires: int)
    requires FromOneLogin(events, token, expires)
    ensures FromOneLogin(events + [event], token, expires)
  {
    var i: nat :| IsLogin(events, i) && token == events[i].reply.token
                  && expires == events[i].reply.receivedAt + LIFETIME - BUFFER;
    assert IsLogin(events + [event], i);
  }

  /**
   * Over all runs of logins, refused logins, loads, failed and torn saves and restarts of any number of
   * clients, every remembered or stored token is paired with the expiry of its own login.
   */
  lemma {:induction false} PairsStayTogether(events: seq<Event>)
    ensures forall c :: c in Exec(events).clients ==> MemoryFromLogin(events, Exec(events).clients[c])
    ensures ContentFromLogin(events, Exec(events).content)
  {
    if events != [] {
      var n := |events| - 1;
      var earlier, event := events[..n], events[n];
      var before, after := Exec(earlier), Exec(events);
      PairsStayTogether(earlier);
      assert events == earlier + [event];
      if event.Answer? && event.reply.Granted? {
        assert IsLogin(events, n);
        assert FromOneLogin(events, event.reply.token, event.reply.receivedAt + LIFETIME - BUFFER);
      }
      if before.content.Stored? {
        LaterStillFromLogin(earlier, event, before.content.token.value, before.content.expires.time);
      }
      forall c | c in after.clients ensures MemoryFromLogin(events, after.clients[c]) {
        if c in before.clients && before.clients[c].token.Some? {
          LaterStillFromLogin(earlier, event, before.clients[c].token.value, before.clients[c].expires.value);
        }
      }
    }
  }

  /** No login took more than `d` seconds from the issuing of the token to its receipt. */
  ghost predicate LatencyWithin(events: seq<Event>, d: int) {
    forall i: nat :: IsLogin(events, i) ==> events[i].reply.receivedAt - events[i].reply.issuedAt <= d
  }

  /** The server still accepts the token of login `i` for `left` seconds at `time`. */
  predicate LeftAt(events: seq<Event>, i: nat, use: Use, left: int) {
    IsLogin(events, i) && events[i].reply.token == use.token && events[i].reply.issuedAt + LIFETIME - use.time > left
  }

  ghost predicate StaysAlive(events: seq<Event>, use: Use, left: int) {
    exists i: nat :: LeftAt(events, i, use, left)
  }

  /**
   * With login latency at most `d`, every token handed out in any run stems from a login of this run
   * and is good for more than five minutes less `d`.
   */
  lemma HandedTokensAreAlive(events: seq<Event>, event: Event, d: int)
    requires Handed(Exec(events), event).Some? && LatencyWithin(events + [event], d)
    ensures StaysAlive(events + [event], Handed(Exec(events), event).value, BUFFER - d)
  {
    PairsStayTogether(events);
    var w, all := Exec(events), events + [event];
    var use := Handed(w, event).value;
    if event.Ask? {
      var memory := Asked(w.clients[event.client], w.content);
      var i: nat :| IsLogin(events, i) && memory.token.value == events[i].reply.token
                    && memory.expires.value == events[i].reply.receivedAt + LIFETIME - BUFFER;
      assert IsLogin(all, i) && all[i] == events[i];
      assert LeftAt(all, i, use, BUFFER - d);
    } else {
      var n := |events|;
      assert IsLogin(all, n) && all[n] == event;
      assert LeftAt(all, n, use, BUFFER - d);
    }
  }

  /**
   * The latency bound is needed: as soon as logins may take longer than five minutes, a token can be
   * handed out that the server no longer accepts.
   */
  lemma SlowLoginHandsOutDeadToken(d: int)
    requires d > BUFFER
    ensures exists events: seq<Event>, event: Event ::
              && LatencyWithin(events, d)
              && Handed(Exec(events), event).Some?
              && forall i: nat :: IsLogin(events, i) ==> events[i].reply.issuedAt + LIFETIME <= Handed(Exec(events), event).value.time
  {
    var login := Answer(0, Granted("t", 0, d), Written);
    var events := [Start(0), login];
    var event := Ask(0, d + LIFETIME - BUFFER - 1);
    ExecOneMore([], Start(0));
    ExecOneMore([Start(0)], login);
    assert [] + [Start(0)] == [Start(0)] && [Start(0)] + [login] == events;
    assert Exec(events).clients[0] == LoggedIn(login.reply);
    assert Handed(Exec(events), event) == Some(Use("t", d + LIFETIME - BUFFER - 1));
  }

  lemma ExecOneMore(events: seq<Event>, event: Event)
    ensures Exec(events + [event]) == Next(Exec(events), event)
  {
    var all := events + [event];
    assert all[..|all| - 1] == events;
  }

  /**
   * After a restart the saved login is used again, without asking the server, until its recorded expiry.
   * The load's own verdict, which demands another five minutes, has no influence on that.
   */
  lemma RestartReusesLogin(events: seq<Event>, client: int, reply: Reply, now: int)
    requires client in Exec(events).clients && reply.Granted? && reply.token != ""
    ensures var restarted := events + [Answer(client, reply, Written)] + [Start(client)];
            Handed(Exec(restarted), Ask(client, now))
            == if now < reply.receivedAt + LIFETIME - BUFFER then Some(Use(reply.token, now)) else None
  {
    var login := events + [Answer(client, reply, Written)];
    ExecOneMore(events, Answer(client, reply, Written));
    ExecOneMore(login, Start(client));
    assert Exec(login).content == Stored(Some(reply.token), At(reply.receivedAt + LIFETIME - BUFFER));
  }

  // ----- the same, in seconds ------------------------------------------------------------------

  /** A login is remembered for 25 minutes from its receipt, five less than the server honours it. */
  lemma RememberedFor(reply: Reply)
    requires reply.Granted?
    ensures LoggedIn(reply) == Memory(Some(reply.token), Some(reply.receivedAt + 1500))
  {
  }

  /** What the reading takes over: always the token of the file, and its expiry if that is there and can be read. */
  lemma TakenFromFile(memory: Memory, token: Option<string>, expires: Expiry)
    ensures Loaded(memory, Stored(token, expires)).token == token
    ensures Loaded(memory, Stored(token, expires)).expires == match expires
                                                              case At(time) => Some(time)
                                                              case Absent => memory.expires
                                                              case Unparsable => memory.expires
    ensures Loaded(memory, Missing) == Loaded(memory, Garbled) == Loaded(memory, NoObject) == memory
  {
  }

  /** An empty token counts for none: the file is read instead, and it is never handed out without a login. */
  lemma EmptyTokenIsNone(expires: Option<int>, content: Content, now: int)
    ensures Asked(Memory(Some(""), expires), content) == Loaded(Memory(Some(""), expires), content)
    ensures !Usable(Memory(Some(""), expires), now)
  {
  }

  /** A remembered token is handed out without asking exactly while its expiry lies ahead. */
  lemma HandedOutFromMemory(events: seq<Event>, client: int, now: int, token: string, expires: int)
    requires client in Exec(events).clients && Exec(events).clients[client] == Memory(Some(token), Some(expires)) && token != ""
    ensures Handed(Exec(events), Ask(client, now)) == if now < expires then Some(Use(token, now)) else None
  {
  }

  /** A login hands out its token, when it is received, and leaves it in the memory of the client that asked and of no other. */
  lemma HandedOutAfterLogin(events: seq<Event>, client: int, reply: Reply, outcome: WriteOutcome)
    requires client in Exec(events).clients && reply.Granted?
    ensures Handed(Exec(events), Answer(client, reply, outcome)) == Some(Use(reply.token, reply.receivedAt))
    ensures var before, after := Exec(events).clients, Exec(events + [Answer(client, reply, outcome)]).clients;
            && after.Keys == before.Keys && after[client] == Memory(Some(reply.token), Some(reply.receivedAt + 1500))
            && forall other :: other in before && other != client ==> after[other] == before[other]
  {
    ExecOneMore(events, Answer(client, reply, outcome));
  }

  /** A client that is started remembers nothing, whatever it or another one remembered before. */
  lemma StartedWithNothing(events: seq<Event>, client: int)
    ensures var after := Exec(events + [Start(client)]);
            && client in after.clients && after.clients[client] == Memory(None, None) && after.content == Exec(events).content
            && forall other :: other in Exec(events).clients && other != client ==>
                 other in after.clients && after.clients[other] == Exec(events).clients[other]
  {
    ExecOneMore(events, Start(client));
  }

  /**
   * With login latency at most `d` seconds, every token handed out in any run stems from a login of this run
   * and has more than 300 seconds less `d` left of the 1800 for which the server honours it.
   */
  lemma HandedTokensInSeconds(events: seq<Event>, event: Event, d: int)
    requires Handed(Exec(events), event).Some?
    requires forall i: nat :: i < |events| + 1 && (events + [event])[i].Answer? && (events + [event])[i].reply.Granted? ==>
               (events + [event])[i].reply.receivedAt - (events + [event])[i].reply.issuedAt <= d
    ensures var use, all := Handed(Exec(events), event).value, events + [event];
            exists i: nat :: i < |all| && all[i].Answer? && all[i].reply.Granted? && all[i].reply.token == use.token
                             && all[i].reply.issuedAt + 1800 - use.time > 300 - d
  {
    var use, all := Handed(Exec(events), event).value, events + [event];
    HandedTokensAreAlive(events, event, d);
    var i: nat :| LeftAt(all, i, use, BUFFER - d);
    assert i < |all| && all[i].Answer?;
  }

  /** After a restart a saved login is used until 1500 seconds after its receipt. */
  lemma ReusedForSeconds(events: seq<Event>, client: int, reply: Reply, now: int)
    requires client in Exec(events).clients && reply.Granted? && reply.token != ""
    ensures var restarted := events + [Answer(client, reply, Written)] + [Start(client)];
            Handed(Exec(restarted), Ask(client, now)) == if now < reply.receivedAt + 1500 then Some(Use(reply.token, now)) else None
  {
    RestartReusesLogin(events, client, reply, now);
  }
}
