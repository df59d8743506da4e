/** The language-server session: lifecycle and ordered document notifications (session.rs, server.rs). */
module Session {
  import opened Wrappers
  import opened Documents

  datatype State = Uninitialized | AwaitingInitialized | Running | Shutdown

  /** `None` parameters are those that do not decode; `valid` says whether they do. */
  datatype Message =
    | Initialize(valid: bool)
    | ShutdownRequest(valid: bool)
    | OtherRequest
    | Initialized(valid: bool)
    | Exit(valid: bool)
    | Edited(edit: Option<Edit>)
    | Optional           // a notification whose method starts with "$/"
    | OtherNotification
    | Response

  datatype Code = InvalidRequest | InvalidParams | ServerNotInitialized | MethodNotFound

  datatype Action = Nothing | Accepted | Rejected(code: Code) | Leave(success: bool)

  datatype World = World(state: State, workspace: Workspace)

  // ------------------------------------------------------------------ one message

  predicate IsRequest(m: Message) {
    m.Initialize? || m.ShutdownRequest? || m.OtherRequest?
  }

  /** Whether a lifecycle message moves the session on. */
  predicate Advances(state: State, m: Message) {
    || (m == Initialize(true) && state == Uninitialized)
    || (m == Initialized(true) && state == AwaitingInitialized)
    || (m == ShutdownRequest(true) && state == Running)
  }

  function Following(state: State): State {
    match state
    case Uninitialized => AwaitingInitialized
    case AwaitingInitialized => Running
    case _ => Shutdown
  }

  /** Whether a document notification takes effect. */
  predicate TakesEffect(n: Naming, w: World, m: Message) {
    m.Edited? && m.edit.Some? && w.state == Running && Accepts(n, w.workspace, m.edit.value)
  }

  function Next(n: Naming, w: World, m: Message): World {
    if Advances(w.state, m) then w.(state := Following(w.state))
    else if TakesEffect(n, w, m) then w.(workspace := Apply(n, w.workspace, m.edit.value))
    else w
  }

  function Reply(state: State, m: Message): Action
    requires IsRequest(m)
  {
    if state == Shutdown then Rejected(InvalidRequest)
    else if m.Initialize? then
      if state != Uninitialized then Rejected(InvalidRequest) else if m.valid then Accepted else Rejected(InvalidParams)
    else if state != Running then Rejected(ServerNotInitialized)
    else if m.ShutdownRequest? then if m.valid then Accepted else Rejected(InvalidParams)
    else Rejected(MethodNotFound)
  }

  function Answer(state: State, m: Message): Action {
    if IsRequest(m) then Reply(state, m)
    else if m.Exit? then Leave(m.valid && state == Shutdown)
    else Nothing
  }

  /**
   * A request is accepted exactly if it advances the session. Otherwise the code tells why: bad parameters where good
   * ones would have advanced it, a request before the handshake, an unknown request while running, or a wrong time.
   */
  lemma RepliesExactly(state: State, m: Message)
    requires IsRequest(m)
    ensures Reply(state, m) == Accepted <==> Advances(state, m)
    ensures Reply(state, m) == Rejected(InvalidParams) <==>
              !Advances(state, m) && !m.OtherRequest? && Advances(state, m.(valid := true))
    ensures Reply(state, m) == Rejected(MethodNotFound) <==> state == Running && m.OtherRequest?
    ensures Reply(state, m) == Rejected(ServerNotInitialized) <==>
              !m.Initialize? && (state == Uninitialized || state == AwaitingInitialized)
    ensures Reply(state, m) == Rejected(InvalidRequest) <==> state == Shutdown || (m.Initialize? && state != Uninitialized)
  {
  }

  class Session {
    var state: State
    const documents: OpenDocuments

    ghost function View(): World
      reads this, documents
    {
      World(state, documents.View())
    }

    constructor (naming: Naming, source: Database)
      ensures documents.naming == naming && View() == World(Uninitialized, Workspace(source, map[])) && fresh(documents)
    {
      state := Uninitialized;
      documents := new OpenDocuments(naming, source);
    }

    method Handle(m: Message) returns (action: Action)
      modifies this, documents
      ensures View() == Next(documents.naming, old(View()), m)
      ensures action == Answer(old(state), m)
    {
      if IsRequest(m) {
        action := HandleRequest(m);
      } else if m.Response? {
        action := Nothing;
      } else {
        action := HandleNotification(m);
      }
    }

    method HandleRequest(m: Message) returns (action: Action)
      requires IsRequest(m)
      modifies this
      ensures state == if Advances(old(state), m) then Following(old(state)) else old(state)
      ensures action == Reply(old(state), m)
    {
      if state == Shutdown {
        return Rejected(InvalidRequest);
      }
      if m.Initialize? {
        if state != Uninitialized {
          return Rejected(InvalidRequest);
        }
        if !m.valid {
          return Rejected(InvalidParams);
        }
        state := AwaitingInitialized;
        return Accepted;
      }
      if state == Uninitialized || state == AwaitingInitialized {
        return Rejected(ServerNotInitialized);
      }
      if m.ShutdownRequest? {
        if !m.valid {
          return Rejected(InvalidParams);
        }
        state := Shutdown;
        return Accepted;
      }
      return Rejected(MethodNotFound);
    }

    method HandleNotification(m: Message) returns (action: Action)
      requires !IsRequest(m) && !m.Response?
      modifies this, documents
      ensures View() == Next(documents.naming, old(View()), m)
      ensures action == Answer(old(state), m)
    {
      if m.Exit? {
        return Leave(m.valid && state == Shutdown);
      }
      if m.Initialized? {
        if state == AwaitingInitialized && m.valid {
          state := Running;
        }
      } else if state == Running && m.Edited? && m.edit.Some? {
        var _ := HandleEdit(m.edit.value);
      }
      return Nothing;
    }

    method HandleEdit(e: Edit) returns (accepted: bool)
      modifies documents
      ensures accepted == Accepts(documents.naming, old(documents.View()), e)
      ensures documents.View() == if accepted then Apply(documents.naming, old(documents.View()), e) else old(documents.View())
    {
      match e {
        case Open(uri, language, version, text) => accepted := documents.DidOpen(uri, language, version, text);
        case Change(uri, version, contents) => accepted := documents.DidChange(uri, version, contents);
        case Close(uri) => accepted := documents.DidClose(uri);
      }
    }
  }

  // -------------------------------------------------------------------- whole runs

  function After(n: Naming, w: World, messages: seq<Message>): World {
    if messages == [] then w else Next(n, After(n, w, messages[..|messages| - 1]), messages[|messages| - 1])
  }

  /** The history contains a well-formed initialize request, ... */
  ghost predicate Greeted(messages: seq<Message>) {
    Initialize(true) in messages
  }

  /** ... later a well-formed initialized notification, ... */
  ghost predicate Ready(messages: seq<Message>) {
    exists j | 0 <= j < |messages| :: messages[j] == Initialized(true) && Greeted(messages[..j])
  }

  /** ... and later still a well-formed shutdown request. */
  ghost predicate Closing(messages: seq<Message>) {
    exists l | 0 <= l < |messages| :: messages[l] == ShutdownRequest(true) && Ready(messages[..l])
  }

  lemma Grows(messages: seq<Message>, m: Message)
    ensures Greeted(messages + [m]) <==> Greeted(messages) || m == Initialize(true)
    ensures Ready(messages + [m]) <==> Ready(messages) || (m == Initialized(true) && Greeted(messages))
    ensures Closing(messages + [m]) <==> Closing(messages) || (m == ShutdownRequest(true) && Ready(messages))
  {
    var longer := messages + [m];
    assert forall k | 0 <= k <= |messages| :: longer[..k] == messages[..k];
    assert longer[..|messages|] == messages && longer[|messages|] == m;
    forall j | 0 <= j < |messages| ensures longer[j] == messages[j] && longer[..j] == messages[..j] {
    }
  }

  /** Progress is monotone: closing needs readiness, and readiness a greeting. */
  lemma Ordered(messages: seq<Message>)
    ensures Closing(messages) ==> Ready(messages)
    ensures Ready(messages) ==> Greeted(messages)
  {
  }

  /** The session state says exactly how much of the handshake happened, in order. */
  lemma {:induction false} Handshake(n: Naming, w: World, messages: seq<Message>)
    requires w.state == Uninitialized
    ensures var state := After(n, w, messages).state;
            && (state != Uninitialized <==> Greeted(messages))
            && (state == Running || state == Shutdown <==> Ready(messages))
            && (state == Shutdown <==> Closing(messages))
    decreases |messages|
  {
    if messages != [] {
      var before, m := messages[..|messages| - 1], messages[|messages| - 1];
      assert messages == before + [m];
      Handshake(n, w, before);
      Grows(before, m);
      Ordered(before);
    }
  }

  /** Runs the session on everything the client sends; the end of the input is a failure. */
  method Drive(session: Session, inbox: seq<Message>) returns (success: bool, handled: nat)
    requires session.state == Uninitialized
    modifies session, session.documents
    ensures handled <= |inbox| && session.View() == After(session.documents.naming, old(session.View()), inbox[..handled])
    ensures forall k | 0 <= k < handled - 1 :: !inbox[k].Exit?
    ensures handled < |inbox| ==> 0 < handled && inbox[handled - 1].Exit?
    ensures success <==> 0 < handled && inbox[handled - 1] == Exit(true) && Closing(inbox[..handled - 1])
  {
    ghost var start, n := session.View(), session.documents.naming;
    for k := 0 to |inbox|
      invariant session.View() == After(n, start, inbox[..k])
      invariant forall i | 0 <= i < k :: !inbox[i].Exit?
    {
      var action := session.Handle(inbox[k]);
      assert inbox[..k + 1][..k] == inbox[..k];
      if action.Leave? {
        Handshake(n, start, inbox[..k]);
        return action.success, k + 1;
      }
    }
    return false, |inbox|;
  }

  /**
   * A message changes documents exactly if it is a decodable edit, acceptable to the workspace, that arrives after the
   * handshake and before the shutdown; it then has exactly the edit's effect.
   */
  lemma EditsExactlyWhileRunning(n: Naming, w: World, messages: seq<Message>, m: Message)
    requires w.state == Uninitialized
    ensures var before, after := After(n, w, messages).workspace, After(n, w, messages + [m]).workspace;
            after == if Ready(messages) && !Closing(messages) && m.Edited? && m.edit.Some? && Accepts(n, before, m.edit.value)
                     then Apply(n, before, m.edit.value) else before
  {
    assert (messages + [m])[..|messages|] == messages;
    Handshake(n, w, messages);
  }

  // --------------------------------------------------------- what documents show

  /** The message takes effect on the document called `key`. */
  ghost predicate Touches(n: Naming, w: World, m: Message, key: string) {
    TakesEffect(n, w, m) && Key(n, m.edit.value.uri) == Some(key)
  }

  /** The text last accepted for a source; its base text after a close. */
  ghost function LastAccepted(n: Naming, w: World, messages: seq<Message>, key: string): Option<string> {
    if messages == [] then TextOf(w.workspace, key)
    else
      var before, m := messages[..|messages| - 1], messages[|messages| - 1];
      var previous := LastAccepted(n, w, before, key);
      if !Touches(n, After(n, w, before), m, key) then previous
      else
        match m.edit.value
        case Open(_, _, _, text) => Some(text)
        case Change(_, _, contents) => if contents == [] then previous else Some(contents[|contents| - 1].text)
        case Close(_) => BaseOf(w.workspace, key)
  }

  /** One message keeps the workspace consistent and leaves every document it does not touch alone. */
  lemma NextKeeps(n: Naming, w: World, m: Message, key: string)
    requires Consistent(w.workspace)
    ensures var after := Next(n, w, m).workspace;
            && Consistent(after) && LayersKept(w.workspace, after)
            && (!Touches(n, w, m, key) ==>
                  && TextOf(after, key) == TextOf(w.workspace, key) && IsOpen(after, key) == IsOpen(w.workspace, key)
                  && (IsOpen(w.workspace, key) ==> VersionOf(after, key) == VersionOf(w.workspace, key)))
  {
    if TakesEffect(n, w, m) {
      match m.edit.value
      case Open(_, _, _, _) => OpenEffects(n, w.workspace, m.edit.value);
      case Change(_, _, _) => ChangeEffects(n, w.workspace, m.edit.value);
      case Close(_) => CloseEffects(n, w.workspace, m.edit.value);
    }
  }

  /** After every run each source shows exactly the text last accepted for it; base texts never change. */
  lemma {:induction false} ShowsLastAccepted(n: Naming, w: World, messages: seq<Message>, key: string)
    requires Consistent(w.workspace)
    ensures var after := After(n, w, messages).workspace;
            && Consistent(after) && BaseOf(after, key) == BaseOf(w.workspace, key)
            && (IdOf(w.workspace, key).Some? ==> IdOf(after, key) == IdOf(w.workspace, key))
            && TextOf(after, key) == LastAccepted(n, w, messages, key)
    decreases |messages|
  {
    if messages != [] {
      var before, m := messages[..|messages| - 1], messages[|messages| - 1];
      ShowsLastAccepted(n, w, before, key);
      var middle := After(n, w, before);
      NextKeeps(n, middle, m, key);
      if Touches(n, middle, m, key) {
        match m.edit.value
        case Open(_, _, _, _) => OpenEffects(n, middle.workspace, m.edit.value);
        case Change(_, _, _) => ChangeEffects(n, middle.workspace, m.edit.value);
        case Close(_) => CloseEffects(n, middle.workspace, m.edit.value);
      }
    }
  }

  ghost predicate Closes(n: Naming, w: World, m: Message, key: string) {
    Touches(n, w, m, key) && m.edit.value.Close?
  }

  ghost predicate Changes(n: Naming, w: World, m: Message, key: string) {
    Touches(n, w, m, key) && m.edit.value.Change?
  }

  /** No message of the history closes the document. */
  ghost predicate StaysOpen(n: Naming, w: World, messages: seq<Message>, key: string) {
    forall k | 0 <= k < |messages| :: !Closes(n, After(n, w, messages[..k]), messages[k], key)
  }

  ghost predicate Edits(n: Naming, w: World, messages: seq<Message>, key: string) {
    exists k | 0 <= k < |messages| :: Changes(n, After(n, w, messages[..k]), messages[k], key)
  }

  lemma HistoryStep(n: Naming, w: World, before: seq<Message>, m: Message, key: string)
    ensures StaysOpen(n, w, before + [m], key) ==> StaysOpen(n, w, before, key) && !Closes(n, After(n, w, before), m, key)
    ensures Edits(n, w, before + [m], key) <==> Edits(n, w, before, key) || Changes(n, After(n, w, before), m, key)
  {
    var messages, last := before + [m], |before|;
    assert messages[..last] == before && messages[last] == m;
    forall k | 0 <= k < last ensures before[..k] == messages[..k] && before[k] == messages[k] {
    }
    if StaysOpen(n, w, messages, key) {
      forall k | 0 <= k < last ensures !Closes(n, After(n, w, before[..k]), before[k], key) {
        assert !Closes(n, After(n, w, messages[..k]), messages[k], key);
      }
    }
    if Edits(n, w, before, key) {
      var k :| 0 <= k < last && Changes(n, After(n, w, before[..k]), before[k], key);
      assert Changes(n, After(n, w, messages[..k]), messages[k], key);
    }
  }

  lemma VersionStep(n: Naming, w: World, m: Message, key: string)
    requires Consistent(w.workspace) && IsOpen(w.workspace, key) && !Closes(n, w, m, key)
    ensures var after := Next(n, w, m).workspace;
            && IsOpen(after, key) && VersionOf(w.workspace, key) <= VersionOf(after, key)
            && (Changes(n, w, m, key) <==> VersionOf(w.workspace, key) < VersionOf(after, key))
  {
    NextKeeps(n, w, m, key);
    if Touches(n, w, m, key) {
      ChangeEffects(n, w.workspace, m.edit.value);
    }
  }

  /** Until it is closed, a document stays open, and its version rises exactly with accepted changes. */
  lemma {:induction false} VersionsIncrease(n: Naming, w: World, messages: seq<Message>, key: string)
    requires Consistent(w.workspace) && IsOpen(w.workspace, key) && StaysOpen(n, w, messages, key)
    ensures var after := After(n, w, messages).workspace;
            && IsOpen(after, key) && VersionOf(w.workspace, key) <= VersionOf(after, key)
            && (Edits(n, w, messages, key) <==> VersionOf(w.workspace, key) < VersionOf(after, key))
    decreases |messages|
  {
    if messages != [] {
      var before, m := messages[..|messages| - 1], messages[|messages| - 1];
      assert messages == before + [m];
      HistoryStep(n, w, before, m, key);
      VersionsIncrease(n, w, before, key);
      ShowsLastAccepted(n, w, before, key);
      VersionStep(n, After(n, w, before), m, key);
    }
  }
}
