/**
 * The server's handling of one decoded request: exit closes the
 * connection and asks the registry to save; other commands, except help,
 * register and login, need a user whose stored password matches; the
 * request then goes to the registry with the user's id attached.
 */
module RequestHandler {
  import opened Util
  import opened Models
  import opened Envelope
  import opened Collection
  import opened CommandBase
  import opened Registry

  const UNAUTHORIZED: string :=
    "Вы не вошли " + "в систему." + "\n" + "Введите register " + "<login> <password> " + "для регистрации " + "или login " + "<login> <password> " + "для входа"
  const INVALID_REQUEST: string := "Недействительный " + "запрос"

  /** Commands anyone may run without logging in. */
  predicate Open(command: Option<string>)
  {
    command == Some("help") || command == Some("register") || command == Some("login")
  }

  /** What the handler does with a request before the registry sees it. */
  datatype Decision =
    | CloseAndSave                          // exit: close the socket, dispatch the save request
    | Reject(response: Response)            // answer at once, the registry is not called
    | Forward(userId: Option<Option<Int32>>)  // dispatch; Some(id) when the user's id is attached

  /**
   * run up to handleRequest: the user lookup (skipped for open commands and
   * a missing login), the password check, and the choice; a lookup or
   * check that throws ends in the invalid-request answer.
   */
  function Decide(req: RequestView, lookup: Option<string> -> Outcome<Option<User>>,
                  verify: (Option<string>, Option<string>) -> Outcome<bool>): Decision
  {
    if req.command == Some("exit") then CloseAndSave
    else
      var found := if !Open(req.command) && req.login.Some? then lookup(req.login) else Done(None);
      if found.Thrown? then Reject(Fail(INVALID_REQUEST))
      else if found.value.Some? then
        var ok := verify(found.value.value.username, req.password);
        if ok.Thrown? then Reject(Fail(INVALID_REQUEST))
        else if ok.value then Forward(Some(found.value.value.id))
        else if Open(req.command) then Forward(None)
        else Reject(Fail(UNAUTHORIZED))
      else if Open(req.command) then Forward(None)
      else Reject(Fail(UNAUTHORIZED))
  }

  /** help, register and login always reach the registry, with no lookup and no user id attached. */
  lemma OpenCommandsForwarded(req: RequestView, lookup: Option<string> -> Outcome<Option<User>>,
                              verify: (Option<string>, Option<string>) -> Outcome<bool>)
    requires Open(req.command)
    ensures Decide(req, lookup, verify) == Forward(None)
  {
  }

  /**
   * Any other command except exit reaches the registry exactly when a login
   * is given, a user is stored under it and the password checks out against
   * that user; the user's id is then attached. Otherwise it is refused as
   * not logged in, or as invalid when the lookup or the check throws.
   */
  lemma GuardedCommands(req: RequestView, lookup: Option<string> -> Outcome<Option<User>>,
                        verify: (Option<string>, Option<string>) -> Outcome<bool>)
    requires !Open(req.command) && req.command != Some("exit")
    ensures Decide(req, lookup, verify).Forward? <==>
      req.login.Some? && lookup(req.login).Done? && lookup(req.login).value.Some?
      && verify(lookup(req.login).value.value.username, req.password) == Done(true)
    ensures Decide(req, lookup, verify).Forward? ==>
      Decide(req, lookup, verify).userId == Some(lookup(req.login).value.value.id)
    ensures Decide(req, lookup, verify).Reject? ==>
      Decide(req, lookup, verify).response == Fail(UNAUTHORIZED)
      || Decide(req, lookup, verify).response == Fail(INVALID_REQUEST)
    ensures req.login.None? ==> Decide(req, lookup, verify) == Reject(Fail(UNAUTHORIZED))
  {
  }

  /** What the client gets back on its connection. */
  datatype Handled =
    | Sent(response: Option<Response>)   // a response written back; None is a null response
    | Closed(saved: bool)                // exit: the socket is closed and nothing is written

  /** new Request("save", null). */
  const SAVE_VIEW: RequestView := RequestView(true, Some("save"), None, None, None, None)

  /** The whole of run for a request that decoded (Some) or did not (None). */
  function RunResult(input: Option<RequestView>, commands: map<string, CommandKind>, items: seq<Product>,
                     lastInit: Option<Time>, lastSave: Option<Time>, env: Env, order: seq<string>)
    : (Handled, seq<Product>)
  {
    if input.None? then (Sent(Some(Fail(INVALID_REQUEST))), items)
    else
      var req := input.value;
      match Decide(req, env.lookup, env.verify)
      case CloseAndSave =>
        var p := HandleResult(commands, SAVE_VIEW, items, lastInit, lastSave, env, order);
        (Closed(p.0.Responded? && p.0.response.success), p.1)
      case Reject(r) => (Sent(Some(r)), items)
      case Forward(uid) =>
        var sent := if uid.Some? then req.(userId := uid.value) else req;
        var p := HandleResult(commands, sent, items, lastInit, lastSave, env, order);
        if p.0.Escaped? then (Sent(Some(Fail(INVALID_REQUEST))), p.1)
        else (Sent(if p.0.Responded? then Some(p.0.response) else None), p.1)
  }

  /**
   * exit closes the connection without writing anything; the save request
   * it dispatches is not registered on the server, so the collection is
   * untouched and the save reports failure.
   */
  lemma ExitOnServer(req: RequestView, items: seq<Product>, lastInit: Option<Time>, lastSave: Option<Time>,
                     env: Env, order: seq<string>)
    requires req.command == Some("exit")
    ensures RunResult(Some(req), SERVER_COMMANDS, items, lastInit, lastSave, env, order) == (Closed(false), items)
  {
    ExitAndSaveUnregistered();
  }

  /**
   * A save request is never answered with success: without a verified user
   * it is refused, and with one it reaches a registry where save is not
   * registered. Either way the collection is untouched.
   */
  lemma SaveRefused(req: RequestView, items: seq<Product>, lastInit: Option<Time>, lastSave: Option<Time>,
                    env: Env, order: seq<string>)
    requires req.command == Some("save")
    ensures var (out, items') := RunResult(Some(req), SERVER_COMMANDS, items, lastInit, lastSave, env, order);
      out.Sent? && out.response.Some? && !out.response.value.success && items' == items
  {
    ExitAndSaveUnregistered();
  }

  /**
   * A refused request is answered without calling the registry, so the
   * collection is unchanged; one that is forwarded gets the registry's
   * reply to the request with the user's id attached, and an exception
   * escaping the command becomes the invalid-request answer.
   */
  lemma RunContract(req: RequestView, commands: map<string, CommandKind>, items: seq<Product>,
                    lastInit: Option<Time>, lastSave: Option<Time>, env: Env, order: seq<string>)
    ensures Decide(req, env.lookup, env.verify).Reject? ==>
      RunResult(Some(req), commands, items, lastInit, lastSave, env, order)
        == (Sent(Some(Decide(req, env.lookup, env.verify).response)), items)
    ensures Decide(req, env.lookup, env.verify) == Forward(None) ==>
      var p := HandleResult(commands, req, items, lastInit, lastSave, env, order);
      RunResult(Some(req), commands, items, lastInit, lastSave, env, order).1 == p.1
      && (p.0.Responded? ==> RunResult(Some(req), commands, items, lastInit, lastSave, env, order).0 == Sent(Some(p.0.response)))
      && (p.0.Escaped? ==> RunResult(Some(req), commands, items, lastInit, lastSave, env, order).0 == Sent(Some(Fail(INVALID_REQUEST))))
    ensures RunResult(None, commands, items, lastInit, lastSave, env, order) == (Sent(Some(Fail(INVALID_REQUEST))), items)
  {
  }

  /** run: decide, then close and save, answer at once, or attach the user id and dispatch. */
  method Run(input: Request?, manager: CommandManager, store: ProductCollectionManager, env: Env, order: seq<string>)
    returns (out: Handled)
    requires store.Valid()
    modifies store`items, input
    ensures store.Valid()
    ensures input == null ==>
      (out, store.items) == RunResult(None, manager.commands, old(store.items), store.lastInitTime, store.lastSaveTime, env, order)
    ensures input != null ==>
      (out, store.items) == RunResult(Some(old(input.View())), manager.commands,
                                      old(store.items), store.lastInitTime, store.lastSaveTime, env, order)
  {
    if input == null {
      return Sent(Some(Fail(INVALID_REQUEST)));
    }
    var req := input.View();
    var decision := Decide(req, env.lookup, env.verify);
    if decision.CloseAndSave? {
      var save := new Request.Named(Some("save"), None);
      assert save.View() == SAVE_VIEW;
      var r := manager.Handle(save, store, env, order);
      out := Closed(r.Responded? && r.response.success);
    } else if decision.Reject? {
      out := Sent(Some(decision.response));
    } else {
      if decision.userId.Some? {
        input.SetUserId(decision.userId.value);
      }
      var r := manager.Handle(input, store, env, order);
      if r.Escaped? {
        out := Sent(Some(Fail(INVALID_REQUEST)));
      } else {
        out := Sent(if r.Responded? then Some(r.response) else None);
      }
    }
  }
}
