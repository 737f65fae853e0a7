/**
 * The command registry: a map from the command word a client sends to the
 * command that answers it, the history list beside it, the help listing it
 * prints, and the registrations the server makes at start-up.
 */
module Registry {
  import opened Util
  import opened Models
  import opened Envelope
  import opened Collection
  import opened CommandBase
  import opened StoreCommands
  import opened QueryCommands
  import opened ShowCommand
  import opened UserCommands

  /**
   * Everything outside the model that the commands consult: the product
   * table's insert and delete, the rendering of product fields, the
   * password hashing, the clock, and the user table.
   */
  datatype Env = Env(
    insert: Product -> int,
    delete: int -> Deletion,
    render: Product -> FieldTexts,
    hash: string -> Hashed,
    now: Time,
    insertUser: User -> Outcome<Int32>,
    verify: (Option<string>, Option<string>) -> Outcome<bool>,
    lookup: Option<string> -> Outcome<Option<User>>)

  const UNKNOWN_COMMAND: string := "Команда не найдена, " + "введите help " + "для справки"
  const LIST_HEADER: string := "Command List:\n"

  /** One line of the listing: " %-35s%-1s%n" of a name and a description. */
  function Line(name: string, description: string): string
  {
    " " + PadRight(name, 35) + PadRight(description, 1) + "\n"
  }

  function Entry(k: CommandKind): string
  {
    Line(Name(k), Description(k))
  }

  /** The lines of the commands registered under the names in order, in that order. */
  function Entries(commands: map<string, CommandKind>, order: seq<string>): seq<string>
  {
    if order == [] then []
    else
      var last := order[|order| - 1];
      Entries(commands, order[..|order| - 1]) + (if last in commands then [Entry(commands[last])] else [])
  }

  /** The lines written one after the other. */
  function Concat(lines: seq<string>): string
  {
    if lines == [] then "" else Concat(lines[..|lines| - 1]) + lines[|lines| - 1]
  }

  /**
   * toString(): the header, then one line per registered command in the
   * map's iteration order, which order stands for.
   */
  function Listing(commands: map<string, CommandKind>, order: seq<string>): string
  {
    LIST_HEADER + Concat(Entries(commands, order))
  }

  /**
   * The listing has one line for each visited name that is registered, and
   * only for those: every line belongs to some registered, visited name.
   */
  lemma {:induction false} EntriesExact(commands: map<string, CommandKind>, order: seq<string>)
    ensures forall n :: n in commands && n in order ==> Entry(commands[n]) in Entries(commands, order)
    ensures forall e :: e in Entries(commands, order) ==>
      exists n :: n in commands && n in order && e == Entry(commands[n])
    ensures |Entries(commands, order)| <= |order|
  {
    if order != [] {
      var init := order[..|order| - 1];
      var last := order[|order| - 1];
      EntriesExact(commands, init);
      assert order == init + [last];
      forall n | n in commands && n in order
        ensures Entry(commands[n]) in Entries(commands, order)
      {
        if n != last {
          assert n in init;
        }
      }
      forall e | e in Entries(commands, order)
        ensures exists n :: n in commands && n in order && e == Entry(commands[n])
      {
        if e in Entries(commands, init) {
          var n :| n in commands && n in init && e == Entry(commands[n]);
          assert n in order;
        } else {
          assert last in commands && e == Entry(commands[last]);
        }
      }
    }
  }

  /** Names visited without repetition. */
  predicate Distinct(order: seq<string>)
  {
    forall i, j :: 0 <= i < j < |order| ==> order[i] != order[j]
  }

  /** Without repetition, each registered name visited gives one line. */
  lemma {:induction false} EntriesCount(commands: map<string, CommandKind>, order: seq<string>)
    requires Distinct(order)
    ensures |Entries(commands, order)| == |set n | n in order && n in commands|
  {
    if order != [] {
      var init := order[..|order| - 1];
      var last := order[|order| - 1];
      assert Distinct(init);
      EntriesCount(commands, init);
      var before := set n | n in init && n in commands;
      assert order == init + [last];
      assert last !in init;
      if last in commands {
        assert (set n | n in order && n in commands) == before + {last};
      } else {
        assert (set n | n in order && n in commands) == before;
      }
    }
  }

  /**
   * When the names are visited as the map's iteration visits its keys,
   * each exactly once, the listing has exactly one line per registered
   * command.
   */
  lemma EntriesPerCommand(commands: map<string, CommandKind>, order: seq<string>)
    requires Distinct(order) && (set n | n in order) == commands.Keys
    ensures |Entries(commands, order)| == |commands|
    ensures forall n :: n in commands ==> Entry(commands[n]) in Entries(commands, order)
  {
    EntriesCount(commands, order);
    EntriesExact(commands, order);
    assert (set n | n in order && n in commands) == commands.Keys;
  }

  /** Every name fits the 35-column field. */
  lemma NameFits(k: CommandKind)
    ensures |Name(k)| <= 35
  {
  }

  /** A line is a space, the name padded to 35 columns, the description and a line break. */
  lemma LineColumns(name: string, description: string)
    requires |name| <= 35 && |description| >= 1
    ensures |Line(name, description)| == 1 + 35 + |description| + 1
    ensures Line(name, description)[1..1 + |name|] == name
    ensures forall i :: 1 + |name| <= i < 36 ==> Line(name, description)[i] == ' '
    ensures Line(name, description)[36..36 + |description|] == description
  {
    var p := PadRight(name, 35);
    var e := " " + p + description + "\n";
    assert e[1..36] == p;
    assert e[1..1 + |name|] == p[..|name|];
    assert e[36..36 + |description|] == description;
  }

  // ---------------------------------------------------------------------
  // Dispatch

  /** The reply a command gives and the collection it leaves behind. */
  function Dispatch(k: CommandKind, req: RequestView, items: seq<Product>,
                    lastInit: Option<Time>, lastSave: Option<Time>, env: Env, listing: string)
    : (Reply, seq<Product>)
  {
    match k
    case HelpCmd => (HelpResult(req, listing), items)
    case InfoCmd => (InfoResult(req, COLLECTION_TYPE, |items|, lastInit, lastSave), items)
    case ShowCmd => (ShowResult(req, items, env.render), items)
    case AddCmd => AddResult(req, items, env.insert)
    case UpdateCmd => UpdateResult(req, items)
    case RemoveByIdCmd => RemoveByIdResult(req, items, env.delete)
    case ClearCmd => ClearResult(req, items)
    case RemoveGreaterCmd => RemoveBeyondResult(req, items, env.delete, Greater)
    case RemoveLowerCmd => RemoveBeyondResult(req, items, env.delete, Lower)
    case AddIfMinCmd => AddIfMinResult(req, items, env.insert)
    case SumOfPriceCmd => (SumOfPriceResult(req, items), items)
    case RegisterCmd => (RegisterResult(req, env.hash, env.now, env.insertUser).0, items)
    case LoginCmd => (Responded(LoginResult(req, env.verify, env.lookup)), items)
    case ExecuteScriptCmd => (NoResponse, items)
    case ExitCmd => (ExitResult(req), items)
  }

  /** handle: the registered command's reply, or the not-found failure. */
  function HandleResult(commands: map<string, CommandKind>, req: RequestView, items: seq<Product>,
                        lastInit: Option<Time>, lastSave: Option<Time>, env: Env, order: seq<string>)
    : (Reply, seq<Product>)
  {
    if req.command.None? || req.command.value !in commands then (Responded(Fail(UNKNOWN_COMMAND)), items)
    else Dispatch(commands[req.command.value], req, items, lastInit, lastSave, env, Listing(commands, order))
  }

  /** The commands that only read leave the collection as it was. */
  lemma ReadOnlyCommands(k: CommandKind, req: RequestView, items: seq<Product>,
                         lastInit: Option<Time>, lastSave: Option<Time>, env: Env, listing: string)
    requires k in {HelpCmd, InfoCmd, ShowCmd, SumOfPriceCmd, RegisterCmd, LoginCmd, ExecuteScriptCmd, ExitCmd}
    ensures Dispatch(k, req, items, lastInit, lastSave, env, listing).1 == items
  {
  }

  /**
   * A name that is not registered gets the not-found failure and changes
   * nothing; a registered one gets exactly its command's reply.
   */
  lemma HandleContract(commands: map<string, CommandKind>, req: RequestView, items: seq<Product>,
                       lastInit: Option<Time>, lastSave: Option<Time>, env: Env, order: seq<string>)
    ensures var (reply, after) := HandleResult(commands, req, items, lastInit, lastSave, env, order);
      (req.command.None? || req.command.value !in commands) <==>
        (reply == Responded(Response(false, Some(UNKNOWN_COMMAND), None)) && after == items
         && (req.command.None? || req.command.value !in commands))
    ensures req.command.Some? && req.command.value in commands ==>
      HandleResult(commands, req, items, lastInit, lastSave, env, order)
        == Dispatch(commands[req.command.value], req, items, lastInit, lastSave, env, Listing(commands, order))
  {
  }

  /**
   * Registering a name makes it answer with the new command; any other
   * name that is not help answers as before.
   */
  lemma HandleAfterRegister(commands: map<string, CommandKind>, n: string, k: CommandKind, req: RequestView,
                            items: seq<Product>, lastInit: Option<Time>, lastSave: Option<Time>, env: Env, order: seq<string>)
    requires req.command.Some?
    ensures req.command.value == n ==>
      HandleResult(commands[n := k], req, items, lastInit, lastSave, env, order)
        == Dispatch(k, req, items, lastInit, lastSave, env, Listing(commands[n := k], order))
    ensures req.command.value != n && (req.command.value in commands ==> commands[req.command.value] != HelpCmd) ==>
      HandleResult(commands[n := k], req, items, lastInit, lastSave, env, order)
        == HandleResult(commands, req, items, lastInit, lastSave, env, order)
  {
  }

  lemma EntriesSnoc(commands: map<string, CommandKind>, order: seq<string>, i: nat)
    requires i < |order|
    ensures Entries(commands, order[..i + 1])
      == Entries(commands, order[..i]) + (if order[i] in commands then [Entry(commands[order[i]])] else [])
  {
    var o := order[..i + 1];
    assert o[..|o| - 1] == order[..i];
    assert o[|o| - 1] == order[i];
  }

  lemma ConcatSnoc(lines: seq<string>, line: string)
    ensures Concat(lines + [line]) == Concat(lines) + line
  {
    assert (lines + [line])[..|lines|] == lines;
  }

  // ---------------------------------------------------------------------
  // The registry object

  class CommandManager {
    var commands: map<string, CommandKind>
    var history: seq<string>

    constructor ()
      ensures commands == map[] && history == []
    {
      commands := map[];
      history := [];
    }

    /** register: the last registration of a name wins; other names keep theirs. */
    method Register(name: string, command: CommandKind)
      modifies this`commands
      ensures commands == old(commands)[name := command]
      ensures name in commands && commands[name] == command
      ensures forall n :: n != name ==> (n in commands <==> n in old(commands))
      ensures forall n :: n != name && n in commands ==> commands[n] == old(commands)[n]
    {
      commands := commands[name := command];
    }

    /** addToHistory: one entry appended at the end. */
    method AddToHistory(command: string)
      modifies this`history
      ensures history == old(history) + [command]
    {
      history := history + [command];
    }

    /** toString, visiting the registered names in the order given. */
    method ToString(order: seq<string>) returns (s: string)
      ensures s == Listing(commands, order)
    {
      var body := "";
      ghost var lines: seq<string> := [];
      for i := 0 to |order|
        invariant lines == Entries(commands, order[..i])
        invariant body == Concat(lines)
      {
        EntriesSnoc(commands, order, i);
        if order[i] in commands {
          var line := Entry(commands[order[i]]);
          ConcatSnoc(lines, line);
          lines := lines + [line];
          body := body + line;
        } else {
          assert lines + [] == lines;
        }
      }
      assert order[..|order|] == order;
      s := LIST_HEADER + body;
    }

    /** handle: look the command word up and run the command, or answer not found. */
    method Handle(request: Request, store: ProductCollectionManager, env: Env, order: seq<string>)
      returns (reply: Reply)
      requires store.Valid()
      modifies store`items
      ensures store.Valid()
      ensures (reply, store.items)
        == HandleResult(commands, request.View(), old(store.items), store.lastInitTime, store.lastSaveTime, env, order)
    {
      var req := request.View();
      if req.command.None? || req.command.value !in commands {
        return Responded(Fail(UNKNOWN_COMMAND));
      }
      var k := commands[req.command.value];
      match k {
        case HelpCmd =>
          var listing := ToString(order);
          reply := HelpResult(req, listing);
        case InfoCmd =>
          reply := ExecuteInfo(store, req);
        case ShowCmd =>
          reply := ExecuteShow(store, req, env.render);
        case AddCmd =>
          reply := ExecuteAdd(store, req, env.insert);
        case UpdateCmd =>
          reply := ExecuteUpdate(store, req);
        case RemoveByIdCmd =>
          reply := ExecuteRemoveById(store, req, env.delete);
        case ClearCmd =>
          reply := ExecuteClear(store, req);
        case RemoveGreaterCmd =>
          reply := ExecuteRemoveBeyond(store, req, env.delete, Greater);
        case RemoveLowerCmd =>
          reply := ExecuteRemoveBeyond(store, req, env.delete, Lower);
        case AddIfMinCmd =>
          reply := ExecuteAddIfMin(store, req, env.insert);
        case SumOfPriceCmd =>
          reply := SumOfPriceResult(req, store.items);
        case RegisterCmd =>
          reply := RegisterResult(req, env.hash, env.now, env.insertUser).0;
        case LoginCmd =>
          reply := Responded(LoginResult(req, env.verify, env.lookup));
        case ExecuteScriptCmd =>
          reply := NoResponse;
        case ExitCmd =>
          reply := ExitResult(req);
      }
    }
  }

  // ---------------------------------------------------------------------
  // Registration at start-up

  /** The fourteen registrations of initCommands, in order, applied to a registry. */
  function WithServerCommands(m: map<string, CommandKind>): map<string, CommandKind>
  {
    m["help" := HelpCmd]["info" := InfoCmd]["show" := ShowCmd]["add" := AddCmd]
     ["update" := UpdateCmd]["remove_by_id" := RemoveByIdCmd]["clear" := ClearCmd]
     ["remove_greater" := RemoveGreaterCmd]["remove_lower" := RemoveLowerCmd]
     ["add_if_min" := AddIfMinCmd]["sum_of_price" := SumOfPriceCmd]
     ["register" := RegisterCmd]["login" := LoginCmd]["execute_script" := ExecuteScriptCmd]
  }

  /** The registry the server starts with. */
  const SERVER_COMMANDS: map<string, CommandKind> := WithServerCommands(map[])

  /** initCommands: fourteen registrations into the given registry. */
  method InitCommands(manager: CommandManager)
    modifies manager`commands
    ensures manager.commands == WithServerCommands(old(manager.commands))
  {
    manager.Register("help", HelpCmd);
    manager.Register("info", InfoCmd);
    manager.Register("show", ShowCmd);
    manager.Register("add", AddCmd);
    manager.Register("update", UpdateCmd);
    manager.Register("remove_by_id", RemoveByIdCmd);
    manager.Register("clear", ClearCmd);
    manager.Register("remove_greater", RemoveGreaterCmd);
    manager.Register("remove_lower", RemoveLowerCmd);
    manager.Register("add_if_min", AddIfMinCmd);
    manager.Register("sum_of_price", SumOfPriceCmd);
    manager.Register("register", RegisterCmd);
    manager.Register("login", LoginCmd);
    manager.Register("execute_script", ExecuteScriptCmd);
  }

  /** The key word of a command's name: everything before the first space. */
  predicate KeyWordOf(n: string, k: CommandKind)
  {
    |n| <= |Name(k)| && Name(k)[..|n|] == n && (|n| == |Name(k)| || Name(k)[|n|] == ' ')
  }

  /** After start-up the registry holds exactly the fourteen names initCommands registers. */
  lemma ServerCommandNames()
    ensures SERVER_COMMANDS.Keys == {"help", "info", "show", "add", "update", "remove_by_id", "clear",
      "remove_greater", "remove_lower", "add_if_min", "sum_of_price", "register", "login", "execute_script"}
  {
  }

  /** Neither exit nor save is a registered name. */
  lemma ExitAndSaveUnregistered()
    ensures "exit" !in SERVER_COMMANDS && "save" !in SERVER_COMMANDS
  {
    ServerCommandNames();
  }

  /** The command each of the first three names is registered under. */
  lemma ServerLookupsFirst()
    ensures SERVER_COMMANDS["help"] == HelpCmd
    ensures SERVER_COMMANDS["info"] == InfoCmd
    ensures SERVER_COMMANDS["show"] == ShowCmd
  {
  }

  /** The command each of the next four names is registered under. */
  lemma ServerLookupsMiddle()
    ensures SERVER_COMMANDS["add"] == AddCmd
    ensures SERVER_COMMANDS["update"] == UpdateCmd
    ensures SERVER_COMMANDS["remove_by_id"] == RemoveByIdCmd
    ensures SERVER_COMMANDS["clear"] == ClearCmd
  {
  }

  /** The command each of the last seven names is registered under. */
  lemma ServerLookupsLast()
    ensures SERVER_COMMANDS["remove_greater"] == RemoveGreaterCmd
    ensures SERVER_COMMANDS["remove_lower"] == RemoveLowerCmd
    ensures SERVER_COMMANDS["add_if_min"] == AddIfMinCmd
    ensures SERVER_COMMANDS["sum_of_price"] == SumOfPriceCmd
    ensures SERVER_COMMANDS["register"] == RegisterCmd
    ensures SERVER_COMMANDS["login"] == LoginCmd
    ensures SERVER_COMMANDS["execute_script"] == ExecuteScriptCmd
  {
  }

  /** Each registered name is the key word of its command's name. */
  lemma KeyWords()
    ensures KeyWordOf("help", HelpCmd)
    ensures KeyWordOf("info", InfoCmd)
    ensures KeyWordOf("show", ShowCmd)
    ensures KeyWordOf("add", AddCmd)
    ensures KeyWordOf("update", UpdateCmd)
    ensures KeyWordOf("remove_by_id", RemoveByIdCmd)
    ensures KeyWordOf("clear", ClearCmd)
    ensures KeyWordOf("remove_greater", RemoveGreaterCmd)
    ensures KeyWordOf("remove_lower", RemoveLowerCmd)
    ensures KeyWordOf("add_if_min", AddIfMinCmd)
    ensures KeyWordOf("sum_of_price", SumOfPriceCmd)
    ensures KeyWordOf("register", RegisterCmd)
    ensures KeyWordOf("login", LoginCmd)
    ensures KeyWordOf("execute_script", ExecuteScriptCmd)
  {
  }

  /** Each name is registered under the command whose own name begins with it. */
  lemma ServerCommandsContract()
    ensures forall n :: n in SERVER_COMMANDS ==> KeyWordOf(n, SERVER_COMMANDS[n])
  {
    ServerCommandNames();
    ServerLookupsFirst();
    ServerLookupsMiddle();
    ServerLookupsLast();
    KeyWords();
  }

  /** The exit command is registered under no name. */
  lemma ExitNeverRegistered()
    ensures forall n :: n in SERVER_COMMANDS ==> SERVER_COMMANDS[n] != ExitCmd
  {
    ServerCommandNames();
    ServerLookupsFirst();
    ServerLookupsMiddle();
    ServerLookupsLast();
  }

  /**
   * A fresh server registry answers exit and save with the not-found
   * failure, and execute_script with no reply at all.
   */
  lemma ServerHandles(req: RequestView, items: seq<Product>, lastInit: Option<Time>, lastSave: Option<Time>,
                      env: Env, order: seq<string>)
    ensures req.command == Some("exit") || req.command == Some("save") ==>
      HandleResult(SERVER_COMMANDS, req, items, lastInit, lastSave, env, order)
        == (Responded(Fail(UNKNOWN_COMMAND)), items)
    ensures req.command == Some("execute_script") ==>
      HandleResult(SERVER_COMMANDS, req, items, lastInit, lastSave, env, order) == (NoResponse, items)
  {
    ExitAndSaveUnregistered();
  }
}
