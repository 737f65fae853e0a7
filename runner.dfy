/**
 * The client's command runner. A typed line is cut into a command name and
 * an argument; the argument's shape decides whether a request is sent;
 * execute_script runs the lines of a file, refusing a script that is already
 * running; and the interactive loop reads lines until a command returns
 * EXIT. Files, the product form and the server's answers are parameters.
 */
module ClientRunner {
  import opened Util
  import opened Models
  import opened Envelope

  /** Runner.ExitCode. */
  datatype ExitCode = OK | ERROR | EXIT

  /** The two strings of userCommand: the command name and its argument. */
  datatype Command = Command(name: string, arg: string)

  // ---------------------------------------------------------------------
  // Tokenizing a line

  /**
   * String.split on one literal character with a positive limit: the text
   * is cut at the first limit - 1 occurrences and the last piece keeps the
   * rest, empty pieces included.
   */
  function SplitLimit(s: string, c: char, limit: nat): (parts: seq<string>)
    requires limit >= 1
    ensures 1 <= |parts| <= limit
    ensures forall k :: 0 <= k < |parts| - 1 ==> c !in parts[k]
    decreases limit
  {
    if limit == 1 || c !in s then [s]
    else
      var i := IndexOf(s, c);
      [s[..i]] + SplitLimit(s[i + 1..], c, limit - 1)
  }

  /** The pieces joined back with the separator give the text that was split. */
  lemma {:induction false} SplitLimitJoin(s: string, c: char, limit: nat)
    requires limit >= 1
    ensures Join([c], SplitLimit(s, c, limit)) == s
    decreases limit
  {
    if limit > 1 && c in s {
      var i := IndexOf(s, c);
      var rest := SplitLimit(s[i + 1..], c, limit - 1);
      SplitLimitJoin(s[i + 1..], c, limit - 1);
      var parts := [s[..i]] + rest;
      assert parts[1..] == rest;
      assert s == s[..i] + [c] + s[i + 1..];
    }
  }

  /** There is one piece more than there are separators, up to the limit. */
  lemma {:induction false} SplitLimitCount(s: string, c: char, limit: nat)
    requires limit >= 1
    ensures |SplitLimit(s, c, limit)| == if Count(s, c) + 1 < limit then Count(s, c) + 1 else limit
    decreases limit
  {
    if c !in s {
      CountAbsent(s, c);
    } else if limit > 1 {
      var i := IndexOf(s, c);
      SplitLimitCount(s[i + 1..], c, limit - 1);
      CountSplit(s, c, i);
      CountAbsent(s[..i], c);
      assert s[i..][1..] == s[i + 1..];
    }
  }

  /** A trailing space disappears under trim. */
  lemma {:induction false} TrimStartSpace(x: string)
    ensures TrimStart(x + " ") == if TrimStart(x) == [] then [] else TrimStart(x) + " "
  {
    if x != [] && Blank(x[0]) {
      assert (x + " ")[1..] == x[1..] + " ";
      TrimStartSpace(x[1..]);
    } else if x == [] {
      assert TrimStart(" ") == TrimStart(" "[1..]);
    }
  }

  lemma TrimSpace(x: string)
    ensures Trim(x + " ") == Trim(x)
  {
    TrimStartSpace(x);
    var y := TrimStart(x);
    if y != [] {
      assert (y + " ")[..|y|] == y;
    }
  }

  /** A text whose last character is not blank does not trim to nothing. */
  lemma TrimKeepsLast(x: string)
    requires x != [] && !Blank(x[|x| - 1])
    ensures Trim(x) != []
  {
    var y := TrimStart(x);
    assert y != [];
    assert y[|y| - 1] == x[|x| - 1];
  }

  /** Cutting a + " " + b at its first space, when a holds none, gives a and b. */
  lemma CutAfter(a: string, b: string)
    requires ' ' !in a
    ensures SplitLimit(a + [' '] + b, ' ', 2) == [a, b]
  {
    IndexOfAfter(a, b, ' ');
    var u := a + [' '] + b;
    assert u[..|a|] == a;
    assert u[|a| + 1..] == b;
  }

  /** (t + " ").split(" ", 2) for an already trimmed t, the second part trimmed. */
  function Cut(t: string): (cmd: Command)
    ensures Trimmed(cmd.arg)
  {
    var u := t + " ";
    assert ' ' in u by { assert u[|t|] == ' '; }
    var parts := SplitLimit(u, ' ', 2);
    Command(parts[0], Trim(parts[1]))
  }

  /**
   * (line.trim() + " ").split(" ", 2), with the second part trimmed: the
   * name runs up to the first space and the argument is the trimmed rest.
   */
  function Tokenize(line: string): (cmd: Command)
    ensures Trimmed(cmd.arg)
  {
    Cut(Trim(line))
  }

  lemma CutWhole(t: string)
    requires ' ' !in t
    ensures Cut(t) == Command(t, [])
  {
    CutAfter(t, []);
    assert t + " " == t + [' '] + [];
  }

  lemma CutFirst(t: string)
    requires Trimmed(t) && ' ' in t
    ensures var i := IndexOf(t, ' ');
      0 < i && Cut(t) == Command(t[..i], Trim(t[i + 1..]))
  {
    var i := IndexOf(t, ' ');
    var a, r := t[..i], t[i + 1..];
    assert t == a + [' '] + r;
    assert t + " " == a + [' '] + (r + " ");
    CutAfter(a, r + " ");
    TrimSpace(r);
  }

  /**
   * The name holds no space and is empty only for a blank line. A line
   * with no inner space is all name; otherwise the name is the trimmed
   * line up to its first space and the argument is what follows, trimmed,
   * which is never empty.
   */
  lemma TokenizeContract(line: string)
    ensures var cmd := Tokenize(line); var t := Trim(line);
      ' ' !in cmd.name
      && (cmd.name == [] <==> t == [])
      && (' ' !in t ==> cmd == Command(t, []))
      && (' ' in t ==>
            |cmd.name| < |t| && t[..|cmd.name|] == cmd.name && t[|cmd.name|] == ' '
            && cmd.arg == Trim(t[|cmd.name| + 1..]) && cmd.arg != [])
      && (cmd.name != [] ==> !Blank(cmd.name[0]))
  {
    var t := Trim(line);
    assert Tokenize(line) == Cut(t);
    CutContract(t);
  }

  lemma CutContract(t: string)
    requires Trimmed(t)
    ensures var cmd := Cut(t);
      ' ' !in cmd.name
      && (cmd.name == [] <==> t == [])
      && (' ' !in t ==> cmd == Command(t, []))
      && (' ' in t ==>
            |cmd.name| < |t| && t[..|cmd.name|] == cmd.name && t[|cmd.name|] == ' '
            && cmd.arg == Trim(t[|cmd.name| + 1..]) && cmd.arg != [])
      && (cmd.name != [] ==> !Blank(cmd.name[0]))
  {
    if ' ' !in t {
      CutWhole(t);
    } else {
      CutSplit(t);
    }
  }

  /** A trimmed text with a space: the name is the text before the first space and the argument is not empty. */
  lemma CutSplit(t: string)
    requires Trimmed(t) && ' ' in t
    ensures var cmd := Cut(t); var i := IndexOf(t, ' ');
      0 < i == |cmd.name| && cmd.name == t[..i] && ' ' !in cmd.name && !Blank(cmd.name[0])
      && cmd.arg == Trim(t[i + 1..]) && cmd.arg != []
  {
    CutFirst(t);
    FirstSpace(t);
  }

  /** In a trimmed text, the first space has a non-blank before it and a non-blank rest after it. */
  lemma FirstSpace(t: string)
    requires Trimmed(t) && ' ' in t
    ensures var i := IndexOf(t, ' ');
      0 < i < |t| - 1 && !Blank(t[..i][0]) && Trim(t[i + 1..]) != []
  {
    var i := IndexOf(t, ' ');
    assert t[i] == ' ' && !Blank(t[|t| - 1]) && !Blank(t[0]);
    assert t[..i][0] == t[0];
    LastOfRest(t, i);
    TrimKeepsLast(t[i + 1..]);
  }

  /** String.join(" ", userCommand): the echo of a script line. */
  function Echo(cmd: Command): string
  {
    cmd.name + " " + cmd.arg
  }

  /** The echoed line reads back as the same command. */
  lemma EchoRoundTrip(line: string)
    ensures Tokenize(Echo(Tokenize(line))) == Tokenize(line)
  {
    TokenizeContract(line);
    EchoCut(Tokenize(line));
  }

  /**
   * A command of the shape the tokenizer returns (a name with no space that
   * starts with a character that is not blank, a trimmed argument, an empty
   * argument only after a whole trimmed name) reads back from its echo.
   */
  lemma EchoCut(cmd: Command)
    requires ' ' !in cmd.name && Trimmed(cmd.arg)
    requires cmd.name == [] ==> cmd.arg == []
    requires cmd.name != [] ==> !Blank(cmd.name[0])
    requires cmd.arg == [] ==> Trimmed(cmd.name)
    ensures Cut(Trim(Echo(cmd))) == cmd
  {
    if cmd.arg == [] {
      assert Echo(cmd) == cmd.name + " ";
      TrimSpace(cmd.name);
      TrimFixesTrimmed(cmd.name);
      CutWhole(cmd.name);
    } else {
      EchoParts(cmd.name, cmd.arg);
    }
  }

  /** What follows an inner position of a trimmed text ends with a character that is not blank. */
  lemma LastOfRest(t: string, i: nat)
    requires Trimmed(t) && i < |t| - 1
    ensures t[i + 1..] != [] && !Blank(t[i + 1..][|t| - i - 2])
  {
  }

  /** A name and a non-empty trimmed argument, joined by a space, cut back into the two. */
  lemma EchoParts(name: string, arg: string)
    requires name != [] && ' ' !in name && !Blank(name[0])
    requires arg != [] && Trimmed(arg)
    ensures Cut(Trim(name + " " + arg)) == Command(name, arg)
  {
    var e := name + [' '] + arg;
    assert e[0] == name[0] && e[|e| - 1] == arg[|arg| - 1];
    TrimFixesTrimmed(e);
    assert e + " " == name + [' '] + (arg + " ");
    CutAfter(name, arg + " ");
    TrimSpace(arg);
    TrimFixesTrimmed(arg);
  }

  // ---------------------------------------------------------------------
  // launchCommand: what each command does with its argument

  /** The commands whose request carries a product built by the form and take no argument. */
  predicate BuildsProduct(name: string)
  {
    name == "add" || name == "add_if_min" || name == "remove_greater" || name == "remove_lower"
  }

  /** The branch launchCommand takes for a command. */
  datatype Action =
    | Skip                                              // empty name: nothing happens
    | Quit                                              // exit: tell the server, stop the client
    | RunScript(path: string)                           // execute_script
    | WrongArguments                                    // the argument has the wrong shape: nothing is sent
    | BuildAndSend(command: string, newId: Option<int>) // build a product with the form, then send it
    | SendId(command: string, id: int)                  // remove_by_id with its id
    | ShowHistory                                       // print the names typed so far
    | SendCredentials(command: string, login: string, password: string)  // register or login
    | SendPlain(command: string, data: Option<Payload>) // any other name, sent as it is

  /** A trimmed argument that split(" ", 3) cuts in two has one inner space with text on both sides. */
  lemma SingleSpace(arg: string)
    requires Trimmed(arg) && arg != [] && |SplitLimit(arg, ' ', 3)| == 2
    ensures ' ' in arg
    ensures var i := IndexOf(arg, ' ');
      0 < i < |arg| - 1 && ' ' !in arg[i + 1..]
      && SplitLimit(arg, ' ', 3) == [arg[..i], arg[i + 1..]]
  {
    var i := IndexOf(arg, ' ');
    var b := arg[i + 1..];
    assert ' ' !in b;
    assert arg[i] == ' ';
  }

  /** For such an argument, split(" ") gives the same two pieces as split(" ", 3). */
  lemma CredentialWords(arg: string)
    requires Trimmed(arg) && arg != [] && |SplitLimit(arg, ' ', 3)| == 2
    ensures DropTrailingEmpty(SplitAll(arg, ' ')) == SplitLimit(arg, ' ', 3)
  {
    SingleSpace(arg);
    var i := IndexOf(arg, ' ');
    var a, b := arg[..i], arg[i + 1..];
    assert arg == a + [' '] + b;
    SplitAfter(a, b, ' ');
    assert SplitAll(b, ' ') == [b];
  }

  /** The register and login branch of launchCommand: a login and a password split at the space. */
  function Credentials(name: string, arg: string): Action
    requires Trimmed(arg)
  {
    if arg == "" || |SplitLimit(arg, ' ', 3)| != 2 then WrongArguments
    else
      CredentialWords(arg);
      var words := DropTrailingEmpty(SplitAll(arg, ' '));
      SendCredentials(name, words[0], words[1])
  }

  /** The switch in launchCommand, for an argument already trimmed by the tokenizer. */
  function Classify(cmd: Command): Action
    requires Trimmed(cmd.arg)
  {
    if cmd.name == "" then Skip
    else if cmd.name == "exit" then Quit
    else if cmd.name == "execute_script" then RunScript(cmd.arg)
    else if BuildsProduct(cmd.name) then
      if cmd.arg != "" then WrongArguments else BuildAndSend(cmd.name, None)
    else if cmd.name == "update" then
      if cmd.arg == "" || ParseLong(cmd.arg).None? then WrongArguments
      else BuildAndSend(cmd.name, ParseLong(cmd.arg))
    else if cmd.name == "remove_by_id" then
      if cmd.arg == "" || ParseLong(cmd.arg).None? then WrongArguments
      else SendId(cmd.name, ParseLong(cmd.arg).value)
    else if cmd.name == "history" then ShowHistory
    else if cmd.name == "register" || cmd.name == "login" then Credentials(cmd.name, cmd.arg)
    else SendPlain(cmd.name, if cmd.arg == "" then None else Some(WordsData([cmd.name, cmd.arg])))
  }

  /**
   * add, add_if_min, remove_greater and remove_lower refuse any argument
   * and otherwise go to the form.
   */
  lemma ProductArguments(cmd: Command)
    requires Trimmed(cmd.arg) && BuildsProduct(cmd.name)
    ensures Classify(cmd) == if cmd.arg != [] then WrongArguments else BuildAndSend(cmd.name, None)
  {
  }

  /**
   * update and remove_by_id are refused exactly when the argument is not a
   * long (an empty one is not); otherwise they carry its value.
   */
  lemma IdArguments(cmd: Command)
    requires Trimmed(cmd.arg) && (cmd.name == "update" || cmd.name == "remove_by_id")
    ensures Classify(cmd) == WrongArguments <==> ParseLong(cmd.arg).None?
    ensures ParseLong(cmd.arg).Some? ==>
      Classify(cmd) == if cmd.name == "update" then BuildAndSend("update", ParseLong(cmd.arg))
                       else SendId("remove_by_id", ParseLong(cmd.arg).value)
  {
  }

  /** Any long, printed in decimal, is accepted as the id of remove_by_id. */
  lemma PrintedIdAccepted(n: int)
    requires LONG_MIN <= n <= LONG_MAX
    ensures Trimmed(IntToString(n))
    ensures Classify(Command("remove_by_id", IntToString(n))) == SendId("remove_by_id", n)
  {
    ParsePrinted(n);
    var s := IntToString(n);
    if n < 0 {
      assert s == "-" + NatToString(-n);
      assert !Blank(s[|s| - 1]) by { assert IsDigit(NatToString(-n)[|s| - 2]); }
    } else {
      assert IsDigit(s[0]) && IsDigit(s[|s| - 1]);
    }
  }

  /**
   * register and login go through exactly when the argument holds a single
   * space; the login is what comes before it and the password what comes
   * after, both non-empty and free of spaces.
   */
  lemma CredentialArguments(cmd: Command)
    requires Trimmed(cmd.arg) && (cmd.name == "register" || cmd.name == "login")
    ensures Classify(cmd).SendCredentials? <==> Count(cmd.arg, ' ') == 1
    ensures !Classify(cmd).SendCredentials? ==> Classify(cmd) == WrongArguments
    ensures Classify(cmd).SendCredentials? ==>
      var a := Classify(cmd);
      a.command == cmd.name && cmd.arg == a.login + " " + a.password
      && a.login != [] && a.password != [] && ' ' !in a.login && ' ' !in a.password
  {
    CredentialSplit(cmd.name, cmd.arg);
  }

  lemma CredentialSplit(name: string, arg: string)
    requires Trimmed(arg)
    ensures Credentials(name, arg).SendCredentials? <==> Count(arg, ' ') == 1
    ensures !Credentials(name, arg).SendCredentials? ==> Credentials(name, arg) == WrongArguments
    ensures Credentials(name, arg).SendCredentials? ==>
      var a := Credentials(name, arg);
      a.command == name && arg == a.login + " " + a.password
      && a.login != [] && a.password != [] && ' ' !in a.login && ' ' !in a.password
  {
    SplitLimitCount(arg, ' ', 3);
    if arg != [] && |SplitLimit(arg, ' ', 3)| == 2 {
      SingleSpace(arg);
      CredentialWords(arg);
      var i := IndexOf(arg, ' ');
      assert arg == arg[..i] + " " + arg[i + 1..];
    }
  }

  // ---------------------------------------------------------------------
  // What is sent, and the exit code

  /**
   * What the runner cannot see: the script files by path, one string per
   * line; the product form; the server's answer to a request sendCommand
   * sends; and the credentials TCPClient attaches to every request.
   *
   * The form reads its answers from the same scanner as the commands, so it
   * is given the command name and the lines not yet read, and gives back
   * how it ended and how many of those lines it read.
   */
  datatype Client = Client(
    files: map<string, seq<string>>,
    form: (string, seq<string>) -> (FormResult, nat),
    respond: RequestView -> Response,
    login: Option<string>,
    password: Option<string>)

  /**
   * How ProductForm.build ends: with a product; given up, by one of the
   * exceptions launchCommand catches (nothing is sent); or out of input,
   * by the NoSuchElementException of a nextLine outside any try, which
   * launchCommand does not catch.
   */
  datatype FormResult = Built(product: Product) | Abandoned | RanOut

  /**
   * The form run on the unread lines: it can read no more lines than there
   * are, and one that ran out of input has read them all.
   */
  function Form(client: Client, name: string, rest: seq<string>): (r: (FormResult, nat))
    ensures r.0 == client.form(name, rest).0 && r.1 <= |rest|
    ensures r.0.RanOut? ==> r.1 == |rest|
    ensures !r.0.RanOut? && client.form(name, rest).1 <= |rest| ==> r == client.form(name, rest)
  {
    var (p, n) := client.form(name, rest);
    (p, if p.RanOut? || n > |rest| then |rest| else n)
  }

  /** new Request(name, data) as TCPClient sends it, carrying its stored credentials. */
  function Plain(client: Client, name: string, data: Option<Payload>): RequestView
  {
    RequestView(true, Some(name), data, client.login, client.password, None)
  }

  /** The request handed to sendCommand for an action, if there is one, with rest the lines after the command. */
  function Outgoing(a: Action, rest: seq<string>, client: Client): Option<RequestView>
  {
    match a
    case BuildAndSend(name, newId) =>
      var p := Form(client, name, rest).0;
      if !p.Built? then None
      else Some(Plain(client, name, Some(ProductData(if newId.Some? then p.product.(id := newId) else p.product))))
    case SendId(name, id) => Some(Plain(client, name, Some(LongData(id))))
    case SendCredentials(name, login, password) => Some(RequestView(true, Some(name), None, Some(login), Some(password), None))
    case SendPlain(name, data) => Some(Plain(client, name, data))
    case _ => None
  }

  /** How many of the lines after the command an action reads: only the form reads any. */
  function LinesRead(a: Action, rest: seq<string>, client: Client): (n: nat)
    ensures n <= |rest|
    ensures n > 0 ==> a.BuildAndSend?
  {
    if a.BuildAndSend? then Form(client, a.command, rest).1 else 0
  }

  /**
   * A command whose form ran out of input: the NoSuchElementException of
   * the form's nextLine is not among the exceptions launchCommand catches.
   * scriptMode catches it and returns ERROR. At the prompt the form has
   * read every line left, so the end-of-input branch of interactiveMode
   * comes next, which is where the loop over the turns already goes.
   */
  predicate Escapes(cmd: Command, rest: seq<string>, client: Client)
    requires Trimmed(cmd.arg)
  {
    var a := Classify(cmd);
    a.BuildAndSend? && Form(client, a.command, rest).0.RanOut?
  }

  /** The code launchCommand returns for every branch but execute_script. */
  function ActionCode(a: Action, client: Client): ExitCode
    requires !a.RunScript?
  {
    if a.Quit? then EXIT
    else if a.SendPlain? then (if client.respond(Plain(client, a.command, a.data)).success then OK else ERROR)
    else OK
  }

  /**
   * Outside scripts, only exit stops the client, and only a command sent
   * as it is can fail, when the server's answer says so. An empty name, a
   * malformed argument, history and a form that gives up send nothing, and
   * only a command that goes to the form reads further lines.
   */
  lemma ActionCodes(cmd: Command, rest: seq<string>, client: Client)
    requires Trimmed(cmd.arg) && cmd.name != "execute_script"
    ensures var a := Classify(cmd);
      (ActionCode(a, client) == EXIT <==> cmd.name == "exit")
      && (ActionCode(a, client) == ERROR <==>
            a.SendPlain? && !client.respond(Outgoing(a, rest, client).value).success)
      && (Outgoing(a, rest, client).None? <==>
            a.Skip? || a.Quit? || a.WrongArguments? || a.ShowHistory?
            || (a.BuildAndSend? && !Form(client, cmd.name, rest).0.Built?))
      && (LinesRead(a, rest, client) > 0 ==> BuildsProduct(cmd.name) || cmd.name == "update")
      && (cmd.name == [] ==> a == Skip)
  {
  }

  /** update sends the form's product with the id typed on the line. */
  lemma UpdateSendsTypedId(cmd: Command, rest: seq<string>, client: Client)
    requires Trimmed(cmd.arg) && cmd.name == "update" && ParseLong(cmd.arg).Some?
    requires Form(client, "update", rest).0.Built?
    ensures Outgoing(Classify(cmd), rest, client).Some?
    ensures var v := Outgoing(Classify(cmd), rest, client).value;
      v.command == Some("update") && v.data.Some? && v.data.value.ProductData?
      && v.data.value.product.id == Some(ParseLong(cmd.arg).value)
  {
  }

  /**
   * Where reading resumes after the command on line j: the next line, past
   * the lines the command's form read.
   */
  function NextLine(lines: seq<string>, cmds: seq<Command>, j: nat, client: Client): (n: nat)
    requires j < |lines| == |cmds| && Trimmed(cmds[j].arg)
    ensures j < n <= |lines|
  {
    j + 1 + LinesRead(Classify(cmds[j]), lines[j + 1..], client)
  }

  // ---------------------------------------------------------------------
  // Scripts

  /** Every line tokenized as a command: what is read when no form reads a line. */
  function Commands(lines: seq<string>): (cmds: seq<Command>)
    ensures |cmds| == |lines|
    ensures forall k :: 0 <= k < |lines| ==> Trimmed(cmds[k].arg)
  {
    if lines == [] then [] else Commands(lines[..|lines| - 1]) + [Tokenize(lines[|lines| - 1])]
  }

  lemma {:induction false} CommandAt(lines: seq<string>, k: nat)
    requires k < |lines|
    ensures Commands(lines)[k] == Tokenize(lines[k])
  {
    if k < |lines| - 1 {
      CommandAt(lines[..|lines| - 1], k);
    }
  }

  /** Scanner.hasNext() on a fresh file: some line holds a character that is not blank. */
  predicate HasToken(lines: seq<string>)
  {
    exists k :: 0 <= k < |lines| && Trim(lines[k]) != []
  }

  /** Some line names a command. */
  predicate HasCommand(cmds: seq<Command>)
  {
    exists k :: 0 <= k < |cmds| && cmds[k].name != []
  }

  /** A file has a token exactly when one of its lines names a command. */
  lemma TokensAreCommands(lines: seq<string>)
    ensures HasToken(lines) <==> HasCommand(Commands(lines))
  {
    var cmds := Commands(lines);
    forall k | 0 <= k < |lines|
      ensures Trim(lines[k]) != [] <==> cmds[k].name != []
    {
      CommandAt(lines, k);
      TokenizeContract(lines[k]);
    }
  }

  /**
   * The inner do-while of scriptMode: from position i, the first command
   * with a non-empty name, or the last one.
   */
  function NextCommand(cmds: seq<Command>, i: nat): (j: nat)
    requires i < |cmds|
    ensures i <= j < |cmds|
    ensures cmds[j].name == [] ==> j == |cmds| - 1
    ensures forall k :: i <= k < j ==> cmds[k].name == []
    decreases |cmds| - i
  {
    if i + 1 < |cmds| && cmds[i].name == [] then NextCommand(cmds, i + 1) else i
  }

  /** The lines of a script and their commands, one per line. */
  predicate Lined(lines: seq<string>, cmds: seq<Command>)
  {
    |cmds| == |lines| && forall k :: 0 <= k < |cmds| ==> Trimmed(cmds[k].arg)
  }

  /** The argument that opens a file through the "../" fallback, or the path itself. */
  function Unprefixed(path: string): string
  {
    if |path| >= 3 && path[..3] == "../" then path[3..] else path
  }

  /** Every argument execute_script can open: a path, or a path that "../" in front of it opens. */
  function Reachable(files: map<string, seq<string>>): set<string>
  {
    files.Keys + set k | k in files.Keys :: Unprefixed(k)
  }

  /** The file scriptMode reads: the argument itself, else "../" + argument. */
  function Opened(files: map<string, seq<string>>, arg: string): (r: Option<string>)
    ensures r.Some? ==> r.value in files && arg in Reachable(files)
    ensures r.None? <==> arg !in files && "../" + arg !in files
  {
    if arg in files then Some(arg)
    else if "../" + arg in files then
      assert Unprefixed("../" + arg) == arg by {
        assert ("../" + arg)[3..] == arg && ("../" + arg)[..3] == "../";
      }
      Some("../" + arg)
    else None
  }

  /** The scripts on a stack, as a set. */
  function Entered(stack: seq<string>): set<string>
  {
    if stack == [] then {} else Entered(stack[..|stack| - 1]) + {stack[|stack| - 1]}
  }

  lemma {:induction false} EnteredHas(stack: seq<string>, x: string)
    ensures x in Entered(stack) <==> x in stack
  {
    if stack != [] {
      EnteredHas(stack[..|stack| - 1], x);
      assert stack == stack[..|stack| - 1] + [stack[|stack| - 1]];
    }
  }

  /** The scripts that can still be entered on top of a stack. */
  function Pending(files: map<string, seq<string>>, stack: seq<string>): set<string>
  {
    Reachable(files) - Entered(stack)
  }

  lemma PendingShrinks(files: map<string, seq<string>>, stack: seq<string>, arg: string)
    requires arg in Reachable(files) && arg !in stack
    ensures Pending(files, stack + [arg]) < Pending(files, stack)
  {
    assert (stack + [arg])[..|stack|] == stack;
    EnteredHas(stack, arg);
    assert Pending(files, stack + [arg]) == Pending(files, stack) - {arg};
  }

  /** launchCommand, on a stack of running scripts. */
  function LaunchCode(stack: seq<string>, cmd: Command, client: Client): ExitCode
    requires Trimmed(cmd.arg)
    requires cmd.name == "execute_script" ==> cmd.arg !in stack
    decreases Pending(client.files, stack), 2, 0
  {
    var a := Classify(cmd);
    if a.RunScript? then ScriptCode(stack, a.path, client) else ActionCode(a, client)
  }

  /** scriptMode: push, open, refuse a file with no token, run the lines, pop. */
  function ScriptCode(stack: seq<string>, arg: string, client: Client): ExitCode
    requires arg !in stack
    decreases Pending(client.files, stack), 1, 0
  {
    var file := Opened(client.files, arg);
    if file.None? then ERROR
    else
      var lines := client.files[file.value];
      var cmds := Commands(lines);
      if !HasCommand(cmds) then ERROR
      else
        PendingShrinks(client.files, stack, arg);
        RunLines(stack + [arg], lines, cmds, 0, client)
  }

  /**
   * The outer do-while of scriptMode from line i: the next command, the
   * recursion check, then on, past the lines the command's form read, while
   * it returns OK and lines remain. The commands are the lines' tokens,
   * taken one per line.
   */
  function RunLines(stack: seq<string>, lines: seq<string>, cmds: seq<Command>, i: nat, client: Client): ExitCode
    requires i < |lines| && Lined(lines, cmds)
    decreases Pending(client.files, stack), 3, |lines| - i
  {
    var j := NextCommand(cmds, i);
    var cmd := cmds[j];
    if cmd.name == "execute_script" && cmd.arg in stack then ERROR
    else if Escapes(cmd, lines[j + 1..], client) then ERROR
    else
      var code := LaunchCode(stack, cmd, client);
      var next := NextLine(lines, cmds, j, client);
      if code == OK && next < |lines| then RunLines(stack, lines, cmds, next, client) else code
  }

  /** A script that cannot be opened, or that holds only blank lines, fails. */
  lemma ScriptNotRun(stack: seq<string>, arg: string, client: Client)
    requires arg !in stack
    requires Opened(client.files, arg).None? || !HasToken(client.files[Opened(client.files, arg).value])
    ensures ScriptCode(stack, arg, client) == ERROR
  {
    if Opened(client.files, arg).Some? {
      TokensAreCommands(client.files[Opened(client.files, arg).value]);
    }
  }

  /** Otherwise its lines run from the first, with its own argument on top of the stack. */
  lemma ScriptRun(stack: seq<string>, arg: string, client: Client)
    requires arg !in stack && Opened(client.files, arg).Some?
    requires HasToken(client.files[Opened(client.files, arg).value])
    ensures var lines := client.files[Opened(client.files, arg).value];
      |lines| > 0
      && ScriptCode(stack, arg, client) == RunLines(stack + [arg], lines, Commands(lines), 0, client)
  {
    TokensAreCommands(client.files[Opened(client.files, arg).value]);
  }

  /**
   * One turn of scriptMode's loop, as the method takes it: the lines a
   * form read are not run as commands; reading resumes after them.
   */
  lemma RunLinesStep(stack: seq<string>, lines: seq<string>, cmds: seq<Command>, i: nat, client: Client)
    requires i < |lines| && Lined(lines, cmds)
    ensures var j := NextCommand(cmds, i); var cmd := cmds[j];
      var next := NextLine(lines, cmds, j, client);
      RunLines(stack, lines, cmds, i, client)
        == if cmd.name == "execute_script" && cmd.arg in stack then ERROR
           else if Escapes(cmd, lines[j + 1..], client) then ERROR
           else if LaunchCode(stack, cmd, client) == OK && next < |lines| then RunLines(stack, lines, cmds, next, client)
           else LaunchCode(stack, cmd, client)
  {
    var j := NextCommand(cmds, i);
    var cmd := cmds[j];
    if !(cmd.name == "execute_script" && cmd.arg in stack) && !Escapes(cmd, lines[j + 1..], client) {
      var code := LaunchCode(stack, cmd, client);
      var next := NextLine(lines, cmds, j, client);
      assert RunLines(stack, lines, cmds, i, client)
        == if code == OK && next < |lines| then RunLines(stack, lines, cmds, next, client) else code;
    }
  }

  /**
   * A command that goes to the form reads the lines after it: the script
   * goes on after them, so the lines the form read are never launched as
   * commands. A form that runs out of lines ends the script with ERROR.
   */
  lemma FormLinesSkipped(stack: seq<string>, lines: seq<string>, cmds: seq<Command>, i: nat, client: Client)
    requires i < |lines| && Lined(lines, cmds)
    requires BuildsProduct(cmds[i].name) && cmds[i].arg == []
    ensures var next := i + 1 + Form(client, cmds[i].name, lines[i + 1..]).1;
      next <= |lines|
      && RunLines(stack, lines, cmds, i, client)
        == if Form(client, cmds[i].name, lines[i + 1..]).0.RanOut? then ERROR
           else if LaunchCode(stack, cmds[i], client) == OK && next < |lines| then RunLines(stack, lines, cmds, next, client)
           else LaunchCode(stack, cmds[i], client)
  {
    assert NextCommand(cmds, i) == i;
    ProductArguments(cmds[i]);
    assert Escapes(cmds[i], lines[i + 1..], client) == Form(client, cmds[i].name, lines[i + 1..]).0.RanOut?;
    assert NextLine(lines, cmds, i, client) == i + 1 + Form(client, cmds[i].name, lines[i + 1..]).1;
    RunLinesStep(stack, lines, cmds, i, client);
  }

  /**
   * A script's next command, if it calls a script already running (its
   * own included), fails with the recursion error and nothing more runs.
   */
  lemma RecursionRefused(stack: seq<string>, lines: seq<string>, cmds: seq<Command>, i: nat, client: Client)
    requires i < |lines| && Lined(lines, cmds)
    requires var cmd := cmds[NextCommand(cmds, i)];
      cmd.name == "execute_script" && cmd.arg in stack
    ensures RunLines(stack, lines, cmds, i, client) == ERROR
  {
  }

  /** exit in a script stops the whole client. */
  lemma ExitInScript(stack: seq<string>, lines: seq<string>, cmds: seq<Command>, i: nat, client: Client)
    requires i < |lines| && Lined(lines, cmds)
    requires cmds[NextCommand(cmds, i)].name == "exit"
    ensures RunLines(stack, lines, cmds, i, client) == EXIT
  {
  }

  /** A command that does not return OK ends the script with its code; the lines after it never run. */
  lemma ScriptStopsAtFailure(stack: seq<string>, lines: seq<string>, cmds: seq<Command>, i: nat, client: Client)
    requires i < |lines| && Lined(lines, cmds)
    requires var cmd := cmds[NextCommand(cmds, i)];
      cmd.name != "execute_script" && ActionCode(Classify(cmd), client) != OK
    ensures RunLines(stack, lines, cmds, i, client) == ActionCode(Classify(cmds[NextCommand(cmds, i)]), client)
  {
  }

  /** A script whose one line runs itself is refused, whatever else is running. */
  lemma SelfCallRefused(stack: seq<string>, path: string, client: Client)
    requires path !in stack && path != [] && Trimmed(path)
    requires path in client.files && client.files[path] == ["execute_script " + path]
    ensures ScriptCode(stack, path, client) == ERROR
  {
    var line := "execute_script " + path;
    assert line == "execute_script" + " " + path;
    EchoParts("execute_script", path);
    var lines := [line];
    CommandAt(lines, 0);
    var cmds := Commands(lines);
    assert cmds == [Command("execute_script", path)];
    assert cmds[0].name != [];
    TokensAreCommands(lines);
    ScriptRun(stack, path, client);
    RecursionRefused(stack + [path], lines, cmds, 0, client);
  }

  // ---------------------------------------------------------------------
  // The interactive loop

  /** How the interactive loop ends: EXIT after read commands, or stuck retrying the save at end of input. */
  datatype Session = Ended(read: nat) | Stalled(read: nat)

  /**
   * The commands interactiveMode reads from line i on: a line's command,
   * then, past the lines its form read, the next one.
   */
  function Turns(lines: seq<string>, cmds: seq<Command>, i: nat, client: Client): (r: seq<Command>)
    requires i <= |lines| && Lined(lines, cmds)
    ensures |r| <= |lines| - i
    ensures forall k :: 0 <= k < |r| ==> Trimmed(r[k].arg)
    decreases |lines| - i
  {
    if i == |lines| then [] else [cmds[i]] + Turns(lines, cmds, NextLine(lines, cmds, i, client), client)
  }

  /** The turns from line p are the command on line p, then the turns after the lines its form read. */
  lemma TurnAhead(lines: seq<string>, cmds: seq<Command>, p: nat, turns: seq<Command>, k: nat, client: Client)
    requires p < |lines| && Lined(lines, cmds)
    requires k <= |turns| && turns[k..] == Turns(lines, cmds, p, client)
    ensures k < |turns| && turns[k] == cmds[p]
    ensures turns[k + 1..] == Turns(lines, cmds, NextLine(lines, cmds, p, client), client)
  {
    assert turns[k..] == [cmds[p]] + Turns(lines, cmds, NextLine(lines, cmds, p, client), client);
    assert turns[k + 1..] == turns[k..][1..];
  }

  /** At the prompt, a command whose form runs out of input is the last command read. */
  lemma FormRunOutIsLastTurn(lines: seq<string>, cmds: seq<Command>, p: nat, client: Client)
    requires p < |lines| && Lined(lines, cmds)
    requires Escapes(cmds[p], lines[p + 1..], client)
    ensures NextLine(lines, cmds, p, client) == |lines|
    ensures Turns(lines, cmds, p, client) == [cmds[p]]
  {
  }

  /** When no command reads form lines, every line is a command. */
  lemma {:induction false} TurnsWithoutForms(lines: seq<string>, cmds: seq<Command>, i: nat, client: Client)
    requires i <= |lines| && Lined(lines, cmds)
    requires forall k :: i <= k < |lines| ==> NextLine(lines, cmds, k, client) == k + 1
    ensures Turns(lines, cmds, i, client) == cmds[i..]
    decreases |lines| - i
  {
    if i < |lines| {
      TurnsWithoutForms(lines, cmds, i + 1, client);
      assert cmds[i..] == [cmds[i]] + cmds[i + 1..];
    }
  }

  /** The names of the first n commands, as interactiveMode records them in its history. */
  function Names(cmds: seq<Command>, n: nat): (r: seq<string>)
    requires n <= |cmds|
    ensures |r| == n
  {
    if n == 0 then [] else Names(cmds, n - 1) + [cmds[n - 1].name]
  }

  const SAVE: Command := Command("save", [])
  const QUIT: Command := Command("exit", [])

  /** The code each command returns when launched from the prompt, with no script running. */
  function PromptCodes(cmds: seq<Command>, client: Client): (codes: seq<ExitCode>)
    requires forall k :: 0 <= k < |cmds| ==> Trimmed(cmds[k].arg)
    ensures |codes| == |cmds|
  {
    if cmds == [] then []
    else PromptCodes(cmds[..|cmds| - 1], client) + [LaunchCode([], cmds[|cmds| - 1], client)]
  }

  lemma {:induction false} PromptCodeAt(cmds: seq<Command>, k: nat, client: Client)
    requires k < |cmds|
    requires forall j :: 0 <= j < |cmds| ==> Trimmed(cmds[j].arg)
    ensures PromptCodes(cmds, client)[k] == LaunchCode([], cmds[k], client)
  {
    if k < |cmds| - 1 {
      PromptCodeAt(cmds[..|cmds| - 1], k, client);
    }
  }

  /**
   * interactiveMode from command i, given the code of each command read and
   * the code of the save sent at end of input: the commands run until one
   * returns EXIT; at the end of input exit follows the save only if the
   * save returned OK, otherwise the loop comes back to the same end of input.
   */
  function SessionFrom(codes: seq<ExitCode>, i: nat, saved: ExitCode): Session
    requires i <= |codes|
    decreases |codes| - i
  {
    if i < |codes| then
      if codes[i] == EXIT then Ended(i + 1) else SessionFrom(codes, i + 1, saved)
    else if saved == OK then Ended(|codes|)
    else Stalled(|codes|)
  }

  /**
   * With no command returning EXIT, the session is stuck exactly when the
   * save sent at end of input does not return OK.
   */
  lemma {:induction false} SessionStalls(codes: seq<ExitCode>, i: nat, saved: ExitCode)
    requires i <= |codes|
    ensures SessionFrom(codes, i, saved).Stalled? <==>
      (forall k :: i <= k < |codes| ==> codes[k] != EXIT) && saved != OK
    decreases |codes| - i
  {
    if i < |codes| {
      SessionStalls(codes, i + 1, saved);
    }
  }

  /** The session stops reading at the first command that returns EXIT. */
  lemma {:induction false} SessionEndsAtExit(codes: seq<ExitCode>, i: nat, saved: ExitCode)
    requires i <= |codes|
    ensures var s := SessionFrom(codes, i, saved);
      i <= s.read <= |codes|
      && (forall k :: i <= k < s.read - 1 ==> codes[k] != EXIT)
      && (s.read < |codes| ==> s.Ended? && s.read > i && codes[s.read - 1] == EXIT)
    decreases |codes| - i
  {
    if i < |codes| {
      SessionEndsAtExit(codes, i + 1, saved);
    }
  }

  /** One command of the session: EXIT ends it with that command read, any other code goes on to the next. */
  lemma SessionStep(codes: seq<ExitCode>, k: nat, saved: ExitCode)
    requires k < |codes|
    ensures codes[k] == EXIT ==> SessionFrom(codes, k, saved) == Ended(k + 1)
    ensures codes[k] != EXIT ==> SessionFrom(codes, k, saved) == SessionFrom(codes, k + 1, saved)
  {
  }

  /** The save sent at end of input is a plain request; it returns OK exactly when the response is a success. */
  lemma SaveCode(client: Client)
    ensures LaunchCode([], SAVE, client) == OK <==> client.respond(Plain(client, "save", None)).success
  {
  }

  /** The runner's state: the names typed so far and the scripts now running. */
  class Runner {
    var history: seq<string>
    var scriptStack: seq<string>

    constructor ()
      ensures history == [] && scriptStack == []
    {
      history := [];
      scriptStack := [];
    }

    /**
     * launchCommand, with rest the lines after the command; a script's
     * arguments are pushed and popped again, so the stack is as it was.
     */
    method Launch(cmd: Command, rest: seq<string>, client: Client) returns (code: ExitCode, read: nat, escaped: bool)
      requires Trimmed(cmd.arg)
      requires cmd.name == "execute_script" ==> cmd.arg !in scriptStack
      modifies this`scriptStack
      ensures scriptStack == old(scriptStack)
      ensures code == LaunchCode(scriptStack, cmd, client)
      ensures read == LinesRead(Classify(cmd), rest, client)
      ensures escaped == Escapes(cmd, rest, client)
      decreases Pending(client.files, scriptStack), 2, 0
    {
      var a := Classify(cmd);
      if a.RunScript? {
        code := ScriptMode(a.path, client);
      } else {
        code := ActionCode(a, client);
      }
      read := LinesRead(a, rest, client);
      escaped := a.BuildAndSend? && Form(client, a.command, rest).0.RanOut?;
    }

    /** scriptMode: the argument is on the stack while its lines run and is removed on every way out. */
    method ScriptMode(arg: string, client: Client) returns (code: ExitCode)
      requires arg !in scriptStack
      modifies this`scriptStack
      ensures scriptStack == old(scriptStack)
      ensures code == ScriptCode(scriptStack, arg, client)
      decreases Pending(client.files, scriptStack), 1, 0
    {
      scriptStack := scriptStack + [arg];
      var file := Opened(client.files, arg);
      if file.None? {
        scriptStack := scriptStack[..|scriptStack| - 1];
        return ERROR;
      }
      var lines := client.files[file.value];
      if !HasToken(lines) {
        scriptStack := scriptStack[..|scriptStack| - 1];
        TokensAreCommands(lines);
        return ERROR;
      }
      PendingShrinks(client.files, old(scriptStack), arg);
      ScriptRun(old(scriptStack), arg, client);
      var cmds := Commands(lines);
      code := RunScript(lines, cmds, client);
      scriptStack := scriptStack[..|scriptStack| - 1];
    }

    /**
     * scriptMode's outer do-while over the lines of an opened file, with
     * the file's own argument on top of the stack.
     */
    method RunScript(lines: seq<string>, cmds: seq<Command>, client: Client) returns (code: ExitCode)
      requires |lines| > 0 && Lined(lines, cmds)
      modifies this`scriptStack
      ensures scriptStack == old(scriptStack)
      ensures code == RunLines(scriptStack, lines, cmds, 0, client)
      decreases Pending(client.files, scriptStack), 3, 0
    {
      ghost var stack := scriptStack;
      ghost var goal := RunLines(stack, lines, cmds, 0, client);
      var i := 0;
      while true
        invariant scriptStack == stack
        invariant i < |lines| && RunLines(stack, lines, cmds, i, client) == goal
        decreases |lines| - i
      {
        var next;
        code, next := ScriptStep(lines, cmds, i, client);
        if !(code == OK && next < |lines|) {
          return;
        }
        i := next;
      }
    }

    /**
     * One turn of scriptMode's outer do-while: skip to the next command,
     * refuse a script already running, otherwise launch the command; the
     * next turn starts after the lines the command's form read.
     */
    method ScriptStep(lines: seq<string>, cmds: seq<Command>, i: nat, client: Client) returns (code: ExitCode, next: nat)
      requires i < |lines| && Lined(lines, cmds)
      modifies this`scriptStack
      ensures scriptStack == old(scriptStack)
      ensures i < next <= |lines|
      ensures RunLines(scriptStack, lines, cmds, i, client)
        == if code == OK && next < |lines| then RunLines(scriptStack, lines, cmds, next, client) else code
      decreases Pending(client.files, scriptStack), 2, 1
    {
      var j := SkipBlank(cmds, i);
      var cmd := cmds[j];
      RunLinesStep(scriptStack, lines, cmds, i, client);
      if cmd.name == "execute_script" && cmd.arg in scriptStack {
        code, next := ERROR, j + 1;
      } else {
        var read, escaped;
        code, read, escaped := Launch(cmd, lines[j + 1..], client);
        if escaped {
          code, next := ERROR, |lines|;
        } else {
          next := j + 1 + read;
          assert next == NextLine(lines, cmds, j, client);
        }
      }
    }

    /**
     * interactiveMode over the lines typed: a line's command name goes into
     * the history before it runs, and the lines its form reads are not
     * commands.
     */
    method Interactive(input: seq<string>, client: Client) returns (s: Session)
      requires scriptStack == []
      modifies this`history, this`scriptStack
      ensures scriptStack == []
      ensures var turns := Turns(input, Commands(input), 0, client);
        s == SessionFrom(PromptCodes(turns, client), 0, LaunchCode([], SAVE, client))
        && s.read <= |turns|
        && history == old(history) + Names(turns, s.read)
    {
      s := Converse(input, Commands(input), client);
    }

    /** The loop of interactiveMode, over the lines typed and each line's command. */
    method Converse(input: seq<string>, lined: seq<Command>, client: Client) returns (s: Session)
      requires scriptStack == [] && Lined(input, lined)
      modifies this`history, this`scriptStack
      ensures scriptStack == []
      ensures var turns := Turns(input, lined, 0, client);
        s == SessionFrom(PromptCodes(turns, client), 0, LaunchCode([], SAVE, client))
        && s.read <= |turns|
        && history == old(history) + Names(turns, s.read)
    {
      ghost var cmds := Turns(input, lined, 0, client);
      ghost var codes := PromptCodes(cmds, client);
      ghost var saved := LaunchCode([], SAVE, client);
      ghost var goal := SessionFrom(codes, 0, saved);
      ghost var h0 := history;
      var p, k := 0, 0;
      while p < |input|
        invariant p <= |input| && k <= |cmds|
        invariant cmds[k..] == Turns(input, lined, p, client)
        invariant scriptStack == []
        invariant SessionFrom(codes, k, saved) == goal
        invariant history == h0 + Names(cmds, k)
        decreases |input| - p
      {
        TurnAhead(input, lined, p, cmds, k, client);
        var code, next := Turn(input, lined, p, client);
        PromptCodeAt(cmds, k, client);
        SessionStep(codes, k, saved);
        p, k := next, k + 1;
        if code == EXIT {
          return Ended(k);
        }
      }
      assert cmds[k..] == [];
      s := EndOfInput(k, client);
    }

    /**
     * One turn of interactiveMode: record the command name, then launch the
     * command. A form that runs out has read every line left (FormRunOutIsLastTurn),
     * so its exception needs no handling here: the loop ends and the end of
     * input follows.
     */
    method Turn(input: seq<string>, cmds: seq<Command>, p: nat, client: Client) returns (code: ExitCode, next: nat)
      requires p < |input| && Lined(input, cmds) && scriptStack == []
      modifies this`history, this`scriptStack
      ensures scriptStack == []
      ensures history == old(history) + [cmds[p].name]
      ensures code == LaunchCode([], cmds[p], client)
      ensures next == NextLine(input, cmds, p, client)
    {
      var cmd := cmds[p];
      history := history + [cmd.name];
      var read, escaped;
      code, read, escaped := Launch(cmd, input[p + 1..], client);
      next := p + 1 + read;
    }

    /** The end of input in interactiveMode: save, then exit only if the save returned OK. */
    method EndOfInput(count: nat, client: Client) returns (s: Session)
      requires scriptStack == []
      modifies this`scriptStack
      ensures scriptStack == []
      ensures s == (if LaunchCode([], SAVE, client) == OK then Ended(count) else Stalled(count))
    {
      var code, read, escaped := Launch(SAVE, [], client);
      if code == OK {
        code, read, escaped := Launch(QUIT, [], client);
      }
      if code == EXIT {
        s := Ended(count);
      } else {
        s := Stalled(count);
      }
    }
  }

  /**
   * scriptMode's inner do-while: lines are read while their command name is
   * empty and more lines follow.
   */
  method SkipBlank(cmds: seq<Command>, i: nat) returns (j: nat)
    requires i < |cmds|
    ensures j == NextCommand(cmds, i)
  {
    j := i;
    while j + 1 < |cmds| && cmds[j].name == []
      invariant i <= j < |cmds|
      invariant NextCommand(cmds, j) == NextCommand(cmds, i)
      decreases |cmds| - j
    {
      j := j + 1;
    }
  }
}
