/**
 * What every command shares: its name with the argument hint (the first
 * argument of the Command constructor), its description (the second one)
 * and the usage failure several commands answer with.
 */
module CommandBase {
  import opened Util
  import opened Envelope

  /** The command classes the server registers, plus the two it only names. */
  datatype CommandKind =
    | HelpCmd | InfoCmd | ShowCmd | AddCmd | UpdateCmd | RemoveByIdCmd | ClearCmd
    | RemoveGreaterCmd | RemoveLowerCmd | AddIfMinCmd | SumOfPriceCmd
    | RegisterCmd | LoginCmd | ExecuteScriptCmd | ExitCmd

  /** getName(): the key word followed by the argument hint. */
  function Name(k: CommandKind): string
  {
    match k
    case HelpCmd => "help"
    case InfoCmd => "info"
    case ShowCmd => "show"
    case AddCmd => "add {element}"
    case UpdateCmd => "update <ID> {element}"
    case RemoveByIdCmd => "remove_by_id <ID>"
    case ClearCmd => "clear"
    case RemoveGreaterCmd => "remove_greater {element}"
    case RemoveLowerCmd => "remove_lower {element}"
    case AddIfMinCmd => "add_if_min {element}"
    case SumOfPriceCmd => "sum_of_price"
    case RegisterCmd => "register <login> <password>"
    case LoginCmd => "login <login> <password>"
    case ExecuteScriptCmd => "execute_script"
    case ExitCmd => "exit"
  }

  /** getDescription(). */
  function Description(k: CommandKind): string
  {
    match k
    case HelpCmd => "вывести справку по доступным командам"
    case InfoCmd => "вывести информацию о коллекции"
    case ShowCmd => "вывести все элементы коллекции"
    case AddCmd => "добавить новый элемент в коллекцию"
    case UpdateCmd => "обновить значение элемента коллекции по ID"
    case RemoveByIdCmd => "удалить элемент из коллекции по ID"
    case ClearCmd => "очистить коллекцию"
    case RemoveGreaterCmd => "удалить из коллекции все элементы, превышающие заданный"
    case RemoveLowerCmd => "удалить из коллекции все элементы, меньшие, чем заданный"
    case AddIfMinCmd => "добавить новый элемент в коллекцию, если его значение меньше минимального значения этой коллекции"
    case SumOfPriceCmd => "вывести сумму значений поля price для всех элементов коллекции"
    case RegisterCmd => "команда регистрации в системе"
    case LoginCmd => "для входа в систему"
    case ExecuteScriptCmd => "исполнить скрипт из указанного файла"
    case ExitCmd => "завершить программу (без сохранения в файл)"
  }

  const WRONG_COUNT: string := "Неправильное количество аргументов!"

  /** The wrong-argument-count failure that quotes the command's usage. */
  function Usage(k: CommandKind): (r: Response)
    ensures !r.success && r.data.None?
    ensures r.message == Some(WRONG_COUNT + " Правильное использование: '" + Name(k) + "'")
  {
    Fail(WRONG_COUNT + " Правильное использование: '" + Name(k) + "'")
  }

  /** An exception a command catches and reports as Response(false, e.getMessage()). */
  function Caught(f: Fault): (r: Response)
    ensures !r.success && r.message == FaultMessage(f) && r.data.None?
  {
    Respond(false, FaultMessage(f))
  }
}
