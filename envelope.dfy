/**
 * What travels between client and server: the request a client sends, the
 * response the server writes back, the payload either may carry, and the
 * exceptions that turn into failure responses on the way.
 */
module Envelope {
  import opened Util
  import opened Models

  /** The Object carried in the data field, by the runtime type the commands test for. */
  datatype Payload =
    | ProductData(product: Product)     // an Element built by the client's form
    | LongData(long: int)             // a java.lang.Long (remove_by_id, the id Add returns)
    | IntData(integer: Int32)             // a java.lang.Integer (the id Register returns)
    | TextData(text: string)            // a java.lang.String (the username Login returns)
    | WordsData(words: seq<string>)     // a String[] (the raw command line of other commands)

  /** An exception a command or the store can raise. */
  datatype Fault =
    | NullPointer                       // a null dereference or unboxing
    | ClassCast                         // data of the wrong runtime type
    | Sql(className: string, message: string)  // an SQLException: its runtime class name and getMessage()

  /** A call that either returns a value or throws. */
  datatype Outcome<T> = Done(value: T) | Thrown(fault: Fault)

  /** Throwable.getMessage(); the JVM's own exceptions are taken to carry none. */
  function FaultMessage(f: Fault): Option<string>
  {
    match f
    case NullPointer => None
    case ClassCast => None
    case Sql(_, m) => Some(m)
  }

  /** Throwable.toString(). */
  function FaultText(f: Fault): string
  {
    match f
    case NullPointer => "java.lang.NullPointerException"
    case ClassCast => "java.lang.ClassCastException"
    case Sql(c, m) => c + ": " + m
  }

  /** String concatenation of a possibly null string. */
  function TextOf(s: Option<string>): string
  {
    if s.Some? then s.value else "null"
  }

  // ---------------------------------------------------------------------
  // Response

  /**
   * A server response. Its login, password and userId fields are never set
   * on a response, so only the final part is kept.
   */
  datatype Response = Response(success: bool, message: Option<string>, data: Option<Payload>)

  /** Response(success, message). */
  function Respond(success: bool, message: Option<string>): (r: Response)
    ensures r.success == success && r.message == message && r.data.None?
  {
    Response(success, message, None)
  }

  /** Response(success). */
  function Status(success: bool): (r: Response)
    ensures r.success == success && r.message.None? && r.data.None?
  {
    Response(success, None, None)
  }

  function Fail(message: string): Response { Respond(false, Some(message)) }
  function Ok(message: string): Response { Respond(true, Some(message)) }

  /** Response.toString(), with the payload's own toString supplied by render. */
  function ResponseText(r: Response, render: Payload -> string): (s: string)
    ensures r.message.None? && r.data.None? ==> s == ""
    ensures r.message.Some? && r.data.None? ==> s == r.message.value
    ensures r.message.None? && r.data.Some? ==> s == render(r.data.value)
    ensures r.message.Some? && r.data.Some? ==> s == r.message.value + "\n" + render(r.data.value)
  {
    (if r.message.Some? then r.message.value else "")
    + (if r.data.Some? then (if r.message.Some? then "\n" + render(r.data.value) else render(r.data.value)) else "")
  }

  /**
   * What a command's execute hands back: a response, a null (the
   * execute_script stub), or an exception it did not catch.
   */
  datatype Reply = Responded(response: Response) | NoResponse | Escaped(fault: Fault)

  // ---------------------------------------------------------------------
  // Request

  /** The state of a request at one moment, as the commands read it. */
  datatype RequestView = RequestView(
    success: bool,
    command: Option<string>,
    data: Option<Payload>,
    login: Option<string>,
    password: Option<string>,
    userId: Option<Int32>)

  /**
   * A client request. success, the command name (the message field) and data
   * are final; login, password and userId are set after construction.
   */
  class Request {
    const success: bool
    const command: Option<string>
    const data: Option<Payload>
    var login: Option<string>
    var password: Option<string>
    var userId: Option<Int32>

    /** Request(success, name, data). */
    constructor (success: bool, name: Option<string>, data: Option<Payload>)
      ensures this.success == success && command == name && this.data == data
      ensures login.None? && password.None? && userId.None?
    {
      this.success := success;
      command := name;
      this.data := data;
      login := None;
      password := None;
      userId := None;
    }

    /** Request(name, data): a request built by the client always says success. */
    constructor Named(name: Option<string>, data: Option<Payload>)
      ensures success && command == name && this.data == data
      ensures login.None? && password.None? && userId.None?
    {
      success := true;
      command := name;
      this.data := data;
      login := None;
      password := None;
      userId := None;
    }

    method SetLogin(login: Option<string>)
      modifies this`login
      ensures this.login == login
    {
      this.login := login;
    }

    method SetPassword(password: Option<string>)
      modifies this`password
      ensures this.password == password
    {
      this.password := password;
    }

    method SetUserId(userId: Option<Int32>)
      modifies this`userId
      ensures this.userId == userId
    {
      this.userId := userId;
    }

    function View(): (v: RequestView)
      reads this
      ensures v.success == success && v.command == command && v.data == data
      ensures v.login == login && v.password == password && v.userId == userId
    {
      RequestView(success, command, data, login, password, userId)
    }

    /** equals(): the same object, or another request with the same command name. */
    predicate Equals(other: Request?)
    {
      other == this || (other != null && command == other.command)
    }

    /** hashCode(): Objects.hash(getCommand()). */
    function HashCode(): Int32
    {
      Wrap32(31 * 1 + (if command.Some? then StringHash(command.value) else 0))
    }

    /** toString(), with the payload's own toString supplied by render. */
    function Text(render: Payload -> string): string
    {
      "Request{"
      + (if success then "" else "Ошибка при выполнении команды")
      + "command='" + TextOf(command) + "'"
      + (if data.Some? then "data=" + render(data.value) else "")
      + "}"
    }
  }

  /** Requests are equal exactly when their command names are, and equal requests hash alike. */
  lemma RequestEquality(a: Request, b: Request)
    ensures a.Equals(b) <==> (a == b || a.command == b.command)
    ensures a.Equals(b) ==> a.HashCode() == b.HashCode()
    ensures a.Equals(a) && !a.Equals(null)
  {
  }

  /** toString is "Request{", an error marker only on failure, the command, the data only when present, "}". */
  lemma RequestTextShape(r: Request, render: Payload -> string)
    ensures var t := r.Text(render);
      var head := "Request{" + (if r.success then "" else "Ошибка при выполнении команды");
      var cmd := "command='" + TextOf(r.command) + "'";
      t[..|head|] == head
      && t[|head|..|head| + |cmd|] == cmd
      && t[|t| - 1] == '}'
      && (r.data.None? ==> |t| == |head| + |cmd| + 1)
  {
  }
}
