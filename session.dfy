/**
 * The client and the server together: when the client's input runs out it
 * sends save and exits only if the save succeeds, and the server never
 * answers save with success.
 */
module ClientServer {
  import opened Util
  import opened Models
  import opened Envelope
  import opened Collection
  import opened Registry
  import opened RequestHandler
  import opened ClientRunner

  /**
   * A client talking to a server that started with the registrations of
   * initCommands gets no OK for the save it sends at the end of input.
   */
  lemma SaveNeverOk(client: Client, items: seq<Product>,
                    lastInit: Option<Time>, lastSave: Option<Time>, env: Env, order: seq<string>)
    requires RunResult(Some(Plain(client, "save", None)), SERVER_COMMANDS, items, lastInit, lastSave, env, order).0
             == Sent(Some(client.respond(Plain(client, "save", None))))
    ensures LaunchCode([], SAVE, client) != OK
  {
    SaveRefused(Plain(client, "save", None), items, lastInit, lastSave, env, order);
    SaveCode(client);
  }

  /**
   * Against such a server (SaveNeverOk), an interactive session in which no
   * typed command returns EXIT never ends: at the end of input the save
   * fails, exit is never sent, and the loop comes back to the same end of
   * input.
   */
  lemma EndOfInputStalls(input: seq<string>, client: Client)
    requires forall k :: 0 <= k < |Turns(input, Commands(input), 0, client)| ==> LaunchCode([], Turns(input, Commands(input), 0, client)[k], client) != EXIT
    requires LaunchCode([], SAVE, client) != OK
    ensures SessionFrom(PromptCodes(Turns(input, Commands(input), 0, client), client), 0, LaunchCode([], SAVE, client)).Stalled?
  {
    var cmds := Turns(input, Commands(input), 0, client);
    var codes := PromptCodes(cmds, client);
    forall k | 0 <= k < |codes|
      ensures codes[k] != EXIT
    {
      PromptCodeAt(cmds, k, client);
    }
    SessionStalls(codes, 0, LaunchCode([], SAVE, client));
  }
}
