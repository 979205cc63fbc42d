/**
 * Admin command dispatch: the tokens after the bot's mention are matched against
 * three command shapes, the numeric argument is parsed, and the outcome is
 * acknowledged with a ✅ or ❌ reaction plus, on failure, a text reply.
 */
module Commands {
  import opened Wrappers
  import opened Numerals
  import opened Discord

  /** The errors a command reports back to its caller. */
  datatype CommandError =
    | Serenity                   // a platform call failed
    | InvalidCommand
    | NotAllowed
    | InvalidMessageReference
    | MalformedArgument(argument: string)

  /** `CommandResult<()>`. */
  type CommandResult = Result<(), CommandError>

  /** The handler a well-formed admin command runs, with its parsed argument. */
  datatype Command =
    | AddSelector(message: MessageId)
    | PersistRole(role: RoleId)
    | StopPersistRole(role: RoleId)

  predicate IsAddSelector(tokens: seq<string>) {
    |tokens| == 4 && tokens[0] == "add" && tokens[1] == "role" && tokens[2] == "selector"
  }

  predicate IsPersistRole(tokens: seq<string>) {
    |tokens| == 3 && tokens[0] == "persist" && tokens[1] == "role"
  }

  predicate IsStopPersistRole(tokens: seq<string>) {
    |tokens| == 4 && tokens[0] == "stop" && tokens[1] == "persist" && tokens[2] == "role"
  }

  /** `parse_argument`: a `u64`, or `MalformedArgument` carrying the text as given. */
  function ParseArgument(argument: string): (r: Result<Snowflake, CommandError>)
    ensures r.Success? <==> ParseU64(argument).Some?
    ensures r.Success? ==> ParseU64(argument) == Some(r.value)
    ensures r.Failure? ==> r.error == MalformedArgument(argument)
  {
    match ParseU64(argument)
    case Some(n) => Success(n)
    case None => Failure(MalformedArgument(argument))
  }

  /** The command an argument result selects, or the argument's error (the `?` in each arm). */
  function WithArgument(arg: Result<Snowflake, CommandError>, command: Snowflake -> Command): Result<Command, CommandError> {
    match arg
    case Success(n) => Success(command(n))
    case Failure(e) => Failure(e)
  }

  /**
   * `try_handle_command`, up to the handler it runs: for an admin, each of the
   * three exact token shapes selects its handler once its argument parses; every
   * other token sequence, and every sequence from a non-admin, is an invalid command.
   */
  function TryHandleCommand(tokens: seq<string>, admin: bool): (r: Result<Command, CommandError>)
    ensures !admin ==> r == Failure(InvalidCommand)
    ensures !IsAddSelector(tokens) && !IsPersistRole(tokens) && !IsStopPersistRole(tokens) ==> r == Failure(InvalidCommand)
    ensures r.Success? ==> admin && ParseU64(tokens[|tokens| - 1]).Some?
    ensures r.Success? && r.value.AddSelector? ==> IsAddSelector(tokens) && Some(r.value.message) == ParseU64(tokens[3])
    ensures r.Success? && r.value.PersistRole? ==> IsPersistRole(tokens) && Some(r.value.role) == ParseU64(tokens[2])
    ensures r.Success? && r.value.StopPersistRole? ==> IsStopPersistRole(tokens) && Some(r.value.role) == ParseU64(tokens[3])
    ensures r.Failure? && r.error != InvalidCommand ==>
      admin && r.error == MalformedArgument(tokens[|tokens| - 1]) && ParseU64(tokens[|tokens| - 1]).None?
    ensures admin && (IsAddSelector(tokens) || IsPersistRole(tokens) || IsStopPersistRole(tokens)) ==>
      (r.Success? <==> ParseU64(tokens[|tokens| - 1]).Some?)
    ensures admin && (IsAddSelector(tokens) || IsPersistRole(tokens) || IsStopPersistRole(tokens)) ==>
      (ParseU64(tokens[|tokens| - 1]).None? ==> r == Failure(MalformedArgument(tokens[|tokens| - 1])))
  {
    if admin && IsAddSelector(tokens) then
      WithArgument(ParseArgument(tokens[3]), (n: Snowflake) => AddSelector(n))
    else if admin && IsPersistRole(tokens) then
      WithArgument(ParseArgument(tokens[2]), (n: Snowflake) => PersistRole(n))
    else if admin && IsStopPersistRole(tokens) then
      WithArgument(ParseArgument(tokens[3]), (n: Snowflake) => StopPersistRole(n))
    else
      Failure(InvalidCommand)
  }

  /** The tokens an admin types to run `command`, with the argument written in decimal. */
  function CommandTokens(command: Command): seq<string> {
    match command
    case AddSelector(m) => ["add", "role", "selector", Decimal(m)]
    case PersistRole(r) => ["persist", "role", Decimal(r)]
    case StopPersistRole(r) => ["stop", "persist", "role", Decimal(r)]
  }

  /** Every command an admin writes out in full is dispatched to exactly that command. */
  lemma DispatchRoundTrip(command: Command)
    ensures TryHandleCommand(CommandTokens(command), true) == Success(command)
  {
    match command
    case AddSelector(m) => ParseDecimal(m);
    case PersistRole(r) => ParseDecimal(r);
    case StopPersistRole(r) => ParseDecimal(r);
  }

  /** A token more or a token less than a command shape is an invalid command, whatever the tokens. */
  lemma WrongArityRejected(tokens: seq<string>, admin: bool)
    requires |tokens| != 3 && |tokens| != 4
    ensures TryHandleCommand(tokens, admin) == Failure(InvalidCommand)
  {
  }

  /** What `handle_command` sends back: a reaction, and a reply with the error when there is one. */
  datatype Response = Response(reaction: string, reply: Option<CommandError>)

  const SUCCESS_REACTION: string := "✅"
  const FAILURE_REACTION: string := "❌"

  /** `handle_command`'s acknowledgement: ✅ exactly on success; a text reply exactly on failure. */
  function Acknowledge(result: CommandResult): (response: Response)
    ensures response.reaction == SUCCESS_REACTION <==> result.Success?
    ensures response.reaction == FAILURE_REACTION <==> result.Failure?
    ensures response.reply.Some? <==> result.Failure?
    ensures response.reply.Some? ==> response.reply.value == result.error
  {
    if result.Success? then Response(SUCCESS_REACTION, None)
    else Response(FAILURE_REACTION, Some(result.error))
  }

  /**
   * `get_permissions`: the permissions of a member found in the cache whose
   * lookup succeeded (`lookup`), and no permissions otherwise.
   */
  function GetPermissions(cached: bool, lookup: Option<Permissions>): (p: Permissions)
    ensures !cached || lookup.None? ==> p == {}
    ensures cached && lookup.Some? ==> p == lookup.value
  {
    if cached && lookup.Some? then lookup.value else {}
  }

  /** `check_message_admin`: only a message sent in a guild, by an administrator there, is an admin's. */
  function CheckMessageAdmin(guild: Option<GuildId>, cached: bool, lookup: Option<Permissions>): (admin: bool)
    ensures admin ==> guild.Some? && cached && lookup.Some? && Administrator in lookup.value
    ensures guild.Some? && cached && lookup.Some? ==> (admin <==> Administrator in lookup.value)
  {
    match guild
    case Some(_) => Administrator in GetPermissions(cached, lookup)
    case None => false
  }
}
