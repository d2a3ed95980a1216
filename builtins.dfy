/** The builtin commands: their classification and the dispatch, with the
    one argument check the dispatcher makes itself (`ping`'s token count). */
module Builtins {
  import opened Text

  /** `enum BuiltinType`: special builtins run in the shell itself when they
      stand alone; regular ones run in a child like any other command. */
  datatype BuiltinType = NotBuiltin | SpecialBuiltin | RegularBuiltin

  predicate IsSpecialName(c: string) {
    c == "hop" || c == "exit" || c == "fg" || c == "bg" || c == "log"
  }

  predicate IsRegularName(c: string) {
    c == "reveal" || c == "activities" || c == "ping"
  }

  /** `get_builtin_type`; `None` stands for a NULL name. */
  function GetBuiltinType(cmd: Option<string>): (r: BuiltinType)
    ensures r == SpecialBuiltin <==> cmd.Some? && IsSpecialName(cmd.value)
    ensures r == RegularBuiltin <==> cmd.Some? && IsRegularName(cmd.value)
  {
    if cmd.None? then NotBuiltin
    else if IsSpecialName(cmd.value) then SpecialBuiltin
    else if IsRegularName(cmd.value) then RegularBuiltin
    else NotBuiltin
  }

  /** What `execute_builtin` does with an argument vector: the command it
      hands the arguments after the name to, or `ping`'s syntax message. */
  datatype BuiltinCall =
    | Hop(args: seq<string>)
    | Exit
    | Fg(argv: seq<string>)
    | Bg(argv: seq<string>)
    | Reveal(args: seq<string>)
    | Log(args: seq<string>)
    | Activities
    | Ping(pid: int, signal: int)
    | PingSyntax(line: Line)
    | NoCall

  /** The text `exit` prints after killing the remaining jobs. */
  const Logout: Line := Out("logout\n")

  /** `execute_builtin`; the vector is never empty where it is called. */
  function ExecuteBuiltin(argv: seq<string>): (r: BuiltinCall)
    requires |argv| >= 1
    ensures r.Hop? ==> r.args == argv[1..]
    ensures r.Ping? ==> |argv| == 3 && r.pid == StrtolInt(argv[1]) && r.signal == StrtolInt(argv[2])
    ensures r.Ping? ==> IntMin <= r.pid <= IntMax && IntMin <= r.signal <= IntMax
    ensures r.PingSyntax? <==> argv[0] == "ping" && |argv| != 3
  {
    var name := argv[0];
    if name == "hop" then Hop(argv[1..])
    else if name == "exit" then Exit
    else if name == "fg" then Fg(argv)
    else if name == "bg" then Bg(argv)
    else if name == "reveal" then Reveal(argv[1..])
    else if name == "log" then Log(argv[1..])
    else if name == "activities" then Activities
    else if name == "ping" then
      if |argv| != 3 then PingSyntax(Err("Syntax: ping <pid> <signal_number>\n"))
      else Ping(StrtolInt(argv[1]), StrtolInt(argv[2]))
    else NoCall
  }

  /** The classification and the dispatch agree: exactly the names
      classified as builtins are dispatched to a command, and special and
      regular names are disjoint. */
  lemma ClassifiedNamesDispatch(argv: seq<string>)
    requires |argv| >= 1
    ensures GetBuiltinType(Some(argv[0])) == NotBuiltin <==> ExecuteBuiltin(argv) == NoCall
    ensures !(IsSpecialName(argv[0]) && IsRegularName(argv[0]))
  {
  }
}
