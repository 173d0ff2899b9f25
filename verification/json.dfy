/** The JSON values the HTTP API replies with (Flask's `jsonify`). */
module Json {
  import opened Wrappers

  /** The member names the API's objects use. */
  datatype Field =
    | Success | Error | Message | Hosts | Destructive | Warning | Connected
    | Alias | Hostname | Username | Port | Description
    | Command | ExitCode | Stdout | Stderr | UsedSudo | Host

  /** A member name as it appears on the wire. */
  function Name(f: Field): string {
    match f
    case Success => "success"
    case Error => "error"
    case Message => "message"
    case Hosts => "hosts"
    case Destructive => "destructive"
    case Warning => "warning"
    case Connected => "connected"
    case Alias => "alias"
    case Hostname => "hostname"
    case Username => "username"
    case Port => "port"
    case Description => "description"
    case Command => "command"
    case ExitCode => "exit_code"
    case Stdout => "stdout"
    case Stderr => "stderr"
    case UsedSudo => "used_sudo"
    case Host => "host"
  }

  /** A JSON value. An object is a map from member name to value: `jsonify`
      writes its members in an order of its own, which nothing here
      depends on. */
  datatype Json =
    | JNull
    | JBool(b: bool)
    | JInt(i: int)
    | JStr(s: string)
    | JArr(items: seq<Json>)
    | JObj(members: map<Field, Json>)

  /** How `jsonify` encodes an optional string: `None` becomes `null`. */
  function OptStr(o: Option<string>): Json {
    match o
    case None => JNull
    case Some(v) => JStr(v)
  }
}
