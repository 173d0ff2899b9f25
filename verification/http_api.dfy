/**
  The HTTP routes that wrap the same connection for a web front end. Each
  route answers a JSON object; an exception inside a route becomes
  `{"success": false, "error": <message>}`.
 */
module HttpApi {
  import opened Wrappers
  import opened Text
  import opened Json
  import opened Hosts
  import opened Classifier
  import opened Sessions
  import opened Execution
  import opened ToolServer

  function Failed(error: string): Json {
    JObj(map[Field.Success := JBool(false), Field.Error := JStr(error)])
  }

  /** The public fields of one host, with the defaults of `connect`. */
  function HostObject(e: HostEntry): Json
    requires e.profile.hostname.Some?
  {
    var p := e.profile;
    JObj(map[
      Field.Alias := JStr(e.alias),
      Field.Hostname := JStr(p.hostname.value),
      Field.Username := JStr(p.username.GetOr("root")),
      Field.Port := JInt(p.port.GetOr(22)),
      Field.Description := JStr(p.description.GetOr(""))])
  }

  function HostObjects(entries: seq<HostEntry>): (r: seq<Json>)
    requires AllHostnames(entries)
    ensures |r| == |entries|
    ensures forall i | 0 <= i < |entries| :: r[i] == HostObject(entries[i])
  {
    if entries == [] then []
    else
      RestHasHostnames(entries);
      [HostObject(entries[0])] + HostObjects(entries[1..])
  }

  /** `GET /api/hosts`. A profile without `hostname` raises
      `KeyError('hostname')`, which discards the list. */
  function ListHosts(hosts: HostTable): (j: Json)
    ensures |hosts| == 0 ==> j == Failed("No hosts configured")
    ensures |hosts| > 0 && !AllHostnames(hosts) ==> j == Failed(MissingHostname)
  {
    if |hosts| == 0 then Failed("No hosts configured")
    else if !AllHostnames(hosts) then Failed(MissingHostname)
    else JObj(map[Field.Success := JBool(true), Field.Hosts := JArr(HostObjects(hosts))])
  }

  /** `POST /api/connect` with body `{"host": host}`: the session afterwards,
      the reply and the transport call made, if any. */
  function HttpConnect(host: Option<string>, s: Session, hosts: HostTable, transport: TransportOutcome)
    : (r: (Session, Json, Option<Endpoint>))
    ensures !Truthy(host) ==> r == (s, Failed("No host specified"), None)
  {
    if !Truthy(host) then (s, Failed("No host specified"), None)
    else
      var c := Connect(s, hosts, host.value, transport);
      match c.reply
      case Success(message) => (c.session, JObj(map[Field.Success := JBool(true), Field.Message := JStr(message)]), c.attempt)
      case Failure(error) => (c.session, Failed(error), c.attempt)
  }

  const HttpWarningHead := "\U{26A0}\U{FE0F}  WARNING: DESTRUCTIVE COMMAND DETECTED\n\n"

  const HttpWarningTail :=
    "\n\nThis command could:\n"
    + "\U{2022} Delete files or directories\n"
    + "\U{2022} Modify system configuration\n"
    + "\U{2022} Stop or restart services\n"
    + "\U{2022} Reboot/shutdown the system\n\n"
    + "Set 'confirmed: true' to proceed."

  /** The warning of the HTTP refusal, shorter than the tool server's. */
  function HttpWarning(command: string): string {
    HttpWarningHead + ("Command: " + command) + HttpWarningTail
  }

  function Refusal(command: string): Json {
    JObj(map[
      Field.Success := JBool(false),
      Field.Destructive := JBool(true),
      Field.Error := JStr("Destructive command requires confirmation"),
      Field.Warning := JStr(HttpWarning(command))])
  }

  function ResultObject(r: ExecResult): Json {
    JObj(map[
      Field.Success := JBool(r.success),
      Field.Command := JStr(r.command),
      Field.Hostname := JStr(r.hostname),
      Field.ExitCode := JInt(r.exitCode),
      Field.Stdout := JStr(r.stdout),
      Field.Stderr := JStr(r.stderr),
      Field.UsedSudo := JBool(r.usedSudo)])
  }

  /** Answering a gate decision over HTTP; only `Run` reaches the host. */
  function HttpDispatch(d: Decision, s: Session, remote: RemoteOutcome): (r: (Json, Option<ExecPlan>))
    ensures !d.Run? ==> r.1.None?
  {
    match d
    case Invalid(_) => (Failed("No command provided"), None)
    case Refused(command) => (Refusal(command), None)
    case Run(command, useSudo, password) =>
      var e := ExecuteCommand(s, command, useSudo, password, remote);
      match e.outcome
      case Success(result) => (ResultObject(result), e.sent)
      case Failure(error) => (Failed(error), e.sent)
  }

  /** `POST /api/execute`: the same gate as the `ssh_execute` tool. */
  function HttpExecute(args: ExecuteArgs, s: Session, hosts: HostTable, remote: RemoteOutcome): (r: (Json, Option<ExecPlan>))
    ensures r.1.Some? ==> Truthy(args.command) && (args.confirmed || !IsDestructive(args.command.value))
  {
    HttpDispatch(Decide(args, s, hosts), s, remote)
  }

  /** `POST /api/disconnect`: always a success carrying `disconnect`'s reply. */
  function HttpDisconnect(s: Session): (r: (Session, Json))
    ensures r.1.JObj? && Field.Success in r.1.members && Field.Message in r.1.members
    ensures r.1.members[Field.Success] == JBool(true)
    ensures s.client.Some? ==> r.0 == Initial && r.1.members[Field.Message] == JStr(Disconnect(s).1)
    ensures s.client.Some? && Truthy(s.hostAlias) ==> r.1.members[Field.Message] == JStr("Disconnected from " + s.hostAlias.value)
    ensures s.client.None? ==> r.0 == s && r.1.members[Field.Message] == JStr("No active connection")
  {
    var (t, message) := Disconnect(s);
    (t, JObj(map[Field.Success := JBool(true), Field.Message := JStr(message)]))
  }

  /** `GET /api/status`: the connection flag, and when connected the alias
      and hostname as they are (`null` when unset). */
  function HttpStatus(s: Session): Json {
    if IsConnected(s) then
      JObj(map[
        Field.Success := JBool(true),
        Field.Connected := JBool(true),
        Field.Host := OptStr(s.hostAlias),
        Field.Hostname := OptStr(s.hostname),
        Field.Message := JStr(StatusMessage(s))])
    else
      JObj(map[
        Field.Success := JBool(true),
        Field.Connected := JBool(false),
        Field.Message := JStr("Not connected to any host")])
  }

  /** The status route reports what the `ssh_status` tool reports, plus the
      raw alias and hostname when connected. */
  lemma StatusAgrees(s: Session)
    ensures var m := HttpStatus(s).members;
      && m[Field.Success] == JBool(true)
      && m[Field.Connected] == JBool(IsConnected(s))
      && m[Field.Message] == JStr(StatusMessage(s))
      && (IsConnected(s) ==> m.Keys == {Field.Success, Field.Connected, Field.Host, Field.Hostname, Field.Message}
                             && m[Field.Host] == OptStr(s.hostAlias) && m[Field.Hostname] == OptStr(s.hostname))
      && (!IsConnected(s) ==> m.Keys == {Field.Success, Field.Connected, Field.Message})
  {
  }

  /** The HTTP refusal is a failure marked destructive that quotes the
      command. */
  lemma RefusalShape(command: string)
    ensures var m := Refusal(command).members;
      && m[Field.Success] == JBool(false)
      && m[Field.Destructive] == JBool(true)
      && m[Field.Warning].JStr?
      && Contains(m[Field.Warning].s, "Command: " + command)
  {
    ContainsMiddle(HttpWarningHead, "Command: " + command, HttpWarningTail);
  }

  /** Both front ends carry out a decision alike: the same plan reaches the
      host, and the HTTP reply is marked destructive exactly when the
      decision is a refusal. */
  lemma SameDispatch(d: Decision, s: Session, remote: RemoteOutcome)
    ensures HttpDispatch(d, s, remote).1 == Dispatch(d, s, remote).sent
    ensures HttpDispatch(d, s, remote).0.JObj?
    ensures Field.Destructive in HttpDispatch(d, s, remote).0.members <==> d.Refused?
  {
  }

  /** The HTTP route and the `ssh_execute` tool send the same plan for the
      same arguments and refuse the same commands. */
  lemma RoutesAgree(args: ExecuteArgs, s: Session, hosts: HostTable, remote: RemoteOutcome)
    ensures HttpExecute(args, s, hosts, remote).1 == ServeExecute(args, s, hosts, remote).sent
    ensures HttpExecute(args, s, hosts, remote).0.JObj?
    ensures Field.Destructive in HttpExecute(args, s, hosts, remote).0.members
        <==> Truthy(args.command) && IsDestructive(args.command.value) && !args.confirmed
  {
    SameDispatch(Decide(args, s, hosts), s, remote);
  }

  /** A completed command's reply carries the record's fields under their
      wire names: its success flag, the caller's command, the hostname, the
      exit code, both outputs and whether sudo was used. */
  lemma ResultFields(s: Session, command: string, useSudo: bool, password: Option<string>, remote: RemoteOutcome)
    requires ExecuteCommand(s, command, useSudo, password, remote).outcome.Success?
    ensures var j := HttpDispatch(Run(command, useSudo, password), s, remote).0;
      && j.JObj?
      && j.members.Keys == {Field.Success, Field.Command, Field.Hostname, Field.ExitCode, Field.Stdout, Field.Stderr, Field.UsedSudo}
      && j.members[Field.Success] == JBool(remote.Completed? && remote.exitCode == 0)
      && j.members[Field.Command] == JStr(command)
      && Some(j.members[Field.Hostname].s) == s.hostname
      && j.members[Field.ExitCode] == JInt(remote.exitCode)
      && j.members[Field.Stdout] == JStr(Sanitize(remote.stdout, useSudo))
      && j.members[Field.Stderr] == JStr(remote.stderr)
      && j.members[Field.UsedSudo] == JBool(useSudo)
  {
    ResultRecord(s, command, useSudo, password, remote);
  }

  /** Every configured host is listed with exactly the public fields and
      their defaults, in table order; no password is listed. */
  lemma HostsListed(hosts: HostTable, i: int)
    requires AllHostnames(hosts) && 0 <= i < |hosts|
    ensures var m := ListHosts(hosts).members;
      && m[Field.Success] == JBool(true)
      && m[Field.Hosts].JArr? && |m[Field.Hosts].items| == |hosts|
      && var h := m[Field.Hosts].items[i].members;
         var p := hosts[i].profile;
      && h.Keys == {Field.Alias, Field.Hostname, Field.Username, Field.Port, Field.Description}
      && h[Field.Alias] == JStr(hosts[i].alias)
      && h[Field.Hostname] == JStr(p.hostname.value)
      && h[Field.Username] == JStr(p.username.GetOr("root"))
      && h[Field.Port] == JInt(p.port.GetOr(22))
      && h[Field.Description] == JStr(p.description.GetOr(""))
  {
  }

  /** The host listing never depends on a password. */
  lemma HostsIgnorePasswords(a: HostTable, b: HostTable)
    requires SamePublic(a, b)
    ensures ListHosts(a) == ListHosts(b)
  {
    assert AllHostnames(a) <==> AllHostnames(b) by {
      assert forall i | 0 <= i < |a| :: a[i].profile.hostname == a[i].profile.(password := None).hostname;
      assert forall i | 0 <= i < |b| :: b[i].profile.hostname == b[i].profile.(password := None).hostname;
    }
    if |a| > 0 && AllHostnames(a) {
      forall i | 0 <= i < |a| ensures HostObject(a[i]) == HostObject(b[i]) {
        assert a[i].profile.(password := None) == b[i].profile.(password := None);
      }
      assert HostObjects(a) == HostObjects(b);
    }
  }

  /** The listing route fails exactly when the `ssh_list_hosts` tool does
      not list: on an empty table and on a profile without a hostname. */
  lemma ListingsAgree(hosts: HostTable)
    ensures ListHosts(hosts).JObj?
    ensures ListHosts(hosts).members[Field.Success] == JBool(StartsWith(ListHostsText(hosts), ListingHead))
  {
    if |hosts| > 0 && AllHostnames(hosts) {
      ListingText(hosts);
    } else {
      NoListingText(hosts);
    }
  }

  lemma ListingText(hosts: HostTable)
    requires |hosts| > 0 && AllHostnames(hosts)
    ensures StartsWith(ListHostsText(hosts), ListingHead)
  {
    StartsWithConcat(ListingHead, HostBlocks(hosts));
  }

  lemma NoListingText(hosts: HostTable)
    requires !(|hosts| > 0 && AllHostnames(hosts))
    ensures !StartsWith(ListHostsText(hosts), ListingHead)
  {
    var t := ListHostsText(hosts);
    assert t[0] != ListingHead[0];
  }

  /** The connect route answers what the `ssh_connect` tool answers: the
      same session and transport call, success exactly when the connection
      was made, and the same message or error text. */
  lemma ConnectAgrees(host: Option<string>, s: Session, hosts: HostTable, transport: TransportOutcome)
    ensures var h := HttpConnect(host, s, hosts, transport);
      var t := ServeConnect(host, s, hosts, transport);
      && h.0 == t.0 && h.2 == t.2 && h.1.JObj?
      && (Truthy(host) ==>
          var c := Connect(s, hosts, host.value, transport);
          && h.1.members[Field.Success] == JBool(c.reply.Success?)
          && (c.reply.Success? ==> h.1.members[Field.Message] == JStr(t.1))
          && (c.reply.Failure? ==> h.1.members[Field.Error] == JStr(c.reply.error) && t.1 == "Error: " + c.reply.error))
  {
  }
}
