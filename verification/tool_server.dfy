/**
  The tool handlers of the MCP server (`call_tool`): `ssh_execute` with its
  confirmation gate, sudo detection and sudo-password lookup, the text it
  renders for a finished command, `ssh_connect`, and the `ssh_list_hosts`
  listing. An exception escaping a handler becomes the text "Error: "
  followed by its message. The `ssh_disconnect` and `ssh_status` handlers
  return `Sessions.Disconnect` and `Sessions.StatusMessage` unchanged.
 */
module ToolServer {
  import opened Wrappers
  import opened Text
  import opened Hosts
  import opened Classifier
  import opened Sessions
  import opened Execution

  /** The `ssh_execute` arguments; `confirmed` and `use_sudo` default to false. */
  datatype ExecuteArgs = ExecuteArgs(command: Option<string>, confirmed: bool, useSudo: bool)

  /** What the gate decides before anything reaches the connection; each
      front end renders a refusal in its own words. */
  datatype Decision =
    | Invalid(message: string)
    | Refused(command: string)
    | Run(command: string, useSudo: bool, password: Option<string>)

  /** The reply text of `ssh_execute` and the plan issued to the remote
      host, if any. */
  datatype Served = Served(text: string, sent: Option<ExecPlan>)

  const NoCommand := "Error: No command provided"
  const NoHost := "Error: No host specified"

  /** Escalation is used when asked for or when the stripped command
      already starts with `sudo`. */
  function WantsSudo(command: string, useSudo: bool): bool {
    useSudo || StartsWith(Strip(command), "sudo")
  }

  /** The sudo password: looked up only with escalation, only under the
      session's alias, and only in that alias's profile. */
  function SudoPassword(useSudo: bool, s: Session, hosts: HostTable): Option<string> {
    if useSudo && Truthy(s.hostAlias) && Has(hosts, s.hostAlias.value) then
      Find(hosts, s.hostAlias.value).value.password
    else
      None
  }

  const WarningHead := "\U{26A0}\U{FE0F}  WARNING: DESTRUCTIVE COMMAND DETECTED\n\n"

  const WarningTail :=
    "\n\n"
    + "This command could:\n"
    + "\U{2022} Delete files or directories\n"
    + "\U{2022} Modify system configuration\n"
    + "\U{2022} Stop or restart services\n"
    + "\U{2022} Reboot/shutdown the system\n"
    + "\U{2022} Remove packages or users\n"
    + "\U{2022} Change permissions or ownership\n\n"
    + "\U{274C} CONFIRMATION REQUIRED\n\n"
    + "To execute this command, you MUST confirm by:\n"
    + "Setting 'confirmed: true' in the tool parameters\n\n"
    + "\U{26A0}\U{FE0F}  Please review the command carefully before confirming!"

  /** The refusal text of `ssh_execute`, quoting the command. */
  function Warning(command: string): string {
    WarningHead + ("Command: " + command) + WarningTail
  }

  /** The gate of `ssh_execute`, given the classifier's verdict on the
      command: a missing or empty command is rejected, an unconfirmed
      destructive one refused, anything else run with the sudo password of
      the session's profile. */
  function Gate(args: ExecuteArgs, destructive: bool, s: Session, hosts: HostTable): (d: Decision)
    ensures d.Invalid? <==> !Truthy(args.command)
    ensures d.Refused? <==> Truthy(args.command) && destructive && !args.confirmed
    ensures !d.Invalid? ==> d.command == args.command.value
    ensures d.Run? ==> d.useSudo == WantsSudo(d.command, args.useSudo) && d.password == SudoPassword(d.useSudo, s, hosts)
  {
    if !Truthy(args.command) then Invalid(NoCommand)
    else
      var command := args.command.value;
      var useSudo := WantsSudo(command, args.useSudo);
      if destructive && !args.confirmed then Refused(command)
      else Run(command, useSudo, SudoPassword(useSudo, s, hosts))
  }

  /** The gate with the classifier applied to the command. */
  function Decide(args: ExecuteArgs, s: Session, hosts: HostTable): (d: Decision)
    ensures d.Invalid? <==> !Truthy(args.command)
    ensures d.Refused? <==> Truthy(args.command) && IsDestructive(args.command.value) && !args.confirmed
    ensures !d.Invalid? ==> d.command == args.command.value
  {
    Gate(args, Truthy(args.command) && IsDestructive(args.command.value), s, hosts)
  }

  /** The text `ssh_execute` renders for a finished command. */
  function Report(r: ExecResult): (text: string)
    ensures StartsWith(text, "Command: " + r.command + "\nHost: " + r.hostname + "\n")
  {
    var head := "Command: " + r.command + "\nHost: " + r.hostname + "\n";
    StartsWithConcat(head, ReportBody(r));
    head + ReportBody(r)
  }

  /** The lines of the report after the command and the host. */
  function ReportBody(r: ExecResult): string {
    SudoLine(r) + (ExitLine(r) + (OutputSection(r) + (ErrorSection(r) + FailureSection(r))))
  }

  function SudoLine(r: ExecResult): string {
    if r.usedSudo then "Executed with: sudo\n" else ""
  }

  function ExitLine(r: ExecResult): (line: string)
    ensures |line| > 2 && line[|line| - 1] == '\n'
  {
    "Exit Code: " + Decimal(r.exitCode) + "\n\n"
  }

  function OutputSection(r: ExecResult): (section: string)
    ensures section == "" || section[|section| - 1] == '\n'
  {
    if r.stdout != "" then "STDOUT:\n" + r.stdout + "\n" else ""
  }

  function ErrorSection(r: ExecResult): (section: string)
    ensures section == "" || section[|section| - 1] == '\n'
  {
    if r.stderr != "" then "\nSTDERR:\n" + r.stderr + "\n" else ""
  }

  /** The closing warning of a failed command. */
  function FailureLine(exitCode: int): (line: string)
    ensures line != "" && '0' <= line[|line| - 1] <= '9'
  {
    "\n\U{26A0}\U{FE0F}  Command failed with exit code " + Decimal(exitCode)
  }

  function FailureSection(r: ExecResult): string {
    if !r.success then FailureLine(r.exitCode) else ""
  }

  /** Carrying out a decision: only `Run` reaches `execute_command`. */
  function Dispatch(d: Decision, s: Session, remote: RemoteOutcome): (r: Served)
    ensures !d.Run? ==> r.sent.None?
  {
    match d
    case Invalid(message) => Served(message, None)
    case Refused(command) => Served(Warning(command), None)
    case Run(command, useSudo, password) =>
      var e := ExecuteCommand(s, command, useSudo, password, remote);
      match e.outcome
      case Success(result) => Served(Report(result), e.sent)
      case Failure(message) => Served("Error: " + message, e.sent)
  }

  /** The whole `ssh_execute` handler. */
  function ServeExecute(args: ExecuteArgs, s: Session, hosts: HostTable, remote: RemoteOutcome): (r: Served)
    ensures r.sent.Some? ==> Truthy(args.command) && (args.confirmed || !IsDestructive(args.command.value))
  {
    Dispatch(Decide(args, s, hosts), s, remote)
  }

  /** The `ssh_connect` handler: the session afterwards, the reply text and
      the transport call made, if any. */
  function ServeConnect(host: Option<string>, s: Session, hosts: HostTable, transport: TransportOutcome)
    : (r: (Session, string, Option<Endpoint>))
    ensures !Truthy(host) ==> r == (s, NoHost, None)
  {
    if !Truthy(host) then (s, NoHost, None)
    else
      var c := Connect(s, hosts, host.value, transport);
      match c.reply
      case Success(message) => (c.session, message, c.attempt)
      case Failure(message) => (c.session, "Error: " + message, c.attempt)
  }

  /** Every profile has a `hostname` key. */
  predicate AllHostnames(entries: seq<HostEntry>) {
    forall i | 0 <= i < |entries| :: entries[i].profile.hostname.Some?
  }

  /** The listing lines of one host: the description only when non-empty,
      and never the password. */
  function HostBlock(e: HostEntry): string
    requires e.profile.hostname.Some?
  {
    var p := e.profile;
    "  " + e.alias + ":\n"
    + "    Hostname: " + p.hostname.value + "\n"
    + "    Username: " + p.username.GetOr("root") + "\n"
    + "    Port: " + Decimal(p.port.GetOr(22)) + "\n"
    + (if Truthy(p.description) then "    Description: " + p.description.value + "\n" else "")
    + "\n"
  }

  function HostBlocks(entries: seq<HostEntry>): string
    requires AllHostnames(entries)
  {
    if entries == [] then "" else HostBlock(entries[0]) + HostBlocks(entries[1..])
  }

  /** The `ssh_list_hosts` handler. A profile without `hostname` raises
      `KeyError('hostname')`, which discards the listing. */
  function ListHostsText(hosts: HostTable): (text: string)
    ensures |hosts| == 0 ==> text == "No hosts configured in config.yaml"
    ensures |hosts| > 0 && !AllHostnames(hosts) ==> text == "Error: " + MissingHostname
  {
    if |hosts| == 0 then "No hosts configured in config.yaml"
    else if !AllHostnames(hosts) then "Error: " + MissingHostname
    else ListingHead + HostBlocks(hosts)
  }

  const ListingHead := "Configured SSH Hosts:\n\n"

  /** The sections of the report of `ssh_execute`: it opens with the command
      and host lines, prints the exit code, and includes the output and error
      sections when they are non-empty. */
  lemma ReportSections(r: ExecResult)
    ensures var text := Report(r);
      && StartsWith(text, "Command: " + r.command + "\nHost: " + r.hostname + "\n")
      && Contains(text, "Exit Code: " + Decimal(r.exitCode) + "\n\n")
      && (r.stdout != "" ==> Contains(text, "STDOUT:\n" + r.stdout + "\n"))
      && (r.stderr != "" ==> Contains(text, "\nSTDERR:\n" + r.stderr + "\n"))
  {
    var head := "Command: " + r.command + "\nHost: " + r.hostname + "\n";
    Layout(head, SudoLine(r), ExitLine(r), OutputSection(r), ErrorSection(r), FailureSection(r));
    StartsWithConcat(head, ReportBody(r));
  }

  /** The "Executed with: sudo" line follows the host line exactly when sudo
      was used. */
  lemma ReportSudoLine(r: ExecResult)
    ensures var head := "Command: " + r.command + "\nHost: " + r.hostname + "\n";
      r.usedSudo <==> StartsWith(Report(r), head + "Executed with: sudo\n")
  {
    var head := "Command: " + r.command + "\nHost: " + r.hostname + "\n";
    var rest := ExitLine(r) + (OutputSection(r) + (ErrorSection(r) + FailureSection(r)));
    assert rest[2] == ExitLine(r)[2] == 'i';
    SudoLineExactly(head, SudoLine(r), rest, r.usedSudo);
  }

  /** The report ends with the failure warning exactly when the command
      failed. */
  lemma ReportFailureLine(r: ExecResult)
    ensures !r.success <==> EndsWith(Report(r), FailureLine(r.exitCode))
  {
    var head := "Command: " + r.command + "\nHost: " + r.hostname + "\n";
    FailureExactly(head, SudoLine(r), ExitLine(r), OutputSection(r), ErrorSection(r), FailureSection(r),
      FailureLine(r.exitCode), r.success);
  }

  /** The sudo line follows the head exactly when it is present, since the
      exit-code line that otherwise follows differs from it at index 2. */
  lemma SudoLineExactly(head: string, sudo: string, rest: string, usedSudo: bool)
    requires sudo == if usedSudo then "Executed with: sudo\n" else ""
    requires |rest| > 2 && rest[2] == 'i'
    ensures usedSudo <==> StartsWith(head + (sudo + rest), head + "Executed with: sudo\n")
  {
    var t := head + (sudo + rest);
    var p := head + "Executed with: sudo\n";
    if usedSudo {
      assert t == p + rest;
      StartsWithConcat(p, rest);
    } else {
      assert t == head + rest;
      assert t[|head| + 2] == 'i' && p[|head| + 2] == 'e';
      DiffersAt(t, p, |head| + 2);
    }
  }

  /** A report ends with the failure warning exactly when it carries it: the
      warning ends with a digit, every other section with a newline. */
  lemma FailureExactly(h: string, s: string, e: string, o: string, x: string, fail: string, f: string, success: bool)
    requires fail == if !success then f else ""
    requires f != "" && '0' <= f[|f| - 1] <= '9'
    requires e != "" && e[|e| - 1] == '\n'
    requires o == "" || o[|o| - 1] == '\n'
    requires x == "" || x[|x| - 1] == '\n'
    ensures var t := h + (s + (e + (o + (x + fail)))); !success <==> EndsWith(t, f)
  {
    var t := h + (s + (e + (o + (x + fail))));
    Layout(h, s, e, o, x, fail);
    if success {
      LastNewline(h, s, e, o, x);
      EndsDiffer(t, f);
    }
  }

  /** Where the parts of a five-part report sit in it. */
  lemma Layout(h: string, s: string, e: string, o: string, x: string, f: string)
    ensures var t := h + (s + (e + (o + (x + f))));
      && StartsWith(t, h + s)
      && Contains(t, e) && Contains(t, o) && Contains(t, x)
      && EndsWith(t, f)
  {
    var t := h + (s + (e + (o + (x + f))));
    assert t == (h + s) + (e + (o + (x + f)));
    StartsWithConcat(h + s, e + (o + (x + f)));
    assert t == (h + s) + e + (o + (x + f));
    ContainsMiddle(h + s, e, o + (x + f));
    assert t == (h + s + e) + o + (x + f);
    ContainsMiddle(h + s + e, o, x + f);
    assert t == (h + s + e + o) + x + f;
    ContainsMiddle(h + s + e + o, x, f);
    assert t == (h + s + e + o + x) + f;
  }

  /** A report without the failure warning ends with a newline. */
  lemma LastNewline(h: string, s: string, e: string, o: string, x: string)
    requires e != "" && e[|e| - 1] == '\n'
    requires o == "" || o[|o| - 1] == '\n'
    requires x == "" || x[|x| - 1] == '\n'
    ensures var t := h + (s + (e + (o + (x + "")))); t[|t| - 1] == '\n'
  {
    var t := h + (s + (e + (o + (x + ""))));
    assert t == h + s + e + o + x;
    if x != "" {
      assert t[|t| - 1] == x[|x| - 1];
    } else if o != "" {
      assert t == h + s + e + o;
      assert t[|t| - 1] == o[|o| - 1];
    } else {
      assert t == h + s + e;
      assert t[|t| - 1] == e[|e| - 1];
    }
  }

  lemma DiffersAt(s: string, p: string, k: int)
    requires 0 <= k < |p| && k < |s| && s[k] != p[k]
    ensures !StartsWith(s, p)
  {
    if |p| <= |s| {
      assert s[0..|p|][k] == s[k];
    }
  }

  lemma EndsDiffer(s: string, p: string)
    requires s != [] && p != [] && s[|s| - 1] != p[|p| - 1]
    ensures !EndsWith(s, p)
  {
    if |p| <= |s| {
      assert s[|s| - |p|..][|p| - 1] == s[|s| - 1];
    }
  }

  /** A refused command is quoted back and nothing is sent, whatever the
      session and the remote host. */
  lemma RefusalSendsNothing(args: ExecuteArgs, s: Session, hosts: HostTable, remote: RemoteOutcome)
    requires Truthy(args.command) && IsDestructive(args.command.value) && !args.confirmed
    ensures var r := ServeExecute(args, s, hosts, remote);
      && r == Served(Warning(args.command.value), None)
      && Contains(r.text, "Command: " + args.command.value)
  {
    WarningQuotes(args.command.value);
  }

  lemma WarningQuotes(command: string)
    ensures Contains(Warning(command), "Command: " + command)
  {
    ContainsMiddle(WarningHead, "Command: " + command, WarningTail);
  }

  /** A command let through goes to `execute_command` with escalation when
      asked for or when it starts with `sudo`, and the reply is the report
      or the error text. */
  lemma RunGoesThroughExecute(args: ExecuteArgs, destructive: bool, s: Session, hosts: HostTable, remote: RemoteOutcome)
    requires Truthy(args.command) && (args.confirmed || !destructive)
    ensures var command := args.command.value;
      var useSudo := args.useSudo || StartsWith(Strip(command), "sudo");
      var e := ExecuteCommand(s, command, useSudo, SudoPassword(useSudo, s, hosts), remote);
      var r := Dispatch(Gate(args, destructive, s, hosts), s, remote);
      && r.sent == e.sent
      && (e.outcome.Success? ==> r.text == Report(e.outcome.value))
      && (e.outcome.Failure? ==> r.text == "Error: " + e.outcome.error)
  {
  }

  /** A command written with `sudo` is escalated even when the caller did
      not ask, and is then sent exactly as written, on a terminal. */
  lemma SudoAutoDetect(args: ExecuteArgs, destructive: bool, s: Session, hosts: HostTable, remote: RemoteOutcome)
    requires Truthy(args.command) && (args.confirmed || !destructive)
    requires StartsWith(Strip(args.command.value), "sudo")
    ensures var r := Dispatch(Gate(args, destructive, s, hosts), s, remote);
      r.sent.Some? ==> r.sent.value.line == args.command.value && r.sent.value.pty
  {
  }

  /** The sudo password comes only from the profile of the session's alias,
      and only with escalation; with escalation and a known alias it is that
      profile's password, present or not. */
  lemma PasswordProvenance(useSudo: bool, s: Session, hosts: HostTable)
    ensures var password := SudoPassword(useSudo, s, hosts);
      && (password.Some? ==>
           useSudo && Truthy(s.hostAlias)
           && exists i | 0 <= i < |hosts| :: hosts[i].alias == s.hostAlias.value && hosts[i].profile.password == password)
      && (useSudo && Truthy(s.hostAlias) && Has(hosts, s.hostAlias.value) ==>
           password == Find(hosts, s.hostAlias.value).value.password)
  {
    var password := SudoPassword(useSudo, s, hosts);
    if password.Some? {
      var alias := s.hostAlias.value;
      assert useSudo && Truthy(s.hostAlias) && Has(hosts, alias);
      var p := Find(hosts, alias).value;
      var i :| 0 <= i < |hosts| && hosts[i] == HostEntry(alias, p);
      assert hosts[i].profile.password == password;
    }
  }

  /** A password reaches the remote host only as the escalation input of a
      command run with sudo, and only the profile's password does. */
  lemma PasswordSentOnlyForSudo(args: ExecuteArgs, destructive: bool, s: Session, hosts: HostTable, remote: RemoteOutcome)
    ensures var r := Dispatch(Gate(args, destructive, s, hosts), s, remote);
      r.sent.Some? && r.sent.value.stdinData.Some? ==>
        && r.sent.value.pty
        && Truthy(s.hostAlias) && Has(hosts, s.hostAlias.value)
        && r.sent.value.stdinData.value == Find(hosts, s.hostAlias.value).value.password.value + "\n"
  {
  }

  /** An empty host is answered without touching the session; otherwise the
      reply is `connect`'s message, or "Error: " and its exception text. */
  lemma ConnectReplies(host: Option<string>, s: Session, hosts: HostTable, transport: TransportOutcome)
    requires Truthy(host)
    ensures var c := Connect(s, hosts, host.value, transport);
      var r := ServeConnect(host, s, hosts, transport);
      && r.0 == c.session && r.2 == c.attempt
      && (c.reply.Success? ==> r.1 == c.reply.value && StartsWith(r.1, "Successfully connected to " + host.value))
      && (c.reply.Failure? ==> r.1 == "Error: " + c.reply.error)
  {
    var c := Connect(s, hosts, host.value, transport);
    if c.reply.Success? {
      var d := if Find(hosts, host.value).Some? then Find(hosts, host.value).value.description.GetOr("") else "";
      assert c.reply.value == Connected(host.value, d);
      ContainsMiddle("", "Successfully connected to " + host.value,
        if d != "" then " (" + d + ")" else "");
    }
  }

  /** Two tables that differ only in their passwords. */
  predicate SamePublic(a: seq<HostEntry>, b: seq<HostEntry>) {
    && |a| == |b|
    && forall i | 0 <= i < |a| ::
         a[i].alias == b[i].alias && a[i].profile.(password := None) == b[i].profile.(password := None)
  }

  /** The listing never depends on a password. */
  lemma {:induction false} BlocksIgnorePasswords(a: seq<HostEntry>, b: seq<HostEntry>)
    requires SamePublic(a, b) && AllHostnames(a) && AllHostnames(b)
    ensures HostBlocks(a) == HostBlocks(b)
  {
    if a != [] {
      assert a[0].profile.(password := None) == b[0].profile.(password := None);
      assert HostBlock(a[0]) == HostBlock(b[0]);
      assert SamePublic(a[1..], b[1..]) by {
        forall i | 0 <= i < |a[1..]|
          ensures a[1..][i].alias == b[1..][i].alias
          ensures a[1..][i].profile.(password := None) == b[1..][i].profile.(password := None)
        {
          assert a[1..][i] == a[i + 1] && b[1..][i] == b[i + 1];
        }
      }
      BlocksIgnorePasswords(a[1..], b[1..]);
    }
  }

  lemma ListingIgnoresPasswords(a: HostTable, b: HostTable)
    requires SamePublic(a, b)
    ensures ListHostsText(a) == ListHostsText(b)
  {
    assert AllHostnames(a) <==> AllHostnames(b) by {
      assert forall i | 0 <= i < |a| :: a[i].profile.hostname == a[i].profile.(password := None).hostname;
      assert forall i | 0 <= i < |b| :: b[i].profile.hostname == b[i].profile.(password := None).hostname;
    }
    if |a| > 0 && AllHostnames(a) {
      BlocksIgnorePasswords(a, b);
    }
  }

  /** Every configured host has its block in the listing. */
  lemma {:induction false} BlocksShowEveryHost(entries: seq<HostEntry>, i: int)
    requires AllHostnames(entries) && 0 <= i < |entries|
    ensures Contains(HostBlocks(entries), HostBlock(entries[i]))
  {
    var rest := entries[1..];
    RestHasHostnames(entries);
    var head := HostBlock(entries[0]);
    assert HostBlocks(entries) == head + HostBlocks(rest);
    if i == 0 {
      StartsWithConcat(head, HostBlocks(rest));
    } else {
      assert rest[i - 1] == entries[i];
      BlocksShowEveryHost(rest, i - 1);
      ContainsAfter(head, HostBlocks(rest), HostBlock(entries[i]));
    }
  }

  lemma RestHasHostnames(entries: seq<HostEntry>)
    requires AllHostnames(entries) && entries != []
    ensures AllHostnames(entries[1..])
  {
    forall k | 0 <= k < |entries| - 1 ensures entries[1..][k].profile.hostname.Some? {
      assert entries[1..][k] == entries[k + 1];
    }
  }

  lemma ListingShowsEveryHost(hosts: HostTable, i: int)
    requires AllHostnames(hosts) && 0 <= i < |hosts|
    ensures Contains(ListHostsText(hosts), HostBlock(hosts[i]))
  {
    BlocksShowEveryHost(hosts, i);
    ContainsAfter(ListingHead, HostBlocks(hosts), HostBlock(hosts[i]));
  }
}
