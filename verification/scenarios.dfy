/**
  An example session: one profile `vm1` at 10.0.0.5 with
  user `admin` and password `s3cret`, a connection, the status line, a
  refused and a confirmed service restart, and a command written with
  `sudo`.
 */
module Scenarios {
  import opened Wrappers
  import opened Text
  import Json
  import opened Hosts
  import opened Classifier
  import opened ClassifierExamples
  import opened Sessions
  import opened Execution
  import opened ToolServer
  import opened HttpApi

  const Vm1Profile := Profile(Some("10.0.0.5"), None, Some("admin"), Some("s3cret"), None)

  const Vm1: HostTable := [HostEntry("vm1", Vm1Profile)]

  /** The session after connecting to `vm1`. */
  const OnVm1 := Session(Some(Client(true)), Some("10.0.0.5"), Some("vm1"))

  /** Connecting by alias uses the profile with port 22, logs in as `admin`
      with the profile's password and reports the alias. */
  lemma ConnectToVm1()
    ensures var c := Connect(Initial, Vm1, "vm1", Accepted);
      && c.session == OnVm1
      && c.reply == Success("Successfully connected to vm1")
      && c.attempt == Some(Endpoint("10.0.0.5", 22, "admin", "s3cret"))
  {
    assert Find(Vm1, "vm1") == Some(Vm1Profile);
    assert Connected("vm1", "") == "Successfully connected to vm1";
  }

  /** Both status replies name the alias and the address. */
  lemma StatusOnVm1()
    ensures StatusMessage(OnVm1) == "Connected to: vm1 (10.0.0.5)"
    ensures HttpStatus(OnVm1).members[Json.Field.Connected] == Json.JBool(true)
    ensures HttpStatus(OnVm1).members[Json.Field.Host] == Json.JStr("vm1")
    ensures HttpStatus(OnVm1).members[Json.Field.Hostname] == Json.JStr("10.0.0.5")
  {
    StatusAgrees(OnVm1);
  }

  /** An unconfirmed restart is refused with a warning naming it, over
      either front end, and nothing is sent. */
  lemma RestartNeedsConfirmation(command: string, remote: RemoteOutcome)
    requires command == "systemctl restart nginx"
    ensures var args := ExecuteArgs(Some(command), false, false);
      && ServeExecute(args, OnVm1, Vm1, remote) == Served(Warning(command), None)
      && HttpExecute(args, OnVm1, Vm1, remote) == (Refusal(command), None)
  {
    ServiceRestartIsFlagged(command);
    var args := ExecuteArgs(Some(command), false, false);
    assert Decide(args, OnVm1, Vm1) == Refused(command);
  }

  /** Confirmed, the restart is sent as written, without a terminal or
      input, whatever the classifier's verdict, and the record names the
      command and the address. */
  lemma ConfirmedRestartRuns(command: string, verdict: bool, remote: RemoteOutcome)
    requires command == "systemctl restart nginx"
    requires remote == Completed(0, "", "")
    ensures var d := Gate(ExecuteArgs(Some(command), true, false), verdict, OnVm1, Vm1);
      var e := ExecuteCommand(OnVm1, command, false, None, remote);
      && d == Run(command, false, None)
      && Dispatch(d, OnVm1, remote).sent == Some(ExecPlan(command, false, None))
      && e.outcome == Success(ExecResult("10.0.0.5", command, 0, "", "", true, false))
  {
    NotSudo(command);
    ConfirmedPlainRuns(command, verdict, remote);
  }

  /** On the `vm1` session a confirmed command that is not written with
      `sudo` runs as written, and a clean exit is recorded against the
      address. */
  lemma ConfirmedPlainRuns(command: string, verdict: bool, remote: RemoteOutcome)
    requires command != [] && !WantsSudo(command, false)
    requires remote == Completed(0, "", "")
    ensures var d := Gate(ExecuteArgs(Some(command), true, false), verdict, OnVm1, Vm1);
      var e := ExecuteCommand(OnVm1, command, false, None, remote);
      && d == Run(command, false, None)
      && Dispatch(d, OnVm1, remote).sent == Some(ExecPlan(command, false, None))
      && e.outcome == Success(ExecResult("10.0.0.5", command, 0, "", "", true, false))
  {
  }

  lemma NotSudo(command: string)
    requires command == "systemctl restart nginx"
    ensures !WantsSudo(command, false)
  {
    assert !IsSpace(command[0]) && !IsSpace(command[|command| - 1]) && command[1] == 'y';
    UnwrittenSudo(command);
  }

  /** Text without surrounding whitespace whose second character is not
      `u` does not start with `sudo`. */
  lemma UnwrittenSudo(command: string)
    requires |command| >= 2 && !IsSpace(command[0]) && !IsSpace(command[|command| - 1])
    requires command[1] != 'u'
    ensures !WantsSudo(command, false)
  {
    StripIdentity(command);
    assert "sudo"[1] == 'u';
  }

  /** A command written with `sudo` is escalated although the caller did
      not ask: unconfirmed, since the classifier lets it through, it goes out
      over either front end unchanged (it already starts with `sudo`), on a
      terminal, with the profile's password and a newline as its input. */
  lemma SudoCommandEscalates(command: string, remote: RemoteOutcome)
    requires command == "sudo apt update"
    ensures var args := ExecuteArgs(Some(command), false, false);
      && Decide(args, OnVm1, Vm1) == Run(command, true, Some("s3cret"))
      && ServeExecute(args, OnVm1, Vm1, remote).sent == Some(ExecPlan(command, true, Some("s3cret\n")))
      && HttpExecute(args, OnVm1, Vm1, remote).1 == Some(ExecPlan(command, true, Some("s3cret\n")))
  {
    SudoAptUpdateIsSafe(command);
    WrittenSudo(command);
    SafeSudoRuns(command, remote);
  }

  /** On the `vm1` session an unconfirmed command that the classifier lets
      through and that is written with `sudo` runs as written, on a
      terminal, with the profile's password as input. */
  lemma SafeSudoRuns(command: string, remote: RemoteOutcome)
    requires command != [] && !IsDestructive(command)
    requires WantsSudo(command, false) && CommandLine(command, true) == command
    ensures var args := ExecuteArgs(Some(command), false, false);
      && Decide(args, OnVm1, Vm1) == Run(command, true, Some("s3cret"))
      && ServeExecute(args, OnVm1, Vm1, remote).sent == Some(ExecPlan(command, true, Some("s3cret\n")))
      && HttpExecute(args, OnVm1, Vm1, remote).1 == Some(ExecPlan(command, true, Some("s3cret\n")))
  {
    var args := ExecuteArgs(Some(command), false, false);
    SudoGateOnVm1(command, false, false);
    SudoSentOnVm1(command, remote);
    RoutesAgree(args, OnVm1, Vm1, remote);
  }

  lemma SudoSentOnVm1(command: string, remote: RemoteOutcome)
    requires CommandLine(command, true) == command
    ensures Dispatch(Run(command, true, Some("s3cret")), OnVm1, remote).sent
      == Some(ExecPlan(command, true, Some("s3cret\n")))
  {
    SentWithPassword(command, "s3cret", remote);
    Vm1Input();
  }

  /** The input written for `vm1`'s password. Kept apart from the dispatch
      facts above, which make the literal equality costly to prove. */
  lemma Vm1Input()
    ensures "s3cret" + "\n" == "s3cret\n"
  {
  }

  /** Under escalation a non-empty password goes out with a newline. */
  lemma SentWithPassword(command: string, password: string, remote: RemoteOutcome)
    requires CommandLine(command, true) == command && password != ""
    ensures Dispatch(Run(command, true, Some(password)), OnVm1, remote).sent
      == Some(ExecPlan(command, true, Some(password + "\n")))
  {
    SentOnVm1(command, true, Some(password), remote);
  }

  lemma SudoGateOnVm1(command: string, confirmed: bool, verdict: bool)
    requires command != [] && WantsSudo(command, false) && (confirmed || !verdict)
    ensures Gate(ExecuteArgs(Some(command), confirmed, false), verdict, OnVm1, Vm1) == Run(command, true, Some("s3cret"))
  {
    Vm1Password();
  }

  /** On the `vm1` session every decision to run is sent, with the
      password as input only under escalation. */
  lemma SentOnVm1(command: string, useSudo: bool, password: Option<string>, remote: RemoteOutcome)
    requires CommandLine(command, useSudo) == command
    ensures Dispatch(Run(command, useSudo, password), OnVm1, remote).sent
      == Some(ExecPlan(command, useSudo, if useSudo && Truthy(password) then Some(password.value + "\n") else None))
  {
  }

  lemma WrittenSudo(command: string)
    requires command == "sudo apt update"
    ensures WantsSudo(command, false) && CommandLine(command, true) == command
  {
    assert command[..4] == "sudo" && !IsSpace(command[0]) && !IsSpace(command[|command| - 1]);
    StartsWithSudo(command);
  }

  /** Text without surrounding whitespace that begins with `sudo` is
      escalated and sent as written. */
  lemma StartsWithSudo(command: string)
    requires |command| >= 4 && command[..4] == "sudo"
    requires !IsSpace(command[0]) && !IsSpace(command[|command| - 1])
    ensures WantsSudo(command, false) && CommandLine(command, true) == command
  {
    StripIdentity(command);
    assert command[0..4] == command[..4];
  }

  lemma Vm1Password()
    ensures SudoPassword(true, OnVm1, Vm1) == Some("s3cret")
  {
    assert Find(Vm1, "vm1") == Some(Vm1Profile);
  }
}
