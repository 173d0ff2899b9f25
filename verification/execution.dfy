/**
  `SSHConnection.execute_command`: the command line sent to the remote host
  (with `sudo -S` added when escalation is asked for), the pseudo-terminal
  flag, the password written to the channel, the removal of sudo's password
  prompt from the output, and the result record. The remote host's exit code
  and output are parameters.
 */
module Execution {
  import opened Wrappers
  import opened Text
  import opened Sessions

  /** What `exec_command` is called with, and what is then written to the
      channel's standard input. */
  datatype ExecPlan = ExecPlan(line: string, pty: bool, stdinData: Option<string>)

  /** How the remote side answers an issued command. */
  datatype RemoteOutcome =
    | Completed(exitCode: int, stdout: string, stderr: string)
    | Faulted(reason: string)

  /** The dictionary `execute_command` returns. */
  datatype ExecResult = ExecResult(
    hostname: string,
    command: string,
    exitCode: int,
    stdout: string,
    stderr: string,
    success: bool,
    usedSudo: bool)

  /** The plan issued to the remote host, if any, and the returned record or
      the text of the raised exception. */
  datatype Execution = Execution(sent: Option<ExecPlan>, outcome: Result<ExecResult, string>)

  const NotConnected := "Not connected to any host. Please connect first."
  const ExecFailure := "Failed to execute command: "

  /** The text paramiko raises when a command is issued on a client whose
      connection never produced a transport. */
  const NoTransport := "'NoneType' object has no attribute 'open_session'"

  /** The sudo password prompt marker. */
  const Marker := "[sudo]"

  /** The escalation prefix; `-S` makes sudo read the password from stdin. */
  const SudoPrefix := "sudo -S "

  /** The command line sent: prefixed with `sudo -S ` when escalation is asked
      for and the command does not already start with `sudo`. */
  function CommandLine(command: string, useSudo: bool): string {
    if useSudo && !StartsWith(Strip(command), "sudo") then SudoPrefix + command else command
  }

  function Plan(command: string, useSudo: bool, password: Option<string>): ExecPlan {
    ExecPlan(CommandLine(command, useSudo), useSudo,
      if useSudo && Truthy(password) then Some(password.value + "\n") else None)
  }

  predicate Marked(line: string) {
    Contains(line, Marker)
  }

  /** The lines without the marker, in their original order. */
  function Unmarked(lines: seq<string>): (r: seq<string>)
    ensures |r| <= |lines|
    ensures forall k | 0 <= k < |r| :: !Marked(r[k]) && r[k] in lines
    ensures forall k | 0 <= k < |lines| :: !Marked(lines[k]) ==> lines[k] in r
  {
    if lines == [] then []
    else if Marked(lines[0]) then Unmarked(lines[1..])
    else [lines[0]] + Unmarked(lines[1..])
  }

  /** The output after the prompt lines are removed: with escalation and a
      marker present, the output is split at newlines, the marked lines are
      dropped and the rest joined again; otherwise it is unchanged. */
  function Sanitize(stdout: string, useSudo: bool): (r: string)
  {
    if useSudo && Contains(stdout, Marker) then Join(Unmarked(Split(stdout))) else stdout
  }

  /** `execute_command`. Without a client or with an empty hostname it raises
      before doing anything; a client that never completed its handshake
      cannot issue the command. */
  function ExecuteCommand(s: Session, command: string, useSudo: bool, password: Option<string>,
                          remote: RemoteOutcome): (e: Execution)
    ensures s.client.None? || !Truthy(s.hostname) ==> e == Execution(None, Failure(NotConnected))
    ensures e.sent.Some? ==> e.sent.value.line == CommandLine(command, useSudo) && e.sent.value.pty == useSudo
    ensures e.sent.Some? ==> (e.sent.value.stdinData.Some? <==> useSudo && Truthy(password))
    ensures e.sent.Some? && e.sent.value.stdinData.Some? ==> e.sent.value.stdinData.value == password.value + "\n"
    ensures e.sent.Some? <==> s.client.Some? && s.client.value.established && Truthy(s.hostname)
    ensures e.outcome.Success? <==> e.sent.Some? && remote.Completed?
  {
    if s.client.None? || !Truthy(s.hostname) then
      Execution(None, Failure(NotConnected))
    else if !s.client.value.established then
      Execution(None, Failure(ExecFailure + NoTransport))
    else
      var plan := Plan(command, useSudo, password);
      match remote
      case Completed(code, out, err) =>
        Execution(Some(plan), Success(ExecResult(s.hostname.value, command, code, Sanitize(out, useSudo), err, code == 0, useSudo)))
      case Faulted(reason) =>
        Execution(Some(plan), Failure(ExecFailure + reason))
  }

  /** The sent line is the command itself or the command behind `sudo -S `,
      the latter exactly when escalation is asked for and the stripped
      command does not start with `sudo`. An escalated line always starts
      with `sudo`, and wrapping never stacks a second prefix. */
  lemma SudoWrapping(command: string, useSudo: bool)
    ensures CommandLine(command, useSudo) == command || CommandLine(command, useSudo) == SudoPrefix + command
    ensures CommandLine(command, useSudo) != command <==> useSudo && !StartsWith(Strip(command), "sudo")
    ensures useSudo ==> StartsWith(Strip(CommandLine(command, useSudo)), "sudo")
    ensures CommandLine(CommandLine(command, useSudo), useSudo) == CommandLine(command, useSudo)
  {
    var line := SudoPrefix + command;
    assert |line| == |command| + 8;
    assert StartsWith(line, "sudo") by {
      assert line[0..4] == "sudo";
    }
    StripKeepsPrefix(line, "sudo");
  }

  /** With escalation, no line of the sanitised output holds the marker. */
  lemma SanitizeRemovesMarker(stdout: string)
    ensures !Contains(Sanitize(stdout, true), Marker)
  {
    if Contains(stdout, Marker) {
      var kept := Unmarked(Split(stdout));
      if kept == [] {
        assert Sanitize(stdout, true) == "";
      } else if Contains(Join(kept), Marker) {
        assert '\n' !in Marker;
        JoinContains(kept, Marker);
      }
    }
  }

  /** Sanitising twice is sanitising once. */
  lemma SanitizeIdempotent(stdout: string, useSudo: bool)
    ensures Sanitize(Sanitize(stdout, useSudo), useSudo) == Sanitize(stdout, useSudo)
  {
    if useSudo {
      SanitizeRemovesMarker(stdout);
    }
  }

  /** Without escalation, or without the marker, the output is untouched;
      otherwise the output's lines are exactly the unmarked lines of the
      original, in their original order (or nothing is left). */
  lemma SanitizeLines(stdout: string, useSudo: bool)
    ensures !useSudo || !Contains(stdout, Marker) ==> Sanitize(stdout, useSudo) == stdout
    ensures useSudo && Contains(stdout, Marker) ==>
      if Unmarked(Split(stdout)) == [] then Sanitize(stdout, useSudo) == ""
      else Split(Sanitize(stdout, useSudo)) == Unmarked(Split(stdout))
  {
    var kept := Unmarked(Split(stdout));
    if useSudo && Contains(stdout, Marker) && kept != [] {
      assert SingleLines(kept) by {
        forall k | 0 <= k < |kept| ensures '\n' !in kept[k] {
          var j :| 0 <= j < |Split(stdout)| && Split(stdout)[j] == kept[k];
        }
      }
      SplitJoin(kept);
    }
  }

  /** `Unmarked` is the order-keeping filter: it distributes over
      concatenation and keeps a single line exactly when it is unmarked. */
  lemma {:induction false} UnmarkedAppend(a: seq<string>, b: seq<string>)
    ensures Unmarked(a + b) == Unmarked(a) + Unmarked(b)
    decreases |a|
  {
    if a != [] {
      assert (a + b)[1..] == a[1..] + b;
      UnmarkedAppend(a[1..], b);
    } else {
      assert a + b == b;
    }
  }

  lemma UnmarkedSingle(line: string)
    ensures Unmarked([line]) == if Marked(line) then [] else [line]
  {
    assert [line][1..] == [];
  }

  /** The record returned for a completed command: the caller's command (not
      the wrapped line), the session's hostname, the remote exit code and
      error output, the sanitised output, `success` exactly when the exit
      code is 0, and whether escalation was used. */
  lemma ResultRecord(s: Session, command: string, useSudo: bool, password: Option<string>, remote: RemoteOutcome)
    requires ExecuteCommand(s, command, useSudo, password, remote).outcome.Success?
    ensures var r := ExecuteCommand(s, command, useSudo, password, remote).outcome.value;
      && remote.Completed?
      && r.command == command && Some(r.hostname) == s.hostname
      && r.exitCode == remote.exitCode && r.stderr == remote.stderr
      && r.stdout == Sanitize(remote.stdout, useSudo)
      && (r.success <==> r.exitCode == 0) && r.usedSudo == useSudo
  {
  }

  /** After a failed attempt to switch hosts the session still reports a
      connection, but every command fails without reaching any host. */
  lemma StaleClientFails(s: Session, command: string, useSudo: bool, password: Option<string>, remote: RemoteOutcome)
    requires IsConnected(s) && Truthy(s.hostname) && !s.client.value.established
    ensures ExecuteCommand(s, command, useSudo, password, remote) == Execution(None, Failure(ExecFailure + NoTransport))
  {
  }
}
