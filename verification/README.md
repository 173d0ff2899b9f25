# SSH control server: command-safety core in Dafny

This project models the command-safety core of an MCP server that lets an AI
assistant run shell commands on Linux hosts over SSH, together with the HTTP
wrapper that exposes the same connection to a web front end. The model covers:

- **Classifier.** `is_destructive_command` lowercases and strips a command,
  then searches it with a fixed catalogue of 39 regular expressions. The model
  encodes each expression's shape (`\bWORD\b`, `\bWORD\b.*(A|B|...)`, and the
  two redirect forms `\b:>\s*/` and `\b>\s*/dev/`) instead of using a general
  regex engine.
- **Confirmation gate.** An unconfirmed destructive command is refused. A
  command written with `sudo` is escalated automatically. The sudo password is
  looked up only in the profile of the session's alias.
- **Command preparation.** The model covers `sudo -S` wrapping, the terminal
  flag, writing the password to the channel, removing `[sudo]` prompt lines
  from the output, and the result record.
- **Connection state.** `SSHConnection` has three optional fields, updated by
  `connect` and `disconnect` and read by `is_connected`. It is modelled as a
  value that each operation returns anew. Whether the SSH transport accepts an
  attempt is a parameter.
- **Front ends.** The MCP tool handlers (`ssh_execute`, `ssh_connect`,
  `ssh_status`, `ssh_list_hosts`) and the HTTP routes (`/api/hosts`,
  `/api/connect`, `/api/execute`, `/api/disconnect`, `/api/status`) are both
  modelled.

Modules, in dependency order:

| module | file | contents |
|---|---|---|
| `Wrappers` | wrappers.dfy | `Option`, and `Result` (a value or an exception message) |
| `Text` | text.dfy | Python string operations: `strip`, ASCII `lower`, `split('\n')`, `'\n'.join`, `in`, `startswith`, `str(int)`, truthiness of `Optional[str]` |
| `Classifier` | classifier.dfy | the catalogue, pattern matching, `is_destructive_command` |
| `ClassifierClearance` | classifier_clearance.dfy | a sufficient condition for a text to match no signature |
| `ClassifierExamples` | classifier_examples.dfy | the classifier on example commands, destructive and benign |
| `Hosts` | hosts.dfy | the host table: profiles under unique aliases, in configuration order |
| `Json` | json.dfy | the JSON values the HTTP routes answer with |
| `Sessions` | sessions.dfy | `SSHConnection.connect`, `disconnect`, `is_connected`, and the status line |
| `Execution` | execution.dfy | `SSHConnection.execute_command` |
| `ToolServer` | tool_server.dfy | the `call_tool` handlers of the MCP server |
| `HttpApi` | http_api.dfy | the Flask routes |
| `Scenarios` | scenarios.dfy | an example session with host `vm1` |

A command written with `sudo`, such as `sudo apt update`, is sent unchanged:
the handler turns on escalation because the stripped command starts with
`sudo` (src/ssh_control_mcp/server.py:339-340), and the wrapping step leaves a
command that already starts with `sudo` as it is
(src/ssh_control_mcp/server.py:162-164). `Scenarios.SudoCommandEscalates`
states this.

## Model

| member | source | states |
|---|---|---|
| Text.Strip | src/ssh_control_mcp/server.py:86 | `strip()` leaves no whitespace at either end, and the result is a contiguous slice of the input |
| Text.Lower | src/ssh_control_mcp/server.py:86 | ASCII `lower()`: keeps the length, maps each character on its own (`A`-`Z` to `a`-`z`, everything else unchanged), and leaves no capital letter |
| Text.Split | src/ssh_control_mcp/server.py:185 | `split('\n')` gives at least one piece; no piece holds a newline; joining the pieces with newlines gives the input back |
| Text.SplitJoin | src/ssh_control_mcp/server.py:185 | splitting the join of newline-free lines gives those lines back |
| Text.DigitsRoundTrip | src/ssh_control_mcp/server.py:374-383 | the decimal digits of an exit code, as printed in the exit-code line (374) and the failure warning (383), read back as the same number |
| Text.DecimalInjective | src/ssh_control_mcp/server.py:374-383 | two different exit codes never print the same in the exit-code line (374) or the failure warning (383) |
| Classifier.Search | src/ssh_control_mcp/server.py:89 | the position-by-position scan succeeds exactly when the pattern matches somewhere in the text (`re.search`) |
| Classifier.TryAt | src/ssh_control_mcp/server.py:28-66 | the regex engine's attempt at one position succeeds exactly when the pattern's shape matches there |
| Classifier.AltBeforeNewline | src/ssh_control_mcp/server.py:45-53 | `.*(A\|B\|...)` succeeds exactly when an alternative occurs later with no newline in between |
| Classifier.TargetAfterSpaces | src/ssh_control_mcp/server.py:36-39 | `\s*LIT` succeeds exactly when only whitespace comes before the literal |
| Classifier.Normalize | src/ssh_control_mcp/server.py:86 | the matched text has no capital letter, no whitespace at either end, and is the lowercased command with only whitespace removed around it |
| Classifier.NormalizeIdentity | src/ssh_control_mcp/server.py:86 | a lowercase command with no surrounding whitespace is matched exactly as written |
| Classifier.AnyMatch | src/ssh_control_mcp/server.py:88-92 | the first-match loop returns true exactly when some pattern of the list matches |
| Classifier.IsDestructive | src/ssh_control_mcp/server.py:84-92 | a command is destructive exactly when some catalogue pattern matches its lowercased, stripped text |
| Classifier.OrderIrrelevant | src/ssh_control_mcp/server.py:88-92 | two lists with the same patterns give the same verdict, whatever their order or repetitions |
| Classifier.UpperAlternativesDead | src/ssh_control_mcp/server.py:86-89 | a pattern whose every alternative contains a capital letter never matches lowercased text |
| Classifier.DeadNeverMatches | src/ssh_control_mcp/server.py:35-54 | the three patterns written with capitals (`luksFormat`, `-R`, `-F`) match no lowercase text |
| Classifier.DeadPatterns | src/ssh_control_mcp/server.py:35-54 | catalogue entries 7, 23 and 26 are those three patterns, and none of them matches any command |
| Classifier.MatchHasLead | src/ssh_control_mcp/server.py:28-66 | a pattern only matches text that contains its leading literal |
| Classifier.FirstGroupsCovered | src/ssh_control_mcp/server.py:28-46 | every live pattern for removal, disk, device, permission, kill and service commands has its leading literal in the first lead set |
| Classifier.LastGroupsCovered | src/ssh_control_mcp/server.py:47-66 | every live pattern for package, container, firewall, power, account, move, truncation and cron commands has its leading literal in the second lead set |
| Classifier.CatalogueCovered | src/ssh_control_mcp/server.py:27-67 | every catalogue entry is dead or has its leading literal among the live leads |
| Classifier.NoLeadNoMatch | src/ssh_control_mcp/server.py:27-67 | lowercase text that contains no live lead matches no catalogue entry |
| Classifier.SafeWithoutLeads | src/ssh_control_mcp/server.py:84-92 | a command whose normalised text contains no live lead is not destructive |
| Classifier.AltsAbsentNoMatch | src/ssh_control_mcp/server.py:45-53 | `\bWORD\b.*(A\|B\|...)` matches no text in which none of the alternatives occurs |
| ClassifierClearance.CatalogueGuarded | src/ssh_control_mcp/server.py:27-67 | every catalogue entry needs a key character pair or a `>` in the text it matches: it is dead, its leading literal is `>` or holds a key, or (for `apt`) each of its alternatives holds one |
| ClassifierClearance.GuardedNoMatch | src/ssh_control_mcp/server.py:28-66 | such an entry matches no lowercase text that has no key pair and no `>` |
| ClassifierClearance.SafeText | src/ssh_control_mcp/server.py:84-92 | a command whose normalised text has no key pair and no `>` is not destructive |
| ClassifierExamples.RecursiveRemovalIsFlagged | src/ssh_control_mcp/server.py:28 | `rm -rf /var/x` is destructive |
| ClassifierExamples.DiskCopyIsFlagged | src/ssh_control_mcp/server.py:30 | `dd if=/dev/zero of=/dev/sda` is destructive |
| ClassifierExamples.GluedRedirectIsFlagged | src/ssh_control_mcp/server.py:39 | `echo data>/dev/sda` is destructive: the word character before `>` gives the boundary |
| ClassifierExamples.ServiceRestartIsFlagged | src/ssh_control_mcp/server.py:45 | `systemctl restart nginx` is destructive |
| ClassifierExamples.ShutdownIsFlagged | src/ssh_control_mcp/server.py:57 | `shutdown now` is destructive |
| ClassifierExamples.UserDeletionIsFlagged | src/ssh_control_mcp/server.py:61 | `userdel bob` is destructive |
| ClassifierExamples.MoveFromRootIsFlagged | src/ssh_control_mcp/server.py:64 | `mv /etc/foo /tmp/` is destructive |
| ClassifierExamples.FirewallFlushEscapesItsSignature | src/ssh_control_mcp/server.py:54 | `iptables -F` is lowercased to `iptables -f`, which the pattern `\biptables\b.*-F` does not match, and the command is not destructive |
| ClassifierExamples.PackageRemovalEscapesItsSignature | src/ssh_control_mcp/server.py:51 | `pacman -R foo` is lowercased to `pacman -r foo`, which the pattern `\bpacman\b.*-R` does not match, and the command is not destructive |
| ClassifierExamples.ListingIsSafe | src/ssh_control_mcp/server.py:84-92 | `ls -la` is not destructive |
| ClassifierExamples.DiskUsageIsSafe | src/ssh_control_mcp/server.py:84-92 | `df -h` is not destructive |
| ClassifierExamples.UptimeIsSafe | src/ssh_control_mcp/server.py:84-92 | `uptime` is not destructive |
| ClassifierExamples.EchoIsSafe | src/ssh_control_mcp/server.py:84-92 | `echo hi` is not destructive |
| ClassifierExamples.SudoAptUpdateIsSafe | src/ssh_control_mcp/server.py:48 | `sudo apt update` is not destructive: it contains `apt` but none of `remove`, `purge` or `autoremove` |
| Hosts.Find | src/ssh_control_mcp/server.py:107-108 | an alias is found exactly when it is in the table, and then its own entry's profile is returned |
| Hosts.FindEntry | src/ssh_control_mcp/server.py:107-108 | looking up an entry's alias returns that entry's profile |
| Sessions.Connect | src/ssh_control_mcp/server.py:103-152 | a host that is not an alias fails without a transport call; a failure keeps the old hostname; success happens exactly when a transport call was made and accepted; success leaves an established client and a hostname |
| Sessions.Attempt | src/ssh_control_mcp/server.py:136-152 | the transport is called exactly when the password is non-empty; a failure leaves the half-updated session; success happens exactly when the transport accepts |
| Sessions.Disconnect | src/ssh_control_mcp/server.py:201-211 | with a client, every field is cleared, the session is not connected, and the reply is "Disconnected from " followed by the alias, or else the hostname, or else `None`; without one, nothing changes and the reply is "No active connection" |
| Sessions.StatusMessage | src/ssh_control_mcp/server.py:391-398 | not connected gives "Not connected to any host"; connected gives "Connected to: " with the alias, or else the hostname, and " (hostname)" exactly when both are non-empty; an alias with an empty hostname gives just the alias |
| Sessions.InitialValid | src/ssh_control_mcp/server.py:98-101 | the initial session is reachable and not connected |
| Sessions.ConnectPreservesValid | src/ssh_control_mcp/server.py:103-152 | after `connect`, a session without a client is the initial one, and any alias is in the table |
| Sessions.DisconnectPreservesValid | src/ssh_control_mcp/server.py:201-211 | `disconnect` keeps the reachable-state invariant |
| Sessions.NonAliasFails | src/ssh_control_mcp/server.py:115-139 | a non-alias host fails with the no-password message; the alias is cleared, a fresh client installed and the hostname kept |
| Sessions.FailedConnectHalfUpdates | src/ssh_control_mcp/server.py:107-152 | a failed alias connect has overwritten the alias and client but kept the old hostname; a profile without a hostname fails with `'hostname'` before any change |
| Sessions.ConnectSuccess | src/ssh_control_mcp/server.py:107-148 | success needs an alias with a hostname and a password and an accepting transport; the transport receives the profile's values with port 22 and user `root` as defaults; the reply names the alias, plus " (description)" exactly when the description is non-empty |
| Sessions.FailedReconnectLooksConnected | src/ssh_control_mcp/server.py:122-152 | after a failed switch to another alias, `is_connected` still holds, with the old hostname beside a client that never connected |
| Sessions.DisconnectIdempotent | src/ssh_control_mcp/server.py:201-211 | a second `disconnect` changes nothing and answers "No active connection" |
| Execution.Unmarked | src/ssh_control_mcp/server.py:185 | the kept lines are unmarked lines of the input, and every unmarked line is kept |
| Execution.ExecuteCommand | src/ssh_control_mcp/server.py:154-199 | without a client or with an empty hostname it fails with "Not connected"; the plan is sent exactly when the client is established and the hostname is non-empty; the line is the wrapped command; a terminal is requested exactly under escalation; the password plus a newline is written exactly under escalation with a non-empty password; success happens exactly when the plan was sent and the remote host completed |
| Execution.SudoWrapping | src/ssh_control_mcp/server.py:161-169 | the sent line is the command or `sudo -S ` plus the command, the latter exactly when escalation is asked for and the stripped command does not start with `sudo`; an escalated line starts with `sudo`; wrapping twice is wrapping once |
| Execution.SanitizeRemovesMarker | src/ssh_control_mcp/server.py:184-185 | with escalation, the cleaned output never contains `[sudo]` |
| Execution.SanitizeIdempotent | src/ssh_control_mcp/server.py:184-185 | cleaning the output twice is cleaning it once |
| Execution.SanitizeLines | src/ssh_control_mcp/server.py:184-185 | without escalation or without the marker, the output is unchanged; otherwise its lines are exactly the unmarked lines, in order, or the output is empty |
| Execution.UnmarkedAppend | src/ssh_control_mcp/server.py:185 | the line filter distributes over concatenation, so it keeps the lines' order |
| Execution.UnmarkedSingle | src/ssh_control_mcp/server.py:185 | one line is kept exactly when it lacks the marker |
| Execution.ResultRecord | src/ssh_control_mcp/server.py:187-195 | the record holds the caller's command (not the wrapped line), the session's hostname, the remote exit code and error output, and the cleaned output; `success` holds exactly when the exit code is 0 |
| Execution.StaleClientFails | src/ssh_control_mcp/server.py:156-199 | on a session whose client never connected, every command fails without reaching a host |
| ToolServer.Gate | src/ssh_control_mcp/server.py:330-367 | a missing or empty command is rejected; the command is refused exactly when it is destructive and unconfirmed; otherwise it runs as written |
| ToolServer.Decide | src/ssh_control_mcp/server.py:330-359 | the refusal happens exactly when the command is non-empty, classified destructive and unconfirmed |
| ToolServer.ServeExecute | src/ssh_control_mcp/server.py:330-367 | a plan reaches the host only for a non-empty command that is confirmed or not destructive |
| ToolServer.Dispatch | src/ssh_control_mcp/server.py:344-367 | a rejection or a refusal sends nothing |
| ToolServer.RefusalSendsNothing | src/ssh_control_mcp/server.py:343-359 | an unconfirmed destructive command gets the warning, which quotes the command, and nothing is sent, whatever the session and the remote host |
| ToolServer.WarningQuotes | src/ssh_control_mcp/server.py:346 | the refusal text contains "Command: " followed by the command |
| ToolServer.RunGoesThroughExecute | src/ssh_control_mcp/server.py:338-367 | an allowed command goes to `execute_command` with escalation when asked for or when it starts with `sudo`; the reply is the rendered record or "Error: " and the exception text |
| ToolServer.SudoAutoDetect | src/ssh_control_mcp/server.py:338-340 | a command written with `sudo` is escalated even when the caller did not ask, and is sent unchanged on a terminal |
| ToolServer.PasswordProvenance | src/ssh_control_mcp/server.py:361-364 | a sudo password exists only with escalation and an alias, and it is that alias's table entry's password; with escalation and a known alias it is exactly the profile's password |
| ToolServer.PasswordSentOnlyForSudo | src/ssh_control_mcp/server.py:361-367 | input is written to the channel only on a terminal, only for a session alias in the table, and only as that profile's password plus a newline |
| ToolServer.Report | src/ssh_control_mcp/server.py:369-385 | the rendered reply starts with the caller's command and the host |
| ToolServer.ReportSections | src/ssh_control_mcp/server.py:369-382 | the reply contains the line "Exit Code: " with the exit code and a blank line, the STDOUT section when the output is non-empty, and the STDERR section when the error output is non-empty |
| ToolServer.ReportSudoLine | src/ssh_control_mcp/server.py:369-373 | "Executed with: sudo" follows the host line exactly when sudo was used |
| ToolServer.ReportFailureLine | src/ssh_control_mcp/server.py:383-385 | the reply ends with the warning "Command failed with exit code " and the code exactly when the command failed |
| ToolServer.ServeConnect | src/ssh_control_mcp/server.py:321-328 | an empty host is answered "Error: No host specified" without touching the session or the transport |
| ToolServer.ConnectReplies | src/ssh_control_mcp/server.py:321-328 | otherwise the handler returns `connect`'s session and transport call; success replies with "Successfully connected to " and the host, failure with "Error: " and the exception text |
| ToolServer.ListHostsText | src/ssh_control_mcp/server.py:305-319 | an empty table gives "No hosts configured in config.yaml"; a profile without a hostname gives "Error: 'hostname'" |
| ToolServer.ListingShowsEveryHost | src/ssh_control_mcp/server.py:309-317 | every host's block appears in the listing |
| ToolServer.ListingIgnoresPasswords | src/ssh_control_mcp/server.py:305-319 | two tables that differ only in passwords give the same listing |
| ToolServer.BlocksIgnorePasswords | src/ssh_control_mcp/server.py:310-317 | the host blocks never depend on a password |
| HttpApi.ListHosts | src/ssh_control_mcp/http_wrapper.py:31-48 | an empty table gives `success: false` with "No hosts configured"; a profile without a hostname gives the `'hostname'` error |
| HttpApi.HostObjects | src/ssh_control_mcp/http_wrapper.py:35-43 | one entry per host, in table order |
| HttpApi.HostsListed | src/ssh_control_mcp/http_wrapper.py:35-45 | each listed host has exactly `alias`, `hostname`, `username` (default `root`), `port` (default 22) and `description` (default empty), and no password |
| HttpApi.HostsIgnorePasswords | src/ssh_control_mcp/http_wrapper.py:35-45 | two tables that differ only in passwords give the same reply |
| HttpApi.ListingsAgree | src/ssh_control_mcp/http_wrapper.py:31-48 | the route succeeds exactly when the `ssh_list_hosts` tool prints a listing |
| HttpApi.HttpConnect | src/ssh_control_mcp/http_wrapper.py:50-65 | an empty host is answered "No host specified" without touching the session or the transport |
| HttpApi.ConnectAgrees | src/ssh_control_mcp/http_wrapper.py:50-65 | the route makes the same session change and transport call as the `ssh_connect` tool; `success` reports whether `connect` succeeded, with the same message or error text |
| HttpApi.HttpDispatch | src/ssh_control_mcp/http_wrapper.py:76-113 | a rejection or a refusal sends nothing |
| HttpApi.HttpExecute | src/ssh_control_mcp/http_wrapper.py:67-113 | a plan reaches the host only for a non-empty command that is confirmed or not destructive |
| HttpApi.RefusalShape | src/ssh_control_mcp/http_wrapper.py:84-91 | the refusal has `success: false` and `destructive: true`, and its warning quotes the command |
| HttpApi.SameDispatch | src/ssh_control_mcp/http_wrapper.py:76-113 | for any gate decision, the route sends the same plan as the `ssh_execute` tool, and marks its reply `destructive` exactly for a refusal |
| HttpApi.RoutesAgree | src/ssh_control_mcp/http_wrapper.py:67-113 | for the same arguments and session, the route and the `ssh_execute` tool send the same plan, and the route's reply is marked `destructive` exactly when the command is non-empty, destructive and unconfirmed |
| HttpApi.ResultFields | src/ssh_control_mcp/http_wrapper.py:101-109 | a completed command's reply holds exactly the seven record fields: `success` is exit code 0, `command` is the caller's text, plus the hostname, exit code, cleaned output, error output and escalation flag |
| HttpApi.HttpDisconnect | src/ssh_control_mcp/http_wrapper.py:115-123 | always `success: true`; when there was a client the session is cleared and the message is `disconnect`'s "Disconnected from " reply, naming the alias when there is one; when there was none the session is left alone with "No active connection" |
| HttpApi.StatusAgrees | src/ssh_control_mcp/http_wrapper.py:125-147 | `connected` is `is_connected`; the message is the `ssh_status` line; when connected the reply carries the alias and hostname as they are; otherwise it has only `success`, `connected` and `message` |
| Scenarios.ConnectToVm1 | src/ssh_control_mcp/server.py:107-148 | connecting to `vm1` calls the transport with 10.0.0.5, port 22, `admin` and `s3cret`, and replies "Successfully connected to vm1" |
| Scenarios.StatusOnVm1 | src/ssh_control_mcp/server.py:391-398 | the status line is "Connected to: vm1 (10.0.0.5)", and the HTTP status carries `vm1` and 10.0.0.5 |
| Scenarios.RestartNeedsConfirmation | src/ssh_control_mcp/server.py:343-359 | unconfirmed, `systemctl restart nginx` is refused by both front ends and nothing is sent |
| Scenarios.ConfirmedRestartRuns | src/ssh_control_mcp/server.py:361-367 | confirmed, the restart is sent as written, without a terminal or input, and the record names the command and 10.0.0.5 |
| Scenarios.SudoCommandEscalates | src/ssh_control_mcp/server.py:338-367 | unconfirmed and without `use_sudo`, `sudo apt update` passes the gate, is escalated, and both front ends send it unchanged on a terminal, with "s3cret" and a newline as input |

## Left out

- Text.Lower: only ASCII capitals are lowercased. Python's `lower()` also maps other capitals, and can change the length (`İ` becomes two characters), so the model's length and per-character facts hold only for ASCII text.
- Classifier.IsDestructive: `lower()` and `\w` are modelled on ASCII only. Python also lowercases other capital letters and treats other letters and digits as word characters, so the verdict can differ on non-ASCII text.
- Classifier.IsDestructive: `.` is modelled as "any character but a newline", as in Python without `re.DOTALL`. The catalogue's other regex features are encoded per pattern shape, not by a general regex engine.
- Hosts.Find: the host table is a list of unique aliases with string-or-absent fields. YAML loading (`load_ssh_config`), values of other types (a string port, a numeric password) and keys explicitly set to `null` are not modelled. Such a key is treated as absent, although `dict.get` would return `None` instead of the default.
- The SSH transport (paramiko) is not modelled: connection, channels, `recv_exit_status`, the 10 s and 30 s timeouts, and UTF-8 decoding with replacement. Whether a connection attempt is accepted, and the exit code, output and error output of a command (or the exception it raised), are parameters. Only the exception texts the source writes itself are reproduced, plus the one raised when a command is issued on a client whose connection never produced a transport.
- Execution.ExecuteCommand: every client whose connection attempt failed is given the text paramiko raises when no transport was ever produced, whatever stage the attempt failed at. After an authentication rejection paramiko does hold a transport and may fail the command with another text; paramiko is not part of this model. `Execution.StaleClientFails` states only that such a command fails without reaching a host.
- Sessions.Connect: the previous client is not closed when `connect` replaces it. Closing has no effect on the modelled fields.
- The MCP protocol layer, the tool listing, the stdio server, Flask routing, CORS, `/health` and logging are not modelled. The same goes for `ssh_linux_control.py`, the command-line client of the HTTP API.
- ToolServer.Gate: `confirmed` and `use_sudo` are modelled as booleans and `command` as an optional string, for both the MCP tool and the HTTP route. The source takes any JSON value and tests its Python truthiness (server.py:331-335 and 344, http_wrapper.py:72-76 and 85; a non-string command would also fail at `strip()`), so values such as `"yes"`, `1` or `[]` are not modelled.
- HttpApi: a request whose body is not JSON (where `request.json` is `None` and the route answers with the `AttributeError` text) is not modelled. Arguments are given as already-parsed values.
- HttpApi: the member order of JSON objects is not modelled, since `jsonify` chooses its own order. Objects are maps from member name to value.
- Concurrency: the server has a single global connection and no locking. The model treats the session as an owned value passed from one operation to the next.
