/**
  The connection state machine `SSHConnection`: three optional fields that
  `connect` and `disconnect` update in place in the source, modelled as a
  value that each operation returns anew. The SSH transport is not modelled:
  whether it accepts a connection attempt is a parameter.
 */
module Sessions {
  import opened Wrappers
  import opened Text
  import opened Hosts

  /** A paramiko client object; `established` once its handshake succeeded.
      `connect` creates a fresh client before the attempt, so a failed
      attempt leaves one that was never established. */
  datatype Client = Client(established: bool)

  datatype Session = Session(client: Option<Client>, hostname: Option<string>, hostAlias: Option<string>)

  const Initial := Session(None, None, None)

  /** `is_connected`: a client and a hostname are both present. */
  predicate IsConnected(s: Session) {
    s.client.Some? && s.hostname.Some?
  }

  /** What the transport does with a connection attempt. */
  datatype TransportOutcome = Accepted | Rejected(reason: string)

  /** The arguments `connect` hands to the transport. */
  datatype Endpoint = Endpoint(hostname: string, port: int, username: string, password: string)

  /** The session after `connect`, its return value or the text of the
      exception it raised, and the transport call it made, if any. */
  datatype ConnectResult = ConnectResult(session: Session, reply: Result<string, string>, attempt: Option<Endpoint>)

  const ConnectFailure := "SSH connection failed: "

  /** The message of the `KeyError` raised for a profile without `hostname`. */
  const MissingHostname := "'hostname'"

  function NoPassword(host: string): string {
    "No password found for host '" + host + "' in config"
  }

  function Connected(host: string, description: string): string {
    "Successfully connected to " + host + (if description != "" then " (" + description + ")" else "")
  }

  /** `SSHConnection.connect(host)`. An alias of the table connects with its
      profile (defaults: port 22, user `root`, no description); any other
      text is taken as a hostname with no password, which always fails. */
  function Connect(s: Session, hosts: HostTable, host: string, transport: TransportOutcome): (r: ConnectResult)
    ensures !Has(hosts, host) ==> r.reply.Failure? && r.attempt.None?
    ensures r.reply.Failure? ==> r.session.hostname == s.hostname
    ensures r.reply.Success? <==> r.attempt.Some? && transport.Accepted?
    ensures r.reply.Success? ==> IsConnected(r.session) && r.session.client == Some(Client(true))
  {
    match Find(hosts, host)
    case Some(profile) =>
      if profile.hostname.None? then
        ConnectResult(s, Failure(ConnectFailure + MissingHostname), None)
      else
        var started := s.(hostAlias := Some(host), client := Some(Client(false)));
        Attempt(started, host, Endpoint(profile.hostname.value, profile.port.GetOr(22), profile.username.GetOr("root"), ""),
          profile.password, profile.description.GetOr(""), transport)
    case None =>
      var started := s.(hostAlias := None, client := Some(Client(false)));
      Attempt(started, host, Endpoint(host, 22, "root", ""), None, "", transport)
  }

  /** The part of `connect` after the fresh client is in place: without a
      password it raises, otherwise the transport decides. */
  function Attempt(started: Session, host: string, target: Endpoint, password: Option<string>,
                   description: string, transport: TransportOutcome): (r: ConnectResult)
    ensures r.reply.Failure? ==> r.session == started
    ensures r.reply.Success? <==> r.attempt.Some? && transport.Accepted?
    ensures r.attempt.Some? <==> Truthy(password)
  {
    if !Truthy(password) then
      ConnectResult(started, Failure(ConnectFailure + NoPassword(host)), None)
    else
      var endpoint := target.(password := password.value);
      match transport
      case Accepted =>
        ConnectResult(started.(client := Some(Client(true)), hostname := Some(target.hostname)),
          Success(Connected(host, description)), Some(endpoint))
      case Rejected(reason) =>
        ConnectResult(started, Failure(ConnectFailure + reason), Some(endpoint))
  }

  /** `disconnect`: with a client present, everything is cleared and the
      reply names the alias, else the hostname (`None` when both are unset);
      without one, nothing changes. */
  function Disconnect(s: Session): (r: (Session, string))
    ensures s.client.Some? ==> r.0 == Initial && !IsConnected(r.0)
    ensures s.client.Some? && Truthy(s.hostAlias) ==> r.1 == "Disconnected from " + s.hostAlias.value
    ensures s.client.Some? && !Truthy(s.hostAlias) && s.hostname.Some? ==> r.1 == "Disconnected from " + s.hostname.value
    ensures s.client.Some? && !Truthy(s.hostAlias) && s.hostname.None? ==> r.1 == "Disconnected from None"
    ensures s.client.None? ==> r == (s, "No active connection")
  {
    if s.client.Some? then (Initial, "Disconnected from " + Render(Or(s.hostAlias, s.hostname)))
    else (s, "No active connection")
  }

  /** The status line `ssh_status` and the HTTP status route both build. */
  function StatusMessage(s: Session): (m: string)
    ensures !IsConnected(s) ==> m == "Not connected to any host"
    ensures IsConnected(s) && Truthy(s.hostAlias) && Truthy(s.hostname)
      ==> m == "Connected to: " + s.hostAlias.value + " (" + s.hostname.value + ")"
    ensures IsConnected(s) && Truthy(s.hostAlias) && !Truthy(s.hostname) ==> m == "Connected to: " + s.hostAlias.value
    ensures IsConnected(s) && !Truthy(s.hostAlias) ==> m == "Connected to: " + s.hostname.value
  {
    if IsConnected(s) then
      "Connected to: " + Render(Or(s.hostAlias, s.hostname))
        + (if Truthy(s.hostAlias) && Truthy(s.hostname) then " (" + s.hostname.value + ")" else "")
    else
      "Not connected to any host"
  }

  /** The states `connect` and `disconnect` can reach from `Initial` with a
      fixed table: no hostname or alias without a client, and an alias is
      always one of the table's. */
  predicate Valid(s: Session, hosts: HostTable) {
    && (s.client.None? ==> s == Initial)
    && (s.hostAlias.Some? ==> Has(hosts, s.hostAlias.value))
  }

  lemma InitialValid(hosts: HostTable)
    ensures Valid(Initial, hosts) && !IsConnected(Initial)
  {
  }

  /** `connect` keeps the reachable-state invariant, whatever the transport does. */
  lemma ConnectPreservesValid(s: Session, hosts: HostTable, host: string, transport: TransportOutcome)
    requires Valid(s, hosts)
    ensures Valid(Connect(s, hosts, host, transport).session, hosts)
  {
  }

  lemma DisconnectPreservesValid(s: Session, hosts: HostTable)
    requires Valid(s, hosts)
    ensures Valid(Disconnect(s).0, hosts)
  {
  }

  /** A host that is not an alias of the table never connects: the fallback
      path has no password. The alias is cleared and a fresh client installed,
      but the hostname is left as it was. */
  lemma NonAliasFails(s: Session, hosts: HostTable, host: string, transport: TransportOutcome)
    requires !Has(hosts, host)
    ensures Connect(s, hosts, host, transport)
      == ConnectResult(s.(hostAlias := None, client := Some(Client(false))),
                       Failure(ConnectFailure + NoPassword(host)), None)
  {
    assert Find(hosts, host).None?;
  }

  /** A failed `connect` on a profile that has a hostname half-updates the
      session: alias and client are already overwritten, the hostname is the
      previous one. A profile without a hostname fails before any change. */
  lemma FailedConnectHalfUpdates(s: Session, hosts: HostTable, host: string, transport: TransportOutcome)
    requires Has(hosts, host)
    requires Connect(s, hosts, host, transport).reply.Failure?
    ensures var r := Connect(s, hosts, host, transport);
      if Find(hosts, host).value.hostname.None? then
        r.session == s && r.reply == Failure(ConnectFailure + MissingHostname)
      else
        r.session == Session(Some(Client(false)), s.hostname, Some(host))
  {
  }

  /** On success the alias's hostname is recorded and the reply names the
      alias, followed by the description in parentheses exactly when the
      description is non-empty. */
  lemma ConnectSuccess(s: Session, hosts: HostTable, host: string, transport: TransportOutcome)
    requires Connect(s, hosts, host, transport).reply.Success?
    ensures Has(hosts, host)
    ensures var p := Find(hosts, host).value;
      var r := Connect(s, hosts, host, transport);
      && p.hostname.Some? && Truthy(p.password) && transport.Accepted?
      && r.session == Session(Some(Client(true)), p.hostname, Some(host))
      && r.attempt == Some(Endpoint(p.hostname.value, p.port.GetOr(22), p.username.GetOr("root"), p.password.value))
      && r.reply.value == "Successfully connected to " + host
         + (if p.description.GetOr("") != "" then " (" + p.description.value + ")" else "")
  {
  }

  /** After a failed attempt to switch hosts, `is_connected` still holds: the
      old hostname stays next to a client that was never established. */
  lemma FailedReconnectLooksConnected(s: Session, hosts: HostTable, host: string, transport: TransportOutcome)
    requires IsConnected(s)
    requires Connect(s, hosts, host, transport).reply.Failure?
    requires Has(hosts, host) && Find(hosts, host).value.hostname.Some?
    ensures var t := Connect(s, hosts, host, transport).session;
      IsConnected(t) && t.client == Some(Client(false)) && t.hostname == s.hostname
  {
    FailedConnectHalfUpdates(s, hosts, host, transport);
  }

  /** A second `disconnect` finds nothing to do. */
  lemma DisconnectIdempotent(s: Session)
    ensures Disconnect(Disconnect(s).0).0 == Disconnect(s).0
    ensures s.client.Some? ==> Disconnect(Disconnect(s).0).1 == "No active connection"
  {
  }
}
