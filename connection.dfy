/**
 * The connection manager: it owns at most one driver handle, opens it lazily on the
 * first connect, hands back the same handle on later connects, and always forgets it
 * on close.
 *
 * The driver is not modelled. Each call that reaches it takes the driver's answer as a
 * parameter (the handle it opens, or the exception it raises), and the ghost field
 * `driverCalls` records, in order, every call the manager makes into the driver.
 */
module Connection {
  import opened Wrappers
  import opened Errors
  import opened Config
  import ConnectionString

  /** An open driver session, known only by its identity. */
  datatype Handle = Handle(id: nat)

  /** A call the manager makes into the driver. */
  datatype DriverCall =
    | Open(connectionString: string)
    | CloseHandle(handle: Handle)
    | Probe(handle: Handle, query: string)

  const ConnectFailurePrefix: string := "Failed to connect to SQL Server: "
  const ProbeQuery: string := "SELECT 1"

  /** The exceptions `is_connected` catches and turns into False. */
  predicate IsProbeFailure(e: Exception) {
    e.kind == DriverError || e.kind == AttributeError
  }

  class SqlServerConnection {
    const config: SqlServerConfig
    var connection: Option<Handle>
    ghost var driverCalls: seq<DriverCall>

    constructor (config: SqlServerConfig)
      ensures this.config == config
      ensures connection == None && driverCalls == []
    {
      this.config := config;
      connection := None;
      driverCalls := [];
    }

    /**
     * What `connect` does. With a handle held: return it, no driver call. Otherwise one
     * driver open with the built connection string; its handle is kept and returned, or
     * nothing is kept and a driver error is re-raised as a plain exception whose message
     * is the prefix followed by the driver's message (any other exception passes as is).
     */
    twostate predicate Connected(driverOpen: Result<Handle, Exception>, new r: Result<Handle, Exception>)
      reads this
    {
      if old(connection).Some? then
        && r == Success(old(connection).value)
        && connection == old(connection)
        && driverCalls == old(driverCalls)
      else
        && driverCalls == old(driverCalls) + [Open(ConnectionString.Build(config))]
        && match driverOpen
           case Success(h) => connection == Some(h) && r == Success(h)
           case Failure(e) =>
             && connection == None
             && r == Failure(if e.kind == DriverError
                             then Exception(PlainException, ConnectFailurePrefix + e.message)
                             else e)
    }

    /**
     * What `close` does. With no handle: nothing, no driver call. Otherwise one close call
     * on the handle; a driver error from it is swallowed, any other exception propagates.
     * In every case no handle is held afterwards.
     */
    twostate predicate Closed(closeRaises: Option<Exception>, new raised: Option<Exception>)
      reads this
    {
      && connection == None
      && if old(connection).None? then
           raised == None && driverCalls == old(driverCalls)
         else
           && driverCalls == old(driverCalls) + [CloseHandle(old(connection).value)]
           && raised == (if closeRaises.Some? && closeRaises.value.kind != DriverError
                         then closeRaises else None)
    }

    /** `driverOpen` is what the driver's open would return or raise if it were called. */
    method Connect(driverOpen: Result<Handle, Exception>) returns (r: Result<Handle, Exception>)
      modifies this`connection, this`driverCalls
      ensures Connected(driverOpen, r)
    {
      if connection.None? {
        var connectionString := ConnectionString.BuildConnectionString(config);
        driverCalls := driverCalls + [Open(connectionString)];
        match driverOpen {
          case Success(h) =>
            connection := Some(h);
          case Failure(e) =>
            if e.kind == DriverError {
              return Failure(Exception(PlainException, ConnectFailurePrefix + e.message));
            }
            return Failure(e);
        }
      }
      r := Success(connection.value);
    }

    /** `closeRaises` is what the handle's close would raise, if anything. */
    method Close(closeRaises: Option<Exception>) returns (raised: Option<Exception>)
      modifies this`connection, this`driverCalls
      ensures Closed(closeRaises, raised)
    {
      raised := None;
      if connection.Some? {
        driverCalls := driverCalls + [CloseHandle(connection.value)];
        if closeRaises.Some? && closeRaises.value.kind != DriverError {
          raised := closeRaises;
        }
        connection := None;
      }
    }

    /**
     * False without a handle. With one, a probe query; True when it succeeds, False when
     * it raises a driver or attribute error; any other exception propagates. The handle
     * is kept either way.
     */
    method IsConnected(probeRaises: Option<Exception>) returns (r: Result<bool, Exception>)
      modifies this`driverCalls
      ensures connection.None? ==> r == Success(false) && driverCalls == old(driverCalls)
      ensures connection.Some? ==> driverCalls == old(driverCalls) + [Probe(connection.value, ProbeQuery)]
      ensures connection.Some? && probeRaises.None? ==> r == Success(true)
      ensures connection.Some? && probeRaises.Some? ==>
                r == if IsProbeFailure(probeRaises.value) then Success(false) else Failure(probeRaises.value)
    {
      if connection.None? {
        return Success(false);
      }
      driverCalls := driverCalls + [Probe(connection.value, ProbeQuery)];
      match probeRaises {
        case None => r := Success(true);
        case Some(e) => r := if IsProbeFailure(e) then Success(false) else Failure(e);
      }
    }

    /** Entering a `with` block connects. */
    method Enter(driverOpen: Result<Handle, Exception>) returns (r: Result<Handle, Exception>)
      modifies this`connection, this`driverCalls
      ensures Connected(driverOpen, r)
    {
      r := Connect(driverOpen);
    }

    /**
     * Leaving a `with` block, normally or with the block's exception `blockRaised`, closes.
     * Exit returns no value, so the block's exception continues to propagate, unless the
     * close itself raises a non-driver error: that one leaves the block in its place.
     */
    method Exit(blockRaised: Option<Exception>, closeRaises: Option<Exception>) returns (propagated: Option<Exception>)
      modifies this`connection, this`driverCalls
      ensures var closeRaised := if old(connection).Some? && closeRaises.Some? && closeRaises.value.kind != DriverError
                                 then closeRaises else None;
              && Closed(closeRaises, closeRaised)
              && propagated == if closeRaised.Some? then closeRaised else blockRaised
    {
      var raised := Close(closeRaises);
      propagated := if raised.Some? then raised else blockRaised;
    }
  }

  /**
   * A manager's life: closing before opening does nothing; a second connect reuses the
   * handle; a failed probe and a failed close are both absorbed; after close a new
   * connect goes to the driver again.
   */
  method LifecycleScenario(config: SqlServerConfig, h: Handle) {
    var m := new SqlServerConnection(config);
    var raised := m.Close(None);
    assert raised == None && m.driverCalls == [];
    var first := m.Connect(Success(h));
    var second := m.Connect(Success(Handle(h.id + 1)));
    assert first == second == Success(h);
    assert m.driverCalls == [Open(ConnectionString.Build(config))];
    var alive := m.IsConnected(Some(Exception(DriverError, "communication link failure")));
    assert alive == Success(false) && m.connection == Some(h);
    var blockError := Exception(PlainException, "query failed");
    raised := m.Exit(Some(blockError), Some(Exception(DriverError, "already closed")));
    assert raised == Some(blockError) && m.connection == None;
    var again := m.Enter(Failure(Exception(DriverError, "login timeout")));
    assert again == Failure(Exception(PlainException, ConnectFailurePrefix + "login timeout"));
    assert m.connection == None;
    assert |m.driverCalls| == 4 && m.driverCalls[3] == Open(ConnectionString.Build(config));
  }
}
