/**
 * The SQL Server connection parameters and the checks their constructor runs.
 * A config is a value: the constructor only reads the fields it was given and
 * either returns them unchanged or raises ValueError with one fixed message.
 */
module Config {
  import opened Wrappers
  import IntText

  const DefaultPort: int := 1433
  const DefaultDriver: string := "ODBC Driver 18 for SQL Server"
  const DefaultEncrypt: string := "yes"
  const DefaultTrustServerCertificate: string := "yes"
  const DefaultMars: string := "no"

  const HostEmpty: string := "Host cannot be empty"
  const DatabaseEmpty: string := "Database cannot be empty"
  const UserEmpty: string := "User cannot be empty"
  const PasswordEmpty: string := "Password cannot be empty"
  const EncryptNotFlag: string := "Encrypt must be 'yes' or 'no'"
  const TrustNotFlag: string := "TrustServerCertificate must be 'yes' or 'no'"
  const MarsNotFlag: string := "MARS_Connection must be 'yes' or 'no'"

  /** The message raised for a port outside 1..65535; it embeds the port's decimal text. */
  function PortError(port: int): string {
    "Invalid port number: " + IntText.IntToString(port)
  }

  /**
   * The fields of the record. `extra` is None or the items of the extra-parameter
   * dictionary in its iteration order.
   */
  datatype SqlServerConfig = SqlServerConfig(
    host: string,
    database: string,
    user: string,
    password: string,
    port: int,
    driver: string,
    encrypt: string,
    trustServerCertificate: string,
    mars: string,
    extra: Option<seq<(string, string)>>)

  /** Membership in ["yes", "no"]: exact, case-sensitive string equality. */
  predicate IsFlag(f: string) {
    f == "yes" || f == "no"
  }

  predicate ValidPort(port: int) {
    1 <= port <= 65535
  }

  /** What a successfully constructed config satisfies. */
  predicate Valid(c: SqlServerConfig) {
    && c.host != ""
    && c.database != ""
    && c.user != ""
    && c.password != ""
    && ValidPort(c.port)
    && IsFlag(c.encrypt)
    && IsFlag(c.trustServerCertificate)
    && IsFlag(c.mars)
  }

  /** The message of every check that fails on c, in the order the checks are written. */
  function Violations(c: SqlServerConfig): seq<string> {
    (if c.host == "" then [HostEmpty] else [])
    + (if c.database == "" then [DatabaseEmpty] else [])
    + (if c.user == "" then [UserEmpty] else [])
    + (if c.password == "" then [PasswordEmpty] else [])
    + (if !ValidPort(c.port) then [PortError(c.port)] else [])
    + (if !IsFlag(c.encrypt) then [EncryptNotFlag] else [])
    + (if !IsFlag(c.trustServerCertificate) then [TrustNotFlag] else [])
    + (if !IsFlag(c.mars) then [MarsNotFlag] else [])
  }

  /**
   * The dataclass constructor followed by its post-init checks: the checks run in
   * order and the first that fails raises; otherwise the record holds exactly the
   * values supplied. Omitted arguments take the dataclass defaults.
   */
  function Create(
    host: string,
    database: string,
    user: string,
    password: string,
    port: int := DefaultPort,
    driver: string := DefaultDriver,
    encrypt: string := DefaultEncrypt,
    trustServerCertificate: string := DefaultTrustServerCertificate,
    mars: string := DefaultMars,
    extra: Option<seq<(string, string)>> := None): (r: Result<SqlServerConfig, string>)
    ensures var c := SqlServerConfig(host, database, user, password, port, driver, encrypt,
                                     trustServerCertificate, mars, extra);
            && (r.Success? <==> Valid(c))
            && (r.Success? ==> r.value == c)
            && (r.Failure? ==> |Violations(c)| > 0 && r.error == Violations(c)[0])
  {
    if host == "" then Failure(HostEmpty)
    else if database == "" then Failure(DatabaseEmpty)
    else if user == "" then Failure(UserEmpty)
    else if password == "" then Failure(PasswordEmpty)
    else if port <= 0 || port > 65535 then Failure(PortError(port))
    else if encrypt !in ["yes", "no"] then Failure(EncryptNotFlag)
    else if trustServerCertificate !in ["yes", "no"] then Failure(TrustNotFlag)
    else if mars !in ["yes", "no"] then Failure(MarsNotFlag)
    else Success(SqlServerConfig(host, database, user, password, port, driver, encrypt,
                                 trustServerCertificate, mars, extra))
  }

  /** A config is valid exactly when no check fails. */
  lemma ValidIffNoViolations(c: SqlServerConfig)
    ensures Valid(c) <==> Violations(c) == []
  {
  }

  /** Only the four required fields need be given: the defaults themselves pass every check. */
  lemma DefaultsAreValid(host: string, database: string, user: string, password: string)
    requires host != "" && database != "" && user != "" && password != ""
    ensures Create(host, database, user, password).Success?
    ensures var c := Create(host, database, user, password).value;
            && c.port == 1433 && c.driver == "ODBC Driver 18 for SQL Server"
            && c.encrypt == "yes" && c.trustServerCertificate == "yes" && c.mars == "no"
            && c.extra == None
  {
  }

  /** 0 and 65536 are rejected with a message naming the port; 1 and 65535 are accepted. */
  lemma PortBoundaries(host: string, database: string, user: string, password: string)
    requires host != "" && database != "" && user != "" && password != ""
    ensures Create(host, database, user, password, 0) == Failure("Invalid port number: 0")
    ensures Create(host, database, user, password, 65536) == Failure("Invalid port number: 65536")
    ensures Create(host, database, user, password, -1) == Failure("Invalid port number: -1")
    ensures Create(host, database, user, password, 1).Success?
    ensures Create(host, database, user, password, 65535).Success?
  {
    assert IntText.IntToString(0) == "0";
    assert PortError(0) == "Invalid port number: 0";
    assert IntText.IntToString(-1) == "-1";
    assert PortError(-1) == "Invalid port number: -1";
    assert IntText.IntToString(65536) == "65536" by {
      assert IntText.NatToString(6) == "6";
      assert IntText.NatToString(65) == "65";
      assert IntText.NatToString(655) == "655";
      assert IntText.NatToString(6553) == "6553";
    }
    assert PortError(65536) == "Invalid port number: 65536";
  }

  /** The port can be read back from the invalid-port message. */
  lemma PortErrorNamesPort(port: int)
    ensures |PortError(port)| > |"Invalid port number: "|
    ensures PortError(port)[..|"Invalid port number: "|] == "Invalid port number: "
    ensures IntText.ParseInt(PortError(port)[|"Invalid port number: "|..]) == Some(port)
  {
    assert PortError(port)[|"Invalid port number: "|..] == IntText.IntToString(port);
    IntText.IntToStringRoundTrip(port);
  }

  /** Flag comparison is case-sensitive: "YES" and "" are refused, each with its own message. */
  lemma FlagsAreCaseSensitive(host: string, database: string, user: string, password: string, port: int)
    requires host != "" && database != "" && user != "" && password != "" && ValidPort(port)
    ensures Create(host, database, user, password, port, encrypt := "YES") == Failure(EncryptNotFlag)
    ensures Create(host, database, user, password, port, encrypt := "") == Failure(EncryptNotFlag)
    ensures Create(host, database, user, password, port, trustServerCertificate := "YES") == Failure(TrustNotFlag)
    ensures Create(host, database, user, password, port, trustServerCertificate := "") == Failure(TrustNotFlag)
    ensures Create(host, database, user, password, port, mars := "YES") == Failure(MarsNotFlag)
    ensures Create(host, database, user, password, port, mars := "") == Failure(MarsNotFlag)
    ensures Create(host, database, user, password, port, mars := "yes").Success?
  {
  }
}
