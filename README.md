# SQL Server connection layer: a Dafny model

This project models the three pieces of logic in a small Python integration layer
that connects to SQL Server over ODBC, runs one query, and turns the result rows
into records:

- **the connection configuration** (`SQLServerConfig`). This is a record of connection
  parameters with dataclass defaults. Its post-init hook runs eight checks in a fixed
  order and raises `ValueError` with the message of the first one that fails.
- **the connection manager** (`SQLServerConnection`). It builds the ODBC
  `key=value;...` connection string. It owns at most one driver handle: `connect`
  opens the handle lazily and then reuses it, `close` always drops it, and
  `is_connected` probes it with `SELECT 1`. It is also used as a context manager.
- **the query executor** (`QueryExecutor.execute_query`). It runs a query on a
  cursor, zips the column names from `cursor.description` with every fetched row
  tuple into a dict, and closes the cursor in a `finally` block.

Modules, one per source component:

| file | module | models |
|---|---|---|
| `wrappers.dfy` | `Wrappers` | `Option`, and `Result` for "returns a value or raises" |
| `errors.dfy` | `Errors` | the exception classes the code catches or raises |
| `int_text.dfy` | `IntText` | Python's `str()` of an `int`, with a parser as its inverse |
| `config.dfy` | `Config` | the config record, its defaults and its validation chain |
| `connection_string.dfy` | `ConnectionString` | `_build_connection_string`, with a reader (`Split`/`Parse`) to state what the string denotes |
| `connection.dfy` | `Connection` | `SqlServerConnection`: a class whose `connection` field is `self._connection` |
| `query_executor.dfy` | `QueryExecutor` | the cursor, `execute_query`, and `dict(zip(names, row))` |

The driver is abstract. Every call that reaches it takes the driver's answer as a
parameter: the handle an open returns or the exception it raises, and the exception
a close or probe raises, if any. The ghost field `driverCalls` records, in order,
every call the manager makes into the driver. This is how "exactly one open" and
"no new driver call" are stated. In the same way, a `Cursor` holds what its
`execute`, `description`, `fetchall` and `close` produce. It counts its close calls
and records the queries it is given.

A Python dict is an ordered mapping, so a record is modelled as its items in
insertion order (`seq<(string, Value)>`). `Store` models `d[k] = v`: an existing
key keeps its position and a new key is appended. The model therefore also states
the key order of a record: each key appears once, at the position where its name
first occurs. The value is taken from the last position with that name.

The model follows the code, not the interface that the connection diagnostic script
(test_sqlserver_connection.py:38, 90, 236) expects. That script calls
`SQLServerConfig.from_environment()`, `config.validate()` and
`validate_connection_prerequisites()`, and none of these exist in the code modelled here. The code:
always writes the port into `SERVER=host,port`, 1433 included, and emits no
separate `Port=` parameter; always emits `MARS_Connection=<flag>`; copies `Encrypt`
and `TrustServerCertificate` verbatim, without forcing trust when encryption is
off; adds no timeout parameters; does not select a driver automatically; does not
classify connection errors or retry with a TLS policy file; and has no
`from_environment` factory and no non-raising `validate()`.

## Model

| member | source | states |
|---|---|---|
| `Config.Create` | config/sqlserver_config.py:21-49 | Construction succeeds exactly when host, database, user and password are non-empty, 1 <= port <= 65535, and encrypt, trust_server_certificate and mars are each exactly "yes" or "no". On success the record holds exactly the supplied values. On failure the error is the first element of `Violations`, the messages of the failing checks in source order (host, database, user, password, port, encrypt, trust, mars). |
| `Config.ValidIffNoViolations` | config/sqlserver_config.py:34-49 | A config is valid exactly when none of the eight checks fails. |
| `Config.DefaultsAreValid` | config/sqlserver_config.py:25-30 | Given only the four required fields, the defaults (port 1433, "ODBC Driver 18 for SQL Server", encrypt "yes", trust "yes", mars "no", extra None) pass every check and are the values stored. |
| `Config.PortBoundaries` | config/sqlserver_config.py:42-43 | Ports 0, -1 and 65536 are rejected with "Invalid port number: 0", "...: -1" and "...: 65536"; ports 1 and 65535 are accepted. |
| `Config.PortErrorNamesPort` | config/sqlserver_config.py:43 | The invalid-port message is the fixed prefix followed by text that reads back as the offending port. |
| `Config.FlagsAreCaseSensitive` | config/sqlserver_config.py:44-49 | "YES" and "" are rejected for each of the three flags, each with its own message. |
| `IntText.IntToStringRoundTrip` | src/database/sqlserver_connection.py:34 | The decimal text of an integer, as f-strings write it, reads back as that integer. |
| `IntText.IntToStringInjective` | src/database/sqlserver_connection.py:34 | Two integers have the same decimal text exactly when they are equal, so distinct ports give distinct SERVER values. |
| `ConnectionString.BuildConnectionString` | src/database/sqlserver_connection.py:25-48 | The builder's loop over the extras yields `Build(c)`: the eight fixed parts, then one part per extra item, joined by ';'. |
| `ConnectionString.ParseBuildPairs` | src/database/sqlserver_connection.py:32-48 | Reading the built string back gives exactly the key/value pairs it was built from, in order, when no value contains ';' and no extra key contains ';' or '='. |
| `ConnectionString.ParseBuild` | src/database/sqlserver_connection.py:32-48 | The string denotes exactly DRIVER={driver}, SERVER=host,port, DATABASE, UID, PWD, Encrypt, TrustServerCertificate and MARS_Connection, in that order and with the config's values verbatim, followed by the extra items in mapping order; it contains nothing else, so it has no trailing separator. |
| `ConnectionString.SplitJoin` | src/database/sqlserver_connection.py:48 | `";".join` is undone by splitting at ';' when no part contains ';'. |
| `ConnectionString.ParseRender` | src/database/sqlserver_connection.py:32-46 | A `key=value` part reads back as its key and value whenever the key has no '='. Values may contain '=' and are not quoted. |
| `ConnectionString.BuiltParts` | src/database/sqlserver_connection.py:32-48 | For every config, with no condition on its values: the string is the ';'-join of eight fixed parts plus one part per extra item. The fixed parts are `DRIVER={driver}`, `SERVER=host,port` (`host,1433` for the default port), `DATABASE`, `UID`, `PWD`, `Encrypt`, `TrustServerCertificate` and `MARS_Connection`, with the config's values verbatim. They are followed by `key=value` for each extra item, in mapping order. |
| `ConnectionString.NoExtrasGivesEightParts` | src/database/sqlserver_connection.py:43-46 | With extra None or an empty mapping the string has exactly eight parts. |
| `ConnectionString.DefaultPortIsEmbedded` | src/database/sqlserver_connection.py:34 | SERVER carries the port even when it is the default: its value is `host,1433`. |
| `ConnectionString.ServerCarriesPort` | src/database/sqlserver_connection.py:34 | The SERVER value is the host, a comma, and text that reads back as the port. |
| `ConnectionString.SemicolonInValueInjectsParameter` | src/database/sqlserver_connection.py:32-48 | Values are not escaped: the password "x;Encrypt=no" makes the string split into nine parts, one of which is an extra `Encrypt=no` placed before the real Encrypt. |
| `Connection.SqlServerConnection.constructor` | src/database/sqlserver_connection.py:15-23 | A new manager holds the given config and no handle, and has made no driver call. |
| `Connection.SqlServerConnection.Connect` | src/database/sqlserver_connection.py:50-67 | With a handle held, connect returns that handle and makes no driver call. Without one, it makes exactly one driver open with the built string. If the open succeeds, the handle is cached and returned. If it fails, no handle is kept: a driver error is raised again as "Failed to connect to SQL Server: " + the driver's message, and any other exception propagates unchanged. |
| `Connection.SqlServerConnection.Close` | src/database/sqlserver_connection.py:69-79 | With no handle, close is a no-op with no driver call. Otherwise it makes exactly one close call on that handle and swallows a driver error from it; any other exception propagates. Afterwards no handle is held, in every case. |
| `Connection.SqlServerConnection.IsConnected` | src/database/sqlserver_connection.py:81-98 | With no handle: False and no driver call. With a handle: one `SELECT 1` probe; True if it succeeds, False if it raises a driver or attribute error, and any other exception propagates. The handle is kept. |
| `Connection.SqlServerConnection.Enter` | src/database/sqlserver_connection.py:100-107 | Entering the context behaves exactly as connect. |
| `Connection.SqlServerConnection.Exit` | src/database/sqlserver_connection.py:109-113 | Leaving the context always performs close, as specified by `Closed`. A non-driver error from close leaves the `with` block in place of whatever the block raised. Otherwise `__exit__` returns None, so the block's own exception, if any, propagates unchanged. |
| `QueryExecutor.ExecuteQuery` | src/query/query_executor.py:8-37 | The cursor is closed exactly once on every path, and the query is executed exactly once. A raise from close replaces the outcome. Otherwise the outcome is the exception from execute, then the TypeError for a missing description, then the exception from fetchall. If none of these raises, the result has one record per fetched row, in fetch order, and record i is `dict(zip(column names, row i))`. No rows give an empty list. |
| `QueryExecutor.RowToRecordLastWins` | src/query/query_executor.py:31 | A column name maps to the row's value at the last paired position with that name: duplicates collapse and the last wins. Values, NULL included, are carried through unchanged. |
| `QueryExecutor.RowToRecordAbsent` | src/query/query_executor.py:31 | A name beyond the shorter of the column list and the row (zip truncation), or not a column at all, has no entry. |
| `QueryExecutor.RecordKeysAreColumnNames` | src/query/query_executor.py:31 | The keys of a record are distinct and are exactly the paired column names; there are at most min(columns, values) of them. |
| `QueryExecutor.RowToRecordKeys` | src/query/query_executor.py:31 | The key order of a record is the order in which the paired column names first occur. |
| `QueryExecutor.DistinctNamesGiveZip` | src/query/query_executor.py:31 | With distinct column names, record i is exactly the zip: entry j is (column_names[j], row_i[j]). |
| `QueryExecutor.UsersRowsBecomeRecords` | tests/test_query_executor.py:16-28 | The rows ('John', 25) and ('Jane', 30) under ('name', 'age') become {'name': 'John', 'age': 25} and {'name': 'Jane', 'age': 30}. |
| `QueryExecutor.NullValueIsKept` | tests/test_query_executor.py:100-112 | The row ('John', None) becomes {'name': 'John', 'age': None}. |

The methods `QueryExecutor.SuccessfulQueryScenario`, `EmptyResultScenario`,
`FailingExecuteScenario` and `Connection.LifecycleScenario` are clients of the
contracts above. They restate the mock-cursor tests (tests/test_query_executor.py:16-28,
156-167, 169-181) and a connect / reuse / close / reconnect sequence, and they verify
using only those contracts.

## Left out

- The driver itself (`pyodbc.connect`, `Connection.close`, `cursor`, `execute`, `fetchall`): its answers are parameters or cursor fields, and SQL semantics are not modelled.
- `connection.cursor()` in `execute_query`: the method takes the cursor it returned. An exception from that call, which is raised before the `try`, is not modelled.
- `is_connected`'s three probe steps (open a cursor, execute, close the cursor) are one outcome, so the cursor that is left open when the probe fails is not modelled.
- The body of a `with` block: `Exit` takes the exception the block raised, if any, as a parameter. Python's exception chaining (`__context__` on the replacing exception) is not modelled.
- The warning that `close` prints when the driver's close fails: console output only.
- `str(e)` of a driver error is modelled as the exception's message string.
- The extra parameters are the dict's items in iteration order. Key uniqueness is not enforced, because the builder does not depend on it.
- Python's dynamic typing: fields are strings and the port is an integer. None in a string field, a bool port and other ill-typed arguments are not modelled.
- Concrete value types (Decimal, datetime, float): a value is NULL, an integer, a string, or an opaque tagged value.
- `src/export/parquet_writer.py`: a thin wrapper over pandas. Its only logic is to raise `ValueError` on an empty list.
- Example scripts, the connection diagnostic script and the OpenSSL test workaround: console output, environment variables, temporary files.
- ConnectionString.ParseBuildPairs: stated only for configs with no ';' in any value and no ';' or '=' in an extra key (`Unambiguous`). The builder accepts any config, but without this condition the string cannot be read back; `SemicolonInValueInjectsParameter` shows one such case.
- ConnectionString.ParseBuild: requires `Unambiguous`, for the same reason.
- ConnectionString.NoExtrasGivesEightParts: requires `Unambiguous`, for the same reason, because it is stated on the string read back. `BuiltParts` states the same fact on the parts for every config.
- ConnectionString.DefaultPortIsEmbedded: requires `Unambiguous`, for the same reason, because it is stated on the string read back. `BuiltParts` states the same fact on the parts for every config.
- ConnectionString.ServerCarriesPort: requires `Unambiguous`, for the same reason, because it is stated on the string read back. `BuiltParts` states the same fact on the parts for every config.
