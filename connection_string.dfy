/**
 * The ODBC connection string built from a config: eight fixed `key=value` parts in a
 * fixed order, then one part per extra parameter, joined by ';'. Values are copied
 * verbatim, neither quoted nor escaped.
 *
 * Split and Parse are not part of the system: they read a string back into its
 * key/value pairs, the way a driver manager would, so that the builder's output
 * can be stated by what it decodes to.
 */
module ConnectionString {
  import opened Wrappers
  import opened Config
  import IntText

  const Separator: char := ';'

  /** One `key=value` part. */
  function Render(key: string, value: string): string {
    key + "=" + value
  }

  function RenderAll(pairs: seq<(string, string)>): (parts: seq<string>)
    ensures |parts| == |pairs|
    ensures forall i :: 0 <= i < |pairs| ==> parts[i] == Render(pairs[i].0, pairs[i].1)
  {
    seq(|pairs|, i requires 0 <= i < |pairs| => Render(pairs[i].0, pairs[i].1))
  }

  /** The eight parameters every connection string carries, in emission order. */
  function FixedPairs(c: SqlServerConfig): seq<(string, string)> {
    [ ("DRIVER", "{" + c.driver + "}"),
      ("SERVER", c.host + "," + IntText.IntToString(c.port)),
      ("DATABASE", c.database),
      ("UID", c.user),
      ("PWD", c.password),
      ("Encrypt", c.encrypt),
      ("TrustServerCertificate", c.trustServerCertificate),
      ("MARS_Connection", c.mars) ]
  }

  /** The extra parameters: none when `extra` is None or empty, else its items in order. */
  function ExtraPairs(c: SqlServerConfig): seq<(string, string)> {
    if c.extra.Some? then c.extra.value else []
  }

  function Pairs(c: SqlServerConfig): seq<(string, string)> {
    FixedPairs(c) + ExtraPairs(c)
  }

  /** `sep.join(parts)`: separators between parts, none at either end. */
  function Join(parts: seq<string>, sep: char): string
    decreases |parts|
  {
    if |parts| == 0 then ""
    else if |parts| == 1 then parts[0]
    else parts[0] + [sep] + Join(parts[1..], sep)
  }

  /** The connection string the builder returns for c. */
  function Build(c: SqlServerConfig): string {
    Join(RenderAll(Pairs(c)), Separator)
  }

  /**
   * The builder as written: the fixed list, then a loop appending each extra item
   * when `extra` is present and non-empty, then the join.
   */
  method BuildConnectionString(c: SqlServerConfig) returns (s: string)
    ensures s == Build(c)
  {
    var parts := RenderAll(FixedPairs(c));
    if c.extra.Some? && |c.extra.value| > 0 {
      var items := c.extra.value;
      for i := 0 to |items|
        invariant parts == RenderAll(FixedPairs(c) + items[..i])
      {
        parts := parts + [Render(items[i].0, items[i].1)];
        assert FixedPairs(c) + items[..i + 1] == (FixedPairs(c) + items[..i]) + [items[i]];
      }
      assert items[..|items|] == items;
      assert Pairs(c) == FixedPairs(c) + items;
      assert parts == RenderAll(Pairs(c));
    } else {
      assert Pairs(c) == FixedPairs(c) + [];
      assert parts == RenderAll(Pairs(c));
    }
    s := Join(parts, Separator);
  }

  // ----- reading a connection string back -----

  /** Cuts s at every occurrence of sep, as Python's str.split(sep) does. */
  function Split(s: string, sep: char): (r: seq<string>)
    ensures |r| > 0
    decreases |s|
  {
    if |s| == 0 then [""]
    else
      var rest := Split(s[1..], sep);
      if s[0] == sep then [""] + rest else [[s[0]] + rest[0]] + rest[1..]
  }

  /** Splits one part at its first '=' into key and value; None when there is no '='. */
  function ParsePart(p: string): Option<(string, string)>
    decreases |p|
  {
    if |p| == 0 then None
    else if p[0] == '=' then Some(("", p[1..]))
    else match ParsePart(p[1..])
      case None => None
      case Some(kv) => Some(([p[0]] + kv.0, kv.1))
  }

  function ParseParts(parts: seq<string>): Option<seq<(string, string)>>
    decreases |parts|
  {
    if |parts| == 0 then Some([])
    else match (ParsePart(parts[0]), ParseParts(parts[1..]))
      case (Some(kv), Some(rest)) => Some([kv] + rest)
      case _ => None
  }

  /** The key/value pairs a connection string denotes. */
  function Parse(s: string): Option<seq<(string, string)>> {
    ParseParts(Split(s, Separator))
  }

  /**
   * The condition under which the string can be read back: no value contains ';'
   * and no extra key contains ';' or '='. The fixed keys satisfy both.
   */
  predicate Unambiguous(c: SqlServerConfig) {
    && Separator !in c.driver
    && Separator !in c.host
    && Separator !in c.database
    && Separator !in c.user
    && Separator !in c.password
    && Separator !in c.encrypt
    && Separator !in c.trustServerCertificate
    && Separator !in c.mars
    && forall i :: 0 <= i < |ExtraPairs(c)| ==>
         Separator !in ExtraPairs(c)[i].0 && '=' !in ExtraPairs(c)[i].0 && Separator !in ExtraPairs(c)[i].1
  }

  // ----- lemmas -----

  lemma {:induction false} SplitWithoutSeparator(a: string, sep: char)
    requires sep !in a
    ensures Split(a, sep) == [a]
    decreases |a|
  {
    if |a| > 0 {
      SplitWithoutSeparator(a[1..], sep);
      assert [a[0]] + a[1..] == a;
    }
  }

  lemma {:induction false} SplitAtSeparator(a: string, b: string, sep: char)
    requires sep !in a
    ensures Split(a + [sep] + b, sep) == [a] + Split(b, sep)
    decreases |a|
  {
    var s := a + [sep] + b;
    if |a| == 0 {
      assert s[1..] == b;
    } else {
      assert s[1..] == a[1..] + [sep] + b;
      SplitAtSeparator(a[1..], b, sep);
      assert [a[0]] + a[1..] == a;
    }
  }

  /** Splitting a join gives back the parts, provided no part contains the separator. */
  lemma {:induction false} SplitJoin(parts: seq<string>, sep: char)
    requires |parts| > 0
    requires forall i :: 0 <= i < |parts| ==> sep !in parts[i]
    ensures Split(Join(parts, sep), sep) == parts
    decreases |parts|
  {
    if |parts| == 1 {
      SplitWithoutSeparator(parts[0], sep);
    } else {
      SplitJoin(parts[1..], sep);
      SplitAtSeparator(parts[0], Join(parts[1..], sep), sep);
    }
  }

  /** A rendered part reads back as its key and value when the key has no '='. */
  lemma {:induction false} ParseRender(key: string, value: string)
    requires '=' !in key
    ensures ParsePart(Render(key, value)) == Some((key, value))
    decreases |key|
  {
    var p := Render(key, value);
    if |key| == 0 {
      assert p[1..] == value;
    } else {
      assert p[1..] == Render(key[1..], value);
      ParseRender(key[1..], value);
      assert [key[0]] + key[1..] == key;
    }
  }

  lemma {:induction false} ParseRenderAll(pairs: seq<(string, string)>)
    requires forall i :: 0 <= i < |pairs| ==> '=' !in pairs[i].0
    ensures ParseParts(RenderAll(pairs)) == Some(pairs)
    decreases |pairs|
  {
    if |pairs| > 0 {
      var parts := RenderAll(pairs);
      ParseRender(pairs[0].0, pairs[0].1);
      assert parts[1..] == RenderAll(pairs[1..]);
      ParseRenderAll(pairs[1..]);
      assert ParseParts(parts) == Some([pairs[0]] + pairs[1..]);
      assert [pairs[0]] + pairs[1..] == pairs;
    }
  }

  lemma NoSeparatorInIntToString(i: int)
    ensures Separator !in IntText.IntToString(i)
  {
    var s := IntText.IntToString(i);
    if i >= 0 {
      assert forall k :: 0 <= k < |s| ==> IntText.IsDigit(s[k]);
    } else {
      assert s == "-" + IntText.NatToString(-i);
      assert forall k :: 1 <= k < |s| ==> s[k] == IntText.NatToString(-i)[k - 1];
    }
  }

  lemma NoSeparatorInRender(key: string, value: string)
    requires Separator !in key && Separator !in value
    ensures Separator !in Render(key, value)
  {
    assert Render(key, value) == key + ("=" + value);
  }

  /** Under Unambiguous, no rendered part contains ';' and no key contains '='. */
  lemma PartsAreSeparable(c: SqlServerConfig)
    requires Unambiguous(c)
    ensures forall i :: 0 <= i < |Pairs(c)| ==> '=' !in Pairs(c)[i].0
    ensures forall i :: 0 <= i < |RenderAll(Pairs(c))| ==> Separator !in RenderAll(Pairs(c))[i]
  {
    var pairs := Pairs(c);
    forall i | 0 <= i < |pairs| ensures Separator !in pairs[i].0 && '=' !in pairs[i].0 && Separator !in pairs[i].1 {
      if i == 0 {
        assert pairs[0].1 == "{" + (c.driver + "}");
      } else if i == 1 {
        NoSeparatorInIntToString(c.port);
        assert pairs[1].1 == c.host + ("," + IntText.IntToString(c.port));
      } else if i >= 8 {
        assert pairs[i] == ExtraPairs(c)[i - 8];
      }
    }
    forall i | 0 <= i < |pairs| ensures Separator !in RenderAll(pairs)[i] {
      NoSeparatorInRender(pairs[i].0, pairs[i].1);
    }
  }

  /** Reading the built string back yields the pairs it was built from. */
  lemma ParseBuildPairs(c: SqlServerConfig)
    requires Unambiguous(c)
    ensures Parse(Build(c)) == Some(Pairs(c))
  {
    PartsAreSeparable(c);
    SplitJoin(RenderAll(Pairs(c)), Separator);
    ParseRenderAll(Pairs(c));
  }

  /**
   * The connection string denotes exactly DRIVER, SERVER, DATABASE, UID, PWD, Encrypt,
   * TrustServerCertificate and MARS_Connection with the config's values, in that order,
   * followed by the extra parameters in their order, and nothing else (so there is no
   * trailing separator and no empty part).
   */
  lemma ParseBuild(c: SqlServerConfig)
    requires Unambiguous(c)
    ensures Parse(Build(c)).Some?
    ensures var ps := Parse(Build(c)).value;
            && |ps| == 8 + |ExtraPairs(c)|
            && ps[0] == ("DRIVER", "{" + c.driver + "}")
            && ps[1] == ("SERVER", c.host + "," + IntText.IntToString(c.port))
            && ps[2] == ("DATABASE", c.database)
            && ps[3] == ("UID", c.user)
            && ps[4] == ("PWD", c.password)
            && ps[5] == ("Encrypt", c.encrypt)
            && ps[6] == ("TrustServerCertificate", c.trustServerCertificate)
            && ps[7] == ("MARS_Connection", c.mars)
            && ps[8..] == ExtraPairs(c)
  {
    ParseBuildPairs(c);
  }

  /**
   * The parts the builder joins, for every config: the eight fixed `key=value` parts with
   * the config's values verbatim, SERVER carrying the port (1433 included), then one part
   * per extra item in mapping order.
   */
  lemma BuiltParts(c: SqlServerConfig)
    ensures var parts := RenderAll(Pairs(c));
            && Build(c) == Join(parts, Separator)
            && |parts| == 8 + |ExtraPairs(c)|
            && parts[0] == "DRIVER={" + c.driver + "}"
            && parts[1] == "SERVER=" + c.host + "," + IntText.IntToString(c.port)
            && (c.port == DefaultPort ==> parts[1] == "SERVER=" + c.host + ",1433")
            && parts[2] == "DATABASE=" + c.database
            && parts[3] == "UID=" + c.user
            && parts[4] == "PWD=" + c.password
            && parts[5] == "Encrypt=" + c.encrypt
            && parts[6] == "TrustServerCertificate=" + c.trustServerCertificate
            && parts[7] == "MARS_Connection=" + c.mars
            && forall i :: 0 <= i < |ExtraPairs(c)| ==>
                 parts[8 + i] == ExtraPairs(c)[i].0 + "=" + ExtraPairs(c)[i].1
  {
    assert IntText.IntToString(1433) == "1433" by {
      assert IntText.NatToString(1) == "1";
      assert IntText.NatToString(14) == "14";
      assert IntText.NatToString(143) == "143";
    }
  }

  /** Without extras (None or an empty mapping) the string has exactly the eight fixed parts. */
  lemma NoExtrasGivesEightParts(c: SqlServerConfig)
    requires Unambiguous(c)
    requires c.extra == None || c.extra == Some([])
    ensures |Split(Build(c), Separator)| == 8
  {
    PartsAreSeparable(c);
    SplitJoin(RenderAll(Pairs(c)), Separator);
  }

  /** The port is always written into SERVER, the default 1433 included. */
  lemma DefaultPortIsEmbedded(c: SqlServerConfig)
    requires Unambiguous(c) && c.port == DefaultPort
    ensures Parse(Build(c)).Some? && |Parse(Build(c)).value| > 1
    ensures Parse(Build(c)).value[1] == ("SERVER", c.host + ",1433")
  {
    ParseBuild(c);
    assert IntText.IntToString(1433) == "1433" by {
      assert IntText.NatToString(1) == "1";
      assert IntText.NatToString(14) == "14";
      assert IntText.NatToString(143) == "143";
    }
    assert c.host + "," + "1433" == c.host + ",1433";
  }

  /** The SERVER value is the host, a comma, and text that reads back as the port. */
  lemma ServerCarriesPort(c: SqlServerConfig)
    requires Unambiguous(c)
    ensures Parse(Build(c)).Some? && |Parse(Build(c)).value| > 1
    ensures var server := Parse(Build(c)).value[1].1;
            && |server| > |c.host|
            && server[..|c.host|] == c.host && server[|c.host|] == ','
            && IntText.ParseInt(server[|c.host| + 1..]) == Some(c.port)
  {
    ParseBuild(c);
    var server := Parse(Build(c)).value[1].1;
    assert server[|c.host| + 1..] == IntText.IntToString(c.port);
    IntText.IntToStringRoundTrip(c.port);
  }

  /**
   * Values are not escaped: a password holding "x;Encrypt=no" makes the string split
   * into nine parts, the sixth of which reads as a second Encrypt parameter.
   */
  lemma SemicolonInValueInjectsParameter(c: SqlServerConfig)
    requires c.password == "x;Encrypt=no" && c.extra == None
    requires Separator !in c.driver && Separator !in c.host && Separator !in c.database
    requires Separator !in c.user && IsFlag(c.encrypt) && IsFlag(c.trustServerCertificate) && IsFlag(c.mars)
    ensures var parts := Split(Build(c), Separator);
            && |parts| == 9
            && parts[4] == "PWD=x"
            && parts[5] == "Encrypt=no"
            && parts[6] == "Encrypt=" + c.encrypt
  {
    var parts := RenderAll(Pairs(c));
    assert Pairs(c) == FixedPairs(c) + [];
    assert parts[4] == "PWD=x" + [Separator] + "Encrypt=no";
    NoSeparatorInIntToString(c.port);
    forall i | 0 <= i < |parts| && i != 4 ensures Separator !in parts[i] {
      if i == 0 {
        NoSeparatorInRender("DRIVER", "{" + c.driver + "}");
      } else if i == 1 {
        assert FixedPairs(c)[1].1 == c.host + ("," + IntText.IntToString(c.port));
        NoSeparatorInRender("SERVER", FixedPairs(c)[1].1);
      } else {
        NoSeparatorInRender(Pairs(c)[i].0, Pairs(c)[i].1);
      }
    }
    SplitJoinWithSeparatorInPart(parts, 4, "PWD=x", "Encrypt=no", Separator);
  }

  /** When one part holds a separator, splitting the join cuts that part in two. */
  lemma SplitJoinWithSeparatorInPart(parts: seq<string>, k: nat, a: string, b: string, sep: char)
    requires k < |parts| && parts[k] == a + [sep] + b && sep !in a && sep !in b
    requires forall i :: 0 <= i < |parts| && i != k ==> sep !in parts[i]
    ensures Split(Join(parts, sep), sep) == parts[..k] + [a, b] + parts[k + 1..]
  {
    var q := parts[..k] + [a, b] + parts[k + 1..];
    forall i | 0 <= i < |q| ensures sep !in q[i] {
      if i < k { assert q[i] == parts[i]; }
      else if i > k + 1 { assert q[i] == parts[i - 1]; }
    }
    JoinSplitsPart(parts, k, a, b, sep);
    SplitJoin(q, sep);
  }

  /** A part that itself holds a separator joins like the two parts on either side of it. */
  lemma {:induction false} JoinSplitsPart(parts: seq<string>, k: nat, a: string, b: string, sep: char)
    requires k < |parts| && parts[k] == a + [sep] + b
    ensures Join(parts, sep) == Join(parts[..k] + [a, b] + parts[k + 1..], sep)
    decreases k
  {
    var q := parts[..k] + [a, b] + parts[k + 1..];
    if k == 0 {
      assert q == [a, b] + parts[1..];
      if |parts| == 1 {
        assert q == [a, b];
        assert Join([b], sep) == b;
      } else {
        assert q[1..] == [b] + parts[1..];
        assert q[1..][1..] == parts[1..];
      }
    } else {
      JoinSplitsPart(parts[1..], k - 1, a, b, sep);
      assert q == [parts[0]] + (parts[1..][..k - 1] + [a, b] + parts[1..][k..]);
      assert q[1..] == parts[1..][..k - 1] + [a, b] + parts[1..][k..];
    }
  }
}
