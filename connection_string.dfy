/**
 * Turning a domain's SQL Server connection string into connection settings:
 * the `key=value;...` string is parsed into a dictionary with normalised
 * keys, the server address is picked from the usual aliases and split into
 * host and port (`tcp:` prefix, `host,port`, or a named `host\instance`),
 * and the remaining settings fall back to the domain record.
 *
 * The process environment is an input: `envInstancePort` is the value of
 * `MSSQL_INSTANCE_PORT`, `None` when it is not set.
 */
module ConnectionString {
  import opened Optional
  import opened Strings

  /** The parsed dictionary: lower-cased keys to trimmed values. */
  type Settings = map<string, string>

  /** The `;`-separated segments, trimmed, with the empty ones dropped. */
  function NonEmptyTrimmed(parts: seq<string>): (segments: seq<string>)
    ensures |segments| <= |parts|
    ensures forall i :: 0 <= i < |segments| ==> segments[i] != [] && !IsSpace(segments[i][0])
    ensures forall i :: 0 <= i < |segments| ==> segments[i] == Trim(segments[i])
  {
    if parts == [] then []
    else
      var t := Trim(parts[0]);
      TrimIdempotent(parts[0]);
      (if t == [] then [] else [t]) + NonEmptyTrimmed(parts[1..])
  }

  /** One part gives its trimming, or nothing when it is blank. */
  lemma NonEmptyTrimmedSingle(part: string)
    ensures NonEmptyTrimmed([part]) == if Trim(part) == [] then [] else [Trim(part)]
  {
    assert [part][1..] == [];
  }

  /** Trimming and filtering works piece by piece. */
  lemma {:induction false} NonEmptyTrimmedConcat(x: seq<string>, y: seq<string>)
    ensures NonEmptyTrimmed(x + y) == NonEmptyTrimmed(x) + NonEmptyTrimmed(y)
  {
    if x != [] {
      var t := Trim(x[0]);
      var piece := if t == [] then [] else [t];
      assert (x + y)[0] == x[0];
      assert (x + y)[1..] == x[1..] + y;
      NonEmptyTrimmedConcat(x[1..], y);
      assert piece + (NonEmptyTrimmed(x[1..]) + NonEmptyTrimmed(y)) == (piece + NonEmptyTrimmed(x[1..])) + NonEmptyTrimmed(y);
    } else {
      assert x + y == y;
    }
  }

  /** `cs.split(';').map(trim).filter(Boolean)`. */
  function Segments(cs: string): seq<string> {
    NonEmptyTrimmed(Split(cs, ';'))
  }

  /** The raw key of a segment: the text before its first `=`. */
  function KeyOf(segment: string): string {
    Split(segment, '=')[0]
  }

  /** The value of a segment: everything after the first `=`, re-joined with `=` and trimmed. */
  function ValueOf(segment: string): string {
    Trim(Join(Split(segment, '=')[1..], '='))
  }

  /** The dictionary key a raw key is stored under. */
  function NormalKey(key: string): string {
    ToLower(Trim(key))
  }

  /**
   * The key under which JavaScript's plain-object assignment does not
   * store a string (it is the prototype setter and ignores non-objects).
   */
  const ProtoKey: string := "__proto__"

  /** One iteration of the loop: a segment with an empty key contributes nothing. */
  function Apply(settings: Settings, segment: string): Settings {
    var key := KeyOf(segment);
    if key == "" || NormalKey(key) == ProtoKey then settings
    else settings[NormalKey(key) := ValueOf(segment)]
  }

  /** The dictionary after applying `segments` in order to `settings`. */
  function ApplyAll(settings: Settings, segments: seq<string>): Settings
    decreases |segments|
  {
    if segments == [] then settings
    else Apply(ApplyAll(settings, segments[..|segments| - 1]), segments[|segments| - 1])
  }

  /** The dictionary `parseConnectionString` returns. */
  function Parsed(cs: string): Settings {
    ApplyAll(map[], Segments(cs))
  }

  /** `parseConnectionString`: fills the dictionary segment by segment. */
  method ParseConnectionString(cs: string) returns (settings: Settings)
    ensures settings == Parsed(cs)
    ensures forall k :: k in settings ==> IsSettingKey(k)
  {
    var parts := Segments(cs);
    settings := map[];
    for i := 0 to |parts|
      invariant settings == ApplyAll(map[], parts[..i])
    {
      assert parts[..i + 1][..i] == parts[..i];
      var key := KeyOf(parts[i]);
      if key == "" {
        continue;
      }
      if NormalKey(key) != ProtoKey {
        settings := settings[NormalKey(key) := ValueOf(parts[i])];
      }
    }
    assert parts[..|parts|] == parts;
    ParsedKeys(cs);
  }

  /** A stored key: non-empty, trimmed at both ends, lower-case, and not the prototype key. */
  predicate IsSettingKey(k: string) {
    k != [] && !IsSpace(k[0]) && !IsSpace(k[|k| - 1]) && ToLower(k) == k && k != ProtoKey
  }

  /** Lower-casing never turns a character into whitespace or whitespace into something else. */
  lemma LowerKeepsSpace(c: char)
    ensures IsSpace(LowerChar(c)) <==> IsSpace(c)
  {
  }

  /** A key that does not start with whitespace normalises to a non-empty, trimmed, lower-case key. */
  lemma NormalKeyShape(key: string)
    requires key != [] && !IsSpace(key[0])
    ensures var k := NormalKey(key);
      k != [] && !IsSpace(k[0]) && !IsSpace(k[|k| - 1]) && ToLower(k) == k
  {
    var t := Trim(key);
    TrimEmptyIffBlank(key);
    assert t != [];
    var k := ToLower(t);
    LowerKeepsSpace(t[0]);
    LowerKeepsSpace(t[|t| - 1]);
    assert k[0] == LowerChar(t[0]) && k[|k| - 1] == LowerChar(t[|t| - 1]);
    ToLowerIdempotent(t);
  }

  /** A key taken from a trimmed, non-empty segment normalises to a proper key. */
  lemma StoredKeyIsSettingKey(segment: string)
    requires segment != [] && !IsSpace(segment[0])
    requires KeyOf(segment) != "" && NormalKey(KeyOf(segment)) != ProtoKey
    ensures IsSettingKey(NormalKey(KeyOf(segment)))
  {
    var key := KeyOf(segment);
    SplitFirst(segment, '=');
    assert key[0] == segment[0];
    NormalKeyShape(key);
  }

  /** Every key applied from trimmed segments is a proper key. */
  lemma {:induction false} ApplyAllKeys(settings: Settings, segments: seq<string>)
    requires forall k :: k in settings ==> IsSettingKey(k)
    requires forall i :: 0 <= i < |segments| ==> segments[i] != [] && !IsSpace(segments[i][0])
    ensures forall k :: k in ApplyAll(settings, segments) ==> IsSettingKey(k)
    decreases |segments|
  {
    if segments != [] {
      var n := |segments| - 1;
      ApplyAllKeys(settings, segments[..n]);
      var key := KeyOf(segments[n]);
      if key != "" && NormalKey(key) != ProtoKey {
        StoredKeyIsSettingKey(segments[n]);
      }
    }
  }

  /** Every key of the parsed dictionary is trimmed, lower-cased and non-empty. */
  lemma ParsedKeys(cs: string)
    ensures forall k :: k in Parsed(cs) ==> IsSettingKey(k)
  {
    ApplyAllKeys(map[], Segments(cs));
  }

  /** Applying two runs of segments is applying the second run to the result of the first. */
  lemma {:induction false} ApplyAllConcat(settings: Settings, x: seq<string>, y: seq<string>)
    ensures ApplyAll(settings, x + y) == ApplyAll(ApplyAll(settings, x), y)
    decreases |y|
  {
    if y == [] {
      assert x + y == x;
    } else {
      var n := |y| - 1;
      assert (x + y)[..|x + y| - 1] == x + y[..n];
      assert (x + y)[|x + y| - 1] == y[n];
      ApplyAllConcat(settings, x, y[..n]);
    }
  }

  /** Segments only add or overwrite entries: what they set wins over the starting dictionary. */
  lemma {:induction false} ApplyAllOverrides(settings: Settings, segments: seq<string>)
    ensures ApplyAll(settings, segments) == settings + ApplyAll(map[], segments)
    decreases |segments|
  {
    if segments != [] {
      var n := |segments| - 1;
      ApplyAllOverrides(settings, segments[..n]);
    }
  }

  /**
   * Two connection strings joined by `;` parse to the first one's settings
   * overridden by the second one's: a repeated key keeps its last value.
   */
  lemma ParsedConcat(a: string, b: string)
    ensures Parsed(a + ";" + b) == Parsed(a) + Parsed(b)
  {
    SplitConcat(a, b, ';');
    NonEmptyTrimmedConcat(Split(a, ';'), Split(b, ';'));
    ApplyAllConcat(map[], Segments(a), Segments(b));
    ApplyAllOverrides(Parsed(a), Segments(b));
  }

  /** Empty and whitespace-only segments, trailing `;` included, change nothing. */
  lemma BlankSegmentIgnored(a: string, blank: string)
    requires IsBlank(blank) && ';' !in blank
    ensures Parsed(a + ";" + blank) == Parsed(a)
  {
    ParsedConcat(a, blank);
    BlankParsesToNothing(blank);
    assert Parsed(a) + map[] == Parsed(a);
  }

  /** A blank text without `;` has no segments, so it parses to nothing. */
  lemma BlankParsesToNothing(blank: string)
    requires IsBlank(blank) && ';' !in blank
    ensures Parsed(blank) == map[]
  {
    TrimEmptyIffBlank(blank);
    SplitAbsent(blank, ';');
    assert [blank][1..] == [];
    assert Segments(blank) == [];
  }

  /** A connection string that is one trimmed segment parses as that segment alone. */
  lemma ParsedSingleSegment(segment: string)
    requires segment != [] && ';' !in segment
    requires !IsSpace(segment[0]) && !IsSpace(segment[|segment| - 1])
    ensures Parsed(segment) == Apply(map[], segment)
  {
    assert Split(segment, ';') == [segment];
    TrimOfTrimmed(segment);
    assert Segments(segment) == [segment];
    assert [segment][..0] == [];
    assert ApplyAll(map[], [segment]) == Apply(ApplyAll(map[], []), segment);
  }

  /**
   * A single `key=value` segment sets the lower-cased, trimmed key to the
   * trimmed value, and the value keeps every `=` after the first.
   */
  lemma SingleSetting(key: string, value: string)
    requires ';' !in key && ';' !in value && '=' !in key
    requires key != [] && !IsSpace(key[0]) && (value == [] || !IsSpace(value[|value| - 1]))
    requires NormalKey(key) != ProtoKey
    ensures Parsed(key + "=" + value) == map[NormalKey(key) := Trim(value)]
  {
    var segment := key + "=" + value;
    assert !IsSpace(segment[|segment| - 1]) by {
      if value != [] {
        assert segment[|segment| - 1] == value[|value| - 1];
      }
    }
    assert segment[0] == key[0];
    ParsedSingleSegment(segment);
    KeyValueSplit(key, value);
  }

  /** The key of a segment with `=` ends at the first `=`; its value is everything after, trimmed. */
  lemma SegmentKeyAndValue(segment: string)
    requires '=' in segment
    ensures var k := IndexOf(segment, '=');
      KeyOf(segment) == segment[..k] && ValueOf(segment) == Trim(segment[k + 1..])
  {
    SplitFirst(segment, '=');
    RestAfterFirstSeparator(segment, '=');
  }

  /** The key and value of `key=value` when the key has no `=`. */
  lemma KeyValueSplit(key: string, value: string)
    requires '=' !in key
    ensures KeyOf(key + "=" + value) == key
    ensures ValueOf(key + "=" + value) == Trim(value)
  {
    SplitConcat(key, value, '=');
    assert Split(key, '=') == [key];
    JoinSplit(value, '=');
  }

  /** A segment that starts with `=` has an empty key and sets nothing. */
  lemma EmptyKeyIgnored(a: string, value: string)
    requires ';' !in value && (value == [] || !IsSpace(value[|value| - 1]))
    ensures Parsed(a + ";" + "=" + value) == Parsed(a)
  {
    var segment := "=" + value;
    assert a + ";" + "=" + value == a + ";" + segment;
    assert !IsSpace(segment[|segment| - 1]) by {
      if value != [] {
        assert segment[|segment| - 1] == value[|value| - 1];
      }
    }
    ParsedSingleSegment(segment);
    SplitFirst(segment, '=');
    assert KeyOf(segment) == "";
    ParsedConcat(a, segment);
  }

  // ---------------------------------------------------------------------
  // Host and port

  /** A JavaScript number as far as ports go. */
  datatype JsNumber =
    | Finite(value: int)
      /** `Number(text)` of a text that is not a plain decimal integer: a fraction, an exponent, hex, `Infinity` or `NaN`. */
    | NotInteger(text: string)

  /** The server and port of the connection. */
  datatype HostPort = HostPort(host: string, port: JsNumber)

  /** The prefix stripped from a data source, matched case-insensitively. */
  const TcpPrefix: string := "tcp:"

  /** The data source with a leading `tcp:` (any case) removed. */
  function WithoutTcpPrefix(ds: string): (r: string)
    ensures StartsWith(ToLower(ds), TcpPrefix) ==> r == ds[4..]
    ensures !StartsWith(ToLower(ds), TcpPrefix) ==> r == ds
  {
    if StartsWith(ToLower(ds), TcpPrefix) then ds[4..] else ds
  }

  /** `extractHostAndPort(dataSource, fallbackHost, fallbackPort)`. */
  function ExtractHostAndPort(dataSource: string, fallbackHost: Option<string>, fallbackPort: int): (r: HostPort)
    // the data source, else the fallback host, else ""
    ensures dataSource == "" && fallbackHost.GetOr("") == "" ==> r == HostPort("", Finite(fallbackPort))
    // the port is always a number; it is the fallback unless one was read after a comma
    ensures r.port.Finite?
    ensures ',' !in dataSource && (dataSource != "" || ',' !in fallbackHost.GetOr("")) ==> r.port == Finite(fallbackPort)
  {
    var ds := if dataSource != "" then dataSource else fallbackHost.GetOr("");
    var stripped := WithoutTcpPrefix(ds);
    var parts := Split(stripped, ',');
    if |parts| == 2 then
      HostPort(parts[0], Finite(ParseInt(parts[1]).GetOr(fallbackPort)))
    else
      (assert ',' !in stripped ==> parts == [stripped];
       HostPort(stripped, Finite(fallbackPort)))
  }

  /** `dataSource || fallbackHost || ''`: the fallback host is read only when the data source is empty. */
  lemma FallbackHostUsed(dataSource: string, fallbackHost: Option<string>, fallbackPort: int)
    ensures ExtractHostAndPort(dataSource, fallbackHost, fallbackPort)
         == ExtractHostAndPort(if dataSource != "" then dataSource else fallbackHost.GetOr(""), None, fallbackPort)
  {
  }

  /** Unless the text splits at commas into exactly two pieces, it is the host, on the fallback port. */
  lemma NotTwoPartsKeepsSource(ds: string, fallbackHost: Option<string>, fallbackPort: int)
    requires ds != ""
    requires |Split(WithoutTcpPrefix(ds), ',')| != 2
    ensures ExtractHostAndPort(ds, fallbackHost, fallbackPort) == HostPort(WithoutTcpPrefix(ds), Finite(fallbackPort))
  {
  }

  /** `host,port` gives that host and the port read by `parseInt` (the fallback when it is not a number). */
  lemma HostCommaPort(host: string, portText: string, fallbackHost: Option<string>, fallbackPort: int)
    requires ',' !in host && ',' !in portText
    requires !StartsWith(ToLower(host + "," + portText), TcpPrefix)
    ensures ExtractHostAndPort(host + "," + portText, fallbackHost, fallbackPort)
         == HostPort(host, Finite(ParseInt(portText).GetOr(fallbackPort)))
  {
    var ds := host + "," + portText;
    assert ds == host + [','] + portText;
    assert WithoutTcpPrefix(ds) == ds;
    SplitConcat(host, portText, ',');
    SplitAbsent(host, ',');
    SplitAbsent(portText, ',');
    assert Split(ds, ',') == [host, portText];
  }

  /** The decimal form of a number holds no comma. */
  lemma NoCommaInNumeral(n: nat)
    ensures ',' !in NatToString(n)
  {
    var s := NatToString(n);
    forall i | 0 <= i < |s| ensures s[i] != ',' {
      assert IsDigit(s[i]);
    }
  }

  /** A numeric port after the comma is read exactly. */
  lemma NumericPort(host: string, port: nat, fallbackHost: Option<string>, fallbackPort: int)
    requires ',' !in host
    requires !StartsWith(ToLower(host + "," + NatToString(port)), TcpPrefix)
    ensures ExtractHostAndPort(host + "," + NatToString(port), fallbackHost, fallbackPort) == HostPort(host, Finite(port))
  {
    NoCommaInNumeral(port);
    HostCommaPort(host, NatToString(port), fallbackHost, fallbackPort);
    ParseIntNumeral(port);
  }

  /** A data source without a comma or `tcp:` prefix is the host, on the fallback port. */
  lemma PlainSource(ds: string, fallbackHost: Option<string>, fallbackPort: int)
    requires ds != [] && ',' !in ds
    requires !StartsWith(ToLower(ds), TcpPrefix)
    ensures ExtractHostAndPort(ds, fallbackHost, fallbackPort) == HostPort(ds, Finite(fallbackPort))
  {
    SplitAbsent(ds, ',');
  }

  /** A leading `tcp:`, in any letter case, is dropped before anything else is read. */
  lemma TcpPrefixIgnored(prefix: string, rest: string, fallbackHost: Option<string>, fallbackPort: int)
    requires ToLower(prefix) == TcpPrefix
    requires rest != [] && !StartsWith(ToLower(rest), TcpPrefix)
    ensures ExtractHostAndPort(prefix + rest, fallbackHost, fallbackPort) == ExtractHostAndPort(rest, fallbackHost, fallbackPort)
  {
    ToLowerConcat(prefix, rest);
    assert ToLower(prefix + rest)[..4] == ToLower(prefix);
    assert (prefix + rest)[4..] == rest;
  }

  /** With more than one comma the whole text is the host and the port is the fallback. */
  lemma SeveralCommasKeepWholeSource(ds: string, fallbackHost: Option<string>, fallbackPort: int)
    requires !StartsWith(ToLower(ds), TcpPrefix)
    requires var k := IndexOf(ds, ','); k >= 0 && ',' in ds[k + 1..]
    ensures ExtractHostAndPort(ds, fallbackHost, fallbackPort) == HostPort(ds, Finite(fallbackPort))
  {
    SplitTwoSeparators(ds, ',');
    NotTwoPartsKeepsSource(ds, fallbackHost, fallbackPort);
  }

  // ---------------------------------------------------------------------
  // Building the connection settings

  /** The fields of the domain record that the builder reads. */
  datatype DomainInfo = DomainInfo(connectionString: string, dbServerAddress: string, dbCatalogName: string)

  /** The SQL Server connection settings. */
  datatype MsSqlConnectionInfo = MsSqlConnectionInfo(
    host: string, port: JsNumber, user: string, password: string, database: string, trustServerCertificate: bool)

  /** `m[k1] || m[k2] || ... || default`: the first alias holding a non-empty value. */
  function FirstNonEmpty(settings: Settings, keys: seq<string>, default: string): (r: string)
    // the first alias with a non-empty value wins
    ensures forall i :: 0 <= i < |keys| && keys[i] in settings && settings[keys[i]] != "" &&
                      (forall j :: 0 <= j < i ==> keys[j] !in settings || settings[keys[j]] == "")
                      ==> r == settings[keys[i]]
    // with none, the default
    ensures (forall i :: 0 <= i < |keys| ==> keys[i] !in settings || settings[keys[i]] == "") ==> r == default
  {
    if keys == [] then default
    else if keys[0] in settings && settings[keys[0]] != "" then settings[keys[0]]
    else FirstNonEmpty(settings, keys[1..], default)
  }

  /** The aliases of the server address, by precedence. */
  const DataSourceKeys: seq<string> := ["data source", "server", "addr", "address", "network address"]
  /** The aliases of the database name, by precedence. */
  const DatabaseKeys: seq<string> := ["initial catalog", "database"]
  /** The aliases of the user name, by precedence. */
  const UserKeys: seq<string> := ["user id", "uid", "user"]
  /** The aliases of the password, by precedence. */
  const PasswordKeys: seq<string> := ["password", "pwd"]

  /** The port SQL Server listens on by default. */
  const DefaultPort: int := 1433

  /** `Number(text)` for the decimal integers a port is written as, after trimming; blank is 0. */
  function NumberOf(text: string): (n: JsNumber)
    ensures IsBlank(text) ==> n == Finite(0)
  {
    var t := Trim(text);
    TrimEmptyIffBlank(text);
    if t == [] then Finite(0)
    else
      var negative := t[0] == '-';
      var digits := if t[0] == '+' || t[0] == '-' then t[1..] else t;
      if digits != [] && DigitPrefix(digits) == digits then
        var v: int := DigitsValue(digits);
        Finite(if negative then -v else v)
      else NotInteger(text)
  }

  /** `Number` reads a decimal numeral back as the number it writes. */
  lemma NumberOfNumeral(n: nat)
    ensures NumberOf(NatToString(n)) == Finite(n)
  {
    var t := NatToString(n);
    assert IsDigit(t[0]) && IsDigit(t[|t| - 1]);
    TrimOfTrimmed(t);
    DigitPrefixOfDigits(t, "");
    assert t + "" == t;
    DigitsValueOfNatToString(n);
  }

  /** `Number` of a text that trims to digits is their value. */
  lemma NumberOfUnsigned(text: string, d: string)
    requires d != [] && forall i :: 0 <= i < |d| ==> IsDigit(d[i])
    requires Trim(text) == d && DigitPrefix(d) == d
    ensures NumberOf(text) == Finite(DigitsValue(d))
  {
    assert IsDigit(d[0]);
  }

  /** `Number` of a text that trims to the sign `c` and digits is their signed value. */
  lemma NumberOfSigned(text: string, c: char, d: string)
    requires c == '+' || c == '-'
    requires d != [] && forall i :: 0 <= i < |d| ==> IsDigit(d[i])
    requires |Trim(text)| >= 1 && Trim(text)[0] == c && Trim(text)[1..] == d && DigitPrefix(d) == d
    ensures NumberOf(text) == Finite(if c == '-' then -(DigitsValue(d) as int) else DigitsValue(d))
  {
  }

  /** `Number` of a text that trims to a sign and digits is their signed value. */
  lemma NumberOfTrimmedDigits(text: string, sign: string, d: string)
    requires IsSign(sign) && Trim(text) == sign + d
    requires d != [] && forall i :: 0 <= i < |d| ==> IsDigit(d[i])
    ensures NumberOf(text) == Finite(Signed(sign, DigitsValue(d)))
  {
    DigitPrefixOfDigits(d, "");
    assert d + "" == d;
    var core := sign + d;
    if sign == [] {
      assert core == d;
      NumberOfUnsigned(text, d);
    } else {
      assert core[1..] == d;
      NumberOfSigned(text, sign[0], d);
    }
  }

  /** Whitespace around a sign and digits trims away. */
  lemma TrimSignedDigits(ws1: string, sign: string, d: string, ws2: string)
    requires IsBlank(ws1) && IsBlank(ws2) && IsSign(sign)
    requires d != [] && forall i :: 0 <= i < |d| ==> IsDigit(d[i])
    ensures Trim(ws1 + (sign + d + ws2)) == sign + d
  {
    var core := sign + d;
    assert core[0] == if sign == [] then d[0] else sign[0];
    assert core[|core| - 1] == d[|d| - 1];
    TrimPadded(ws1, core, ws2);
  }

  /** `Number` skips the whitespace around a sign and digits and reads their signed value. */
  lemma NumberOfValue(ws1: string, sign: string, d: string, ws2: string)
    requires IsBlank(ws1) && IsBlank(ws2) && IsSign(sign)
    requires d != [] && forall i :: 0 <= i < |d| ==> IsDigit(d[i])
    ensures NumberOf(ws1 + (sign + d + ws2)) == Finite(Signed(sign, DigitsValue(d)))
  {
    TrimSignedDigits(ws1, sign, d, ws2);
    NumberOfTrimmedDigits(ws1 + (sign + d + ws2), sign, d);
  }

  /** A character that is not whitespace, a digit or a sign makes the text no integer at all. */
  lemma NumberOfNonDigit(text: string, k: nat)
    requires k < |text| && !IsSpace(text[k]) && !IsDigit(text[k]) && text[k] != '+' && text[k] != '-'
    ensures NumberOf(text) == NotInteger(text)
  {
    var i, t := LeadingSpaces(text), Trim(text);
    NonSpaceKept(text, k);
    var signed := t[0] == '+' || t[0] == '-';
    var digits := if signed then t[1..] else t;
    var j := if signed then k - i - 1 else k - i;
    assert 0 <= j < |digits| && digits[j] == text[k];
  }

  /**
   * `Number(process.env.MSSQL_INSTANCE_PORT || '1433')`; the fallback text
   * `'1433'` is the decimal numeral of the default port.
   */
  function InstancePort(envInstancePort: Option<string>): (n: JsNumber)
    ensures envInstancePort.GetOr("") == "" ==> n == Finite(DefaultPort)
    ensures envInstancePort.GetOr("") != "" ==> n == NumberOf(envInstancePort.value)
  {
    var text := if envInstancePort.Some? && envInstancePort.value != "" then envInstancePort.value else NatToString(DefaultPort);
    NumberOfNumeral(DefaultPort);
    NumberOf(text)
  }

  /** `buildMsSqlConnectionInfoFromDomainInfo`. */
  function BuildMsSqlConnectionInfo(domain: DomainInfo, envInstancePort: Option<string>): (info: MsSqlConnectionInfo)
    ensures var settings := Parsed(domain.connectionString);
      && info.database == FirstNonEmpty(settings, DatabaseKeys, domain.dbCatalogName)
      && info.user == FirstNonEmpty(settings, UserKeys, "")
      && info.password == FirstNonEmpty(settings, PasswordKeys, "")
    // trusted exactly when the setting reads "true" in any letter case
    ensures info.trustServerCertificate <==> ToLower(FirstNonEmpty(Parsed(domain.connectionString), ["trustservercertificate"], "")) == "true"
    // a named instance: the host is the text before the first backslash, the port comes from the environment
    ensures var ds := FirstNonEmpty(Parsed(domain.connectionString), DataSourceKeys, domain.dbServerAddress);
      '\\' in ds ==> info.host == ds[..IndexOf(ds, '\\')] && info.port == InstancePort(envInstancePort)
    // otherwise host and port come from the server address
    ensures var ds := FirstNonEmpty(Parsed(domain.connectionString), DataSourceKeys, domain.dbServerAddress);
      '\\' !in ds ==> HostPort(info.host, info.port) == ExtractHostAndPort(ds, Some(domain.dbServerAddress), DefaultPort)
  {
    var settings := Parsed(domain.connectionString);
    var dataSource := FirstNonEmpty(settings, DataSourceKeys, domain.dbServerAddress);
    var database := FirstNonEmpty(settings, DatabaseKeys, domain.dbCatalogName);
    var user := FirstNonEmpty(settings, UserKeys, "");
    var password := FirstNonEmpty(settings, PasswordKeys, "");
    var trust := ToLower(FirstNonEmpty(settings, ["trustservercertificate"], "")) == "true";
    if '\\' in dataSource then
      SplitFirst(dataSource, '\\');
      MsSqlConnectionInfo(Split(dataSource, '\\')[0], InstancePort(envInstancePort), user, password, database, trust)
    else
      var hp := ExtractHostAndPort(dataSource, Some(domain.dbServerAddress), DefaultPort);
      MsSqlConnectionInfo(hp.host, hp.port, user, password, database, trust)
  }

  /** A named instance ignores any comma port written after it. */
  lemma NamedInstanceIgnoresCommaPort(server: string, instance: string, port: string, domain: DomainInfo, envInstancePort: Option<string>)
    requires '\\' !in server
    requires FirstNonEmpty(Parsed(domain.connectionString), DataSourceKeys, domain.dbServerAddress) == server + "\\" + instance + "," + port
    ensures BuildMsSqlConnectionInfo(domain, envInstancePort).host == server
    ensures BuildMsSqlConnectionInfo(domain, envInstancePort).port == InstancePort(envInstancePort)
  {
    var ds := server + "\\" + instance + "," + port;
    assert ds[|server|] == '\\' && ds[..|server|] == server;
    assert IndexOf(ds, '\\') == |server|;
  }

  /**
   * When the connection string names no server, the domain's server address
   * is read as the data source: a named instance takes the instance port,
   * any other address goes through `extractHostAndPort`, and a plain address
   * is the host on port 1433.
   */
  lemma ServerAddressFallback(domain: DomainInfo, envInstancePort: Option<string>)
    requires forall k :: k in DataSourceKeys ==> k !in Parsed(domain.connectionString) || Parsed(domain.connectionString)[k] == ""
    ensures var addr, info := domain.dbServerAddress, BuildMsSqlConnectionInfo(domain, envInstancePort);
      '\\' in addr ==> info.host == addr[..IndexOf(addr, '\\')] && info.port == InstancePort(envInstancePort)
    ensures var addr, info := domain.dbServerAddress, BuildMsSqlConnectionInfo(domain, envInstancePort);
      '\\' !in addr ==> HostPort(info.host, info.port) == ExtractHostAndPort(addr, Some(addr), DefaultPort)
    ensures var addr, info := domain.dbServerAddress, BuildMsSqlConnectionInfo(domain, envInstancePort);
      '\\' !in addr && ',' !in addr && !StartsWith(ToLower(addr), TcpPrefix) ==>
        info.host == addr && info.port == Finite(DefaultPort)
  {
    var settings := Parsed(domain.connectionString);
    forall i | 0 <= i < |DataSourceKeys| ensures DataSourceKeys[i] !in settings || settings[DataSourceKeys[i]] == "" {
      assert DataSourceKeys[i] in DataSourceKeys;
    }
    assert FirstNonEmpty(settings, DataSourceKeys, domain.dbServerAddress) == domain.dbServerAddress;
    if domain.dbServerAddress != [] && '\\' !in domain.dbServerAddress && ',' !in domain.dbServerAddress
      && !StartsWith(ToLower(domain.dbServerAddress), TcpPrefix) {
      PlainSource(domain.dbServerAddress, Some(domain.dbServerAddress), DefaultPort);
    }
  }
}
