/**
 * The value type of the `<physical-network>:<adapter-object-id>[:<port>]`
 * configuration lines (networking_dpm/conf/types.py).
 *
 * The option checks every value against MAPPING_REGEX, compiled with
 * ignore_case, before `NetworkAdapterMappingType.__call__` splits it at ':',
 * lowercases the adapter id and defaults the port to the string "0". The
 * regular expression is written out here as predicates over the characters
 * of the value.
 */
module MappingType {
  import opened Wrappers
  import opened Strings

  /** Port returned when the value names none. */
  const DEFAULT_PORT := "0"
  /** Length of `[a-f0-9]{8}-([a-f0-9]{4}-){3}[a-f0-9]{12}`. */
  const OBJECT_ID_LENGTH := 36

  /** `[a-f0-9]` under ignore_case. */
  predicate IsHexChar(c: char)
  {
    '0' <= c <= '9' || 'a' <= c <= 'f' || 'A' <= c <= 'F'
  }

  predicate IsDashPosition(i: int)
  {
    i == 8 || i == 13 || i == 18 || i == 23
  }

  /** OBJECT_ID_REGEX under ignore_case: 8-4-4-4-12 hex digits. */
  predicate IsObjectId(s: string)
  {
    |s| == OBJECT_ID_LENGTH &&
    forall i :: 0 <= i < |s| ==> if IsDashPosition(i) then s[i] == '-' else IsHexChar(s[i])
  }

  /** PORT_REGEX is the character class `[0,1]`, so ',' is a port character too. */
  predicate IsPortChar(c: char)
  {
    c == '0' || c == ',' || c == '1'
  }

  /** The text after the object id: `(:?|(:[0,1])?)`, i.e. nothing, ":" or ":" and one port character. */
  predicate IsPortSuffix(t: string)
  {
    t == "" || t == ":" || (|t| == 2 && t[0] == ':' && IsPortChar(t[1]))
  }

  /**
   * MAPPING_REGEX matched from `^` to the very end of `s`. `[^:]+:` runs to the
   * first ':', so the network name is everything before it.
   */
  predicate MatchesWhole(s: string)
  {
    var i := IndexOf(s, ':');
    0 < i < |s| && i + 1 + OBJECT_ID_LENGTH <= |s| &&
    IsObjectId(s[i + 1..i + 1 + OBJECT_ID_LENGTH]) &&
    IsPortSuffix(s[i + 1 + OBJECT_ID_LENGTH..])
  }

  predicate EndsWithNewline(s: string)
  {
    |s| > 0 && s[|s| - 1] == '\n'
  }

  /**
   * Python's `re.search(MAPPING_REGEX, s)`: without MULTILINE, `$` matches at
   * the end of the string or just before a newline that ends it.
   */
  predicate MatchesMappingRegex(s: string)
  {
    MatchesWhole(s) || (EndsWithNewline(s) && MatchesWhole(s[..|s| - 1]))
  }

  /** The grammar stated on its three parts: `net + ":" + id + suffix`. */
  predicate IsMappingParts(net: string, id: string, suffix: string)
  {
    net != "" && ':' !in net && IsObjectId(id) && IsPortSuffix(suffix)
  }

  datatype NetworkAdapterMapping = NetworkAdapterMapping(net: string, adapterId: string, port: string)

  /** The ValueError the option type raises for a value the regex rejects. */
  datatype MappingError = RegexMismatch(value: string)

  /** A value that matches the regex has at least two ':'-separated fields. */
  lemma MatchedValueHasTwoFields(value: string)
    requires MatchesMappingRegex(value)
    ensures |Split(value, ':')| >= 2
  {
    if !MatchesWhole(value) {
      IndexOfPrefix(value, value[..|value| - 1], ':');
    }
  }

  /** `NetworkAdapterMappingType.__call__`. */
  function Parse(value: string): (r: Result<NetworkAdapterMapping, MappingError>)
    ensures r.Success? <==> MatchesMappingRegex(value)
    ensures r.Failure? ==> r.error == RegexMismatch(value)
  {
    if !MatchesMappingRegex(value) then Failure(RegexMismatch(value))
    else
      MatchedValueHasTwoFields(value);
      var fields := Split(value, ':');
      var port := if |fields| == 3 && fields[2] != "" then fields[2] else DEFAULT_PORT;
      Success(NetworkAdapterMapping(fields[0], Lower(fields[1]), port))
  }

  /** The port `__call__` returns for a port suffix, given the final newline `nl` the regex let through. */
  function PortOf(suffix: string, nl: string): string
  {
    if suffix == "" || (suffix == ":" && nl == "") then DEFAULT_PORT
    else suffix[1..] + nl
  }

  /** The grammar parts alone decide that a whole value matches. */
  lemma MatchesWholeOfParts(net: string, id: string, suffix: string)
    requires IsMappingParts(net, id, suffix)
    ensures MatchesWhole(net + ":" + id + suffix)
  {
    var s := net + ":" + id + suffix;
    assert s == net + [':'] + (id + suffix);
    IndexOfSeparator(net, ':', id + suffix);
    assert s[|net| + 1..|net| + 1 + OBJECT_ID_LENGTH] == id;
    assert s[|net| + 1 + OBJECT_ID_LENGTH..] == suffix;
  }

  /** Every whole match splits into grammar parts. */
  lemma PartsOfMatchesWhole(s: string)
    requires MatchesWhole(s)
    ensures var i := IndexOf(s, ':');
      s == s[..i] + ":" + s[i + 1..i + 1 + OBJECT_ID_LENGTH] + s[i + 1 + OBJECT_ID_LENGTH..] &&
      IsMappingParts(s[..i], s[i + 1..i + 1 + OBJECT_ID_LENGTH], s[i + 1 + OBJECT_ID_LENGTH..])
  {
    var i := IndexOf(s, ':');
    assert s == s[..i] + ":" + s[i + 1..i + 1 + OBJECT_ID_LENGTH] + s[i + 1 + OBJECT_ID_LENGTH..];
    assert ':' !in s[..i] by {
      forall k | 0 <= k < i ensures s[..i][k] != ':' {
        assert s[..i][k] == s[k];
      }
    }
  }

  /** A value is `net + ":" + id + suffix + nl` for grammar parts and an allowed final newline. */
  predicate IsAcceptedShape(value: string, net: string, id: string, suffix: string, nl: string)
  {
    IsMappingParts(net, id, suffix) && (nl == "" || nl == "\n") &&
    value == net + ":" + id + suffix + nl
  }

  /** A value of the grammar's shape matches the regex. */
  lemma MatchesOfShape(value: string, net: string, id: string, suffix: string, nl: string)
    requires IsAcceptedShape(value, net, id, suffix, nl)
    ensures MatchesMappingRegex(value)
  {
    MatchesWholeOfParts(net, id, suffix);
    if nl == "" {
      assert value == net + ":" + id + suffix;
    } else {
      assert value[..|value| - 1] == net + ":" + id + suffix;
    }
  }

  /** A whole match has the grammar's shape without a final newline. */
  lemma ShapeOfMatchesWhole(s: string)
    requires MatchesWhole(s)
    ensures exists net, id, suffix, nl :: IsAcceptedShape(s, net, id, suffix, nl)
  {
    PartsOfMatchesWhole(s);
    var i := IndexOf(s, ':');
    assert IsAcceptedShape(s, s[..i], s[i + 1..i + 1 + OBJECT_ID_LENGTH], s[i + 1 + OBJECT_ID_LENGTH..], "");
  }

  /** A match that ends before the final newline has the grammar's shape with that newline. */
  lemma ShapeOfMatchesBeforeNewline(value: string)
    requires EndsWithNewline(value) && MatchesWhole(value[..|value| - 1])
    ensures exists net, id, suffix, nl :: IsAcceptedShape(value, net, id, suffix, nl)
  {
    var t := value[..|value| - 1];
    PartsOfMatchesWhole(t);
    var i := IndexOf(t, ':');
    var net, id, suffix := t[..i], t[i + 1..i + 1 + OBJECT_ID_LENGTH], t[i + 1 + OBJECT_ID_LENGTH..];
    assert value == t + "\n";
    assert IsAcceptedShape(value, net, id, suffix, "\n");
  }

  /**
   * The regex accepts a value exactly when it has the shape of the grammar,
   * with at most one final newline after it.
   */
  lemma MatchesMappingRegexIff(value: string)
    ensures MatchesMappingRegex(value) <==>
      exists net, id, suffix, nl :: IsAcceptedShape(value, net, id, suffix, nl)
  {
    if MatchesWhole(value) {
      ShapeOfMatchesWhole(value);
    } else if EndsWithNewline(value) && MatchesWhole(value[..|value| - 1]) {
      ShapeOfMatchesBeforeNewline(value);
    }
    if net, id, suffix, nl :| IsAcceptedShape(value, net, id, suffix, nl) {
      MatchesOfShape(value, net, id, suffix, nl);
    }
  }

  /**
   * What `__call__` returns for every accepted value: the network name
   * verbatim, the lowercased id field and the port text, defaulting to "0";
   * a final newline stays in whichever field it ends.
   */
  lemma ParseAccepted(value: string, net: string, id: string, suffix: string, nl: string)
    requires IsAcceptedShape(value, net, id, suffix, nl)
    ensures Parse(value) ==
      Success(NetworkAdapterMapping(net, Lower(id + (if suffix == "" then nl else "")), PortOf(suffix, nl)))
  {
    MatchesOfShape(value, net, id, suffix, nl);
    var fields := FieldsOfShape(value, net, id, suffix, nl);
    var port := if |fields| == 3 && fields[2] != "" then fields[2] else DEFAULT_PORT;
    assert port == PortOf(suffix, nl);
    assert Lower(fields[1]) == Lower(id + (if suffix == "" then nl else ""));
  }

  /** The ':'-separated fields of a value of the grammar's shape. */
  lemma FieldsOfShape(value: string, net: string, id: string, suffix: string, nl: string)
    returns (fields: seq<string>)
    requires IsAcceptedShape(value, net, id, suffix, nl)
    ensures fields == Split(value, ':')
    ensures suffix == "" ==> fields == [net, id + nl]
    ensures suffix != "" ==> fields == [net, id, suffix[1..] + nl]
  {
    NoColonInObjectId(id);
    assert ':' !in net;
    assert ':' !in nl;
    if suffix == "" {
      assert value == net + [':'] + (id + nl);
      FieldsWithoutPort(net, id, nl);
    } else {
      assert suffix == [':'] + suffix[1..];
      assert ':' !in suffix[1..];
      assert value == net + [':'] + id + [':'] + (suffix[1..] + nl);
      FieldsWithPort(net, id, suffix[1..], nl);
    }
    fields := Split(value, ':');
  }

  lemma FieldsWithoutPort(net: string, id: string, nl: string)
    requires ':' !in net && ':' !in id && ':' !in nl
    ensures Split(net + [':'] + (id + nl), ':') == [net, id + nl]
  {
    assert ':' !in id + nl;
    SplitTwoFields(net, id + nl);
  }

  lemma FieldsWithPort(net: string, id: string, port: string, nl: string)
    requires ':' !in net && ':' !in id && ':' !in port && ':' !in nl
    ensures Split(net + [':'] + id + [':'] + (port + nl), ':') == [net, id, port + nl]
  {
    assert ':' !in port + nl;
    SplitThreeFields(net, id, port + nl);
  }

  lemma SplitTwoFields(a: string, b: string)
    requires ':' !in a && ':' !in b
    ensures Split(a + [':'] + b, ':') == [a, b]
  {
    SplitAtSeparator(a, ':', b);
    SplitWhole(b, ':');
  }

  lemma SplitThreeFields(a: string, b: string, c: string)
    requires ':' !in a && ':' !in b && ':' !in c
    ensures Split(a + [':'] + b + [':'] + c, ':') == [a, b, c]
  {
    assert a + [':'] + b + [':'] + c == a + [':'] + (b + [':'] + c);
    SplitAtSeparator(a, ':', b + [':'] + c);
    SplitTwoFields(b, c);
  }

  lemma NoColonInObjectId(id: string)
    requires IsObjectId(id)
    ensures ':' !in id
  {
    forall k | 0 <= k < |id| ensures id[k] != ':' {
      assert IsDashPosition(k) || IsHexChar(id[k]);
    }
  }

  /** The network name is exactly the text before the first ':'. */
  lemma ParseNetIsFirstField(value: string)
    requires Parse(value).Success?
    ensures Parse(value).value.net == value[..IndexOf(value, ':')]
    ensures Parse(value).value.net != "" && ':' !in Parse(value).value.net
  {
    var net, id, suffix, nl := ShapeOf(value);
    ParseAccepted(value, net, id, suffix, nl);
    NetBeforeFirstColon(value, net, id + suffix + nl);
  }

  /** Some grammar shape of a value the regex accepts. */
  lemma ShapeOf(value: string) returns (net: string, id: string, suffix: string, nl: string)
    requires MatchesMappingRegex(value)
    ensures IsAcceptedShape(value, net, id, suffix, nl)
  {
    MatchesMappingRegexIff(value);
    net, id, suffix, nl :| IsAcceptedShape(value, net, id, suffix, nl);
  }

  /** A name without ':' followed by ':' is the text before the first ':'. */
  lemma NetBeforeFirstColon(value: string, net: string, rest: string)
    requires ':' !in net && value == net + ":" + rest
    ensures IndexOf(value, ':') == |net| && value[..IndexOf(value, ':')] == net
  {
    assert value == net + [':'] + rest;
    IndexOfSeparator(net, ':', rest);
  }

  /** A lowercase object id: OBJECT_ID_REGEX without ignore_case. */
  predicate IsLowerObjectId(s: string)
  {
    IsObjectId(s) && forall i :: 0 <= i < |s| ==> !('A' <= s[i] <= 'Z')
  }

  /** A configuration line as written to the option, without a final newline. */
  predicate IsPlainLine(value: string)
  {
    MatchesMappingRegex(value) && !EndsWithNewline(value)
  }

  /** A configuration line without a final newline is `net + ":" + id + suffix`, the network name ending at the first ':'. */
  lemma PlainLineShape(value: string) returns (net: string, id: string, suffix: string)
    requires IsPlainLine(value)
    ensures IsAcceptedShape(value, net, id, suffix, "")
    ensures |net| == IndexOf(value, ':')
  {
    MatchesMappingRegexIff(value);
    var nl;
    net, id, suffix, nl :| IsAcceptedShape(value, net, id, suffix, nl);
    assert value == net + [':'] + (id + suffix);
    IndexOfSeparator(net, ':', id + suffix);
  }

  /** Lowercasing an object id gives a lowercase object id. */
  lemma LowerObjectId(id: string)
    requires IsObjectId(id)
    ensures IsLowerObjectId(Lower(id))
  {
    var lower := Lower(id);
    forall k | 0 <= k < |lower|
      ensures !('A' <= lower[k] <= 'Z') && (if IsDashPosition(k) then lower[k] == '-' else IsHexChar(lower[k]))
    {
      assert IsDashPosition(k) || IsHexChar(id[k]);
    }
  }

  /** Lowercasing changes nothing in a lowercase object id. */
  lemma LowerOfLowerObjectId(id: string)
    requires IsLowerObjectId(id)
    ensures Lower(id) == id
  {
  }

  /**
   * For a line without a final newline: the adapter id is the lowercased
   * object id of the second field, and the port is "0" when the third field is
   * absent or empty, and otherwise that one character verbatim, as a string.
   */
  lemma ParsePlainLine(value: string)
    requires IsPlainLine(value)
    ensures var m := Parse(value).value;
      var i := IndexOf(value, ':');
      i + 1 + OBJECT_ID_LENGTH <= |value| &&
      IsLowerObjectId(m.adapterId) &&
      m.adapterId == Lower(value[i + 1..i + 1 + OBJECT_ID_LENGTH]) &&
      (|value| <= i + 2 + OBJECT_ID_LENGTH ==> m.port == DEFAULT_PORT) &&
      (|value| > i + 2 + OBJECT_ID_LENGTH ==> m.port == value[i + 2 + OBJECT_ID_LENGTH..]) &&
      (m.port == "0" || m.port == "1" || m.port == ",")
  {
    var net, id, suffix := PlainLineShape(value);
    ParseAccepted(value, net, id, suffix, "");
    var i := |net|;
    assert value == net + ":" + id + suffix;
    assert value[i + 1..i + 1 + OBJECT_ID_LENGTH] == id;
    assert value[i + 1 + OBJECT_ID_LENGTH..] == suffix;
    assert |value| == i + 1 + OBJECT_ID_LENGTH + |suffix|;
    assert id + "" == id;
    LowerObjectId(id);
    PlainPort(suffix);
  }

  /** The port of a suffix without a final newline: "0" unless a port character follows the ':'. */
  lemma PlainPort(suffix: string)
    requires IsPortSuffix(suffix)
    ensures |suffix| <= 1 ==> PortOf(suffix, "") == DEFAULT_PORT
    ensures |suffix| > 1 ==> PortOf(suffix, "") == suffix[1..]
    ensures PortOf(suffix, "") == "0" || PortOf(suffix, "") == "1" || PortOf(suffix, "") == ","
  {
    if |suffix| > 1 {
      assert suffix[1..] == [suffix[1]];
    }
  }

  /** The line `net:adapter-id:port` a mapping stands for. */
  function Format(m: NetworkAdapterMapping): string
  {
    m.net + ":" + m.adapterId + ":" + m.port
  }

  /** Parsing a configuration line without a final newline, formatting the result and parsing again changes nothing. */
  lemma ParseIdempotent(value: string)
    requires IsPlainLine(value)
    ensures Parse(Format(Parse(value).value)) == Parse(value)
  {
    var net, id, suffix := PlainLineShape(value);
    ParseRoundTrip(value, net, id, suffix, "");
  }

  /**
   * For an accepted value of a given shape: formatting the parse result and
   * parsing again gives the same result exactly unless the value is
   * `net:id\n`: no `:` after the adapter id and a final newline, which then
   * sits inside the adapter id. `net:id:\n` round-trips with port "\n".
   */
  lemma ParseRoundTrip(value: string, net: string, id: string, suffix: string, nl: string)
    requires IsAcceptedShape(value, net, id, suffix, nl)
    ensures Parse(value).Success?
    ensures Parse(Format(Parse(value).value)) == Parse(value) <==> !(suffix == "" && nl == "\n")
  {
    MatchesOfShape(value, net, id, suffix, nl);
    if suffix == "" && nl == "\n" {
      assert value == net + ":" + id + "\n";
      ParseKeepsFinalNewline(net, id);
    } else {
      RoundTripWithoutFinalNewlineInId(value, net, id, suffix, nl);
    }
  }

  lemma RoundTripWithoutFinalNewlineInId(value: string, net: string, id: string, suffix: string, nl: string)
    requires IsAcceptedShape(value, net, id, suffix, nl)
    requires !(suffix == "" && nl == "\n")
    ensures Parse(value).Success? && Parse(Format(Parse(value).value)) == Parse(value)
  {
    ParseAccepted(value, net, id, suffix, nl);
    assert id + (if suffix == "" then nl else "") == id;
    var m := Parse(value).value;
    var lowered := Lower(id);
    assert m == NetworkAdapterMapping(net, lowered, PortOf(suffix, nl));
    LowerObjectId(id);
    var suffix', nl';
    if suffix == "" || (suffix == ":" && nl == "") {
      suffix', nl' := ":0", "";
      assert m.port == "0";
    } else {
      suffix', nl' := suffix, nl;
      assert suffix == ":" + suffix[1..];
      assert m.port == suffix[1..] + nl;
    }
    assert Format(m) == net + ":" + lowered + suffix' + nl';
    ParseAccepted(Format(m), net, lowered, suffix', nl');
    assert lowered + (if suffix' == "" then nl' else "") == lowered;
    LowerOfLowerObjectId(lowered);
    assert PortOf(suffix', nl') == m.port;
  }

  /** Without a port, or with an empty one, the port is "0"; upper-case hex digits are lowered. */
  lemma ParseWithoutPort(net: string, id: string)
    requires IsMappingParts(net, id, "")
    ensures Parse(net + ":" + id) == Success(NetworkAdapterMapping(net, Lower(id), DEFAULT_PORT))
    ensures Parse(net + ":" + id + ":") == Success(NetworkAdapterMapping(net, Lower(id), DEFAULT_PORT))
  {
    assert net + ":" + id == net + ":" + id + "" + "";
    ParseAccepted(net + ":" + id, net, id, "", "");
    assert net + ":" + id + ":" == net + ":" + id + ":" + "";
    ParseAccepted(net + ":" + id + ":", net, id, ":", "");
    assert id + "" == id;
  }

  /** The character class `[0,1]` admits ',' as a port, returned verbatim. */
  lemma ParseCommaPort(net: string, id: string)
    requires IsMappingParts(net, id, "")
    ensures Parse(net + ":" + id + ":,") == Success(NetworkAdapterMapping(net, Lower(id), ","))
  {
    assert IsPortSuffix(":,");
    assert net + ":" + id + ":," == net + ":" + id + ":," + "";
    ParseAccepted(net + ":" + id + ":,", net, id, ":,", "");
    assert id + "" == id;
    assert PortOf(":,", "") == ",";
  }

  /**
   * `$` lets one final newline through, and `split(':')` leaves it in the last
   * field: without a port it ends up inside the adapter id, and the line
   * formatted from that result no longer matches.
   */
  lemma ParseKeepsFinalNewline(net: string, id: string)
    requires IsMappingParts(net, id, "")
    ensures Parse(net + ":" + id + "\n") == Success(NetworkAdapterMapping(net, Lower(id + "\n"), DEFAULT_PORT))
    ensures Parse(Format(Parse(net + ":" + id + "\n").value)).Failure?
  {
    assert net + ":" + id + "\n" == net + ":" + id + "" + "\n";
    ParseAccepted(net + ":" + id + "\n", net, id, "", "\n");
    var lowered := Lower(id + "\n");
    assert |lowered| == OBJECT_ID_LENGTH + 1 && lowered[OBJECT_ID_LENGTH] == LowerChar('\n') == '\n';
    NewlineIdRejected(net, lowered);
  }

  /** A line whose 37-character adapter field ends in a newline is refused, whatever follows. */
  lemma NewlineIdRejected(net: string, lowered: string)
    requires net != "" && ':' !in net
    requires |lowered| == OBJECT_ID_LENGTH + 1 && lowered[OBJECT_ID_LENGTH] == '\n'
    ensures !MatchesMappingRegex(net + ":" + lowered + ":" + DEFAULT_PORT)
  {
    var formatted := net + ":" + lowered + ":" + DEFAULT_PORT;
    assert formatted == net + [':'] + (lowered + ":" + DEFAULT_PORT);
    IndexOfSeparator(net, ':', lowered + ":" + DEFAULT_PORT);
    var i := |net|;
    assert formatted[i + 1 + OBJECT_ID_LENGTH..] == "\n:0";
    assert !EndsWithNewline(formatted);
  }

  /** A port character other than '0', ',' or '1' (or a final newline) is refused. */
  lemma ParseRejectsPort(net: string, id: string, c: char)
    requires IsMappingParts(net, id, "") && !IsPortChar(c) && c != '\n'
    ensures Parse(net + ":" + id + ":" + [c]) == Failure(RegexMismatch(net + ":" + id + ":" + [c]))
  {
    var value := net + ":" + id + ":" + [c];
    assert value == net + [':'] + (id + ":" + [c]);
    IndexOfSeparator(net, ':', id + ":" + [c]);
    var i := |net|;
    assert value[i + 1 + OBJECT_ID_LENGTH..] == ":" + [c];
    assert !EndsWithNewline(value);
  }

  /** A value with an empty network name is refused. */
  lemma ParseRejectsEmptyNet(rest: string)
    ensures Parse(":" + rest).Failure?
  {
    var value := ":" + rest;
    assert IndexOf(value, ':') == 0;
    if EndsWithNewline(value) && |value| > 1 {
      assert IndexOf(value[..|value| - 1], ':') == 0;
    }
  }
}
