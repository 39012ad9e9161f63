/**
 * The node list of the job manager (`jm`): `parse_proxy` and `parse_node` read one
 * line each, and `load_tm_list_from_file` keeps the lines that start with `proxy` or
 * `node` and builds the name-to-endpoint dictionary. Reading the file is left out:
 * its lines are a parameter. A Python exception is an `Err` naming what was raised.
 */
module NodeList {
  import opened Wrappers
  import opened PyText

  /** A proxy line's fields: `proxy <name> <protocol>:<address>:<port>`. */
  datatype Proxy = Proxy(name: string, protocol: string, address: string, port: int)

  /** The `SimpleEndpoint` a node line makes, not yet connected. */
  datatype Endpoint = Endpoint(address: string, port: int)

  /** What the parsers raise. */
  datatype ParseError =
    | InvalidProxy        // a proxy line without exactly three tokens
    | InvalidNode         // a node line with fewer than two tokens
    | MissingField        // IndexError: a ':'-separated field the token does not have
    | NotAnInteger        // ValueError: the port is not a decimal integer
    | UnknownProxyFormat  // four tokens, the third not `through`
    | UnknownProxy        // `through` a proxy no proxy line names
    | ProxyUnsupported    // `through` a known proxy
    | NotAnIterator       // TypeError: `next` called on a list
    | UnknownFormat       // three, or five and more, tokens

  /**
   * `parse_proxy`: exactly three whitespace-separated tokens, the second the name and
   * the third `protocol:address:port` with an integer port; fields past the third are
   * ignored.
   */
  function ParseProxy(line: string): Result<Proxy, ParseError>
  {
    var tokens := Words(line);
    if |tokens| != 3 then Err(InvalidProxy)
    else
      var gate := Split(tokens[2], ':');
      if |gate| < 3 then Err(MissingField)
      else
        match ParseInt(gate[2])
        case None => Err(NotAnInteger)
        case Some(port) => Ok(Proxy(tokens[1], gate[0], gate[1], port))
  }

  /** The line `proxy <name> <protocol>:<address>:<port>` that describes p. */
  function ProxyLine(p: Proxy): string
  {
    Join(["proxy", p.name, Join([p.protocol, p.address, ShowInt(p.port)], ':')], ' ')
  }

  /** Joining pieces without whitespace by a character that is not whitespace adds none. */
  lemma JoinNoSpace(parts: seq<string>, sep: char)
    requires !IsSpace(sep) && forall i :: 0 <= i < |parts| ==> NoSpace(parts[i])
    ensures NoSpace(Join(parts, sep))
  {
    if |parts| > 1 {
      JoinNoSpace(parts[1..], sep);
      var s, a, b := Join(parts, sep), parts[0] + [sep], Join(parts[1..], sep);
      assert s == a + b;
      forall i | 0 <= i < |s|
        ensures !IsSpace(s[i])
      {
        if i < |parts[0]| {
          assert s[i] == parts[0][i];
        } else if i > |parts[0]| {
          assert s[i] == b[i - |a|];
        }
      }
    }
  }

  /** The port of a line, and its name, never hold whitespace or a colon. */
  lemma PortPlain(port: int)
    ensures ShowInt(port) != [] && NoSpace(ShowInt(port)) && ':' !in ShowInt(port)
  {
    ShowIntPlain(port);
    assert forall i :: 0 <= i < |ShowInt(port)| ==> ShowInt(port)[i] != ':';
  }

  /**
   * The printed line of a proxy parses back to that proxy, when its name is one token
   * and its protocol and address hold neither whitespace nor a colon.
   */
  lemma ProxyRoundTrip(p: Proxy)
    requires p.name != [] && NoSpace(p.name)
    requires NoSpace(p.protocol) && ':' !in p.protocol
    requires NoSpace(p.address) && ':' !in p.address
    ensures ParseProxy(ProxyLine(p)) == Ok(p)
  {
    var fields := [p.protocol, p.address, ShowInt(p.port)];
    var gate := Join(fields, ':');
    ProxyLineWords(p);
    PortPlain(p.port);
    SplitOfJoin(fields, ':');
    ParseShowInt(p.port);
    ParseProxyOf(ProxyLine(p), ["proxy", p.name, gate], fields, p.port);
  }

  /** The tokens of a proxy's line: the keyword, the name and the gateway. */
  lemma ProxyLineWords(p: Proxy)
    requires p.name != [] && NoSpace(p.name)
    requires NoSpace(p.protocol) && NoSpace(p.address)
    ensures Words(ProxyLine(p)) == ["proxy", p.name, Join([p.protocol, p.address, ShowInt(p.port)], ':')]
  {
    var fields := [p.protocol, p.address, ShowInt(p.port)];
    PortPlain(p.port);
    JoinNoSpace(fields, ':');
    JoinThree(p.protocol, p.address, ShowInt(p.port), ':');
    assert NoSpace("proxy");
    WordsOfJoin(["proxy", p.name, Join(fields, ':')]);
  }

  /** ParseProxy, once the tokens, the gateway's fields and the port are known. */
  lemma ParseProxyOf(line: string, tokens: seq<string>, gate: seq<string>, port: int)
    requires Words(line) == tokens && |tokens| == 3
    requires Split(tokens[2], ':') == gate && |gate| >= 3 && ParseInt(gate[2]) == Some(port)
    ensures ParseProxy(line) == Ok(Proxy(tokens[1], gate[0], gate[1], port))
  {
  }

  /** A proxy line without exactly three tokens raises, whatever else it holds. */
  lemma ProxyNeedsThreeTokens(line: string)
    requires |Words(line)| != 3
    ensures ParseProxy(line) == Err(InvalidProxy)
  {
  }

  /** A successful proxy parse takes its name from the second token and its port from the third. */
  lemma ProxyFields(line: string)
    requires ParseProxy(line).Ok?
    ensures |Words(line)| == 3 && ParseProxy(line).value.name == Words(line)[1]
    ensures var gate := Split(Words(line)[2], ':');
      |gate| >= 3 && ParseInt(gate[2]) == Some(ParseProxy(line).value.port) &&
      ParseProxy(line).value.protocol == gate[0] && ParseProxy(line).value.address == gate[1]
  {
  }

  /** Whether some proxy line named `name`. */
  predicate HasProxy(proxies: seq<Proxy>, name: string)
  {
    exists i :: 0 <= i < |proxies| && proxies[i].name == name
  }

  /**
   * `parse_node`: the name is the second token; the address is its text before the first
   * colon and the port the integer after it. A line of two tokens gives the name and a
   * new endpoint. A line `node <host>:<port> through <proxy>` raises because proxies are
   * not supported, after checking the proxy is known; any other count raises too.
   */
  function ParseNode(line: string, proxies: seq<Proxy>): Result<(string, Endpoint), ParseError>
  {
    var tokens := Words(line);
    if |tokens| < 2 then Err(InvalidNode)
    else
      var name := tokens[1];
      var fields := Split(name, ':');
      if |fields| < 2 then Err(MissingField)
      else
        match ParseInt(fields[1])
        case None => Err(NotAnInteger)
        case Some(port) =>
          if |tokens| == 2 then Ok((name, Endpoint(fields[0], port)))
          else if |tokens| == 4 then
            if tokens[2] != "through" then Err(UnknownProxyFormat)
            else if !HasProxy(proxies, tokens[3]) then Err(UnknownProxy)
            else Err(ProxyUnsupported)
          else Err(UnknownFormat)
  }

  /**
   * `parse_node` as written: the proxy is looked up with `next([...], None)`, and `next`
   * raises a TypeError on a list, so every `through` line raises that instead.
   */
  function ParseNodeAsWritten(line: string, proxies: seq<Proxy>): Result<(string, Endpoint), ParseError>
  {
    match ParseNode(line, proxies)
    case Err(UnknownProxy) => Err(NotAnIterator)
    case Err(ProxyUnsupported) => Err(NotAnIterator)
    case r => r
  }

  /** The line `node <host>:<port>`. */
  function NodeLine(host: string, port: int): string
  {
    Join(["node", Join([host, ShowInt(port)], ':')], ' ')
  }

  /** A node line parses back to its `host:port` name and an endpoint at that host and port. */
  lemma NodeRoundTrip(host: string, port: int, proxies: seq<Proxy>)
    requires NoSpace(host) && ':' !in host
    ensures ParseNode(NodeLine(host, port), proxies) ==
      Ok((host + ":" + ShowInt(port), Endpoint(host, port)))
  {
    PortPlain(port);
    var fields := [host, ShowInt(port)];
    var name := Join(fields, ':');
    JoinNoSpace(fields, ':');
    JoinTwo(host, ShowInt(port), ':');
    assert NoSpace("node");
    WordsOfJoin(["node", name]);
    SplitOfJoin(fields, ':');
    ParseShowInt(port);
  }

  /**
   * Only a line of exactly two tokens can succeed: one token raises, four tokens always
   * raise (the third must be `through`, and a proxy is either unknown or unsupported),
   * and three or five and more raise once the port has been read.
   */
  lemma NodeOutcomes(line: string, proxies: seq<Proxy>)
    ensures |Words(line)| < 2 ==> ParseNode(line, proxies) == Err(InvalidNode)
    ensures ParseNode(line, proxies).Ok? ==> |Words(line)| == 2 && ParseNode(line, proxies).value.0 == Words(line)[1]
    ensures |Words(line)| == 4 ==> ParseNode(line, proxies).Err?
    ensures var tokens := Words(line);
      (|tokens| == 4 && tokens[2] == "through" && |Split(tokens[1], ':')| >= 2 &&
       ParseInt(Split(tokens[1], ':')[1]).Some?) ==>
        ParseNode(line, proxies) == Err(if HasProxy(proxies, tokens[3]) then ProxyUnsupported else UnknownProxy)
    ensures var tokens := Words(line);
      ((|tokens| == 3 || |tokens| >= 5) && |Split(tokens[1], ':')| >= 2 &&
       ParseInt(Split(tokens[1], ':')[1]).Some?) ==>
        ParseNode(line, proxies) == Err(UnknownFormat)
  {
  }

  /** The endpoint of a parsed node is at the text before the name's first colon. */
  lemma NodeEndpoint(line: string, proxies: seq<Proxy>)
    requires ParseNode(line, proxies).Ok?
    ensures var (name, ep) := ParseNode(line, proxies).value;
      ':' !in ep.address && |ep.address| < |name| && name[..|ep.address| + 1] == ep.address + ":"
  {
    SplitFirst(Words(line)[1], ':');
  }

  /** The line `node <host>:<port> through <proxy>`. */
  function ThroughLine(host: string, port: int, proxyName: string): string
  {
    Join(["node", Join([host, ShowInt(port)], ':'), "through", proxyName], ' ')
  }

  /** The tokens of a `through` line, and the fields of its name. */
  lemma ThroughLineParts(host: string, port: int, proxyName: string)
    requires NoSpace(host) && ':' !in host && proxyName != [] && NoSpace(proxyName)
    ensures var name := Join([host, ShowInt(port)], ':');
      Words(ThroughLine(host, port, proxyName)) == ["node", name, "through", proxyName] &&
      Split(name, ':') == [host, ShowInt(port)] && ParseInt(ShowInt(port)) == Some(port)
  {
    PortPlain(port);
    var fields := [host, ShowInt(port)];
    var name := Join(fields, ':');
    JoinNoSpace(fields, ':');
    JoinTwo(host, ShowInt(port), ':');
    assert NoSpace("node") && NoSpace("through");
    WordsOfJoin(["node", name, "through", proxyName]);
    SplitOfJoin(fields, ':');
    ParseShowInt(port);
  }

  /** A well-formed `through` line raises for its proxy: unknown or unsupported. */
  lemma ThroughLineRaises(host: string, port: int, proxyName: string, proxies: seq<Proxy>)
    requires NoSpace(host) && ':' !in host && proxyName != [] && NoSpace(proxyName)
    ensures ParseNode(ThroughLine(host, port, proxyName), proxies) ==
      Err(if HasProxy(proxies, proxyName) then ProxyUnsupported else UnknownProxy)
  {
    ThroughLineParts(host, port, proxyName);
  }

  /**
   * A node behind a proxy: as written, the lookup raises a TypeError whether or not the
   * proxy is known; the intended lookup tells an unknown proxy from an unsupported one.
   */
  lemma ProxiedNodeMisreported(host: string, port: int, proxy: Proxy)
    requires NoSpace(host) && ':' !in host && proxy.name != [] && NoSpace(proxy.name)
    ensures var line := ThroughLine(host, port, proxy.name);
      ParseNodeAsWritten(line, []) == Err(NotAnIterator) &&
      ParseNodeAsWritten(line, [proxy]) == Err(NotAnIterator) &&
      ParseNode(line, []) == Err(UnknownProxy) &&
      ParseNode(line, [proxy]) == Err(ProxyUnsupported)
  {
    ThroughLineRaises(host, port, proxy.name, []);
    assert [proxy][0].name == proxy.name;
    ThroughLineRaises(host, port, proxy.name, [proxy]);
  }

  /** `line[0:n] == prefix` for a prefix of length n. */
  predicate StartsWith(line: string, prefix: string)
  {
    |line| >= |prefix| && line[..|prefix|] == prefix
  }

  /**
   * A list comprehension `[parse(line) for line in lines if line[0:n] == prefix]`: the
   * results of the lines that start with the prefix, in order; None once one raises.
   */
  function Collect<T>(lines: seq<string>, prefix: string, parse: string -> Result<T, ParseError>): Option<seq<T>>
  {
    if lines == [] then Some([])
    else
      var rest := Collect(lines[1..], prefix, parse);
      if !StartsWith(lines[0], prefix) then rest
      else
        match parse(lines[0])
        case Err(_) => None
        case Ok(x) => if rest.None? then None else Some([x] + rest.value)
  }

  /** A proxy line, stripped and parsed. */
  function ProxyOfLine(line: string): Result<Proxy, ParseError>
  {
    ParseProxy(Strip(line))
  }

  /** A node line, stripped and parsed against the proxies. */
  function NodeOfLine(proxies: seq<Proxy>): string -> Result<(string, Endpoint), ParseError>
  {
    line => ParseNode(Strip(line), proxies)
  }

  /** The dictionary comprehension: pairs in order, a later name overriding an earlier one. */
  function ToMap(pairs: seq<(string, Endpoint)>): map<string, Endpoint>
  {
    if pairs == [] then map[]
    else
      var last := pairs[|pairs| - 1];
      ToMap(pairs[..|pairs| - 1])[last.0 := last.1]
  }

  /**
   * The body of `load_tm_list_from_file` for given line parsers: the proxies of the proxy
   * lines, then the pairs of the node lines parsed against them, then the dictionary; the
   * empty dictionary when any of those lines raises.
   */
  function LoadWith(lines: seq<string>, parseProxy: string -> Result<Proxy, ParseError>,
                    parseNode: seq<Proxy> -> string -> Result<(string, Endpoint), ParseError>): map<string, Endpoint>
  {
    match Collect(lines, "proxy", parseProxy)
    case None => map[]
    case Some(proxies) =>
      match Collect(lines, "node", parseNode(proxies))
      case None => map[]
      case Some(pairs) => ToMap(pairs)
  }

  /** `load_tm_list_from_file` on the file's lines. */
  function LoadTmList(lines: seq<string>): map<string, Endpoint>
  {
    LoadWith(lines, ProxyOfLine, NodeOfLine)
  }

  /** A selected line that raises makes the whole comprehension raise. */
  lemma {:induction false} ErrorStops<T>(lines: seq<string>, prefix: string, parse: string -> Result<T, ParseError>, i: nat)
    requires i < |lines| && StartsWith(lines[i], prefix) && parse(lines[i]).Err?
    ensures Collect(lines, prefix, parse) == None
  {
    if i > 0 {
      ErrorStops(lines[1..], prefix, parse, i - 1);
    }
  }

  /** Any line that starts with `proxy` or `node` and raises leaves the dictionary empty. */
  lemma LoadErrorIsEmptyWith(lines: seq<string>, parseProxy: string -> Result<Proxy, ParseError>,
                             parseNode: seq<Proxy> -> string -> Result<(string, Endpoint), ParseError>, i: nat)
    requires i < |lines|
    requires (StartsWith(lines[i], "proxy") && parseProxy(lines[i]).Err?) ||
             (StartsWith(lines[i], "node") && Collect(lines, "proxy", parseProxy).Some? &&
              parseNode(Collect(lines, "proxy", parseProxy).value)(lines[i]).Err?)
    ensures LoadWith(lines, parseProxy, parseNode) == map[]
  {
    if StartsWith(lines[i], "proxy") && parseProxy(lines[i]).Err? {
      ErrorStops(lines, "proxy", parseProxy, i);
    } else {
      ErrorStops(lines, "node", parseNode(Collect(lines, "proxy", parseProxy).value), i);
    }
  }

  lemma LoadErrorIsEmpty(lines: seq<string>, i: nat)
    requires i < |lines|
    requires (StartsWith(lines[i], "proxy") && ParseProxy(Strip(lines[i])).Err?) ||
             (StartsWith(lines[i], "node") && Collect(lines, "proxy", ProxyOfLine).Some? &&
              ParseNode(Strip(lines[i]), Collect(lines, "proxy", ProxyOfLine).value).Err?)
    ensures LoadTmList(lines) == map[]
  {
    LoadErrorIsEmptyWith(lines, ProxyOfLine, NodeOfLine, i);
  }

  /** Line i is selected by the prefix and parses to x. */
  predicate Gives<T(==)>(lines: seq<string>, prefix: string, parse: string -> Result<T, ParseError>, i: int, x: T)
  {
    0 <= i < |lines| && StartsWith(lines[i], prefix) && parse(lines[i]) == Ok(x)
  }

  /** A line of the tail gives the same result one position further on. */
  lemma GivesShift<T>(lines: seq<string>, prefix: string, parse: string -> Result<T, ParseError>, i: int, x: T)
    requires lines != [] && Gives(lines[1..], prefix, parse, i, x)
    ensures Gives(lines, prefix, parse, i + 1, x)
  {
    assert lines[1..][i] == lines[i + 1];
  }

  /** Every selected line's result is in the comprehension. */
  lemma {:induction false} LineInCollect<T>(lines: seq<string>, prefix: string, parse: string -> Result<T, ParseError>, i: nat)
    requires Collect(lines, prefix, parse).Some? && i < |lines| && StartsWith(lines[i], prefix)
    ensures parse(lines[i]).Ok? && parse(lines[i]).value in Collect(lines, prefix, parse).value
  {
    if i > 0 {
      LineInCollect(lines[1..], prefix, parse, i - 1);
      assert lines[1..][i - 1] == lines[i];
    }
  }

  /** Every result in the comprehension comes from some selected line. */
  lemma {:induction false} CollectFromLine<T>(lines: seq<string>, prefix: string, parse: string -> Result<T, ParseError>, k: nat)
    requires Collect(lines, prefix, parse).Some? && k < |Collect(lines, prefix, parse).value|
    ensures exists i :: Gives(lines, prefix, parse, i, Collect(lines, prefix, parse).value[k])
  {
    var xs := Collect(lines, prefix, parse).value;
    var rest := Collect(lines[1..], prefix, parse).value;
    if StartsWith(lines[0], prefix) && k == 0 {
      assert Gives(lines, prefix, parse, 0, xs[k]);
    } else {
      var k' := if StartsWith(lines[0], prefix) then k - 1 else k;
      assert xs[k] == rest[k'];
      CollectFromLine(lines[1..], prefix, parse, k');
      var i :| Gives(lines[1..], prefix, parse, i, rest[k']);
      GivesShift(lines, prefix, parse, i, rest[k']);
    }
  }

  /** A name is in the dictionary exactly when some pair carries it. */
  lemma {:induction false} ToMapKeys(pairs: seq<(string, Endpoint)>, name: string)
    ensures name in ToMap(pairs) <==> exists k :: 0 <= k < |pairs| && pairs[k].0 == name
  {
    if pairs != [] {
      var init := pairs[..|pairs| - 1];
      ToMapKeys(init, name);
      if exists k :: 0 <= k < |init| && init[k].0 == name {
        var k :| 0 <= k < |init| && init[k].0 == name;
        assert pairs[k].0 == name;
      }
      if exists k :: 0 <= k < |pairs| && pairs[k].0 == name {
        var k :| 0 <= k < |pairs| && pairs[k].0 == name;
        if k < |init| {
          assert init[k].0 == name;
        }
      }
    }
  }

  /** The dictionary keeps, for each name, the endpoint of the last pair carrying it. */
  lemma {:induction false} ToMapLastWins(pairs: seq<(string, Endpoint)>, k: nat)
    requires k < |pairs| && forall j :: k < j < |pairs| ==> pairs[j].0 != pairs[k].0
    ensures pairs[k].0 in ToMap(pairs) && ToMap(pairs)[pairs[k].0] == pairs[k].1
  {
    var init := pairs[..|pairs| - 1];
    if k < |pairs| - 1 {
      assert pairs[|pairs| - 1].0 != pairs[k].0;
      assert init[k] == pairs[k];
      ToMapLastWins(init, k);
    }
  }

  /** Line i is a node line that parses to a pair named `name`. */
  predicate NamesNode(lines: seq<string>, parse: string -> Result<(string, Endpoint), ParseError>, i: int, name: string)
  {
    0 <= i < |lines| && StartsWith(lines[i], "node") && parse(lines[i]).Ok? && parse(lines[i]).value.0 == name
  }

  /** Each key of the pairs' dictionary comes from a node line. */
  lemma KeyFromLine(lines: seq<string>, parse: string -> Result<(string, Endpoint), ParseError>, name: string)
    requires Collect(lines, "node", parse).Some? && name in ToMap(Collect(lines, "node", parse).value)
    ensures exists i :: NamesNode(lines, parse, i, name)
  {
    var pairs := Collect(lines, "node", parse).value;
    ToMapKeys(pairs, name);
    var k :| 0 <= k < |pairs| && pairs[k].0 == name;
    CollectFromLine(lines, "node", parse, k);
    var i :| Gives(lines, "node", parse, i, pairs[k]);
    assert NamesNode(lines, parse, i, name);
  }

  /** Each node line's name is a key of the pairs' dictionary. */
  lemma LineGivesKey(lines: seq<string>, parse: string -> Result<(string, Endpoint), ParseError>, i: int, name: string)
    requires Collect(lines, "node", parse).Some? && NamesNode(lines, parse, i, name)
    ensures name in ToMap(Collect(lines, "node", parse).value)
  {
    var pairs := Collect(lines, "node", parse).value;
    LineInCollect(lines, "node", parse, i);
    var k :| 0 <= k < |pairs| && pairs[k] == parse(lines[i]).value;
    ToMapKeys(pairs, name);
  }

  /** When no line raises, a name is in the dictionary exactly when some node line gives it. */
  lemma LoadKeysWith(lines: seq<string>, parseProxy: string -> Result<Proxy, ParseError>,
                     parseNode: seq<Proxy> -> string -> Result<(string, Endpoint), ParseError>, name: string)
    requires Collect(lines, "proxy", parseProxy).Some?
    requires Collect(lines, "node", parseNode(Collect(lines, "proxy", parseProxy).value)).Some?
    ensures name in LoadWith(lines, parseProxy, parseNode) <==>
      exists i :: NamesNode(lines, parseNode(Collect(lines, "proxy", parseProxy).value), i, name)
  {
    var parse := parseNode(Collect(lines, "proxy", parseProxy).value);
    if name in LoadWith(lines, parseProxy, parseNode) {
      KeyFromLine(lines, parse, name);
    }
    if exists i :: NamesNode(lines, parse, i, name) {
      var i :| NamesNode(lines, parse, i, name);
      LineGivesKey(lines, parse, i, name);
    }
  }

  /** When no line raises, a name is in the dictionary exactly when some node line gives it. */
  lemma LoadTmListKeys(lines: seq<string>, name: string)
    requires Collect(lines, "proxy", ProxyOfLine).Some?
    requires Collect(lines, "node", NodeOfLine(Collect(lines, "proxy", ProxyOfLine).value)).Some?
    ensures name in LoadTmList(lines) <==>
      exists i :: NamesNode(lines, NodeOfLine(Collect(lines, "proxy", ProxyOfLine).value), i, name)
  {
    LoadKeysWith(lines, ProxyOfLine, NodeOfLine, name);
  }

  /** When no line raises, each name holds the endpoint of the last node line with that name. */
  lemma LoadLastWinsWith(lines: seq<string>, parseProxy: string -> Result<Proxy, ParseError>,
                         parseNode: seq<Proxy> -> string -> Result<(string, Endpoint), ParseError>, k: nat)
    requires Collect(lines, "proxy", parseProxy).Some?
    requires Collect(lines, "node", parseNode(Collect(lines, "proxy", parseProxy).value)).Some?
    requires var pairs := Collect(lines, "node", parseNode(Collect(lines, "proxy", parseProxy).value)).value;
      k < |pairs| && forall j :: k < j < |pairs| ==> pairs[j].0 != pairs[k].0
    ensures var pairs := Collect(lines, "node", parseNode(Collect(lines, "proxy", parseProxy).value)).value;
      pairs[k].0 in LoadWith(lines, parseProxy, parseNode) &&
      LoadWith(lines, parseProxy, parseNode)[pairs[k].0] == pairs[k].1
  {
    ToMapLastWins(Collect(lines, "node", parseNode(Collect(lines, "proxy", parseProxy).value)).value, k);
  }

  /** When no line raises, each name holds the endpoint of the last node line with that name. */
  lemma LoadTmListLastWins(lines: seq<string>, k: nat)
    requires Collect(lines, "proxy", ProxyOfLine).Some?
    requires Collect(lines, "node", NodeOfLine(Collect(lines, "proxy", ProxyOfLine).value)).Some?
    requires var pairs := Collect(lines, "node", NodeOfLine(Collect(lines, "proxy", ProxyOfLine).value)).value;
      k < |pairs| && forall j :: k < j < |pairs| ==> pairs[j].0 != pairs[k].0
    ensures var pairs := Collect(lines, "node", NodeOfLine(Collect(lines, "proxy", ProxyOfLine).value)).value;
      pairs[k].0 in LoadTmList(lines) && LoadTmList(lines)[pairs[k].0] == pairs[k].1
  {
    LoadLastWinsWith(lines, ProxyOfLine, NodeOfLine, k);
  }
}
