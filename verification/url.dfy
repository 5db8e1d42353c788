/** The "host:port" connection address: how the server prints it and how a client takes it apart. */
module Url {
  import opened Decimal

  const DELIMITER: char := ':'
  const DEFAULT_HOST: string := "localhost"
  const DEFAULT_PORT: string := "50055"

  predicate ColonFree(s: string) {
    DELIMITER !in s
  }

  ghost predicate AllColonFree(tokens: seq<string>) {
    forall i :: 0 <= i < |tokens| ==> ColonFree(tokens[i])
  }

  function Join(tokens: seq<string>): string {
    if tokens == [] then ""
    else if |tokens| == 1 then tokens[0]
    else tokens[0] + [DELIMITER] + Join(tokens[1..])
  }

  /** The part of a string that repeated `std::getline` turns into tokens and the colons between them:
      nothing that follows a last colon is no token. */
  function WithoutTrailingColon(s: string): string {
    if s != "" && s[|s| - 1] == DELIMITER then s[..|s| - 1] else s
  }

  lemma {:induction false} JoinSnoc(tokens: seq<string>, token: string)
    ensures Join(tokens + [token]) == if tokens == [] then token else Join(tokens) + [DELIMITER] + token
  {
    if tokens == [] {
    } else {
      assert (tokens + [token])[1..] == tokens[1..] + [token];
      JoinSnoc(tokens[1..], token);
      if |tokens| > 1 {
        assert tokens[0] + [DELIMITER] + (Join(tokens[1..]) + [DELIMITER] + token)
            == (tokens[0] + [DELIMITER] + Join(tokens[1..])) + [DELIMITER] + token;
      }
    }
  }

  /** How many characters `std::getline` takes before the delimiter or the end. */
  function FirstColon(s: string): (n: nat)
    ensures n <= |s|
    ensures ColonFree(s[..n])
    ensures n < |s| ==> s[n] == DELIMITER
  {
    if s == "" || s[0] == DELIMITER then 0 else
      var n := 1 + FirstColon(s[1..]);
      assert s[..n] == [s[0]] + s[1..][..n - 1];
      n
  }

  lemma {:induction false} FirstColonAfter(token: string, rest: string)
    requires ColonFree(token) && (rest == "" || rest[0] == DELIMITER)
    ensures FirstColon(token + rest) == |token|
  {
    if token == "" {
      assert token + rest == rest;
    } else {
      assert (token + rest)[1..] == token[1..] + rest;
      assert token[0] in token && forall c :: c in token[1..] ==> c in token;
      FirstColonAfter(token[1..], rest);
    }
  }

  lemma FirstToken(a: seq<string>)
    requires a != [] && ColonFree(a[0])
    ensures FirstColon(Join(a)) == |a[0]|
    ensures a[0] == Join(a)[..|a[0]|]
    ensures |a| == 1 <==> |Join(a)| == |a[0]|
    ensures |a| > 1 ==> Join(a[1..]) == Join(a)[|a[0]| + 1..]
  {
    var rest := Join(a)[|a[0]|..];
    FirstColonAfter(a[0], rest);
    assert Join(a) == a[0] + rest;
  }

  /** A list of colon-free tokens is determined by its join. */
  lemma {:induction false} JoinInjective(a: seq<string>, b: seq<string>)
    requires a != [] && b != []
    requires AllColonFree(a) && AllColonFree(b)
    requires Join(a) == Join(b)
    ensures a == b
  {
    FirstToken(a);
    FirstToken(b);
    if |a| > 1 {
      JoinInjective(a[1..], b[1..]);
      assert a == [a[0]] + a[1..] && b == [b[0]] + b[1..];
    }
  }

  lemma JoinUpTo(s: string, position: nat, end: nat, tokens: seq<string>)
    requires position <= end <= |s|
    requires tokens == [] <==> position == 0
    requires position > 0 ==> s[position - 1] == DELIMITER
    requires Join(tokens) == WithoutTrailingColon(s[..position])
    ensures Join(tokens + [s[position..end]]) == s[..end]
  {
    JoinSnoc(tokens, s[position..end]);
    if position > 0 {
      assert s[..position] == s[..position - 1] + [DELIMITER];
    }
    assert s[..end] == s[..position] + s[position..end];
  }

  /** One more call of `std::getline` at `position`, which takes the characters up to `end`. */
  lemma NextToken(s: string, position: nat, end: nat, tokens: seq<string>)
    requires position <= end <= |s| && position < |s|
    requires end < |s| ==> s[end] == DELIMITER
    requires ColonFree(s[position..end])
    requires tokens == [] <==> position == 0
    requires position > 0 ==> s[position - 1] == DELIMITER
    requires Join(tokens) == WithoutTrailingColon(s[..position])
    ensures var next := if end < |s| then end + 1 else end;
      Join(tokens + [s[position..end]]) == WithoutTrailingColon(s[..next])
  {
    var token := s[position..end];
    JoinUpTo(s, position, end, tokens);
    if end < |s| {
      assert s[..end + 1] == s[..end] + [DELIMITER];
    } else {
      assert s[end - 1] == token[|token| - 1] && token[|token| - 1] in token;
      assert s[..end] == s;
    }
  }

  /** Where the token that starts at `position` ends. */
  function TokenEnd(s: string, position: nat): (end: nat)
    requires position <= |s|
    ensures position <= end <= |s|
    ensures ColonFree(s[position..end])
    ensures end < |s| ==> s[end] == DELIMITER
  {
    var end := position + FirstColon(s[position..]);
    assert s[position..end] == s[position..][..end - position];
    end
  }

  /** `SplitUrlString`: the tokens are colon-free and their join is the input, less one trailing colon. */
  method SplitUrlString(s: string) returns (tokens: seq<string>)
    ensures AllColonFree(tokens)
    ensures Join(tokens) == WithoutTrailingColon(s)
    ensures tokens == [] <==> s == ""
  {
    tokens := [];
    var position := 0;
    while position < |s|
      invariant position <= |s|
      invariant AllColonFree(tokens)
      invariant tokens == [] <==> position == 0
      invariant 0 < position < |s| ==> s[position - 1] == DELIMITER
      invariant Join(tokens) == WithoutTrailingColon(s[..position])
    {
      var end := TokenEnd(s, position);
      NextToken(s, position, end, tokens);
      tokens := tokens + [s[position..end]];
      position := if end < |s| then end + 1 else end;
    }
    assert s[..|s|] == s;
  }

  /** `GetSocketsAddress` without RDMA and `GetSocketsPort`: the configured values, or the defaults. */
  function Host(configured: string): string {
    if |configured| > 0 then configured else DEFAULT_HOST
  }

  function Port(configured: int): string {
    if configured > 0 then ToString(configured) else DEFAULT_PORT
  }

  /** `GetConnectionAddress` for the socket strategies. */
  function ConnectionAddress(host: string, port: int): string {
    Host(host) + [DELIMITER] + Port(port)
  }

  lemma PortIsColonFree(port: int)
    ensures ColonFree(Port(port)) && Port(port) != ""
  {
    var p := Port(port);
    assert forall i :: 0 <= i < |p| ==> IsDigit(p[i]);
  }

  lemma TwoTokens(host: string, port: string, tokens: seq<string>)
    requires ColonFree(port) && port != ""
    requires tokens != [] && AllColonFree(tokens)
    requires Join(tokens) == WithoutTrailingColon(host + [DELIMITER] + port)
    ensures tokens == [host, port] <==> ColonFree(host)
  {
    NoTrailingColon(host, port);
    var expected := [host, port];
    assert expected[1..] == [port];
    assert Join(expected) == host + [DELIMITER] + port;
    if ColonFree(host) {
      JoinInjective(tokens, expected);
    }
  }

  /** A client recovers the host and port of the address it is given exactly when the host has no colon. */
  lemma AddressSplitsExactly(host: string, port: int, tokens: seq<string>)
    requires tokens != [] && AllColonFree(tokens)
    requires Join(tokens) == WithoutTrailingColon(ConnectionAddress(host, port))
    ensures tokens == [Host(host), Port(port)] <==> ColonFree(Host(host))
  {
    PortIsColonFree(port);
    TwoTokens(Host(host), Port(port), tokens);
  }

  /** `ClientInit`: the first two tokens of the server's address. They are its host and its port number exactly
      if the host has no colon; otherwise the host is cut at its first colon. */
  method ClientAddress(host: string, port: int) returns (address: string, service: string)
    ensures host == "" ==> address == "localhost"
    ensures host != "" && ':' !in host ==> address == host
    ensures ':' in host ==>
      && |address| < |host| && address == host[..|address|] && ':' !in address && host[|address|] == ':'
      && ':' !in service && service + ":" <= host[|address| + 1..] + ":"
    ensures ':' !in host && port <= 0 ==> service == "50055"
    ensures ':' !in host && port > 0 ==> service == Digits(port)
    ensures address == Host(host) && service == Port(port) <==> ColonFree(Host(host))
    ensures service == Port(port) && port > 0 ==> Parse(service) == port
  {
    var url := ConnectionAddress(host, port);
    var tokens := SplitUrlString(url);
    PortIsColonFree(port);
    FirstTwoTokens(Host(host), Port(port), tokens);
    OtherTokens(host, port, tokens);
    if !ColonFree(host) {
      SecondToken(host, Port(port), tokens);
    }
    address, service := tokens[0], tokens[1];
    ParseInvertsToString(port);
  }

  lemma {:induction false} FirstColonOfAddress(host: string, rest: string)
    ensures FirstColon(host + [DELIMITER] + rest) == FirstColon(host)
  {
    if host != "" && host[0] != DELIMITER {
      assert (host + [DELIMITER] + rest)[1..] == host[1..] + [DELIMITER] + rest;
      FirstColonOfAddress(host[1..], rest);
    }
  }

  lemma NoTrailingColon(host: string, port: string)
    requires ColonFree(port) && port != ""
    ensures WithoutTrailingColon(host + [DELIMITER] + port) == host + [DELIMITER] + port
  {
    var s := host + [DELIMITER] + port;
    assert s[|s| - 1] == port[|port| - 1] && port[|port| - 1] in port;
  }

  lemma FirstTwoTokens(host: string, port: string, tokens: seq<string>)
    requires ColonFree(port) && port != ""
    requires tokens != [] && AllColonFree(tokens)
    requires Join(tokens) == WithoutTrailingColon(host + [DELIMITER] + port)
    ensures |tokens| >= 2 && tokens[0] == host[..FirstColon(host)]
  {
    NoTrailingColon(host, port);
    FirstColonOfAddress(host, port);
    FirstToken(tokens);
    assert (host + [DELIMITER] + port)[..FirstColon(host)] == host[..FirstColon(host)];
  }

  lemma TokenAfter(tokens: seq<string>, rest: string, port: string)
    requires tokens != [] && AllColonFree(tokens) && Join(tokens) == rest + [DELIMITER] + port
    ensures tokens[0] == rest[..FirstColon(rest)]
  {
    FirstToken(tokens);
    FirstColonOfAddress(rest, port);
    assert (rest + [DELIMITER] + port)[..FirstColon(rest)] == rest[..FirstColon(rest)];
  }

  lemma RestOfAddress(host: string, port: string, n: nat)
    requires n < |host|
    ensures (host + [DELIMITER] + port)[n + 1..] == host[n + 1..] + [DELIMITER] + port
  {
  }

  lemma HasColon(s: string)
    requires !ColonFree(s)
    ensures FirstColon(s) < |s|
  {
    assert s[..|s|] == s;
  }

  lemma RestOfTokens(tokens: seq<string>, s: string, n: nat)
    requires |tokens| >= 2 && AllColonFree(tokens) && |tokens[0]| == n && Join(tokens) == s
    ensures n < |s| && Join(tokens[1..]) == s[n + 1..] && AllColonFree(tokens[1..])
  {
    FirstToken(tokens);
  }

  lemma SecondToken(host: string, port: string, tokens: seq<string>)
    requires ColonFree(port) && port != "" && !ColonFree(host)
    requires |tokens| >= 2 && AllColonFree(tokens) && tokens[0] == host[..FirstColon(host)]
    requires Join(tokens) == WithoutTrailingColon(host + [DELIMITER] + port)
    ensures FirstColon(host) < |host|
    ensures tokens[1] + [DELIMITER] <= host[FirstColon(host) + 1..] + [DELIMITER]
  {
    var n := FirstColon(host);
    HasColon(host);
    NoTrailingColon(host, port);
    RestOfTokens(tokens, host + [DELIMITER] + port, n);
    RestOfAddress(host, port, n);
    TokenAfter(tokens[1..], host[n + 1..], port);
    UpToColon(host[n + 1..]);
  }

  lemma UpToColon(s: string)
    ensures s[..FirstColon(s)] + [DELIMITER] <= s + [DELIMITER]
  {
    var n := FirstColon(s);
    if n == |s| {
      assert s[..n] == s;
    } else {
      assert (s + [DELIMITER])[..n + 1] == s[..n] + [DELIMITER];
    }
  }

  lemma OtherTokens(host: string, port: int, tokens: seq<string>)
    requires |tokens| >= 2 && AllColonFree(tokens)
    requires Join(tokens) == WithoutTrailingColon(ConnectionAddress(host, port))
    ensures tokens[0] == Host(host) && tokens[1] == Port(port) <==> ColonFree(Host(host))
  {
    AddressSplitsExactly(host, port, tokens);
  }
}
