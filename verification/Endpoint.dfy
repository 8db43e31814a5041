/** The text form of the admin endpoint. */
module Endpoint {
  import opened Common
  import opened Decimal

  datatype AdminEndpoint = Tcp(host: string, port: U16) | Unix(path: string)

  datatype EndpointError = InvalidAdminEndpoint(text: string)

  /** The Unicode White_Space property. */
  predicate IsSpace(c: char) {
    var n := c as int;
    || 0x09 <= n <= 0x0D || n == 0x20 || n == 0x85 || n == 0xA0 || n == 0x1680
    || 0x2000 <= n <= 0x200A || n == 0x2028 || n == 0x2029 || n == 0x202F || n == 0x205F || n == 0x3000
  }

  /** One by one, the code points that count as white space. */
  lemma SpacesAre(c: char)
    ensures IsSpace(c) <==>
              c as int in {0x09, 0x0A, 0x0B, 0x0C, 0x0D, 0x20, 0x85, 0xA0, 0x1680,
                           0x2000, 0x2001, 0x2002, 0x2003, 0x2004, 0x2005, 0x2006, 0x2007, 0x2008, 0x2009, 0x200A,
                           0x2028, 0x2029, 0x202F, 0x205F, 0x3000}
  {
  }

  function TrimStart(s: string): string {
    if s != "" && IsSpace(s[0]) then TrimStart(s[1..]) else s
  }

  function TrimEnd(s: string): string {
    if s != "" && IsSpace(s[|s| - 1]) then TrimEnd(s[..|s| - 1]) else s
  }

  function Trim(s: string): string {
    TrimEnd(TrimStart(s))
  }

  function StripPrefix(s: string, prefix: string): Option<string> {
    if prefix <= s then Some(s[|prefix|..]) else None
  }

  /** The text before and after the last occurrence of `c`. */
  function SplitLast(s: string, c: char): Option<(string, string)> {
    if s == "" then None
    else if s[|s| - 1] == c then Some((s[..|s| - 1], ""))
    else
      match SplitLast(s[..|s| - 1], c)
      case None => None
      case Some(p) => Some((p.0, p.1 + [s[|s| - 1]]))
  }

  function Parse(input: string): Result<AdminEndpoint, EndpointError> {
    var trimmed := Trim(input);
    var bad := Err(InvalidAdminEndpoint(trimmed));
    var tcp := StripPrefix(trimmed, "tcp://");
    if tcp.Some? then
      match SplitLast(tcp.value, ':')
      case None => bad
      case Some(p) =>
        var port := ParseUnsigned(p.1, TWO16 - 1);
        if port.None? then bad
        else if p.0 == "" then bad
        else Ok(Tcp(p.0, port.value))
    else
      var unix := StripPrefix(trimmed, "unix://");
      if unix.Some? then
        if unix.value == "" then bad else Ok(Unix(unix.value))
      else bad
  }

  function ConfigValue(e: AdminEndpoint): string {
    match e
    case Tcp(host, port) => "tcp://" + host + ":" + Digits(port)
    case Unix(path) => "unix://" + path
  }

  /** The endpoints whose text form means the endpoint itself. */
  predicate Printable(e: AdminEndpoint) {
    match e
    case Tcp(host, _) => host != ""
    case Unix(path) => path != "" && !IsSpace(path[|path| - 1])
  }

  lemma {:induction false} TrimEndFixed(s: string)
    ensures s != "" && !IsSpace(s[|s| - 1]) ==> TrimEnd(s) == s
    ensures s == "" ==> TrimEnd(s) == s
    ensures TrimEnd(s) != "" ==> !IsSpace(TrimEnd(s)[|TrimEnd(s)| - 1])
    ensures |TrimEnd(s)| <= |s|
    ensures s != "" && IsSpace(s[|s| - 1]) ==> |TrimEnd(s)| < |s|
  {
    if s != "" && IsSpace(s[|s| - 1]) {
      TrimEndFixed(s[..|s| - 1]);
    }
  }

  lemma {:induction false} SplitLastAt(a: string, c: char, b: string)
    requires c !in b
    ensures SplitLast(a + [c] + b, c) == Some((a, b))
  {
    var s := a + [c] + b;
    if b == "" {
      assert s[|s| - 1] == c && s[..|s| - 1] == a;
    } else {
      var n := |b| - 1;
      assert s[|s| - 1] == b[n] && s[..|s| - 1] == a + [c] + b[..n];
      assert b[n] in b;
      SplitLastAt(a, c, b[..n]);
      assert b[..n] + [b[n]] == b;
    }
  }

  lemma UnixLength(input: string)
    ensures Parse(input).Ok? && Parse(input).value.Unix? ==> |Parse(input).value.path| + 7 == |Trim(input)|
  {
  }

  lemma DigitsEnd(n: nat)
    ensures var d := Digits(n); d != "" && !IsSpace(d[|d| - 1]) && ':' !in d
  {
  }

  lemma TcpUntrimmed(host: string, digits: string)
    requires digits != "" && !IsSpace(digits[|digits| - 1])
    ensures Trim("tcp://" + host + ":" + digits) == "tcp://" + host + ":" + digits
    ensures StripPrefix("tcp://" + host + ":" + digits, "tcp://") == Some(host + ":" + digits)
  {
    var text := "tcp://" + host + ":" + digits;
    assert text == "tcp://" + (host + ":" + digits);
    assert text[|text| - 1] == digits[|digits| - 1];
    assert text[0] == 't';
    TrimEndFixed(text);
  }

  lemma PrintedTcp(host: string, port: U16)
    ensures Trim(ConfigValue(Tcp(host, port))) == ConfigValue(Tcp(host, port))
    ensures StripPrefix(ConfigValue(Tcp(host, port)), "tcp://") == Some(host + ":" + Digits(port))
    ensures SplitLast(host + ":" + Digits(port), ':') == Some((host, Digits(port)))
    ensures ParseUnsigned(Digits(port), TWO16 - 1) == Some(port)
  {
    DigitsEnd(port);
    TcpUntrimmed(host, Digits(port));
    SplitLastAt(host, ':', Digits(port));
    ParsePrinted(port, TWO16 - 1, 1);
  }

  lemma PrintedUnix(path: string)
    ensures TrimStart(ConfigValue(Unix(path))) == ConfigValue(Unix(path))
    ensures StripPrefix(ConfigValue(Unix(path)), "tcp://").None?
    ensures StripPrefix(ConfigValue(Unix(path)), "unix://") == Some(path)
  {
    assert ConfigValue(Unix(path))[0] == 'u' && "tcp://"[0] == 't';
  }

  /** Printing and parsing back gives the same endpoint exactly for the printable ones. */
  lemma RoundTripIff(e: AdminEndpoint)
    ensures Parse(ConfigValue(e)) == Ok(e) <==> Printable(e)
  {
    var text := ConfigValue(e);
    match e
    case Tcp(host, port) =>
      PrintedTcp(host, port);
    case Unix(path) =>
      PrintedUnix(path);
      TrimEndFixed(text);
      if path == "" {
        assert text[|text| - 1] == '/';
      } else {
        assert text[|text| - 1] == path[|path| - 1];
        if IsSpace(path[|path| - 1]) {
          assert |Trim(text)| < |text|;
          UnixLength(text);
        }
      }
  }

  /** Whatever is accepted is printable, so parsing its printed form changes nothing. */
  lemma ParseIsStable(input: string)
    requires Parse(input).Ok?
    ensures Printable(Parse(input).value)
    ensures Parse(ConfigValue(Parse(input).value)) == Parse(input)
  {
    TrimEndFixed(TrimStart(input));
    RoundTripIff(Parse(input).value);
  }

  // ----- trimming

  ghost predicate AllSpace(s: string) {
    forall c :: c in s ==> IsSpace(c)
  }

  ghost predicate IsTrimmed(s: string) {
    s != "" ==> !IsSpace(s[0]) && !IsSpace(s[|s| - 1])
  }

  lemma {:induction false} TrimStartSplits(s: string) returns (w: string)
    ensures s == w + TrimStart(s) && AllSpace(w)
    ensures TrimStart(s) != "" ==> !IsSpace(TrimStart(s)[0])
  {
    w := "";
    if s != "" && IsSpace(s[0]) {
      var v := TrimStartSplits(s[1..]);
      w := [s[0]] + v;
    }
  }

  lemma {:induction false} TrimEndSplits(s: string) returns (w: string)
    ensures s == TrimEnd(s) + w && AllSpace(w)
    ensures TrimEnd(s) != "" ==> !IsSpace(TrimEnd(s)[|TrimEnd(s)| - 1])
  {
    w := "";
    if s != "" && IsSpace(s[|s| - 1]) {
      var v := TrimEndSplits(s[..|s| - 1]);
      w := v + [s[|s| - 1]];
    }
  }

  /** Trimming takes white space off both ends, and leaves none there. */
  lemma TrimSplits(s: string) returns (w: string, v: string)
    ensures s == w + Trim(s) + v && AllSpace(w) && AllSpace(v) && IsTrimmed(Trim(s))
  {
    w := TrimStartSplits(s);
    v := TrimEndSplits(TrimStart(s));
  }

  lemma {:induction false} TrimStartSkips(w: string, s: string)
    requires AllSpace(w)
    ensures TrimStart(w + s) == TrimStart(s)
  {
    if w == "" {
      assert w + s == s;
    } else {
      assert w[0] in w && (w + s)[1..] == w[1..] + s;
      TrimStartSkips(w[1..], s);
    }
  }

  lemma {:induction false} TrimEndSkips(s: string, v: string)
    requires AllSpace(v)
    ensures TrimEnd(s + v) == TrimEnd(s)
  {
    if v == "" {
      assert s + v == s;
    } else {
      var n := |v| - 1;
      assert v[n] in v && (s + v)[..|s + v| - 1] == s + v[..n];
      TrimEndSkips(s, v[..n]);
    }
  }

  lemma {:induction false} TrimStartInside(s: string, v: string)
    requires AllSpace(v)
    ensures TrimEnd(TrimStart(s + v)) == TrimEnd(TrimStart(s))
  {
    if s == "" {
      assert s + v == v + "";
      TrimStartSkips(v, "");
    } else if IsSpace(s[0]) {
      assert (s + v)[1..] == s[1..] + v;
      TrimStartInside(s[1..], v);
    } else {
      TrimEndSkips(s, v);
    }
  }

  /** White space around a text does not matter, and a text without it is left alone. */
  lemma TrimIgnoresSpace(w: string, s: string, v: string)
    requires AllSpace(w) && AllSpace(v)
    ensures Trim(w + s + v) == Trim(s)
    ensures IsTrimmed(s) ==> Trim(s) == s
  {
    assert w + s + v == w + (s + v);
    TrimStartSkips(w, s + v);
    TrimStartInside(s, v);
    if IsTrimmed(s) {
      TrimEndFixed(s);
    }
  }

  /** Nor does it matter to the parser. */
  lemma ParseIgnoresSpace(w: string, s: string, v: string)
    requires AllSpace(w) && AllSpace(v)
    ensures Parse(w + s + v) == Parse(s)
  {
    TrimIgnoresSpace(w, s, v);
  }

  // ----- what is accepted, from the text alone

  lemma {:induction false} SplitLastSound(s: string, c: char)
    ensures SplitLast(s, c).None? <==> c !in s
    ensures SplitLast(s, c).Some? ==>
              var p := SplitLast(s, c).value; s == p.0 + [c] + p.1 && c !in p.1
  {
    if s != "" {
      var n := |s| - 1;
      assert s == s[..n] + [s[n]];
      if s[n] != c {
        SplitLastSound(s[..n], c);
      }
    }
  }

  lemma NumeralHasNoColon(s: string, n: nat)
    requires IsNumeral(s, n)
    ensures ':' !in s
  {
  }

  lemma TcpText(host: string, digits: string)
    ensures StripPrefix("tcp://" + host + ":" + digits, "tcp://") == Some(host + ":" + digits)
    ensures host + ":" + digits == host + [':'] + digits
  {
    assert "tcp://" + host + ":" + digits == "tcp://" + (host + ":" + digits);
  }

  lemma UnixText(path: string)
    ensures StripPrefix("unix://" + path, "tcp://").None?
    ensures StripPrefix("unix://" + path, "unix://") == Some(path)
  {
    assert ("unix://" + path)[0] == 'u' && "tcp://"[0] == 't';
  }

  /** The trimmed text `t` is a TCP endpoint with this host and port: the port is what follows the last colon. */
  ghost predicate IsTcpText(t: string, host: string, port: U16) {
    exists d: string :: t == "tcp://" + host + ":" + d && host != "" && IsNumeral(d, port)
  }

  lemma TcpAccepted(input: string, host: string, port: U16)
    requires IsTcpText(Trim(input), host, port)
    ensures Parse(input) == Ok(Tcp(host, port))
  {
    var d: string :| Trim(input) == "tcp://" + host + ":" + d && host != "" && IsNumeral(d, port);
    TcpText(host, d);
    NumeralHasNoColon(d, port);
    SplitLastAt(host, ':', d);
    ParseUnsignedIff(d, TWO16 - 1, port);
  }

  lemma TcpRead(input: string, host: string, port: U16)
    requires Parse(input) == Ok(Tcp(host, port))
    ensures IsTcpText(Trim(input), host, port)
  {
    var rest := StripPrefix(Trim(input), "tcp://").value;
    SplitLastSound(rest, ':');
    var p := SplitLast(rest, ':').value;
    ParseUnsignedIff(p.1, TWO16 - 1, port);
    assert Trim(input) == "tcp://" + rest;
    assert Trim(input) == "tcp://" + host + ":" + p.1;
  }

  /** Which texts are TCP endpoints, and of which host and port. */
  lemma ParseTcpIff(input: string, host: string, port: U16)
    ensures Parse(input) == Ok(Tcp(host, port)) <==> IsTcpText(Trim(input), host, port)
  {
    if IsTcpText(Trim(input), host, port) {
      TcpAccepted(input, host, port);
    }
    if Parse(input) == Ok(Tcp(host, port)) {
      TcpRead(input, host, port);
    }
  }

  /** Which texts are Unix endpoints, and of which path. */
  lemma ParseUnixIff(input: string, path: string)
    ensures Parse(input) == Ok(Unix(path)) <==> Trim(input) == "unix://" + path && path != ""
  {
    if Trim(input) == "unix://" + path {
      UnixText(path);
    }
    if Parse(input) == Ok(Unix(path)) {
      assert Trim(input) == "unix://" + path;
    }
  }

  /** Every other text is refused, and the error names the trimmed text. */
  lemma ParseRefuses(input: string)
    ensures Parse(input).Err? <==>
              && !(exists host, port: U16 :: IsTcpText(Trim(input), host, port))
              && !(exists path: string :: Trim(input) == "unix://" + path && path != "")
    ensures Parse(input).Err? ==> Parse(input).error == InvalidAdminEndpoint(Trim(input))
  {
    match Parse(input)
    case Ok(Tcp(host, port)) =>
      ParseTcpIff(input, host, port);
    case Ok(Unix(path)) =>
      ParseUnixIff(input, path);
    case Err(_) =>
      forall host, port: U16
        ensures !IsTcpText(Trim(input), host, port)
      {
        ParseTcpIff(input, host, port);
      }
      forall path: string
        ensures !(Trim(input) == "unix://" + path && path != "")
      {
        ParseUnixIff(input, path);
      }
  }

  lemma {:induction false} TrimEndKeeps(p: string, s: string)
    requires p != "" && !IsSpace(p[|p| - 1])
    ensures TrimEnd(p + s) == p + TrimEnd(s)
  {
    if s == "" {
      assert p + s == p;
    } else if IsSpace(s[|s| - 1]) {
      assert (p + s)[..|p + s| - 1] == p + s[..|s| - 1];
      TrimEndKeeps(p, s[..|s| - 1]);
    }
  }

  /** A host without a port is refused. */
  lemma NoPortRefused(host: string)
    requires ':' !in host
    ensures Parse("tcp://" + host).Err?
  {
    var input := "tcp://" + host;
    assert input[0] == 't';
    TrimEndKeeps("tcp://", host);
    var v := TrimEndSplits(host);
    assert ':' !in TrimEnd(host);
    SplitLastSound(TrimEnd(host), ':');
  }

  /** How an endpoint is printed: a port in plain digits, without sign and without zeros in front. */
  lemma PrintedText(e: AdminEndpoint) returns (d: string)
    ensures e.Tcp? ==> ConfigValue(e) == "tcp://" + e.host + ":" + d
    ensures e.Tcp? ==> d != "" && AllDigits(d) && Value(d) == e.port && (|d| > 1 ==> d[0] != '0')
    ensures e.Unix? ==> ConfigValue(e) == "unix://" + e.path
  {
    d := "";
    if e.Tcp? {
      d := Digits(e.port);
      DigitsArePadded(e.port);
      PaddedMeans(e.port, 1);
    }
  }
}
