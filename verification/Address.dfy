/** The address that `run_server` reads off the connection string (src/server.cc). */
module Address {
  import opened Wrappers
  import opened SplitStr

  // ---------------------------------------------------------------- std::stoul

  predicate IsDigit(c: char) { '0' <= c <= '9' }

  predicate IsSpace(c: char) { c == ' ' || c == '\t' || c == '\n' || c == '\r' || c == 11 as char || c == 12 as char }

  function DropSpaces(s: string): string {
    if s != "" && IsSpace(s[0]) then DropSpaces(s[1..]) else s
  }

  function DigitCount(s: string): (n: nat)
    ensures n <= |s| && forall i | 0 <= i < n :: IsDigit(s[i])
  {
    if s != "" && IsDigit(s[0]) then 1 + DigitCount(s[1..]) else 0
  }

  function DigitValue(c: char): nat
    requires IsDigit(c)
  {
    c as int - '0' as int
  }

  function Decimal(s: string): nat
    requires forall i | 0 <= i < |s| :: IsDigit(s[i])
  {
    if s == "" then 0 else Decimal(s[..|s| - 1]) * 10 + DigitValue(s[|s| - 1])
  }

  const ULONG_SIZE: nat := 0x1_0000_0000_0000_0000

  /** Leading spaces, an optional sign, then digits up to the first other character. */
  function Stoul(s: string): Result<nat> {
    var t := DropSpaces(s);
    var signed := t != "" && (t[0] == '-' || t[0] == '+');
    var u := if signed then t[1..] else t;
    var n := DigitCount(u);
    if n == 0 then Err(InvalidArgument)
    else
      var v := Decimal(u[..n]);
      if v >= ULONG_SIZE then Err(RangeError)
      else Ok(if signed && t[0] == '-' then (ULONG_SIZE - v) % ULONG_SIZE else v)
  }

  // ---------------------------------------------------------------- the connection string

  datatype HostPort = HostPort(host: string, port: nat)

  const UINT_SIZE: nat := 0x1_0000_0000

  /** Indexing a vector of tokens. */
  function TokenAt(tokens: seq<string>, i: nat): Result<string> {
    if i < |tokens| then Ok(tokens[i]) else Err(OutOfRange)
  }

  function ParseConn(conn: string): Result<HostPort> {
    match TokenAt(Tokens(conn, '@'), 1)
    case Err(e) => Err(e)
    case Ok(sp) =>
      match TokenAt(Tokens(sp, ':'), 0)
      case Err(e) => Err(e)
      case Ok(host) =>
        match TokenAt(Tokens(sp, ':'), 1)
        case Err(e) => Err(e)
        case Ok(tail) =>
          match TokenAt(Tokens(tail, '/'), 0)
          case Err(e) => Err(e)
          case Ok(p) =>
            match Stoul(p)
            case Err(e) => Err(e)
            case Ok(port) => Ok(HostPort(host, port % UINT_SIZE))
  }

  method ReadAddress(conn: string) returns (r: Result<HostPort>)
    ensures r == ParseConn(conn)
  {
    var parts := Split(conn, '@');
    if |parts| <= 1 { return Err(OutOfRange); }
    var fields := Split(parts[1], ':');
    if |fields| <= 1 { return Err(OutOfRange); }
    var tail := Split(fields[1], '/');
    if |tail| == 0 { return Err(OutOfRange); }
    var port := Stoul(tail[0]);
    if port.Err? { return Err(port.error); }
    r := Ok(HostPort(fields[0], port.value % UINT_SIZE));
  }

  // ---------------------------------------------------------------- round trip

  /** Decimal digits of a number. */
  function Show(n: nat): (s: string)
    ensures s != "" && forall i | 0 <= i < |s| :: IsDigit(s[i])
  {
    if n < 10 then [('0' as int + n) as char] else Show(n / 10) + [('0' as int + n % 10) as char]
  }

  lemma {:induction false} DecimalShow(n: nat)
    ensures Decimal(Show(n)) == n
  {
    if n >= 10 {
      DecimalShow(n / 10);
      assert Show(n)[..|Show(n)| - 1] == Show(n / 10);
    }
  }

  lemma {:induction false} AllDigits(s: string)
    requires forall i | 0 <= i < |s| :: IsDigit(s[i])
    ensures DigitCount(s) == |s|
  {
    if s != "" { AllDigits(s[1..]); }
  }

  lemma {:induction false} StoulShow(n: nat)
    ensures Stoul(Show(n)) == if n < ULONG_SIZE then Ok(n) else Err(RangeError)
  {
    var s := Show(n);
    assert IsDigit(s[0]);
    AllDigits(s);
    DecimalShow(n);
    assert s[..|s|] == s;
  }

  lemma {:induction false} DigitsAvoid(n: nat, c: char)
    requires !IsDigit(c)
    ensures c !in Show(n)
  {}

  /** The second token, when the text before the first delimiter is not empty. */
  lemma {:induction false} SecondToken(first: string, second: string, rest: string, d: char)
    requires first != "" && d !in first && second != "" && d !in second && (rest == "" || rest[0] == d)
    ensures Tokens(first + [d] + second + rest, d) == [first, second] + Tokens(rest, d)
  {
    assert first + [d] + second + rest == first + ([d] + (second + rest));
    TokensFirst(first, [d] + (second + rest), d);
    assert ([d] + (second + rest))[1..] == second + rest;
    TokensFirst(second, rest, d);
  }

  lemma {:induction false} HostAndTail(host: string, tail: string, rest: string)
    requires host != "" && ':' !in host && tail != "" && ':' !in tail && (rest == "" || rest[0] == ':')
    ensures var tokens := Tokens(host + [':'] + tail + rest, ':'); |tokens| >= 2 && tokens[0] == host && tokens[1] == tail
  {
    SecondToken(host, tail, rest, ':');
  }

  /** The part between the first two '@' holds host and port. */
  lemma {:induction false} ServerPart(prefix: string, server: string, suffix: string)
    requires prefix != "" && '@' !in prefix && server != "" && '@' !in server
    ensures
      var tokens := Tokens(prefix + ['@'] + server + suffix, '@');
      |tokens| >= 2 && tokens[1] == server + suffix[..RunLength(suffix, '@')]
  {
    var a := RunLength(suffix, '@');
    var sp := server + suffix[..a];
    assert prefix + ['@'] + server + suffix == prefix + ['@'] + sp + suffix[a..];
    SecondToken(prefix, sp, suffix[a..], '@');
  }

  lemma {:induction false} PortPart(host: string, port: string, suffix: string)
    requires host != "" && ':' !in host && port != "" && ':' !in port && '/' !in port
    requires suffix == "" || suffix[0] == '/'
    ensures
      var tokens := Tokens(host + [':'] + port + suffix, ':');
      && |tokens| >= 2 && tokens[0] == host
      && Tokens(tokens[1], '/') != [] && Tokens(tokens[1], '/')[0] == port
  {
    var b := RunLength(suffix, ':');
    var tail := port + suffix[..b];
    assert host + [':'] + port + suffix == host + [':'] + tail + suffix[b..];
    HostAndTail(host, tail, suffix[b..]);
    TokensFirst(port, suffix[..b], '/');
  }

  /** For every prefix, host, port and suffix of the documented shape the nested splits recover the
      host and the port; ports are taken modulo 2^32, and those above the range of `unsigned long`
      are refused. */
  lemma {:induction false} AddressRoundTrip(prefix: string, host: string, n: nat, suffix: string)
    requires prefix != "" && '@' !in prefix
    requires host != "" && '@' !in host && ':' !in host
    requires suffix == "" || suffix[0] == '/'
    ensures ParseConn(prefix + "@" + host + ":" + Show(n) + suffix) ==
      if n < 0x1_0000_0000_0000_0000 then Ok(HostPort(host, n % 0x1_0000_0000)) else Err(RangeError)
  {
    var port := Show(n);
    DigitsAvoid(n, '@');
    DigitsAvoid(n, ':');
    DigitsAvoid(n, '/');
    var server := host + [':'] + port;
    assert prefix + "@" + host + ":" + port + suffix == prefix + ['@'] + server + suffix;
    ServerPart(prefix, server, suffix);
    PortPart(host, port, suffix[..RunLength(suffix, '@')]);
    StoulShow(n);
  }

  // ---------------------------------------------------------------- what is refused

  /** The characters that `stoul` skips: tab, line feed, vertical tab, form feed, carriage return, blank. */
  lemma {:induction false} SpacesExact(c: char)
    ensures IsSpace(c) <==> 9 <= c as int <= 13 || c as int == 32
  {}

  /** Spaces, a sign or none, at least one digit, and a rest that does not continue the number. */
  predicate Splits(s: string, spaces: string, sign: string, digits: string, rest: string) {
    && s == spaces + sign + digits + rest
    && (forall c | c in spaces :: IsSpace(c))
    && (sign == "" || sign == "+" || sign == "-")
    && digits != "" && (forall i | 0 <= i < |digits| :: IsDigit(digits[i]))
    && (rest == "" || !IsDigit(rest[0]))
  }

  lemma {:induction false} DropSpacesExact(spaces: string, t: string)
    requires (forall c | c in spaces :: IsSpace(c)) && (t == "" || !IsSpace(t[0]))
    ensures DropSpaces(spaces + t) == t
  {
    if spaces == "" {
      assert spaces + t == t;
    } else {
      assert (spaces + t)[1..] == spaces[1..] + t;
      assert forall c | c in spaces[1..] :: c in spaces;
      DropSpacesExact(spaces[1..], t);
    }
  }

  lemma {:induction false} DroppedSpaces(s: string) returns (spaces: string)
    ensures s == spaces + DropSpaces(s) && forall c | c in spaces :: IsSpace(c)
    ensures DropSpaces(s) == "" || !IsSpace(DropSpaces(s)[0])
  {
    spaces := "";
    if s != "" && IsSpace(s[0]) {
      spaces := DroppedSpaces(s[1..]);
      spaces := [s[0]] + spaces;
    }
  }

  lemma {:induction false} DigitCountExact(digits: string, rest: string)
    requires (forall i | 0 <= i < |digits| :: IsDigit(digits[i])) && (rest == "" || !IsDigit(rest[0]))
    ensures DigitCount(digits + rest) == |digits|
  {
    if digits == "" {
      assert digits + rest == rest;
    } else {
      assert (digits + rest)[1..] == digits[1..] + rest;
      DigitCountExact(digits[1..], rest);
    }
  }

  lemma {:induction false} SpacesAreSkipped(spaces: string, t: string)
    requires (forall c | c in spaces :: IsSpace(c)) && (t == "" || !IsSpace(t[0]))
    ensures Stoul(spaces + t) == Stoul(t)
  {
    DropSpacesExact(spaces, t);
    DropSpacesExact("", t);
    assert "" + t == t;
  }

  lemma {:induction false} SignedDigits(sign: string, u: string)
    requires (sign == "" || sign == "+" || sign == "-") && u != "" && IsDigit(u[0])
    ensures
      var v := Decimal(u[..DigitCount(u)]);
      Stoul(sign + u) ==
        if v >= 0x1_0000_0000_0000_0000 then Err(RangeError)
        else if sign == "-" && v > 0 then Ok(0x1_0000_0000_0000_0000 - v)
        else Ok(v)
  {
    if sign == "" {
      assert sign + u == u;
    } else {
      assert (sign + u)[1..] == u && !IsSpace((sign + u)[0]);
    }
  }

  /** What `stoul` makes of a number in a string: its value modulo 2^64 if it has a minus sign, its value
      otherwise, and an error when the digits alone exceed the range. */
  lemma {:induction false} StoulReads(s: string, spaces: string, sign: string, digits: string, rest: string)
    requires Splits(s, spaces, sign, digits, rest)
    ensures
      var v := Decimal(digits);
      Stoul(s) ==
        if v >= 0x1_0000_0000_0000_0000 then Err(RangeError)
        else if sign == "-" && v > 0 then Ok(0x1_0000_0000_0000_0000 - v)
        else Ok(v)
  {
    var u := digits + rest;
    Regroup(spaces, sign, digits, rest);
    assert u != "" && IsDigit(u[0]) && (sign + u)[0] == if sign == "" then u[0] else sign[0];
    SpacesAreSkipped(spaces, sign + u);
    DigitCountExact(digits, rest);
    assert u[..|digits|] == digits;
    SignedDigits(sign, u);
  }

  lemma {:induction false} DigitsSplit(u: string) returns (digits: string, rest: string)
    requires DigitCount(u) > 0
    ensures u == digits + rest && digits != "" && (forall i | 0 <= i < |digits| :: IsDigit(digits[i]))
    ensures rest == "" || !IsDigit(rest[0])
  {
    var n := DigitCount(u);
    digits, rest := u[..n], u[n..];
    DigitCountStops(u);
  }

  lemma {:induction false} SignSplits(t: string) returns (sign: string, u: string)
    ensures t == sign + u && (sign == "" || sign == "+" || sign == "-")
    ensures u == if t != "" && (t[0] == '-' || t[0] == '+') then t[1..] else t
  {
    if t != "" && (t[0] == '-' || t[0] == '+') {
      sign, u := [t[0]], t[1..];
    } else {
      sign, u := "", t;
    }
  }

  lemma {:induction false} NumberSplits(s: string) returns (spaces: string, sign: string, digits: string, rest: string)
    requires Stoul(s) != Err(InvalidArgument)
    ensures Splits(s, spaces, sign, digits, rest)
  {
    spaces := DroppedSpaces(s);
    var u;
    sign, u := SignSplits(DropSpaces(s));
    digits, rest := DigitsSplit(u);
    Regroup(spaces, sign, digits, rest);
  }

  lemma {:induction false} Regroup(a: string, b: string, c: string, d: string)
    ensures a + (b + (c + d)) == a + b + c + d
  {}

  lemma {:induction false} DigitCountStops(s: string)
    ensures DigitCount(s) == |s| || !IsDigit(s[DigitCount(s)])
  {
    if s != "" && IsDigit(s[0]) { DigitCountStops(s[1..]); }
  }

  /** A string is refused as a number exactly if it does not start like one. */
  lemma {:induction false} StoulRefuses(s: string)
    ensures Stoul(s) == Err(InvalidArgument) <==>
      forall spaces, sign, digits, rest :: !Splits(s, spaces, sign, digits, rest)
  {
    forall spaces, sign, digits, rest | Splits(s, spaces, sign, digits, rest) ensures Stoul(s) != Err(InvalidArgument) {
      StoulReads(s, spaces, sign, digits, rest);
    }
    if Stoul(s) != Err(InvalidArgument) {
      var spaces, sign, digits, rest := NumberSplits(s);
    }
  }

  /** Exactly which connection strings are refused, and how: one with a part missing; one whose port is
      not a number; one whose port is too large. */
  lemma {:induction false} ParseConnExact(conn: string)
    ensures
      var at := Tokens(conn, '@');
      var colon := if |at| > 1 then Tokens(at[1], ':') else [];
      var slash := if |colon| > 1 then Tokens(colon[1], '/') else [];
      && (ParseConn(conn) == Err(OutOfRange) <==> slash == [])
      && (slash != [] ==>
            match Stoul(slash[0])
            case Ok(n) => ParseConn(conn) == Ok(HostPort(colon[0], n % 0x1_0000_0000))
            case Err(e) => ParseConn(conn) == Err(e))
  {}

  /** The usual port, digit by digit. */
  lemma {:induction false} ShowsDecimal()
    ensures Show(5672) == "5672"
  {
    assert Show(5) == "5" && Show(56) == "56" && Show(567) == "567";
  }
}
