/**
 * The command-line front end of the `snd` UDP flood tool: decimal conversion
 * (`atoi`/`atol`), splitting `host:port` into a socket address, the
 * microsecond difference of two `timeval`s, and the option loop of `main`
 * with its usage check. Name resolution enters as the results `inet_pton`
 * and `gethostbyname` would give for the host part.
 */
module Snd {
  import opened Bytes
  import opened Wrappers

  // ---------------------------------------------------------------------------
  // Decimal numbers

  predicate IsDigit(c: char) {
    '0' <= c <= '9'
  }

  /** `isspace` in the C locale: blank, tab, newline, vertical tab, form feed, carriage return. */
  predicate IsSpace(c: char) {
    c == ' ' || 9 <= c as int <= 13
  }

  predicate AllDigits(s: string) {
    forall i :: 0 <= i < |s| ==> IsDigit(s[i])
  }

  /** The leading run of decimal digits. */
  function DigitRun(s: string): (r: string)
    ensures r <= s && AllDigits(r)
    ensures |r| < |s| ==> !IsDigit(s[|r|])
  {
    if |s| == 0 || !IsDigit(s[0]) then [] else [s[0]] + DigitRun(s[1..])
  }

  /** The value of a string of decimal digits, most significant first. */
  function DigitsValue(d: string): nat
    requires AllDigits(d)
  {
    if |d| == 0 then 0 else 10 * DigitsValue(d[..|d| - 1]) + (d[|d| - 1] as int - '0' as int)
  }

  /** s without its leading white space. */
  function SkipSpaces(s: string): (r: string)
    ensures |r| <= |s| && r == s[|s| - |r|..]
    ensures |r| > 0 ==> !IsSpace(r[0])
  {
    if |s| > 0 && IsSpace(s[0]) then SkipSpaces(s[1..]) else s
  }

  /**
   * `atoi`/`atol`: leading white space, an optional sign, then the digits up
   * to the first non-digit; no digits give 0.
   */
  function Atoi(s: string): int {
    var t := SkipSpaces(s);
    if |t| > 0 && t[0] == '-' then -(DigitsValue(DigitRun(t[1..])) as int)
    else if |t| > 0 && t[0] == '+' then DigitsValue(DigitRun(t[1..]))
    else DigitsValue(DigitRun(t))
  }

  function DigitChar(d: nat): (c: char)
    requires d < 10
    ensures IsDigit(c) && c as int - '0' as int == d
  {
    ('0' as int + d) as char
  }

  /** The decimal representation of n, without sign or leading zeros. */
  function Decimal(n: nat): (s: string)
    ensures |s| >= 1 && AllDigits(s)
  {
    if n < 10 then [DigitChar(n)] else Decimal(n / 10) + [DigitChar(n % 10)]
  }

  lemma {:induction false} DecimalValue(n: nat)
    ensures DigitsValue(Decimal(n)) == n
  {
    if n >= 10 {
      DecimalValue(n / 10);
      assert Decimal(n)[..|Decimal(n)| - 1] == Decimal(n / 10);
    }
  }

  lemma {:induction false} DigitRunOfDigits(s: string, rest: string)
    requires AllDigits(s) && (|rest| == 0 || !IsDigit(rest[0]))
    ensures DigitRun(s + rest) == s
  {
    if |s| > 0 {
      assert (s + rest)[1..] == s[1..] + rest;
      DigitRunOfDigits(s[1..], rest);
    } else {
      assert s + rest == rest;
    }
  }

  lemma NoLeadingSpace(s: string)
    requires |s| > 0 && !IsSpace(s[0])
    ensures SkipSpaces(s) == s
  {
  }

  /** `atoi` of a non-empty digit string is its value. */
  lemma AtoiDigits(d: string)
    requires |d| > 0 && AllDigits(d)
    ensures Atoi(d) == DigitsValue(d)
  {
    NoLeadingSpace(d);
    DigitRunOfDigits(d, "");
    assert d + "" == d;
  }

  /** `atoi` of a minus sign followed by a non-empty digit string is the negated value. */
  lemma AtoiNegatedDigits(d: string)
    requires |d| > 0 && AllDigits(d)
    ensures Atoi("-" + d) == -(DigitsValue(d) as int)
  {
    var m := "-" + d;
    NoLeadingSpace(m);
    assert m[1..] == d;
    DigitRunOfDigits(d, "");
    assert d + "" == d;
  }

  /** `atoi` reads back what `Decimal` wrote, with and without a minus sign. */
  lemma AtoiDecimal(n: nat)
    ensures Atoi(Decimal(n)) == n
    ensures Atoi("-" + Decimal(n)) == -(n as int)
  {
    DecimalValue(n);
    AtoiDigits(Decimal(n));
    AtoiNegatedDigits(Decimal(n));
  }

  // ---------------------------------------------------------------------------
  // addr_to_ss

  /** `strrchr(s, ':')` and the split it makes: the text before and after the last colon. */
  function SplitAtLastColon(s: string): (r: Option<(string, string)>)
    ensures r.None? <==> ':' !in s
    ensures r.Some? ==> s == r.value.0 + ":" + r.value.1 && ':' !in r.value.1
  {
    if |s| == 0 then None
    else if s[|s| - 1] == ':' then Some((s[..|s| - 1], ""))
    else match SplitAtLastColon(s[..|s| - 1]) {
      case None => None
      case Some(p) => Some((p.0, p.1 + [s[|s| - 1]]))
    }
  }

  /** Host and port written with one colon between them, the port free of colons, split back apart. */
  lemma {:induction false} SplitRoundTrip(host: string, port: string)
    requires ':' !in port
    ensures SplitAtLastColon(host + ":" + port) == Some((host, port))
    decreases |port|
  {
    var s := host + ":" + port;
    if |port| == 0 {
      assert s[..|s| - 1] == host;
    } else {
      var last := port[|port| - 1];
      assert last in port;
      assert s[..|s| - 1] == host + ":" + port[..|port| - 1];
      assert port[..|port| - 1] + [last] == port;
      SplitRoundTrip(host, port[..|port| - 1]);
    }
  }

  /** `htons(atoi(port))`: the port number cut to 16 bits. */
  function Port(s: string): (p: int)
    ensures 0 <= p < 0x1_0000
    ensures 0 <= Atoi(s) < 0x1_0000 ==> p == Atoi(s)
  {
    Atoi(s) % 0x1_0000
  }

  datatype Family = Inet | Inet6

  /** The parts of `sockaddr_storage` that `addr_to_ss` fills: family, port and address bytes. */
  datatype SockAddr = SockAddr(family: Family, port: int, addr: seq<byte>)

  datatype AddrError = MissingPort | InvalidServerAddress | InvalidServerName

  const INADDR_ANY: seq<byte> := [0, 0, 0, 0]

  /**
   * `addr_to_ss`: `pton` is what `inet_pton` gives for the host part in the
   * family chosen, `lookup` the first address `gethostbyname` gives for it.
   */
  function AddrToSs(str: string, pton: Option<seq<byte>>, lookup: Option<seq<byte>>): (r: Result<SockAddr, AddrError>)
    ensures r == Failure(MissingPort) <==> ':' !in str
  {
    match SplitAtLastColon(str) {
      case None => Failure(MissingPort)
      case Some((host, port)) =>
        if ':' in host then
          if pton.None? then Failure(InvalidServerAddress) else Success(SockAddr(Inet6, Port(port), pton.value))
        else if host == "" || host[0] == '*' then
          Success(SockAddr(Inet, Port(port), INADDR_ANY))
        else if pton.Some? then
          Success(SockAddr(Inet, Port(port), pton.value))
        else if lookup.None? then
          Failure(InvalidServerName)
        else
          Success(SockAddr(Inet, Port(port), lookup.value))
    }
  }

  /**
   * The cases of `addr_to_ss` once the colon is found: a host with a colon is
   * IPv6 and must be a literal; an empty host or one starting with '*' is the
   * IPv4 wildcard; any other host is an IPv4 literal or else a name to look up.
   */
  lemma AddrToSsCases(str: string, pton: Option<seq<byte>>, lookup: Option<seq<byte>>)
    requires ':' in str
    ensures var (host, port) := SplitAtLastColon(str).value;
            var r := AddrToSs(str, pton, lookup);
      && (r.Success? ==> r.value.port == Port(port) && (r.value.family == Inet6 <==> ':' in host))
      && (':' in host ==> (r.Success? <==> pton.Some?) && (r.Failure? ==> r.error == InvalidServerAddress))
      && (':' !in host && (host == "" || host[0] == '*') ==> r == Success(SockAddr(Inet, Port(port), INADDR_ANY)))
      && (':' !in host && host != "" && host[0] != '*' ==>
            (r == Failure(InvalidServerName) <==> pton.None? && lookup.None?)
            && (r.Success? ==> r.value.addr == if pton.Some? then pton.value else lookup.value))
  {
  }

  /** An IPv4 host name or literal with a decimal port resolves to that port, whatever the lookup. */
  lemma AddrToSsPort(host: string, port: nat, pton: Option<seq<byte>>, lookup: Option<seq<byte>>)
    requires ':' !in host && port < 0x1_0000
    requires pton.Some? || lookup.Some? || host == "" || host[0] == '*'
    ensures AddrToSs(host + ":" + Decimal(port), pton, lookup).Success?
    ensures AddrToSs(host + ":" + Decimal(port), pton, lookup).value.port == port
    ensures AddrToSs(host + ":" + Decimal(port), pton, lookup).value.family == Inet
  {
    var d := Decimal(port);
    assert ':' !in d by {
      assert AllDigits(d);
    }
    SplitRoundTrip(host, d);
    AtoiDecimal(port);
    assert Port(d) == port;
    AddrToSsCases(host + ":" + d, pton, lookup);
  }

  // ---------------------------------------------------------------------------
  // tv_diff

  datatype TimeVal = TimeVal(sec: int, usec: int)

  predicate Normalized(t: TimeVal) {
    0 <= t.usec < 1000000
  }

  function Micros(t: TimeVal): int {
    t.sec * 1000000 + t.usec
  }

  /** `tv_diff(tv1, tv2)`: microseconds from tv1 to tv2. */
  function TvDiff(tv1: TimeVal, tv2: TimeVal): (r: int)
    ensures r == Micros(tv2) - Micros(tv1)
  {
    (tv2.sec - tv1.sec) * 1000000 + (tv2.usec - tv1.usec)
  }

  /** For normalized times the difference is non-negative exactly when the two are ordered. */
  lemma TvDiffOrdered(tv1: TimeVal, tv2: TimeVal)
    requires Normalized(tv1) && Normalized(tv2)
    ensures TvDiff(tv1, tv2) >= 0 <==> tv1.sec < tv2.sec || (tv1.sec == tv2.sec && tv1.usec <= tv2.usec)
    ensures TvDiff(tv1, tv2) == 0 <==> tv1 == tv2
  {
    if tv1.sec < tv2.sec {
      assert (tv2.sec - tv1.sec) * 1000000 >= 1000000;
    } else if tv1.sec > tv2.sec {
      assert (tv1.sec - tv2.sec) * 1000000 >= 1000000;
    }
  }

  /** Differences add up along a chain of times. */
  lemma TvDiffChain(a: TimeVal, b: TimeVal, c: TimeVal)
    ensures TvDiff(a, b) + TvDiff(b, c) == TvDiff(a, c)
  {
  }

  // ---------------------------------------------------------------------------
  // The option loop of main

  datatype Options = Options(address: string, mtu: int, count: int)

  /** `address = ""`, `mtu = 1500`, `count = 1`. */
  const DEFAULTS: Options := Options("", 1500, 1)

  const MIN_MTU: int := 28

  datatype Flag = AddressFlag | MtuFlag | CountFlag

  function FlagText(f: Flag): string {
    match f
    case AddressFlag => "-l"
    case MtuFlag => "-m"
    case CountFlag => "-n"
  }

  /** The flag an argument spells exactly (`strcmp`), if any. */
  function FlagOf(arg: string): (r: Option<Flag>)
    ensures r.Some? ==> FlagText(r.value) == arg
    ensures r.None? ==> forall f :: FlagText(f) != arg
  {
    if arg == "-l" then Some(AddressFlag)
    else if arg == "-m" then Some(MtuFlag)
    else if arg == "-n" then Some(CountFlag)
    else None
  }

  /** One option with its value: `-m` and `-n` go through `atol` into an `int`. */
  function SetOption(o: Options, f: Flag, value: string): Options {
    match f
    case AddressFlag => o.(address := value)
    case MtuFlag => o.(mtu := Int32Wrap(Atoi(value)))
    case CountFlag => o.(count := Int32Wrap(Atoi(value)))
  }

  /**
   * What the loop ends with: the options and the arguments it did not consume,
   * or the flag whose value is missing because it was the last argument.
   */
  datatype ParseResult = Parsed(opts: Options, rest: seq<string>) | MissingValue(flag: Flag)

  /**
   * The option loop as a function of the arguments after the program name:
   * it runs while the next argument starts with '-', consumes a known flag and
   * the argument after it, and stops at any other argument.
   */
  function ParseOptions(args: seq<string>, opts: Options): (r: ParseResult)
    decreases |args|
  {
    if |args| == 0 || |args[0]| == 0 || args[0][0] != '-' then Parsed(opts, args)
    else match FlagOf(args[0]) {
      case None => Parsed(opts, args)
      case Some(f) =>
        if |args| == 1 then MissingValue(f)
        else
          ParseOptions(args[2..], SetOption(opts, f, args[1]))
    }
  }

  /** The loop leaves a suffix of the arguments, starting at the first one that is not a known flag. */
  lemma {:induction false} ParseStops(args: seq<string>, opts: Options)
    ensures var r := ParseOptions(args, opts);
            r.Parsed? ==> && |r.rest| <= |args| && r.rest == args[|args| - |r.rest|..]
                          && (|r.rest| == 0 || FlagOf(r.rest[0]).None?)
    decreases |args|
  {
    if |args| >= 2 && |args[0]| > 0 && args[0][0] == '-' && FlagOf(args[0]).Some? {
      ParseStops(args[2..], SetOption(opts, FlagOf(args[0]).value, args[1]));
    } else if |args| > 0 && FlagOf(args[0]).Some? {
      assert |args[0]| > 0 && args[0][0] == '-';
    }
  }

  /** The loop in `main`: the argument count and the argument pointer advance together. */
  method OptionLoop(args: seq<string>) returns (r: ParseResult)
    ensures r == ParseOptions(args, DEFAULTS)
  {
    var argc := |args|;
    var i := 0;
    var opts := DEFAULTS;
    while argc != 0 && |args[i]| > 0 && args[i][0] == '-'
      invariant 0 <= i <= |args| && argc == |args| - i
      invariant ParseOptions(args[i..], opts) == ParseOptions(args, DEFAULTS)
      decreases argc
    {
      var f := FlagOf(args[i]);
      if f.None? {
        break;
      }
      if i + 1 == |args| {
        return MissingValue(f.value);
      }
      opts := SetOption(opts, f.value, args[i + 1]);
      assert args[i..][2..] == args[i + 2..];
      argc := argc - 2;
      i := i + 2;
    }
    r := Parsed(opts, args[i..]);
  }

  /** A flag with its value, as written on the command line. */
  datatype Assignment = Assignment(flag: Flag, value: string)

  function Render(assigns: seq<Assignment>): (args: seq<string>)
    ensures |args| == 2 * |assigns|
  {
    if |assigns| == 0 then [] else [FlagText(assigns[0].flag), assigns[0].value] + Render(assigns[1..])
  }

  function ApplyAll(o: Options, assigns: seq<Assignment>): Options
    decreases |assigns|
  {
    if |assigns| == 0 then o else ApplyAll(SetOption(o, assigns[0].flag, assigns[0].value), assigns[1..])
  }

  /** One flag and its value are consumed together, whatever the value looks like. */
  lemma ParseStep(f: Flag, value: string, tail: seq<string>, o: Options)
    ensures ParseOptions([FlagText(f), value] + tail, o) == ParseOptions(tail, SetOption(o, f, value))
  {
    var args := [FlagText(f), value] + tail;
    assert args[0] == FlagText(f) && args[2..] == tail;
  }

  /**
   * Options written flag-then-value are all consumed, the last value of each
   * flag wins, and the loop stops exactly at the first argument that is not a
   * known flag, whatever the values look like.
   */
  lemma {:induction false} ParseRendered(assigns: seq<Assignment>, rest: seq<string>, o: Options)
    requires |rest| == 0 || FlagOf(rest[0]).None?
    ensures ParseOptions(Render(assigns) + rest, o) == Parsed(ApplyAll(o, assigns), rest)
    decreases |assigns|
  {
    if |assigns| == 0 {
      assert Render(assigns) + rest == rest;
    } else {
      var a := assigns[0];
      assert Render(assigns) + rest == [FlagText(a.flag), a.value] + (Render(assigns[1..]) + rest);
      ParseStep(a.flag, a.value, Render(assigns[1..]) + rest, o);
      ParseRendered(assigns[1..], rest, SetOption(o, a.flag, a.value));
    }
  }

  datatype Outcome = Run(opts: Options) | Usage | Crash

  /**
   * `main` up to the usage check, as written: a flag given as the last
   * argument takes its value from the null pointer that ends `argv` (`atol`
   * of it, or `*address` of it, dereferences null).
   */
  function ArgumentsAsWritten(args: seq<string>): Outcome {
    match ParseOptions(args, DEFAULTS)
    case MissingValue(_) => Crash
    case Parsed(o, rest) => if |rest| > 0 || o.address == "" || o.mtu < MIN_MTU then Usage else Run(o)
  }

  /** `-m` as the only argument: the as-written check crashes instead of printing usage. */
  lemma MissingValueCrashes()
    ensures ArgumentsAsWritten(["-m"]) == Crash
    ensures ArgumentsAsWritten(["-l"]) == Crash
  {
  }

  /** `main` up to the usage check, with a flag missing its value reported as a usage error. */
  function Arguments(args: seq<string>): (r: Outcome)
    ensures r != Crash
    ensures r.Run? ==> r.opts.address != "" && r.opts.mtu >= MIN_MTU
  {
    match ParseOptions(args, DEFAULTS)
    case MissingValue(_) => Usage
    case Parsed(o, rest) => if |rest| > 0 || o.address == "" || o.mtu < MIN_MTU then Usage else Run(o)
  }

  /** The corrected check agrees with the as-written one wherever that one does not crash. */
  lemma ArgumentsAgree(args: seq<string>)
    ensures ArgumentsAsWritten(args) != Crash ==> Arguments(args) == ArgumentsAsWritten(args)
    ensures ArgumentsAsWritten(args) == Crash <==> ParseOptions(args, DEFAULTS).MissingValue?
  {
  }

  /** An address and an mtu of at least 28 written as options, and nothing else, start the flood. */
  lemma ArgumentsRun(address: string, mtu: nat)
    requires address != "" && MIN_MTU <= mtu < 0x8000_0000
    ensures Arguments(["-l", address, "-m", Decimal(mtu)]) == Run(Options(address, mtu, 1))
  {
    var d := Decimal(mtu);
    var o := DEFAULTS.(address := address);
    assert ["-l", address, "-m", d] == [FlagText(AddressFlag), address] + ["-m", d];
    ParseStep(AddressFlag, address, ["-m", d], DEFAULTS);
    assert ["-m", d] == [FlagText(MtuFlag), d] + [];
    ParseStep(MtuFlag, d, [], o);
    AtoiDecimal(mtu);
    assert SetOption(o, MtuFlag, d) == Options(address, mtu, 1);
  }
}
