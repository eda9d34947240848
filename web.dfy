/**
 * web: the HTTP side of a node, reduced to its state changes and its one
 * computation. ComputeHTTPPort derives the HTTP port from the gRPC port;
 * the increment-channel consumer applies queued op ids; the /increment
 * handler queues a local op and then broadcasts it.
 *
 * The decimal conversions are those of Go's strconv.Atoi (optional sign,
 * at least one decimal digit, 64-bit range) and of fmt's %d verb; Go's
 * `int` is 64 bits wide, so the addition of 1000 wraps around.
 */
module Web {
  import opened Wrappers
  import Models
  import Increment

  const MinInt64: int := -0x8000_0000_0000_0000
  const MaxInt64: int := 0x7fff_ffff_ffff_ffff
  const TwoTo64: int := 0x1_0000_0000_0000_0000

  /** The offset from the gRPC port to the HTTP port. */
  const HTTPPortOffset: int := 1000

  /** Two's-complement 64-bit wrap-around of an integer. */
  function Wrap64(x: int): (r: int)
    ensures MinInt64 <= r <= MaxInt64
    ensures (r - x) % TwoTo64 == 0
    ensures MinInt64 <= x <= MaxInt64 ==> r == x
  {
    (x - MinInt64) % TwoTo64 + MinInt64
  }

  /** strings.TrimPrefix(s, ":"): at most one leading colon is dropped. */
  function TrimColon(s: string): (r: string)
    ensures if |s| > 0 && s[0] == ':' then s == [':'] + r else r == s
  {
    if |s| > 0 && s[0] == ':' then s[1..] else s
  }

  predicate IsDigit(c: char)
  {
    '0' <= c <= '9'
  }

  predicate AllDigits(s: string)
  {
    forall i :: 0 <= i < |s| ==> IsDigit(s[i])
  }

  /** The value of a string of decimal digits, most significant first. */
  function DigitsValue(s: string): nat
    requires AllDigits(s)
    decreases |s|
  {
    if s == [] then 0
    else DigitsValue(s[..|s| - 1]) * 10 + (s[|s| - 1] as int - '0' as int)
  }

  /** The digits of a natural number, without leading zeros. */
  function NatDigits(n: nat): (r: string)
    ensures |r| >= 1 && AllDigits(r)
    decreases n
  {
    if n < 10 then ['0' + n as char]
    else NatDigits(n / 10) + ['0' + (n % 10) as char]
  }

  /** fmt's %d: a minus sign for negative values, then the digits. */
  function Itoa(n: int): string
  {
    if n < 0 then "-" + NatDigits(-n) else NatDigits(n)
  }

  /** strconv.Atoi: an optional sign, then one or more decimal digits, then a
      value within the 64-bit range; anything else is an error. */
  function Atoi(s: string): Result<int, string>
  {
    if s == [] then Failure("invalid syntax")
    else
      var body := if s[0] == '+' || s[0] == '-' then s[1..] else s;
      if body == [] || !AllDigits(body) then Failure("invalid syntax")
      else
        var magnitude: int := DigitsValue(body);
        var v := if s[0] == '-' then -magnitude else magnitude;
        if v < MinInt64 || v > MaxInt64 then Failure("value out of range") else Success(v)
  }

  /** What Atoi accepts, independently of its value: one or more digits,
      optionally after a single sign. */
  predicate Numeral(s: string)
  {
    || (|s| >= 1 && AllDigits(s))
    || (|s| >= 2 && (s[0] == '+' || s[0] == '-') && AllDigits(s[1..]))
  }

  /** ComputeHTTPPort: the gRPC port with an optional leading colon, parsed,
      plus 1000 (with the wrap-around of Go's int), formatted as ":<n>". An
      unparsable port is fatal in the source and a Failure here. */
  function ComputeHTTPPort(grpcPort: string): (r: Result<string, string>)
    ensures r.Success? <==> Atoi(TrimColon(grpcPort)).Success?
    ensures r.Success? ==> |r.value| >= 2 && r.value[0] == ':'
                           && Atoi(r.value[1..]) == Success(Wrap64(Atoi(TrimColon(grpcPort)).value + HTTPPortOffset))
  {
    var parsed := Atoi(TrimColon(grpcPort));
    if parsed.Failure? then Failure("Invalid gRPC port: " + grpcPort)
    else
      var port := Wrap64(parsed.value + HTTPPortOffset);
      AtoiItoa(port);
      assert (":" + Itoa(port))[1..] == Itoa(port);
      Success(":" + Itoa(port))
  }

  // ---------------------------------------------------------------------
  // Properties of the conversions

  /** Reading back the digits of `n` gives `n`. */
  lemma {:induction false} DigitsRoundTrip(n: nat)
    ensures DigitsValue(NatDigits(n)) == n
    decreases n
  {
    if n >= 10 {
      DigitsRoundTrip(n / 10);
      var d := NatDigits(n);
      assert d[..|d| - 1] == NatDigits(n / 10);
    }
  }

  /** Atoi inverts %d on the 64-bit range. */
  lemma AtoiItoa(n: int)
    requires MinInt64 <= n <= MaxInt64
    ensures Atoi(Itoa(n)) == Success(n)
  {
    var s := Itoa(n);
    if n < 0 {
      DigitsRoundTrip(-n);
      assert s[0] == '-' && s[1..] == NatDigits(-n);
    } else {
      DigitsRoundTrip(n);
      assert IsDigit(s[0]);
    }
  }

  /** Atoi succeeds only on numerals, and on a numeral it fails only when
      the value is outside the 64-bit range. */
  lemma AtoiAcceptsNumerals(s: string)
    ensures Atoi(s).Success? ==> Numeral(s)
    ensures Numeral(s) && Atoi(s).Failure? ==> Atoi(s).error == "value out of range"
  {
  }

  /** The HTTP port is the decimal form of the gRPC port plus 1000, and it
      parses back to that value, for every gRPC port below the wrap-around,
      written with or without the colon. */
  lemma HTTPPortRoundTrip(port: int)
    requires MinInt64 <= port <= MaxInt64 - HTTPPortOffset
    ensures ComputeHTTPPort(Itoa(port)) == Success(":" + Itoa(port + HTTPPortOffset))
    ensures ComputeHTTPPort(":" + Itoa(port)) == Success(":" + Itoa(port + HTTPPortOffset))
    ensures Atoi(TrimColon(":" + Itoa(port + HTTPPortOffset))) == Success(port + HTTPPortOffset)
  {
    var written := Itoa(port);
    assert written[0] != ':' by {
      if port >= 0 {
        assert written[0] == NatDigits(port)[0];
      }
    }
    assert TrimColon(written) == written;
    assert TrimColon(":" + written) == written;
    AtoiItoa(port);
    AtoiItoa(port + HTTPPortOffset);
    assert TrimColon(":" + Itoa(port + HTTPPortOffset)) == Itoa(port + HTTPPortOffset);
  }

  /** A leading colon is optional. */
  lemma ColonOptional(grpcPort: string)
    requires grpcPort == [] || grpcPort[0] != ':'
    ensures ComputeHTTPPort(":" + grpcPort).Success? <==> ComputeHTTPPort(grpcPort).Success?
    ensures ComputeHTTPPort(":" + grpcPort).Success? ==> ComputeHTTPPort(":" + grpcPort) == ComputeHTTPPort(grpcPort)
  {
    assert TrimColon(":" + grpcPort) == grpcPort;
  }

  /** Input that is not a numeral after the colon is rejected. */
  lemma NonNumericRejected(grpcPort: string)
    requires !Numeral(TrimColon(grpcPort))
    ensures ComputeHTTPPort(grpcPort).Failure?
  {
    AtoiAcceptsNumerals(TrimColon(grpcPort));
  }

  /** The decimal forms of the two ports of the default configuration. */
  lemma DefaultDigits()
    ensures Itoa(8080) == "8080" && Itoa(9080) == "9080"
  {
    assert NatDigits(80) == "80" && NatDigits(90) == "90";
    assert NatDigits(808) == "808" && NatDigits(908) == "908";
  }

  /** The default gRPC port 8080 gives the HTTP port 9080. */
  lemma DefaultPort()
    ensures ComputeHTTPPort("8080") == Success(":9080")
  {
    DefaultDigits();
    HTTPPortRoundTrip(8080);
    assert ":" + Itoa(8080 + HTTPPortOffset) == ":9080";
  }

  // ---------------------------------------------------------------------
  // The increment channel

  /** One step of the channel consumer: the oldest queued op id is marked
      seen and the counter rises by one. */
  method ApplyIncrement(s: Models.Server)
    requires s.incrementChan != []
    modifies s`incrementChan, s`seenOps, s`counter
    ensures s.counter == old(s.counter) + 1
    ensures s.seenOps == old(s.seenOps) + {old(s.incrementChan)[0]}
    ensures s.incrementChan == old(s.incrementChan)[1..]
    ensures s.LedgerView() == Models.ApplyNext(old(s.LedgerView()))
  {
    var opId := s.incrementChan[0];
    s.incrementChan := s.incrementChan[1..];
    s.seenOps := s.seenOps + {opId};
    s.counter := s.counter + 1;
  }

  /** The consumer loop, run until the channel is empty: every queued op id
      is applied, in order, and becomes seen. */
  method DrainIncrements(s: Models.Server)
    modifies s`incrementChan, s`seenOps, s`counter
    ensures s.LedgerView() == Models.Settle(old(s.LedgerView()))
    ensures s.incrementChan == []
    ensures s.counter == old(s.counter) + |old(s.incrementChan)|
    ensures s.seenOps == old(s.seenOps) + set x | x in old(s.incrementChan)
  {
    Models.SettleApplies(s.LedgerView());
    while s.incrementChan != []
      invariant Models.Settle(s.LedgerView()) == Models.Settle(old(s.LedgerView()))
      decreases |s.incrementChan|
    {
      ApplyIncrement(s);
    }
  }

  /** The /increment handler: the local op id is queued for the consumer
      first, and only then broadcast to the peers. */
  method HandleIncrement(s: Models.Server, opId: string,
                         dial: nat -> nat -> Option<Models.Conn>, callOk: nat -> bool)
    returns (delivered: seq<bool>)
    modifies s`incrementChan, s`missedOps, s`connPool
    ensures s.incrementChan == old(s.incrementChan) + [opId]
    ensures delivered == Increment.Deliveries(old(s.connPool), old(s.peers), s.id, dial, callOk, |old(s.peers)|)
    ensures |delivered| == |old(s.peers)|
    ensures forall i :: 0 <= i < |delivered| ==>
              (delivered[i] <==> old(s.peers)[i] != s.id && callOk(i)
                                 && Increment.Connected(old(s.connPool), old(s.peers), s.id, dial, i))
    ensures s.missedOps == Increment.QueueFailures(old(s.missedOps), old(s.peers), s.id, delivered, opId, |old(s.peers)|)
    ensures s.connPool == Increment.PoolAfter(old(s.connPool), old(s.peers), s.id, dial, |old(s.peers)|)
  {
    s.incrementChan := s.incrementChan + [opId];
    delivered := Increment.PropagateIncrement(s, opId, dial, callOk);
  }
}
