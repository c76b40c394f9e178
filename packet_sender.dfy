/**
 * The packet generator: validation of its configuration, the split of the
 * packet budget over the sending threads, the weighted choice of packet types
 * through prefix sums of the type distribution, filling a batch of slots, and
 * one sending thread's send/retry loop.
 *
 * Random draws (`ThreadLocalRandom.nextInt`) and the results of `sendmmsg`
 * are parameters. Type selection is given twice: as written, where a draw
 * equal to a prefix sum goes to the earlier type, and corrected, where each
 * type is drawn with exactly its percentage; the batch filler uses the one
 * as written.
 */
module Sender {
  import opened Bytes
  import opened Wrappers
  import opened PacketTypes
  import opened Codec
  import opened SlotTemplates

  /** Bytes per slot of a sending buffer. */
  const BUF_PACKET_BYTES_MAX: int := 1024
  /** Slots per sending buffer, and the largest batch of one `sendmmsg`. */
  const BUF_PACKETS_MAX: int := 16
  const DISTRIBUTIONS_TOTAL: int := 100

  // ---------------------------------------------------------------------------
  // Configuration

  /** The options `validate` looks at; `packets == -1` means no limit. */
  datatype Config = Config(packets: int, hostIsIpv6: bool, mmsgs: int, distribution: seq<int>,
                           threads: int, uniVolumes: int, uniSegments: int, uniAddresses: int)

  datatype ConfigError =
    | NegativePackets | NotIpv6 | MmsgsRange | TooFewTypes | TypesSum
    | TooManyThreads | VolumesRange | SegmentsRange | AddressesRange
    | TypesCount | NegativeType

  function Sum(d: seq<int>): int {
    if |d| == 0 then 0 else Sum(d[..|d| - 1]) + d[|d| - 1]
  }

  /** The configuration checks common to both versions of `validate`, after the distribution checks. */
  function CheckRest(c: Config): Option<ConfigError> {
    if 16 < c.threads then Some(TooManyThreads)
    else if c.uniVolumes < 1 || 256 < c.uniVolumes then Some(VolumesRange)
    else if c.uniSegments < 1 || 256 < c.uniSegments then Some(SegmentsRange)
    else if c.uniAddresses < 1 || 0xFFFF < c.uniAddresses then Some(AddressesRange)
    else None
  }

  /**
   * `validate` as written: the first failing check, in source order. At least
   * four distribution values are required, and `IntStream.sum` adds in `int`,
   * so their total is compared with 100 after wrapping to 32 bits.
   */
  function ValidateAsWritten(c: Config): Option<ConfigError> {
    if c.packets < -1 then Some(NegativePackets)
    else if !c.hostIsIpv6 then Some(NotIpv6)
    else if c.mmsgs < 1 || c.mmsgs > BUF_PACKETS_MAX then Some(MmsgsRange)
    else if |c.distribution| < 4 then Some(TooFewTypes)
    else if Int32Wrap(Sum(c.distribution)) != DISTRIBUTIONS_TOTAL then Some(TypesSum)
    else CheckRest(c)
  }

  /**
   * `validate` corrected: exactly one non-negative value per packet type,
   * adding up to 100 without wrap-around.
   */
  function Validate(c: Config): Option<ConfigError> {
    if c.packets < -1 then Some(NegativePackets)
    else if !c.hostIsIpv6 then Some(NotIpv6)
    else if c.mmsgs < 1 || c.mmsgs > BUF_PACKETS_MAX then Some(MmsgsRange)
    else if |c.distribution| != |Values| then Some(TypesCount)
    else if exists i :: 0 <= i < |c.distribution| && c.distribution[i] < 0 then Some(NegativeType)
    else if Sum(c.distribution) != DISTRIBUTIONS_TOTAL then Some(TypesSum)
    else CheckRest(c)
  }

  /** A distribution of one non-negative percentage per packet type, adding up to 100. */
  predicate Distribution(d: seq<int>) {
    |d| == |Values| && (forall i :: 0 <= i < |d| ==> 0 <= d[i]) && Sum(d) == DISTRIBUTIONS_TOTAL
  }

  /** The configurations `validate` as written lets through. */
  lemma ValidateAsWrittenAccepts(c: Config)
    ensures ValidateAsWritten(c).None? <==>
      && -1 <= c.packets && c.hostIsIpv6 && 1 <= c.mmsgs <= BUF_PACKETS_MAX
      && |c.distribution| >= 4 && Int32Wrap(Sum(c.distribution)) == DISTRIBUTIONS_TOTAL
      && c.threads <= 16 && 1 <= c.uniVolumes <= 256 && 1 <= c.uniSegments <= 256 && 1 <= c.uniAddresses <= 0xFFFF
  {
  }

  /**
   * The corrected check accepts exactly what the as-written one accepts whose
   * distribution has one non-negative value per type adding up to 100.
   */
  lemma ValidateStricter(c: Config)
    ensures Validate(c).None? <==> ValidateAsWritten(c).None? && Distribution(c.distribution)
  {
    if Distribution(c.distribution) {
      assert Int32Wrap(Sum(c.distribution)) == DISTRIBUTIONS_TOTAL;
    }
  }

  // ---------------------------------------------------------------------------
  // Budgets per thread

  /** Thread i's packet budget: -1 stays -1, the others get packets / threads, the last one the rest. */
  function ThreadBudget(packets: int, threads: int, i: int): int
    requires packets >= -1 && threads >= 1
  {
    if packets == -1 then -1
    else if i < threads - 1 then packets / threads
    else packets - (threads - 1) * (packets / threads)
  }

  lemma SumSnoc(d: seq<int>, x: int)
    ensures Sum(d + [x]) == Sum(d) + x
  {
    assert (d + [x])[..|d|] == d;
  }

  /** The last thread's share is what the others leave, never negative. */
  lemma LastShare(packets: int, threads: int)
    requires packets >= 0 && threads >= 1
    ensures var q := packets / threads; q >= 0 && (threads - 1) * q <= packets
  {
    var q := packets / threads;
    assert threads * q + packets % threads == packets;
    assert (threads - 1) * q == threads * q - q;
  }

  /**
   * The loop of `_call` that hands each thread its budget: with a limit, the
   * budgets are non-negative and add up to the limit; without one, every
   * thread is unlimited. `validate` lets any count up to 16 through: no
   * thread is started for 0 (nothing is sent), and a negative count fails
   * when the array of futures is allocated, before the loop.
   */
  method ThreadBudgets(packets: int, threads: int) returns (result: Option<seq<int>>)
    requires packets >= -1
    ensures result.None? <==> threads < 0
    ensures result.Some? ==> var budgets := result.value;
      && |budgets| == threads
      && (forall i :: 0 <= i < threads ==> budgets[i] == ThreadBudget(packets, threads, i))
      && (packets == -1 ==> forall i :: 0 <= i < threads ==> budgets[i] == -1)
      && (packets >= 0 && threads >= 1 ==> Sum(budgets) == packets)
      && (packets >= 0 ==> forall i :: 0 <= i < threads ==> budgets[i] >= 0)
  {
    if threads < 0 {
      return None;
    }
    if threads == 0 {
      return Some([]);
    }
    var budgets := [];
    ghost var q := packets / threads;
    if packets >= 0 {
      LastShare(packets, threads);
    }
    var i := 0;
    while i < threads
      invariant 0 <= i <= threads && |budgets| == i
      invariant forall j :: 0 <= j < i ==> budgets[j] == ThreadBudget(packets, threads, j)
      invariant packets >= 0 && i < threads ==> Sum(budgets) == i * q
      invariant packets >= 0 && i == threads ==> Sum(budgets) == packets
      invariant packets >= 0 ==> forall j :: 0 <= j < i ==> budgets[j] >= 0
    {
      var txPackets := packets;
      if packets != -1 {
        if i < threads - 1 {
          txPackets := packets / threads;
          assert (i + 1) * q == i * q + q;
        } else {
          txPackets := packets - (threads - 1) * (packets / threads);
        }
      }
      SumSnoc(budgets, txPackets);
      budgets := budgets + [txPackets];
      i := i + 1;
    }
    return Some(budgets);
  }

  // ---------------------------------------------------------------------------
  // Prefix sums of the distribution

  /** The prefix sums of a distribution, each wrapped to an `int` as Java's `+=` does. */
  function WrappedPrefixSums(d: seq<int>): (p: seq<int>)
    ensures |p| == |d|
  {
    seq(|d|, i requires 0 <= i < |d| => Int32Wrap(Sum(d[..i + 1])))
  }

  /**
   * `distribution.clone()` followed by `proportions[i] += proportions[i - 1]`
   * for i from 1: the array ends holding the wrapped prefix sums.
   */
  method Proportions(distribution: seq<int>) returns (p: array<int>)
    requires forall i :: 0 <= i < |distribution| ==> IsInt32(distribution[i])
    ensures fresh(p) && p[..] == WrappedPrefixSums(distribution)
  {
    p := new int[|distribution|](i requires 0 <= i < |distribution| => distribution[i]);
    if |distribution| > 0 {
      assert distribution[..1] == [distribution[0]];
      assert Sum(distribution[..1]) == Sum([]) + distribution[0];
    }
    var i := 1;
    while i < p.Length
      invariant 1 <= i && (p.Length > 0 ==> i <= p.Length)
      invariant forall j :: 0 <= j < i && j < p.Length ==> p[j] == Int32Wrap(Sum(distribution[..j + 1]))
      invariant forall j :: i <= j < p.Length ==> p[j] == distribution[j]
    {
      PrefixStep(distribution, i);
      p[i] := Int32Wrap(p[i] + p[i - 1]);
      i := i + 1;
    }
  }

  /** The wrapped sum up to i is the wrapped sum up to i - 1 plus value i, wrapped. */
  lemma PrefixStep(d: seq<int>, i: int)
    requires 1 <= i < |d|
    ensures Int32Wrap(Sum(d[..i + 1])) == Int32Wrap(d[i] + Int32Wrap(Sum(d[..i])))
  {
    assert d[..i + 1] == d[..i] + [d[i]];
    SumSnoc(d[..i], d[i]);
    WrapAdd(Sum(d[..i]), d[i]);
  }

  /** The prefix sums of a distribution, without wrap-around. */
  function PrefixSums(d: seq<int>): (p: seq<int>)
    ensures |p| == |d|
  {
    seq(|d|, i requires 0 <= i < |d| => Sum(d[..i + 1]))
  }

  /** Prefix sums as the selection uses them: non-decreasing from a non-negative start, the last one 100. */
  predicate Proportional(p: seq<int>) {
    && |p| == |Values|
    && 0 <= p[0]
    && (forall i, j :: 0 <= i <= j < |p| ==> p[i] <= p[j])
    && p[|p| - 1] == DISTRIBUTIONS_TOTAL
  }

  /** Sums over a longer prefix of non-negative values are no smaller, and stay between 0 and the total. */
  lemma {:induction false} PrefixSumMonotone(d: seq<int>, i: int, j: int)
    requires forall k :: 0 <= k < |d| ==> 0 <= d[k]
    requires 0 <= i <= j <= |d|
    ensures 0 <= Sum(d[..i]) <= Sum(d[..j])
    decreases j
  {
    if j == 0 {
      assert d[..0] == [];
    } else {
      PrefixSumMonotone(d, if i < j then i else 0, j - 1);
      assert d[..j] == d[..j - 1] + [d[j - 1]];
      SumSnoc(d[..j - 1], d[j - 1]);
    }
  }

  /**
   * For a valid distribution the proportions never wrap: the array `_call`
   * hands to `populatePackets` is the plain prefix sums, which end at 100 as
   * the assertion in `populatePackets` expects.
   */
  lemma DistributionProportions(d: seq<int>)
    requires Distribution(d)
    ensures WrappedPrefixSums(d) == PrefixSums(d)
    ensures Proportional(PrefixSums(d))
  {
    var p := PrefixSums(d);
    forall i | 0 <= i < |d|
      ensures 0 <= p[i] <= DISTRIBUTIONS_TOTAL
    {
      PrefixSumMonotone(d, i + 1, |d|);
      assert d[..|d|] == d;
    }
    forall i, j | 0 <= i <= j < |p|
      ensures p[i] <= p[j]
    {
      PrefixSumMonotone(d, i + 1, j + 1);
    }
    assert d[..|d|] == d;
  }

  // ---------------------------------------------------------------------------
  // Choosing a packet type

  /**
   * Where the selection loop of `populatePackets` stops, as written: the first
   * proportion that is nonzero and at least rnd; |p| when there is none.
   */
  function SelectAsWritten(p: seq<int>, rnd: int): (k: nat)
    ensures k <= |p|
    ensures k < |p| ==> p[k] != 0 && rnd <= p[k]
    ensures forall j :: 0 <= j < k ==> p[j] == 0 || p[j] < rnd
    decreases |p|
  {
    if |p| == 0 then 0
    else if p[0] != 0 && rnd <= p[0] then 0
    else 1 + SelectAsWritten(p[1..], rnd)
  }

  /** The selection corrected: the first proportion that is nonzero and above rnd. */
  function Select(p: seq<int>, rnd: int): (k: nat)
    ensures k <= |p|
    ensures k < |p| ==> p[k] != 0 && rnd < p[k]
    ensures forall j :: 0 <= j < k ==> p[j] == 0 || p[j] <= rnd
    decreases |p|
  {
    if |p| == 0 then 0
    else if p[0] != 0 && rnd < p[0] then 0
    else 1 + Select(p[1..], rnd)
  }

  /** The selection loop as written: `while (p[k] == 0 || p[k] < rnd) k++`. */
  method SelectIndex(p: array<int>, rnd: int) returns (k: int)
    requires SelectAsWritten(p[..], rnd) < p.Length
    ensures k == SelectAsWritten(p[..], rnd)
  {
    k := 0;
    while p[k] == 0 || p[k] < rnd
      invariant 0 <= k <= SelectAsWritten(p[..], rnd)
      decreases p.Length - k
    {
      k := k + 1;
    }
  }

  /**
   * As written, every draw in 0..99 picks a real index, and type k is drawn
   * exactly when the draw lies above the prefix sum before k and at most the
   * prefix sum at k; the draw 0 goes to the first type with any weight.
   */
  lemma SelectAsWrittenInterval(p: seq<int>, rnd: int, k: int)
    requires Proportional(p) && 0 <= rnd < DISTRIBUTIONS_TOTAL && 0 <= k < |p|
    ensures SelectAsWritten(p, rnd) < |p|
    ensures SelectAsWritten(p, rnd) == k <==>
      0 < p[k] && rnd <= p[k] && (k == 0 || p[k - 1] == 0 || p[k - 1] < rnd)
  {
    var s := SelectAsWritten(p, rnd);
    assert s < |p| by {
      assert p[|p| - 1] != 0 && rnd <= p[|p| - 1];
    }
    if s < k {
      assert p[s] <= p[k - 1];
    } else if s > k {
      assert p[k] == 0 || p[k] < rnd;
    } else if k > 0 && p[k - 1] != 0 {
      assert p[k - 1] < rnd;
    }
  }

  /**
   * The corrected selection: type k is drawn exactly when the draw lies
   * between the prefix sum before k and the prefix sum at k, upper bound
   * excluded; every draw in 0..99 picks a real index.
   */
  lemma SelectInterval(p: seq<int>, rnd: int, k: int)
    requires Proportional(p) && 0 <= rnd < DISTRIBUTIONS_TOTAL && 0 <= k < |p|
    ensures Select(p, rnd) < |p|
    ensures Select(p, rnd) == k <==> (if k == 0 then 0 else p[k - 1]) <= rnd < p[k]
  {
    var s := Select(p, rnd);
    if s < k {
      assert p[s] <= p[k - 1];
    } else if s > k {
      assert p[k] == 0 || p[k] <= rnd;
      if k > 0 {
        assert p[k - 1] == 0 || p[k - 1] <= rnd;
      }
    } else if k > 0 {
      assert p[k - 1] == 0 || p[k - 1] <= rnd;
    }
  }

  /** How many of the draws 0 .. n - 1 select index k. */
  function DrawsSelecting(p: seq<int>, k: int, n: nat): (c: nat)
    ensures c <= n
  {
    if n == 0 then 0 else DrawsSelecting(p, k, n - 1) + (if Select(p, n - 1) == k then 1 else 0)
  }

  /** Among the first n draws, those selecting k are the ones inside k's interval. */
  lemma {:induction false} DrawsSelectingInterval(p: seq<int>, k: int, n: nat, lo: int, hi: int)
    requires Proportional(p) && 0 <= k < |p| && n <= DISTRIBUTIONS_TOTAL
    requires lo == (if k == 0 then 0 else p[k - 1]) && hi == p[k]
    ensures DrawsSelecting(p, k, n) == if n <= lo then 0 else if n <= hi then n - lo else hi - lo
    decreases n
  {
    if n > 0 {
      DrawsSelectingInterval(p, k, n - 1, lo, hi);
      SelectInterval(p, n - 1, k);
    }
  }

  /** Consecutive prefix sums differ by the value between them. */
  lemma PrefixSumsStep(d: seq<int>, k: int)
    requires 0 <= k < |d|
    ensures PrefixSums(d)[k] == (if k == 0 then 0 else PrefixSums(d)[k - 1]) + d[k]
  {
    assert d[..k + 1] == d[..k] + [d[k]];
    SumSnoc(d[..k], d[k]);
    if k == 0 {
      assert d[..0] == [];
    }
  }

  /** With the corrected selection, each type is drawn for exactly as many of the 100 draws as its percentage. */
  lemma SelectFrequency(d: seq<int>, k: int)
    requires Distribution(d) && 0 <= k < |d|
    ensures DrawsSelecting(PrefixSums(d), k, DISTRIBUTIONS_TOTAL) == d[k]
  {
    var p := PrefixSums(d);
    DistributionProportions(d);
    PrefixSumsStep(d, k);
    DrawsSelectingInterval(p, k, DISTRIBUTIONS_TOTAL, if k == 0 then 0 else p[k - 1], p[k]);
  }

  /** The sums of the prefixes of four values. */
  lemma PrefixSumsOfFour(a: int, b: int, c: int, e: int)
    ensures Sum([a]) == a && Sum([a, b]) == a + b && Sum([a, b, c]) == a + b + c
    ensures Sum([a, b, c, e]) == a + b + c + e
    ensures PrefixSums([a, b, c, e]) == [a, a + b, a + b + c, a + b + c + e]
  {
    var d := [a, b, c, e];
    SumSnoc([], a);
    SumSnoc([a], b);
    SumSnoc([a, b], c);
    SumSnoc([a, b, c], e);
    assert [] + [a] == [a] && [a] + [b] == [a, b] && [a, b] + [c] == [a, b, c] && [a, b, c] + [e] == d;
    assert d[..1] == [a] && d[..2] == [a, b] && d[..3] == [a, b, c] && d[..4] == d;
  }

  /**
   * As written, a draw equal to a prefix sum goes to the earlier type: with
   * 99:1:0:0 every draw picks Minimal and Attribute, given 1%, is never sent;
   * the corrected selection sends it for the draw 99.
   */
  lemma SelectAsWrittenSkipsType()
    ensures PrefixSums([99, 1, 0, 0]) == [99, 100, 100, 100]
    ensures forall rnd :: 0 <= rnd < DISTRIBUTIONS_TOTAL ==> SelectAsWritten([99, 100, 100, 100], rnd) == 0
    ensures Select([99, 100, 100, 100], 99) == 1
  {
    PrefixSumsOfFour(99, 1, 0, 0);
    var p := [99, 100, 100, 100];
    assert p[1..] == [100, 100, 100];
  }

  /**
   * One packet's random draws: the type draw `nextInt(100)`, the remap draw
   * `nextInt(p[2])` (taken only for an Error draw), the forging coin
   * `nextInt(2)` and the UNI draws.
   */
  datatype PacketDraw = PacketDraw(rnd: int, remap: int, coin: int, uni: UniDraw)

  predicate DrawInRange(p: seq<int>, d: PacketDraw, volumes: int, segments: int, addresses: int)
    requires |p| == |Values|
  {
    && 0 <= d.rnd < DISTRIBUTIONS_TOTAL
    && (p[|Values| - 2] > 0 ==> 0 <= d.remap < p[|Values| - 2])
    && 0 <= d.coin < 2
    && UniDrawInRange(d.uni, volumes, segments, addresses)
  }

  /**
   * The type `populatePackets` writes for one draw and whether it is written
   * well-formed: an Error draw is written malformed, as Minimal when no real
   * type has any weight, otherwise as a real type drawn again over the real
   * types' weights.
   */
  function Choice(p: seq<int>, rnd: int, remap: int): (r: (PacketType, bool))
    requires Proportional(p) && 0 <= rnd < DISTRIBUTIONS_TOTAL
    requires p[|Values| - 2] > 0 ==> 0 <= remap < p[|Values| - 2]
    ensures r.0 != Error
    ensures r.1 <==> Values[SelectAsWritten(p, rnd)] != Error
    ensures r.1 ==> r.0 == Values[SelectAsWritten(p, rnd)]
    ensures !r.1 && p[|Values| - 2] == 0 ==> r.0 == Minimal
    ensures !r.1 && p[|Values| - 2] > 0 ==>
      SelectAsWritten(p, remap) <= |Values| - 2 && r.0 == Values[SelectAsWritten(p, remap)]
  {
    SelectAsWrittenInterval(p, rnd, 0);
    ValuesShape();
    var t := Values[SelectAsWritten(p, rnd)];
    if t != Error then (t, true)
    else if p[|Values| - 2] == 0 then (Minimal, false)
    else
      assert SelectAsWritten(p, remap) <= |Values| - 2 by {
        assert p[|Values| - 2] != 0 && remap <= p[|Values| - 2];
      }
      (Values[SelectAsWritten(p, remap)], false)
  }

  /** The body of the slot loop up to `populatePacketData`: draw a type, and on Error remap it. */
  method ChooseType(proportions: array<int>, d: PacketDraw) returns (pType: PacketType, packetCorrect: bool)
    requires Proportional(proportions[..]) && 0 <= d.rnd < DISTRIBUTIONS_TOTAL
    requires proportions[|Values| - 2] > 0 ==> 0 <= d.remap < proportions[|Values| - 2]
    ensures (pType, packetCorrect) == Choice(proportions[..], d.rnd, d.remap)
  {
    SelectAsWrittenInterval(proportions[..], d.rnd, 0);
    ValuesShape();
    var pTypeIndex := SelectIndex(proportions, d.rnd);
    packetCorrect := true;
    pType := Values[pTypeIndex];
    if pType == Error {
      packetCorrect := false;
      if proportions[|Values| - 2] == 0 {
        pType := Minimal;
      } else {
        assert SelectAsWritten(proportions[..], d.remap) <= |Values| - 2 by {
          assert proportions[..][|Values| - 2] != 0 && d.remap <= proportions[..][|Values| - 2];
        }
        pTypeIndex := SelectIndex(proportions, d.remap);
        pType := Values[pTypeIndex];
      }
    }
  }

  /**
   * The draw as written, on the proportions of a configuration that passed
   * `validate` as written; None where the code throws: the selection runs
   * past the four packet types, or an Error draw remaps with a negative bound
   * (`nextInt` rejects it).
   */
  function ChoiceAsWritten(p: seq<int>, rnd: int, remap: int): Option<(PacketType, bool)>
    requires |p| >= |Values|
  {
    var k := SelectAsWritten(p, rnd);
    if k >= |Values| then None
    else if Values[k] != Error then Some((Values[k], true))
    else if p[|Values| - 2] == 0 then Some((Minimal, false))
    else if p[|Values| - 2] < 0 then None
    else
      var k2 := SelectAsWritten(p, remap);
      if k2 >= |Values| then None else Some((Values[k2], false))
  }

  /** On the proportions of a valid distribution, the draw as written never throws and is `Choice`. */
  lemma ChoiceIsAsWritten(p: seq<int>, rnd: int, remap: int)
    requires Proportional(p) && 0 <= rnd < DISTRIBUTIONS_TOTAL
    requires p[|Values| - 2] > 0 ==> 0 <= remap < p[|Values| - 2]
    ensures ChoiceAsWritten(p, rnd, remap) == Some(Choice(p, rnd, remap))
  {
    SelectAsWrittenInterval(p, rnd, 0);
    if p[|Values| - 2] > 0 {
      assert SelectAsWritten(p, remap) <= |Values| - 2 by {
        assert p[|Values| - 2] != 0 && remap <= p[|Values| - 2];
      }
    }
  }

  /**
   * `validate` as written lets through five distribution values; the draw 50
   * then runs the selection to index 4, past the four packet types. The
   * corrected check rejects the configuration.
   */
  lemma ValidateAsWrittenAdmitsFifthType()
    ensures var c := Config(-1, true, 1, [10, 10, 10, 10, 60], 1, 1, 1, 1);
      && ValidateAsWritten(c).None? && Validate(c) == Some(TypesCount)
      && ChoiceAsWritten(WrappedPrefixSums(c.distribution), 50, 0).None?
  {
    var d := [10, 10, 10, 10, 60];
    WrappedPrefixSumsOfFive(d);
    var p := [10, 20, 30, 40, 100];
    assert p[1..][1..][1..][1..] == [100];
  }

  lemma WrappedPrefixSumsOfFive(d: seq<int>)
    requires d == [10, 10, 10, 10, 60]
    ensures Sum(d) == 100 && WrappedPrefixSums(d) == [10, 20, 30, 40, 100]
  {
    PrefixSumsOfFour(10, 10, 10, 10);
    SumSnoc([10, 10, 10, 10], 60);
    assert [10, 10, 10, 10] + [60] == d;
    assert d[..1] == [10] && d[..2] == [10, 10] && d[..3] == [10, 10, 10] && d[..4] == [10, 10, 10, 10] && d[..5] == d;
  }

  /**
   * `validate` as written lets through a negative value; an Error draw then
   * remaps with `nextInt(-10)`, which throws. The corrected check rejects the
   * configuration.
   */
  lemma ValidateAsWrittenAdmitsNegativeType()
    ensures var c := Config(-1, true, 1, [10, 0, -20, 110], 1, 1, 1, 1);
      && ValidateAsWritten(c).None? && Validate(c) == Some(NegativeType)
      && ChoiceAsWritten(WrappedPrefixSums(c.distribution), 50, 0).None?
  {
    var d := [10, 0, -20, 110];
    WrappedPrefixSumsOfNegative(d);
    assert d[2] < 0;
    var p := [10, 10, -10, 100];
    assert p[1..][1..][1..] == [100];
  }

  lemma WrappedPrefixSumsOfNegative(d: seq<int>)
    requires d == [10, 0, -20, 110]
    ensures Sum(d) == 100 && WrappedPrefixSums(d) == [10, 10, -10, 100]
  {
    PrefixSumsOfFour(10, 0, -20, 110);
    assert d[..1] == [10] && d[..2] == [10, 0] && d[..3] == [10, 0, -20] && d[..4] == d;
  }

  /**
   * Under the corrected check even the as-written draw never throws: every
   * draw selects one of the four types and an Error draw remaps with a
   * positive bound or falls back to Minimal.
   */
  lemma ValidConfigChoiceDefined(c: Config, rnd: int, remap: int)
    requires Validate(c).None? && 0 <= rnd < DISTRIBUTIONS_TOTAL
    requires PrefixSums(c.distribution)[|Values| - 2] > 0 ==> 0 <= remap < PrefixSums(c.distribution)[|Values| - 2]
    ensures ChoiceAsWritten(WrappedPrefixSums(c.distribution), rnd, remap).Some?
    ensures ChoiceAsWritten(WrappedPrefixSums(c.distribution), rnd, remap).value.0 != Error
  {
    ValidateStricter(c);
    DistributionProportions(c.distribution);
    var p := PrefixSums(c.distribution);
    ValuesShape();
    assert SelectAsWritten(p, rnd) < |Values| by {
      assert p[|Values| - 1] != 0 && rnd <= p[|Values| - 1];
    }
    if p[|Values| - 2] > 0 {
      assert SelectAsWritten(p, remap) <= |Values| - 2 by {
        assert p[|Values| - 2] != 0 && remap <= p[|Values| - 2];
      }
    }
  }

  // ---------------------------------------------------------------------------
  // Filling a batch

  predicate DrawsInRange(p: seq<int>, draws: seq<PacketDraw>, volumes: int, segments: int, addresses: int)
    requires |p| == |Values|
  {
    forall i :: 0 <= i < |draws| ==> DrawInRange(p, draws[i], volumes, segments, addresses)
  }

  /** What a batch of |draws| packets needs: room for that many slots and draws within their bounds. */
  predicate Batch(n: int, sz: int, p: seq<int>, draws: seq<PacketDraw>, volumes: int, segments: int, addresses: int) {
    && SLOT_XNETP_DATA_SHIFT <= sz && |draws| * sz <= n
    && Proportional(p) && DrawsInRange(p, draws, volumes, segments, addresses)
  }

  /** Every slot below the batch size lies inside the region. */
  lemma SlotFits(n: int, sz: int, count: int, j: int)
    requires SLOT_XNETP_DATA_SHIFT <= sz && count * sz <= n && 0 <= j < count
    ensures SlotInRange(n, sz, j) && HeaderInRange(n, j * sz)
  {
    SlotsApart(sz, j, count);
  }

  /** The region after `populatePackets` has written slots 0 .. |draws| - 1, slot i from draws[i]. */
  function Populated(s: seq<byte>, sz: int, p: seq<int>, draws: seq<PacketDraw>, volumes: int, segments: int, addresses: int): (r: seq<byte>)
    requires Batch(|s|, sz, p, draws, volumes, segments, addresses)
    ensures |r| == |s|
    decreases |draws|
  {
    if |draws| == 0 then s
    else
      var n := |draws| - 1;
      var d := draws[n];
      SlotsApart(sz, n, |draws|);
      var prev := Populated(s, sz, p, draws[..n], volumes, segments, addresses);
      var c := Choice(p, d.rnd, d.remap);
      WritePacketData(prev, n * sz, PacketFields(c.0, c.1, d.coin), d.uni, volumes, segments)
  }

  lemma ScaleMonotone(a: int, b: int, c: int)
    requires 0 <= a <= b && 0 <= c
    ensures a * c <= b * c
  {
  }

  /** The first m draws of a batch are a batch. */
  lemma BatchPrefix(n: int, sz: int, p: seq<int>, draws: seq<PacketDraw>, volumes: int, segments: int, addresses: int, m: int)
    requires Batch(n, sz, p, draws, volumes, segments, addresses) && 0 <= m <= |draws|
    ensures Batch(n, sz, p, draws[..m], volumes, segments, addresses)
  {
    ScaleMonotone(m, |draws|, sz);
    assert forall i :: 0 <= i < m ==> draws[..m][i] == draws[i];
  }

  /** Filling one more slot: the batch of the first i + 1 draws is the batch of the first i with slot i written. */
  lemma PopulatedStep(s: seq<byte>, sz: int, p: seq<int>, draws: seq<PacketDraw>, volumes: int, segments: int, addresses: int, i: int)
    requires Batch(|s|, sz, p, draws, volumes, segments, addresses) && 0 <= i < |draws|
    requires Batch(|s|, sz, p, draws[..i], volumes, segments, addresses)
    requires Batch(|s|, sz, p, draws[..i + 1], volumes, segments, addresses)
    ensures HeaderInRange(|s|, i * sz)
    ensures var c := Choice(p, draws[i].rnd, draws[i].remap);
      Populated(s, sz, p, draws[..i + 1], volumes, segments, addresses)
      == WritePacketData(Populated(s, sz, p, draws[..i], volumes, segments, addresses), i * sz,
                         PacketFields(c.0, c.1, draws[i].coin), draws[i].uni, volumes, segments)
  {
    SlotFits(|s|, sz, |draws|, i);
    assert draws[..i + 1][..i] == draws[..i];
  }

  /**
   * After a batch is filled, slot j passes `validate` exactly when its draw
   * chose a well-formed packet, i.e. when the type draw did not pick Error.
   */
  lemma {:induction false} PopulatedValidity(s: seq<byte>, sz: int, p: seq<int>, draws: seq<PacketDraw>,
                                             volumes: int, segments: int, addresses: int, j: int)
    requires Batch(|s|, sz, p, draws, volumes, segments, addresses) && 0 <= j < |draws|
    ensures HeaderInRange(|s|, j * sz)
    ensures SlotValid(Populated(s, sz, p, draws, volumes, segments, addresses), j * sz)
            <==> Values[SelectAsWritten(p, draws[j].rnd)] != Error
    decreases |draws|
  {
    var n := |draws| - 1;
    var d := draws[n];
    SlotFits(|s|, sz, |draws|, j);
    SlotFits(|s|, sz, |draws|, n);
    var prev := Populated(s, sz, p, draws[..n], volumes, segments, addresses);
    var c := Choice(p, d.rnd, d.remap);
    if j == n {
      PacketDataValidity(prev, n * sz, c.0, c.1, d.coin, d.uni, volumes, segments);
    } else {
      SlotsApart(sz, n, |draws|);
      assert draws[..n][j] == draws[j];
      PopulatedValidity(s, sz, p, draws[..n], volumes, segments, addresses, j);
      WritePacketDataFrame(prev, sz, n, PacketFields(c.0, c.1, d.coin), d.uni, volumes, segments, j);
    }
  }

  /** The body of the slot loop of `populatePackets`: choose slot i's type from its draw and write the packet data. */
  method PopulateSlot(buffer: PacketBuffer, i: int, proportions: array<int>, d: PacketDraw,
                      uniVolumes: int, uniSegments: int, uniAddresses: int)
    requires HeaderInRange(buffer.buffer.Length, i * buffer.slotSize)
    requires Proportional(proportions[..]) && DrawInRange(proportions[..], d, uniVolumes, uniSegments, uniAddresses)
    modifies buffer.buffer
    ensures var c := Choice(proportions[..], d.rnd, d.remap);
      buffer.buffer[..] == WritePacketData(old(buffer.buffer[..]), i * buffer.slotSize, PacketFields(c.0, c.1, d.coin), d.uni, uniVolumes, uniSegments)
  {
    var pType, packetCorrect := ChooseType(proportions, d);
    buffer.PopulatePacketData(i, pType, uniVolumes, uniSegments, uniAddresses, packetCorrect, d.coin, d.uni);
  }

  /**
   * `populatePackets`: for each of the first `packets` slots, choose a type and
   * write the packet data; then record the number of packets in the buffer.
   */
  method PopulatePackets(buffer: PacketBuffer, packets: int, proportions: array<int>, draws: seq<PacketDraw>,
                         uniVolumes: int, uniSegments: int, uniAddresses: int)
    requires buffer.Valid() && packets <= buffer.slots && |draws| == packets
    requires Batch(buffer.buffer.Length, buffer.slotSize, proportions[..], draws, uniVolumes, uniSegments, uniAddresses)
    modifies buffer, buffer.buffer
    ensures buffer.Valid() && buffer.packets == packets
    ensures buffer.buffer[..] == Populated(old(buffer.buffer[..]), buffer.slotSize, proportions[..], draws, uniVolumes, uniSegments, uniAddresses)
  {
    ghost var before := buffer.buffer[..];
    BatchPrefix(|before|, buffer.slotSize, proportions[..], draws, uniVolumes, uniSegments, uniAddresses, 0);
    var i := 0;
    while i < packets
      invariant 0 <= i <= packets
      invariant Batch(|before|, buffer.slotSize, proportions[..], draws[..i], uniVolumes, uniSegments, uniAddresses)
      invariant buffer.buffer[..] == Populated(before, buffer.slotSize, proportions[..], draws[..i], uniVolumes, uniSegments, uniAddresses)
    {
      BatchPrefix(|before|, buffer.slotSize, proportions[..], draws, uniVolumes, uniSegments, uniAddresses, i + 1);
      PopulatedStep(before, buffer.slotSize, proportions[..], draws, uniVolumes, uniSegments, uniAddresses, i);
      PopulateSlot(buffer, i, proportions, draws[i], uniVolumes, uniSegments, uniAddresses);
      i := i + 1;
    }
    assert draws[..packets] == draws;
    buffer.packets := packets;
  }

  // ---------------------------------------------------------------------------
  // A sending thread

  /** Every value of a distribution is a percentage. */
  lemma DistributionBounds(d: seq<int>)
    requires Distribution(d)
    ensures forall i :: 0 <= i < |d| ==> 0 <= d[i] <= DISTRIBUTIONS_TOTAL
  {
    DistributionProportions(d);
    forall i | 0 <= i < |d|
      ensures d[i] <= DISTRIBUTIONS_TOTAL
    {
      PrefixSumsStep(d, i);
    }
  }

  /** The packets a sequence of `sendmmsg` results reports sent: every result but the error value -1. */
  function Sent(results: seq<int>): int {
    if |results| == 0 then 0
    else
      var r := results[|results| - 1];
      Sent(results[..|results| - 1]) + (if r == -1 then 0 else r)
  }

  /** The send loop leaves after turn t: that send succeeded and the budget is spent. */
  predicate StopsAfter(txPackets: int, results: seq<int>, t: int)
    requires 1 <= t <= |results|
  {
    results[t - 1] != -1 && txPackets != -1 && txPackets <= Sent(results[..t])
  }

  function Max(a: int, b: int): int {
    if a < b then b else a
  }

  /**
   * One sending thread (`TxThread.run`): its budget, the batch size, the UNI
   * ranges, and the buffer and proportions `run` prepares before its send loop.
   */
  class TxThread {
    const txPackets: int
    const mmsgs: int
    const uniVolumes: int
    const uniSegments: int
    const uniAddresses: int
    const buffer: PacketBuffer
    const proportions: array<int>
    /** Packets sent so far. */
    var pCounter: int
    /** Whether the next turn fills the batch anew; false after a failed send, which sends the same batch again. */
    var generatePackets: bool
    /** The thread's counter that the statistics loop reads: packets sent. */
    var extCounter: int
    /** The errno of the last failed send, -1 when none. */
    var extError: int

    ghost predicate Valid()
      reads this, buffer, proportions
    {
      && buffer.Valid() && buffer.slots == BUF_PACKETS_MAX && buffer.slotSize == BUF_PACKET_BYTES_MAX
      && 1 <= mmsgs <= BUF_PACKETS_MAX && -1 <= txPackets && 0 <= pCounter
      && Proportional(proportions[..])
    }

    /**
     * The thread with its budget, then the start of `run`: a buffer of 16 slots
     * of 1024 bytes, templates in the first mmsgs slots, and the prefix sums
     * of the distribution.
     */
    constructor Start(c: Config, txPackets: int, address: seq<byte>)
      requires Validate(c).None? && |address| == 16 && -1 <= txPackets
      ensures Valid() && fresh(buffer) && fresh(buffer.buffer) && fresh(proportions)
      ensures this.txPackets == txPackets && mmsgs == c.mmsgs
      ensures uniVolumes == c.uniVolumes && uniSegments == c.uniSegments && uniAddresses == c.uniAddresses
      ensures buffer.packets == 0
      ensures buffer.buffer[..] == Templated(seq(BUF_PACKETS_MAX * BUF_PACKET_BYTES_MAX, _ => 0), BUF_PACKET_BYTES_MAX, address, c.mmsgs)
      ensures proportions[..] == PrefixSums(c.distribution)
      ensures pCounter == 0 && generatePackets && extCounter == 0 && extError == -1
    {
      ValidateStricter(c);
      DistributionBounds(c.distribution);
      DistributionProportions(c.distribution);
      var b := new PacketBuffer.Allocate(BUF_PACKETS_MAX, BUF_PACKET_BYTES_MAX);
      PopulateTemplates(b, c.mmsgs, address);
      var p := Proportions(c.distribution);
      this.txPackets := txPackets;
      mmsgs := c.mmsgs;
      uniVolumes := c.uniVolumes;
      uniSegments := c.uniSegments;
      uniAddresses := c.uniAddresses;
      buffer := b;
      proportions := p;
      pCounter := 0;
      generatePackets := true;
      extCounter := 0;
      extError := -1;
    }

    /**
     * One turn of the send loop. draws are the random draws for a new batch
     * (unused when the previous send failed); result is what `sendmmsg`
     * returned, or mmsgs in dump mode; errno is the error code it left.
     */
    method Step(draws: seq<PacketDraw>, result: int, errno: int) returns (done: bool)
      requires Valid() && |draws| == mmsgs
      requires DrawsInRange(proportions[..], draws, uniVolumes, uniSegments, uniAddresses)
      requires result == -1 || 0 <= result <= mmsgs
      modifies this, buffer, buffer.buffer
      ensures Valid()
      ensures buffer.buffer[..] == if old(generatePackets)
        then Populated(old(buffer.buffer[..]), BUF_PACKET_BYTES_MAX, proportions[..], draws, uniVolumes, uniSegments, uniAddresses)
        else old(buffer.buffer[..])
      ensures buffer.packets == if old(generatePackets) then mmsgs else old(buffer.packets)
      ensures result == -1 ==> && pCounter == old(pCounter) && extCounter == old(extCounter)
                               && extError == errno && !generatePackets && !done
      ensures result != -1 ==> && pCounter == old(pCounter) + result && extCounter == old(extCounter) + result
                               && extError == old(extError) && generatePackets
                               && (done <==> txPackets != -1 && txPackets <= pCounter)
    {
      if generatePackets {
        PopulatePackets(buffer, mmsgs, proportions, draws, uniVolumes, uniSegments, uniAddresses);
        generatePackets := false;
      }
      if result == -1 {
        extError := errno;
        return false;
      }
      generatePackets := true;
      pCounter := pCounter + result;
      extCounter := extCounter + result;
      done := txPackets != -1 && txPackets <= pCounter;
    }

    /**
     * The send loop over a sequence of turns, each with its draws, `sendmmsg`
     * result and errno: it stops after the first successful send that spends
     * the budget, having sent at most one batch beyond it.
     */
    method Run(batches: seq<seq<PacketDraw>>, results: seq<int>, errnos: seq<int>) returns (finished: bool, turns: nat)
      requires Valid() && pCounter == 0 && |batches| == |results| == |errnos|
      requires forall i :: 0 <= i < |batches| ==> |batches[i]| == mmsgs
      requires forall i :: 0 <= i < |batches| ==> DrawsInRange(proportions[..], batches[i], uniVolumes, uniSegments, uniAddresses)
      requires forall i :: 0 <= i < |results| ==> results[i] == -1 || 0 <= results[i] <= mmsgs
      modifies this, buffer, buffer.buffer
      ensures Valid() && turns <= |results|
      ensures pCounter == Sent(results[..turns]) && extCounter == old(extCounter) + pCounter
      ensures forall t :: 1 <= t < turns ==> !StopsAfter(txPackets, results, t)
      ensures finished <==> 1 <= turns && StopsAfter(txPackets, results, turns)
      ensures !finished ==> turns == |results|
      ensures finished ==> txPackets <= pCounter <= Max(txPackets - 1, 0) + mmsgs
    {
      finished := false;
      turns := 0;
      while turns < |results| && !finished
        invariant Valid() && 0 <= turns <= |results|
        invariant pCounter == Sent(results[..turns]) && extCounter == old(extCounter) + pCounter
        invariant forall t :: 1 <= t < turns ==> !StopsAfter(txPackets, results, t)
        invariant finished <==> 1 <= turns && StopsAfter(txPackets, results, turns)
        invariant !finished ==> txPackets == -1 || pCounter < txPackets || pCounter == 0
        invariant finished ==> txPackets <= pCounter <= Max(txPackets - 1, 0) + mmsgs
        decreases |results| - turns
      {
        var done := Step(batches[turns], results[turns], errnos[turns]);
        assert results[..turns + 1][..turns] == results[..turns];
        turns := turns + 1;
        finished := done;
      }
    }
  }
}
