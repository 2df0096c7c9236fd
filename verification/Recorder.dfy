/** The composer's audio recorder: a bounded capture, a resampler and a WAVE writer. */
module Recorder {
  import opened Bytes
  import opened Sequences
  import opened Wrappers

  const TARGET_RATE: nat := 16000
  const MAX_SECONDS: nat := 60

  // --------------------------------------------------------------- capture

  function Joined<T>(chunks: seq<seq<T>>): seq<T> {
    if chunks == [] then [] else Joined(chunks[..|chunks| - 1]) + chunks[|chunks| - 1]
  }

  class Capture {
    const maximum: nat
    var chunks: seq<seq<real>>
    var sampleCount: nat
    var stopping: bool
    ghost var delivered: seq<real> // everything the microphone has delivered so far

    /** What is held is exactly the beginning of what was delivered, up to the limit. */
    ghost predicate Valid()
      reads this
    {
      && sampleCount == |Joined(chunks)| == Min(|delivered|, maximum)
      && Joined(chunks) == delivered[..Min(|delivered|, maximum)]
      && (stopping ==> sampleCount == maximum)
    }

    constructor (rate: nat)
      ensures Valid() && delivered == [] && maximum == rate * MAX_SECONDS && !stopping
    {
      maximum, chunks, sampleCount, stopping, delivered := rate * MAX_SECONDS, [], 0, false, [];
    }

    method OnAudioProcess(input: seq<real>)
      requires Valid()
      modifies this
      ensures Valid() && delivered == old(delivered) + input
      ensures old(stopping) ==> stopping && chunks == old(chunks)
      ensures !old(stopping) ==> (stopping <==> |delivered| >= maximum)
    {
      ghost var before := delivered;
      delivered := delivered + input;
      if stopping {
        assert delivered[..maximum] == before[..maximum];
        return;
      }
      var remaining := maximum - sampleCount;
      var take := Min(remaining, |input|);
      assert delivered[..Min(|delivered|, maximum)] == before[..Min(|before|, maximum)] + input[..take];
      if take > 0 {
        ghost var was := chunks;
        chunks := chunks + [input[..take]];
        assert chunks[..|chunks| - 1] == was;
        sampleCount := sampleCount + take;
      }
      if sampleCount >= maximum { stopping := true; }
    }

    /** The chunks laid end to end in one buffer. */
    method Concatenated() returns (samples: array<real>)
      requires Valid()
      ensures samples[..] == delivered[..Min(|delivered|, maximum)]
    {
      samples := new real[sampleCount];
      var offset := 0;
      for i := 0 to |chunks|
        invariant offset == |Joined(chunks[..i])| <= samples.Length == |Joined(chunks)|
        invariant samples[..offset] == Joined(chunks[..i])
      {
        JoinedGrows(chunks, i);
        Set(samples, chunks[i], offset);
        offset := offset + |chunks[i]|;
      }
      assert chunks[..|chunks|] == chunks;
    }
  }

  lemma {:induction false} JoinedGrows<T>(chunks: seq<seq<T>>, i: nat)
    requires i < |chunks|
    ensures Joined(chunks[..i + 1]) == Joined(chunks[..i]) + chunks[i]
    ensures |Joined(chunks[..i + 1])| <= |Joined(chunks)|
    decreases |chunks| - i
  {
    assert chunks[..i + 1][..i] == chunks[..i];
    if i + 1 < |chunks| {
      JoinedGrows(chunks, i + 1);
    } else {
      assert chunks[..i + 1] == chunks;
    }
  }

  /** Copies a chunk into the buffer. */
  method Set<T>(a: array<T>, chunk: seq<T>, offset: nat)
    requires offset + |chunk| <= a.Length
    modifies a
    ensures a[..offset + |chunk|] == old(a[..offset]) + chunk
    ensures a[offset + |chunk|..] == old(a[offset + |chunk|..])
  {
    for i := 0 to |chunk|
      invariant a[..offset] == old(a[..offset])
      invariant a[offset..offset + i] == chunk[..i]
      invariant a[offset + |chunk|..] == old(a[offset + |chunk|..])
    {
      a[offset + i] := chunk[i];
    }
    assert a[..offset + |chunk|] == a[..offset] + a[offset..offset + |chunk|];
  }

  /** After any run of callbacks the capture holds the first samples delivered, and no more than fit. */
  method RunCallbacks(rate: nat, inputs: seq<seq<real>>) returns (held: seq<real>)
    ensures held == Joined(inputs)[..Min(|Joined(inputs)|, rate * MAX_SECONDS)]
  {
    var c := new Capture(rate);
    for i := 0 to |inputs|
      invariant fresh(c) && c.Valid() && c.maximum == rate * MAX_SECONDS && c.delivered == Joined(inputs[..i])
    {
      JoinedGrows(inputs, i);
      c.OnAudioProcess(inputs[i]);
    }
    assert inputs[..|inputs|] == inputs;
    var samples := c.Concatenated();
    held := samples[..];
  }

  // ------------------------------------------------------------ resampling

  /** A sample, or none where the program would have read outside the capture. */
  type Sample = Option<real>

  function ReadAt(samples: seq<real>, i: int): Sample {
    if 0 <= i < |samples| then Some(samples[i]) else None
  }

  /** The number of samples at the target rate, and at least one. */
  function OutputLength(n: nat, rate: nat): (r: nat)
    requires rate > 0
    ensures r >= 1
  {
    var m := n * TARGET_RATE / rate;
    if m < 1 then 1 else m
  }

  /** Output sample `i` lies between these two captured ones, this far along. */
  function Left(i: nat, rate: nat): nat { i * rate / TARGET_RATE }
  function Right(n: nat, i: nat, rate: nat): int { if n - 1 <= Left(i, rate) + 1 then n - 1 else Left(i, rate) + 1 }
  function Fraction(i: nat, rate: nat): real { (i * rate % TARGET_RATE) as real / TARGET_RATE as real }

  function Interpolated(samples: seq<real>, i: nat, rate: nat): Sample {
    var a, b, f := ReadAt(samples, Left(i, rate)), ReadAt(samples, Right(|samples|, i, rate)), Fraction(i, rate);
    if a.Some? && b.Some? then Some(Mixed(a.value, b.value, f)) else None
  }

  /** `b` in proportion `f`, and `a` for the rest. */
  function Mixed(a: real, b: real, f: real): real { a * (1.0 - f) + b * f }

  function Resampled(samples: seq<real>, rate: nat): (r: seq<Sample>)
    requires rate > 0
    ensures rate == TARGET_RATE ==> |r| == |samples| && forall i :: 0 <= i < |r| ==> r[i] == Some(samples[i])
    ensures rate != TARGET_RATE ==>
              |r| == OutputLength(|samples|, rate) && forall i :: 0 <= i < |r| ==>
                r[i] == Interpolated(samples, i, rate)
  {
    if rate == TARGET_RATE then seq(|samples|, i requires 0 <= i < |samples| => Some(samples[i]))
    else seq(OutputLength(|samples|, rate), i requires 0 <= i => Interpolated(samples, i, rate))
  }

  method InterpolateAt(samples: seq<real>, i: nat, rate: nat) returns (s: Sample)
    ensures s == Interpolated(samples, i, rate)
  {
    var left := i * rate / TARGET_RATE;
    var right := if |samples| - 1 <= left + 1 then |samples| - 1 else left + 1;
    var fraction := (i * rate % TARGET_RATE) as real / TARGET_RATE as real;
    var a, b := ReadAt(samples, left), ReadAt(samples, right);
    if a.None? || b.None? { return None; }
    return Some(Mixed(a.value, b.value, fraction));
  }

  method ResampleMono(samples: seq<real>, rate: nat) returns (output: seq<Sample>)
    requires rate > 0
    ensures output == Resampled(samples, rate)
  {
    if rate == TARGET_RATE { return Resampled(samples, rate); }
    var length := OutputLength(|samples|, rate);
    var out := new Sample[length](_ => None);
    for i := 0 to length
      invariant forall k :: 0 <= k < i ==> out[k] == Interpolated(samples, k, rate)
    {
      var s := InterpolateAt(samples, i, rate);
      out[i] := s;
    }
    output := out[..];
  }

  lemma DivideBounds(a: nat, b: nat)
    requires b > 0
    ensures a / b * b <= a < a / b * b + b
  {
  }

  lemma TimesMonotone(a: int, b: int, c: nat)
    requires a <= b
    ensures a * c <= b * c
  {
  }

  /** The left neighbour of every output sample is a captured one. */
  lemma LeftInRange(n: nat, i: nat, rate: nat)
    requires rate > 0 && n > 0 && i < OutputLength(n, rate)
    ensures Left(i, rate) < n
  {
    if i == 0 {
      assert 0 * rate == 0;
    } else {
      var m := n * TARGET_RATE / rate;
      DivideBounds(n * TARGET_RATE, rate);
      TimesMonotone(i, m - 1, rate);
      assert (m - 1) * rate == m * rate - rate;
      DivideBounds(i * rate, TARGET_RATE);
    }
  }

  function Lesser(a: real, b: real): real { if a <= b then a else b }
  function Greater(a: real, b: real): real { if a <= b then b else a }

  function Times(x: real, y: real): real { x * y }

  lemma TimesNonNegative(x: real, y: real)
    requires x >= 0.0 && y >= 0.0
    ensures Times(x, y) >= 0.0
  {
  }

  lemma MixedFromEither(a: real, b: real, f: real)
    ensures Mixed(a, b, f) == a + Times(b - a, f) == b - Times(b - a, 1.0 - f)
    ensures Mixed(a, b, f) == a - Times(a - b, f) == b + Times(a - b, 1.0 - f)
  {
  }

  /** A mixture lies between what is mixed. */
  lemma Between(a: real, b: real, f: real)
    requires 0.0 <= f <= 1.0
    ensures Lesser(a, b) <= Mixed(a, b, f) <= Greater(a, b)
  {
    MixedFromEither(a, b, f);
    if a <= b {
      TimesNonNegative(b - a, f);
      TimesNonNegative(b - a, 1.0 - f);
    } else {
      TimesNonNegative(a - b, f);
      TimesNonNegative(a - b, 1.0 - f);
    }
  }

  lemma InterpolatedBetween(samples: seq<real>, rate: nat, i: nat)
    requires Left(i, rate) < |samples|
    ensures var l, r := Left(i, rate), Right(|samples|, i, rate);
            && l <= r < |samples| && Interpolated(samples, i, rate).Some?
            && Lesser(samples[l], samples[r]) <= Interpolated(samples, i, rate).value <= Greater(samples[l], samples[r])
  {
    var l, r := Left(i, rate), Right(|samples|, i, rate);
    Between(samples[l], samples[r], Fraction(i, rate));
  }

  /** Nothing is read out of range, and every output lies between its two neighbours. */
  lemma ResampledBetween(samples: seq<real>, rate: nat, i: nat)
    requires rate > 0 && samples != [] && i < |Resampled(samples, rate)|
    ensures Resampled(samples, rate)[i].Some?
    ensures rate != TARGET_RATE ==>
              var l, r := Left(i, rate), Right(|samples|, i, rate);
              && l < |samples| && l <= r < |samples|
              && Lesser(samples[l], samples[r]) <= Resampled(samples, rate)[i].value <= Greater(samples[l], samples[r])
  {
    if rate != TARGET_RATE {
      LeftInRange(|samples|, i, rate);
      InterpolatedBetween(samples, rate, i);
    }
  }

  /** As many samples as fit into the time of the capture, or one. */
  lemma ResampledFits(samples: seq<real>, rate: nat)
    requires rate > 0 && (rate != TARGET_RATE || samples != [])
    ensures var m := |Resampled(samples, rate)|;
            && m >= 1 && |samples| * 16000 < (m + 1) * rate && (m == 1 || m * rate <= |samples| * 16000)
  {
    var n := |samples|;
    if rate == TARGET_RATE {
      assert (n + 1) * rate == n * rate + rate;
    } else {
      var m := n * TARGET_RATE / rate;
      DivideBounds(n * TARGET_RATE, rate);
      assert (m + 1) * rate == m * rate + rate;
      if m < 1 { TimesMonotone(m + 1, 2, rate); }
    }
  }

  /** Output sample `i` stands at or behind captured sample `k`, and no later than the next one. */
  predicate StandsBetween(i: nat, rate: nat, k: nat) { k * 16000 <= i * rate <= (k + 1) * 16000 }

  /** How far behind captured sample `k` output sample `i` stands, in captured samples. */
  function Beyond(i: nat, rate: nat, k: nat): real { (i * rate - k * 16000) as real / 16000.0 }

  lemma LeftOfPlace(i: nat, rate: nat, k: nat)
    requires StandsBetween(i, rate, k)
    ensures || (Left(i, rate) == k && Fraction(i, rate) == Beyond(i, rate, k))
            || (Left(i, rate) == k + 1 && Fraction(i, rate) == 0.0 && Beyond(i, rate, k) == 1.0)
  {
    var place := i * rate;
    DivideBounds(place, TARGET_RATE);
    assert place % TARGET_RATE == place - Left(i, rate) * TARGET_RATE;
  }

  /** From `a` the given part of the way to `b`. */
  function OnChord(a: real, b: real, f: real): real { a + Times(b - a, f) }

  /** Between two captured samples the output lies on the straight line through them. */
  lemma ResampledOnLine(samples: seq<real>, rate: nat, i: nat, k: nat)
    requires rate > 0 && k + 1 < |samples| && i < |Resampled(samples, rate)| && StandsBetween(i, rate, k)
    ensures Resampled(samples, rate)[i] ==
            Some(OnChord(samples[k], samples[k + 1], Beyond(i, rate, k)))
  {
    TimesUnits(samples[k + 1] - samples[k]);
    if rate == TARGET_RATE {
      assert i == k || i == k + 1;
    } else {
      InterpolatedOnLine(samples, rate, i, k);
    }
  }

  lemma TimesUnits(x: real)
    ensures Times(x, 0.0) == 0.0 && Times(x, 1.0) == x
  {
  }

  lemma InterpolatedOnLine(samples: seq<real>, rate: nat, i: nat, k: nat)
    requires k + 1 < |samples| && StandsBetween(i, rate, k)
    ensures Interpolated(samples, i, rate) ==
            Some(OnChord(samples[k], samples[k + 1], Beyond(i, rate, k)))
  {
    var a, b := samples[k], samples[k + 1];
    LeftOfPlace(i, rate, k);
    TimesUnits(b - a);
    if Left(i, rate) == k {
      MixedFromEither(a, b, Beyond(i, rate, k));
    } else {
      var r := samples[Right(|samples|, i, rate)];
      MixedFromEither(b, r, 0.0);
      TimesUnits(r - b);
    }
  }

  /** Behind the last captured sample that sample is held. */
  lemma ResampledHolds(samples: seq<real>, rate: nat, i: nat)
    requires rate > 0 && samples != [] && i < |Resampled(samples, rate)| && (|samples| - 1) * 16000 <= i * rate
    ensures Resampled(samples, rate)[i] == Some(samples[|samples| - 1])
  {
    if rate != TARGET_RATE {
      LeftIsLast(|samples|, i, rate);
      MixedAlike(samples[|samples| - 1], Fraction(i, rate));
    }
  }

  lemma LeftIsLast(n: nat, i: nat, rate: nat)
    requires rate > 0 && n > 0 && i < OutputLength(n, rate) && (n - 1) * 16000 <= i * rate
    ensures Left(i, rate) == Right(n, i, rate) == n - 1
  {
    LeftInRange(n, i, rate);
    DivideBounds(i * rate, TARGET_RATE);
  }

  lemma MixedAlike(a: real, f: real)
    ensures Mixed(a, a, f) == a
  {
  }

  /** Where output sample `i` stands in the capture. */
  function Place(i: nat, rate: nat): real { (i * rate) as real / 16000.0 }

  /** A function whose graph is a straight line. */
  ghost predicate Straight(line: real -> real) {
    forall x, y, f {:trigger line(OnChord(x, y, f))} :: line(OnChord(x, y, f)) == OnChord(line(x), line(y), f)
  }

  lemma LinesAreStraight(a: real, b: real)
    ensures Straight(x => a + b * x)
  {
  }

  /** A straight line is reproduced: every output that stands within the capture has the line's value at its place. */
  lemma LineReproduced(samples: seq<real>, rate: nat, i: nat, line: real -> real)
    requires rate > 0 && samples != [] && i < |Resampled(samples, rate)| && i * rate <= (|samples| - 1) * 16000
    requires Straight(line) && forall k: nat :: k < |samples| ==> samples[k] == line(k as real)
    ensures Resampled(samples, rate)[i] == Some(line(Place(i, rate)))
  {
    var k, f := Surroundings(samples, rate, i);
    if k + 1 < |samples| {
      LineFrom(Resampled(samples, rate)[i], samples[k], samples[k + 1], k, f, Place(i, rate), line);
    }
  }

  lemma LineFrom(value: Sample, s: real, t: real, k: nat, f: real, place: real, line: real -> real)
    requires Straight(line) && s == line(k as real) && t == line((k + 1) as real)
    requires value == Some(OnChord(s, t, f)) && place == k as real + f
    ensures value == Some(line(place))
  {
    StraightBetween(line, k, f);
  }

  /** The captured sample at or before the place of an output sample, how far beyond it that place is, and the value. */
  lemma Surroundings(samples: seq<real>, rate: nat, i: nat) returns (k: nat, f: real)
    requires rate > 0 && samples != [] && i < |Resampled(samples, rate)| && i * rate <= (|samples| - 1) * 16000
    ensures k < |samples| && Place(i, rate) == k as real + f
    ensures k + 1 < |samples| ==> Resampled(samples, rate)[i] == Some(OnChord(samples[k], samples[k + 1], f))
    ensures k + 1 == |samples| ==> Resampled(samples, rate)[i] == Some(samples[k]) && f == 0.0
  {
    k := CapturedBefore(i, rate);
    f := Beyond(i, rate, k);
    PlaceSplits(i, rate, k);
    if k + 1 < |samples| {
      ResampledOnLine(samples, rate, i, k);
    } else {
      LastBefore(i, rate, |samples|, k);
      ResampledHolds(samples, rate, i);
    }
  }

  lemma PlaceSplits(i: nat, rate: nat, k: nat)
    ensures Place(i, rate) == k as real + Beyond(i, rate, k)
  {
  }

  lemma StraightBetween(line: real -> real, k: nat, f: real)
    requires Straight(line)
    ensures OnChord(line(k as real), line((k + 1) as real), f) == line(k as real + f)
  {
    var x, y := k as real, (k + 1) as real;
    assert OnChord(line(x), line(y), f) == line(OnChord(x, y, f));
    assert y - x == 1.0 && Times(1.0, f) == f;
  }

  lemma CapturedBefore(i: nat, rate: nat) returns (k: nat)
    ensures StandsBetween(i, rate, k)
  {
    k := i * rate / 16000;
    DivideBounds(i * rate, 16000);
  }

  lemma LastBefore(i: nat, rate: nat, n: nat, k: nat)
    requires StandsBetween(i, rate, k) && i * rate <= (n - 1) * 16000 && k + 1 >= n > 0
    ensures k == n - 1 && i * rate == (n - 1) * 16000 && Beyond(i, rate, k) == 0.0
  {
  }

  /** A capture of at most a minute is at most a minute at the target rate. */
  lemma ResampledLength(samples: seq<real>, rate: nat)
    requires rate > 0 && |samples| <= rate * MAX_SECONDS
    ensures |Resampled(samples, rate)| <= TARGET_RATE * MAX_SECONDS
  {
    if rate != TARGET_RATE { OutputBounded(|samples|, rate); }
  }

  lemma OutputBounded(n: nat, rate: nat)
    requires rate > 0 && n <= rate * MAX_SECONDS
    ensures OutputLength(n, rate) <= TARGET_RATE * MAX_SECONDS
  {
    var m, most := n * TARGET_RATE / rate, TARGET_RATE * MAX_SECONDS;
    DivideBounds(n * TARGET_RATE, rate);
    TimesMonotone(n, rate * MAX_SECONDS, TARGET_RATE);
    assert rate * MAX_SECONDS * TARGET_RATE == most * rate;
    if m > most { TimesMonotone(most + 1, m, rate); }
  }

  // --------------------------------------------------------------- writing

  function Truncated(x: real): int { if x < 0.0 then -((-x).Floor) else x.Floor }

  /** A sample as a sixteen-bit integer; a missing one is written as zero. */
  function Quantized(s: Sample): (q: int)
    ensures -0x8000 <= q <= 0x7FFF
  {
    match s
    case None => 0
    case Some(x) =>
      var b := Bounded(x);
      Truncated(if b < 0.0 then b * 32768.0 else b * 32767.0)
  }

  function Bounded(x: real): real { if x < -1.0 then -1.0 else if x > 1.0 then 1.0 else x }

  /** Louder is never written as quieter, full scale is written as full scale, and no sample is off by two steps. */
  lemma QuantizedFaithful(x: real, y: real)
    ensures x <= y ==> Quantized(Some(x)) <= Quantized(Some(y))
    ensures x <= -1.0 ==> Quantized(Some(x)) == -0x8000
    ensures x >= 1.0 ==> Quantized(Some(x)) == 0x7FFF
    ensures -2.0 < Quantized(Some(x)) as real - Bounded(x) * 32768.0 < 2.0
  {
  }

  /** Within full scale a sample is cut off towards zero. */
  lemma QuantizedTowardZero(x: real)
    requires -1.0 <= x <= 1.0
    ensures x >= 0.0 ==> 0.0 <= x * 32767.0 - Quantized(Some(x)) as real < 1.0
    ensures x < 0.0 ==> 0.0 <= Quantized(Some(x)) as real - x * 32768.0 < 1.0
  {
  }

  /** Two octets, two's complement. */
  function Int16Bytes(q: int): (r: seq<Byte>)
    requires -0x8000 <= q <= 0x7FFF
    ensures |r| == 2
  {
    LittleEndian(if q < 0 then q + 0x1_0000 else q, 2)
  }

  function DataBytes(samples: seq<Sample>): (r: seq<Byte>)
    ensures |r| == 2 * |samples|
  {
    if samples == [] then [] else DataBytes(samples[..|samples| - 1]) + Int16Bytes(Quantized(samples[|samples| - 1]))
  }

  function RiffHeader(n: nat): (r: seq<Byte>)
    ensures |r| == 20
  {
    [0x52, 0x49, 0x46, 0x46] + LittleEndian(44 + 2 * n - 8, 4) + [0x57, 0x41, 0x56, 0x45]
    + [0x66, 0x6D, 0x74, 0x20] + LittleEndian(16, 4)
  }

  function FormatHeader(): (r: seq<Byte>)
    ensures |r| == 16
  {
    LittleEndian(1, 2) + LittleEndian(1, 2) + LittleEndian(16000, 4) + LittleEndian(32000, 4)
    + LittleEndian(2, 2) + LittleEndian(16, 2)
  }

  function DataHeader(n: nat): (r: seq<Byte>)
    ensures |r| == 8
  {
    [0x64, 0x61, 0x74, 0x61] + LittleEndian(2 * n, 4)
  }

  function WaveHeader(n: nat): (r: seq<Byte>)
    ensures |r| == 44
  {
    RiffHeader(n) + FormatHeader() + DataHeader(n)
  }

  /** The file, unless the recording is empty or longer than a minute. */
  function Wave(samples: seq<Sample>): Option<seq<Byte>> {
    if samples == [] || |samples| > TARGET_RATE * MAX_SECONDS then None
    else Some(WaveHeader(|samples|) + DataBytes(samples))
  }

  method WriteRiff(bytes: array<Byte>, n: nat)
    requires bytes.Length == 44 + 2 * n
    modifies bytes
    ensures bytes[..20] == RiffHeader(n)
  {
    Set(bytes, [0x52, 0x49, 0x46, 0x46], 0);
    Set(bytes, LittleEndian(bytes.Length - 8, 4), 4);
    Set(bytes, [0x57, 0x41, 0x56, 0x45], 8);
    Set(bytes, [0x66, 0x6D, 0x74, 0x20], 12);
    Set(bytes, LittleEndian(16, 4), 16);
  }

  method WriteFormat(bytes: array<Byte>)
    requires bytes.Length >= 44
    modifies bytes
    ensures bytes[..36] == old(bytes[..20]) + FormatHeader()
  {
    ghost var was := bytes[..20];
    Set(bytes, LittleEndian(1, 2), 20);
    Set(bytes, LittleEndian(1, 2), 22);
    Set(bytes, LittleEndian(16000, 4), 24);
    Set(bytes, LittleEndian(32000, 4), 28);
    Set(bytes, LittleEndian(2, 2), 32);
    Set(bytes, LittleEndian(16, 2), 34);
    FieldsRegroup(was, LittleEndian(1, 2), LittleEndian(1, 2), LittleEndian(16000, 4), LittleEndian(32000, 4),
                  LittleEndian(2, 2), LittleEndian(16, 2));
  }

  lemma FieldsRegroup<T>(s: seq<T>, a: seq<T>, b: seq<T>, c: seq<T>, d: seq<T>, e: seq<T>, f: seq<T>)
    ensures s + a + b + c + d + e + f == s + (a + b + c + d + e + f)
  {
  }

  method WriteHeader(bytes: array<Byte>, n: nat)
    requires bytes.Length == 44 + 2 * n
    modifies bytes
    ensures bytes[..44] == WaveHeader(n)
  {
    WriteRiff(bytes, n);
    WriteFormat(bytes);
    Set(bytes, [0x64, 0x61, 0x74, 0x61], 36);
    Set(bytes, LittleEndian(2 * n, 4), 40);
    Regrouped(RiffHeader(n) + FormatHeader(), [0x64, 0x61, 0x74, 0x61], LittleEndian(2 * n, 4));
  }

  method WriteSamples(bytes: array<Byte>, samples: seq<Sample>)
    requires bytes.Length == 44 + 2 * |samples|
    modifies bytes
    ensures bytes[..] == old(bytes[..44]) + DataBytes(samples)
  {
    for i := 0 to |samples|
      invariant bytes[..44 + 2 * i] == old(bytes[..44]) + DataBytes(samples[..i])
    {
      assert samples[..i + 1][..i] == samples[..i];
      Set(bytes, Int16Bytes(Quantized(samples[i])), 44 + 2 * i);
      Regrouped(old(bytes[..44]), DataBytes(samples[..i]), Int16Bytes(Quantized(samples[i])));
    }
    assert samples[..|samples|] == samples && bytes[..] == bytes[..44 + 2 * |samples|];
  }

  method CanonicalWave(samples: seq<Sample>) returns (r: Option<seq<Byte>>)
    ensures r == Wave(samples)
  {
    if |samples| == 0 || |samples| > TARGET_RATE * MAX_SECONDS { return None; }
    var bytes := new Byte[44 + |samples| * 2](_ => 0);
    WriteHeader(bytes, |samples|);
    WriteSamples(bytes, samples);
    return Some(bytes[..]);
  }

  // ------------------------------------------------------------ guarantees

  function ReadInt16(s: seq<Byte>): int {
    var u := FromLittleEndian(s);
    if u >= 0x8000 then u - 0x1_0000 else u
  }

  lemma Int16Reads(q: int)
    requires -0x8000 <= q <= 0x7FFF
    ensures ReadInt16(Int16Bytes(q)) == q
  {
    Capacities();
    LittleEndianReads(if q < 0 then q + 0x1_0000 else q, 2);
  }

  lemma {:induction false} DataReads(samples: seq<Sample>, i: nat)
    requires i < |samples|
    ensures ReadInt16(DataBytes(samples)[2 * i..2 * i + 2]) == Quantized(samples[i])
    decreases |samples|
  {
    var front, d := samples[..|samples| - 1], DataBytes(samples);
    if i == |samples| - 1 {
      assert d[2 * i..2 * i + 2] == Int16Bytes(Quantized(samples[i]));
      Int16Reads(Quantized(samples[i]));
    } else {
      DataReads(front, i);
      assert d[2 * i..2 * i + 2] == DataBytes(front)[2 * i..2 * i + 2];
    }
  }

  /** What a player finds in a canonical file. */
  datatype Audio = Audio(channels: nat, rate: nat, bits: nat, samples: seq<int>)

  /** The size of the whole, linear samples, and rates that agree with one another. */
  function ReadWave(w: seq<Byte>): Option<Audio> {
    if |w| < 44 || w[..4] != [0x52, 0x49, 0x46, 0x46] || FromLittleEndian(w[4..8]) != |w| - 8
       || w[8..12] != [0x57, 0x41, 0x56, 0x45] || w[12..16] != [0x66, 0x6D, 0x74, 0x20]
       || FromLittleEndian(w[16..20]) != 16
       || FromLittleEndian(w[20..22]) != 1 then None
    else
      var channels, rate := FromLittleEndian(w[22..24]), FromLittleEndian(w[24..28]);
      var octetRate, frame, bits :=
        FromLittleEndian(w[28..32]), FromLittleEndian(w[32..34]), FromLittleEndian(w[34..36]);
      if 8 * frame != channels * bits || octetRate != rate * frame || bits != 16
         || w[36..40] != [0x64, 0x61, 0x74, 0x61] || FromLittleEndian(w[40..44]) != |w| - 44 then None
      else Some(Audio(channels, rate, bits, ReadSamples(w[44..])))
  }

  function ReadSamples(d: seq<Byte>): seq<int> {
    seq(|d| / 2, i requires 0 <= i < |d| / 2 => ReadInt16(d[2 * i..2 * i + 2]))
  }

  function QuantizedAll(samples: seq<Sample>): seq<int> {
    seq(|samples|, i requires 0 <= i < |samples| => Quantized(samples[i]))
  }

  lemma RiffReads(n: nat)
    requires n <= TARGET_RATE * MAX_SECONDS
    ensures var h := RiffHeader(n);
            && h[..4] == [0x52, 0x49, 0x46, 0x46] && FromLittleEndian(h[4..8]) == 36 + 2 * n
            && h[8..12] == [0x57, 0x41, 0x56, 0x45] && h[12..16] == [0x66, 0x6D, 0x74, 0x20]
            && FromLittleEndian(h[16..20]) == 16
  {
    Capacities();
    LittleEndianReads(44 + 2 * n - 8, 4);
    LittleEndianReads(16, 4);
    RiffSlices([0x52, 0x49, 0x46, 0x46], LittleEndian(44 + 2 * n - 8, 4), [0x57, 0x41, 0x56, 0x45],
               [0x66, 0x6D, 0x74, 0x20], LittleEndian(16, 4));
  }

  lemma RiffSlices(a: seq<Byte>, b: seq<Byte>, c: seq<Byte>, d: seq<Byte>, e: seq<Byte>)
    requires |a| == |b| == |c| == |d| == |e| == 4
    ensures var h := a + b + c + d + e;
            h[..4] == a && h[4..8] == b && h[8..12] == c && h[12..16] == d && h[16..20] == e
  {
  }

  lemma FormatReads()
    ensures var h := FormatHeader();
            && FromLittleEndian(h[..2]) == 1 && FromLittleEndian(h[2..4]) == 1 && FromLittleEndian(h[4..8]) == 16000
            && FromLittleEndian(h[8..12]) == 32000 && FromLittleEndian(h[12..14]) == 2
            && FromLittleEndian(h[14..16]) == 16
  {
    Capacities();
    LittleEndianReads(1, 2);
    LittleEndianReads(16000, 4);
    LittleEndianReads(32000, 4);
    LittleEndianReads(2, 2);
    LittleEndianReads(16, 2);
    FormatSlices(LittleEndian(1, 2), LittleEndian(1, 2), LittleEndian(16000, 4), LittleEndian(32000, 4),
                 LittleEndian(2, 2), LittleEndian(16, 2));
  }

  lemma FormatSlices(a: seq<Byte>, b: seq<Byte>, c: seq<Byte>, d: seq<Byte>, e: seq<Byte>, f: seq<Byte>)
    requires |a| == |b| == |e| == |f| == 2 && |c| == |d| == 4
    ensures var h := a + b + c + d + e + f;
            h[..2] == a && h[2..4] == b && h[4..8] == c && h[8..12] == d && h[12..14] == e && h[14..16] == f
  {
  }

  lemma DataHeaderReads(n: nat)
    requires n <= TARGET_RATE * MAX_SECONDS
    ensures DataHeader(n)[..4] == [0x64, 0x61, 0x74, 0x61] && FromLittleEndian(DataHeader(n)[4..8]) == 2 * n
  {
    Capacities();
    LittleEndianReads(2 * n, 4);
    assert DataHeader(n)[4..8] == LittleEndian(2 * n, 4);
  }

  /** Where the parts of the three headers stand in the file. */
  lemma WaveSlices(a: seq<Byte>, b: seq<Byte>, c: seq<Byte>, d: seq<Byte>)
    requires |a| == 20 && |b| == 16 && |c| == 8
    ensures var w := a + b + c + d;
            && w[..4] == a[..4] && w[4..8] == a[4..8] && w[8..12] == a[8..12] && w[12..16] == a[12..16]
            && w[16..20] == a[16..20]
            && w[20..22] == b[..2] && w[22..24] == b[2..4] && w[24..28] == b[4..8] && w[28..32] == b[8..12]
            && w[32..34] == b[12..14] && w[34..36] == b[14..16] && w[36..40] == c[..4] && w[40..44] == c[4..8]
            && w[44..] == d
  {
  }

  lemma SamplesRead(samples: seq<Sample>)
    ensures ReadSamples(DataBytes(samples)) == QuantizedAll(samples)
  {
    var d := DataBytes(samples);
    forall i | 0 <= i < |samples| ensures ReadSamples(d)[i] == QuantizedAll(samples)[i] {
      DataReads(samples, i);
    }
  }

  /** A player reads every file that is written, and finds one channel at the target rate with the quantized samples. */
  lemma WaveReads(samples: seq<Sample>)
    requires Wave(samples).Some?
    ensures ReadWave(Wave(samples).value) == Some(Audio(1, TARGET_RATE, 16, QuantizedAll(samples)))
  {
    var n := |samples|;
    RiffReads(n);
    FormatReads();
    DataHeaderReads(n);
    WaveSlices(RiffHeader(n), FormatHeader(), DataHeader(n), DataBytes(samples));
    SamplesRead(samples);
  }

  /**
   A recording of at most a minute is written, however it is resampled, unless it
   is empty and was captured at the target rate.
   */
  lemma RecordingWritten(samples: seq<real>, rate: nat)
    requires rate > 0 && |samples| <= rate * MAX_SECONDS
    ensures Wave(Resampled(samples, rate)).None? <==> samples == [] && rate == TARGET_RATE
  {
    ResampledLength(samples, rate);
  }

  /** At any other rate an empty recording is not refused: it is written as one sample of silence. */
  lemma EmptyRecordingWritten(rate: nat)
    requires rate > 0 && rate != TARGET_RATE
    ensures Resampled([], rate) == [None]
    ensures Wave(Resampled([], rate)) == Some(WaveHeader(1) + Int16Bytes(0))
  {
    assert 0 * TARGET_RATE / rate == 0;
    var none: Sample := None;
    assert Resampled([], rate) == [none];
    assert DataBytes([none]) == Int16Bytes(0) by { assert [none][..0] == []; }
  }
}
