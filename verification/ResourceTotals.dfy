/** Exact aggregation of container limits and their comparison with a policy ceiling. */
module ResourceTotals {
  import opened Common
  import opened Quantity
  import opened QuantityExact

  const MILLICORE: nat := 1_000_000

  datatype Dimension = Cpu | Memory | Storage

  datatype Amounts = Amounts(cpu: string, memory: string, storage: string)

  datatype Container = Container(name: string, requests: Amounts, limits: Amounts)

  datatype Ceiling = Ceiling(maxCpu: string, maxMemory: string)

  datatype Totals = Totals(cpuMillicores: nat, memoryBytes: nat, cpuNanocores: nat, memoryNanobytes: nat)

  datatype ResourceError =
    | InvalidQuantity(field: string, value: string)
    | RequestExceedsLimit(container: string, resource: string)
    | AggregateOverflow(resource: string)

  function PositiveNanos(value: string, d: Dimension, field: string): Result<nat, ResourceError> {
    var nanos := QuantityNanos(value);
    if nanos.Some? && nanos.value > 0 && (d.Cpu? ==> nanos.value >= MILLICORE && nanos.value % MILLICORE == 0)
    then Ok(nanos.value) else Err(InvalidQuantity(field, value))
  }

  /** One container's checks, in the operator's order: six quantities, then three comparisons. */
  function ContainerLimits(c: Container): Result<(nat, nat), ResourceError> {
    var requestCpu := PositiveNanos(c.requests.cpu, Cpu, "requests.cpu");
    var limitCpu := PositiveNanos(c.limits.cpu, Cpu, "limits.cpu");
    var requestMemory := PositiveNanos(c.requests.memory, Memory, "requests.memory");
    var limitMemory := PositiveNanos(c.limits.memory, Memory, "limits.memory");
    var requestStorage := PositiveNanos(c.requests.storage, Storage, "requests.ephemeralStorage");
    var limitStorage := PositiveNanos(c.limits.storage, Storage, "limits.ephemeralStorage");
    var parsed := Then(requestCpu, Then(limitCpu, Then(requestMemory, Then(limitMemory,
        Then(requestStorage, limitStorage)))));
    if parsed.Err? then Err(parsed.error)
    else if requestCpu.value > limitCpu.value then Err(RequestExceedsLimit(c.name, "cpu"))
    else if requestMemory.value > limitMemory.value then Err(RequestExceedsLimit(c.name, "memory"))
    else if requestStorage.value > limitStorage.value then Err(RequestExceedsLimit(c.name, "ephemeral-storage"))
    else Ok((limitCpu.value, limitMemory.value))
  }

  // ---------------------------------------------------------------- specification

  function Amount(a: Amounts, d: Dimension): string {
    match d case Cpu => a.cpu case Memory => a.memory case Storage => a.storage
  }

  predicate ValidAmount(value: string, d: Dimension) {
    && QuantityNanos(value).Some? && QuantityNanos(value).value > 0
    && (d.Cpu? ==> QuantityNanos(value).value % 1_000_000 == 0)
  }

  /** Every amount is valid and no request exceeds its limit, compared exactly. */
  predicate Sound(c: Container) {
    forall d :: d == Cpu || d == Memory || d == Storage ==>
      && ValidAmount(Amount(c.requests, d), d) && ValidAmount(Amount(c.limits, d), d)
      && QuantityNanos(Amount(c.requests, d)).value <= QuantityNanos(Amount(c.limits, d)).value
  }

  function Limit(c: Container, d: Dimension): nat {
    var nanos := QuantityNanos(Amount(c.limits, d));
    if nanos.Some? then nanos.value else 0
  }

  function Total(cs: seq<Container>, d: Dimension): nat {
    if cs == [] then 0 else Total(cs[..|cs| - 1], d) + Limit(cs[|cs| - 1], d)
  }

  predicate AllSound(cs: seq<Container>) { forall i :: 0 <= i < |cs| ==> Sound(cs[i]) }

  /** The totals of a template, when it has any. */
  function Aggregate(cs: seq<Container>): Option<Totals> {
    var cpu, memory := Total(cs, Cpu), Total(cs, Memory);
    if AllSound(cs) && cpu < U128 && memory < U128
    then Some(Totals(RoundUp(cpu, MILLICORE), RoundUp(memory, NANO), cpu, memory)) else None
  }

  function RoundUp(n: nat, d: nat): (r: nat)
    requires d > 0
    ensures IsCeil(r, n, d)
  {
    CeilDivIsCeil(n, d);
    n / d + if n % d != 0 then 1 else 0
  }

  lemma ContainerLimitsMeaning(c: Container)
    ensures ContainerLimits(c).Ok? <==> Sound(c)
    ensures ContainerLimits(c).Ok? ==> ContainerLimits(c).value == (Limit(c, Cpu), Limit(c, Memory))
  {
    hide QuantityNanos;
    assert Amount(c.requests, Cpu) == c.requests.cpu && Amount(c.limits, Cpu) == c.limits.cpu;
    assert Amount(c.requests, Memory) == c.requests.memory && Amount(c.limits, Memory) == c.limits.memory;
    assert Amount(c.requests, Storage) == c.requests.storage && Amount(c.limits, Storage) == c.limits.storage;
  }

  /** A container's amounts in the order they are read, with the names errors give them. */
  function Entry(c: Container, i: nat): (string, string, Dimension)
    requires i < 6
  {
    match i
    case 0 => ("requests.cpu", c.requests.cpu, Cpu)
    case 1 => ("limits.cpu", c.limits.cpu, Cpu)
    case 2 => ("requests.memory", c.requests.memory, Memory)
    case 3 => ("limits.memory", c.limits.memory, Memory)
    case 4 => ("requests.ephemeralStorage", c.requests.storage, Storage)
    case 5 => ("limits.ephemeralStorage", c.limits.storage, Storage)
  }

  predicate EntryValid(c: Container, i: nat)
    requires i < 6
  {
    ValidAmount(Entry(c, i).1, Entry(c, i).2)
  }

  predicate Exceeds(c: Container, d: Dimension) {
    var nanos := QuantityNanos(Amount(c.requests, d));
    nanos.Some? && nanos.value > Limit(c, d)
  }

  /** The error names the first amount that is not valid, or else the first request above its limit. */
  predicate Blamed(c: Container, e: ResourceError) {
    if forall i :: 0 <= i < 6 ==> EntryValid(c, i) then
      || (e == RequestExceedsLimit(c.name, "cpu") && Exceeds(c, Cpu))
      || (e == RequestExceedsLimit(c.name, "memory") && !Exceeds(c, Cpu) && Exceeds(c, Memory))
      || (&& e == RequestExceedsLimit(c.name, "ephemeral-storage")
          && !Exceeds(c, Cpu) && !Exceeds(c, Memory) && Exceeds(c, Storage))
    else
      exists i :: 0 <= i < 6 && !EntryValid(c, i) && (forall j :: 0 <= j < i ==> EntryValid(c, j))
                  && e == InvalidQuantity(Entry(c, i).0, Entry(c, i).1)
  }

  lemma PositiveIffValid(value: string, d: Dimension, field: string)
    ensures PositiveNanos(value, d, field) ==
            if ValidAmount(value, d) then Ok(QuantityNanos(value).value) else Err(InvalidQuantity(field, value))
    ensures ValidAmount(value, d) ==> QuantityNanos(value).Some?
  {
    hide QuantityNanos;
  }

  lemma ErrorsNameTheFault(c: Container)
    requires ContainerLimits(c).Err?
    ensures Blamed(c, ContainerLimits(c).error)
  {
    PositiveIffValid(c.requests.cpu, Cpu, "requests.cpu");
    PositiveIffValid(c.limits.cpu, Cpu, "limits.cpu");
    PositiveIffValid(c.requests.memory, Memory, "requests.memory");
    PositiveIffValid(c.limits.memory, Memory, "limits.memory");
    PositiveIffValid(c.requests.storage, Storage, "requests.ephemeralStorage");
    PositiveIffValid(c.limits.storage, Storage, "limits.ephemeralStorage");
    hide PositiveNanos, ValidAmount, QuantityNanos;
    if i :| 0 <= i < 6 && !EntryValid(c, i) {
      var first := if !EntryValid(c, 0) then 0 else if !EntryValid(c, 1) then 1 else if !EntryValid(c, 2) then 2
                   else if !EntryValid(c, 3) then 3 else if !EntryValid(c, 4) then 4 else 5;
      assert !EntryValid(c, first) && forall j :: 0 <= j < first ==> EntryValid(c, j);
    } else {
      assert EntryValid(c, 0) && EntryValid(c, 1) && EntryValid(c, 2) && EntryValid(c, 3) && EntryValid(c, 4)
          && EntryValid(c, 5);
    }
  }

  /** The operator's running totals. A failure names the first container that is unsound, or the
      first total that no longer fits. */
  method AggregateResourceLimits(cs: seq<Container>) returns (r: Result<Totals, ResourceError>)
    ensures r.Ok? ==> Aggregate(cs) == Some(r.value)
    ensures r.Err? ==> Aggregate(cs) == None
    ensures r.Err? ==> exists i :: 0 <= i < |cs| && AllSound(cs[..i]) && FailsAt(cs, i, r.error)
  {
    hide QuantityNanos, ContainerLimits, Sound, Limit, Blamed;
    var cpu, memory := 0, 0;
    for i := 0 to |cs|
      invariant AllSound(cs[..i])
      invariant cpu == Total(cs[..i], Cpu) < U128 && memory == Total(cs[..i], Memory) < U128
    {
      ContainerLimitsMeaning(cs[i]);
      var limits := ContainerLimits(cs[i]);
      if limits.Err? {
        ErrorsNameTheFault(cs[i]);
        return Err(limits.error);
      }
      TotalPrefix(cs, i, Cpu);
      TotalPrefix(cs, i, Memory);
      cpu := cpu + limits.value.0;
      if cpu >= U128 { return Err(AggregateOverflow("cpu")); }
      memory := memory + limits.value.1;
      if memory >= U128 { return Err(AggregateOverflow("memory")); }
      assert cs[..i + 1] == cs[..i] + [cs[i]];
    }
    assert cs[..|cs|] == cs;
    r := Ok(Totals(RoundUp(cpu, MILLICORE), RoundUp(memory, NANO), cpu, memory));
  }

  predicate FailsAt(cs: seq<Container>, i: nat, e: ResourceError)
    requires i < |cs|
  {
    || (!Sound(cs[i]) && Blamed(cs[i], e))
    || (Sound(cs[i]) && Total(cs[..i + 1], Cpu) >= U128 && e == AggregateOverflow("cpu"))
    || (Sound(cs[i]) && Total(cs[..i + 1], Cpu) < U128 && Total(cs[..i + 1], Memory) >= U128
        && e == AggregateOverflow("memory"))
  }

  lemma {:induction false} TotalPrefix(cs: seq<Container>, i: nat, d: Dimension)
    requires i < |cs|
    ensures Total(cs[..i + 1], d) == Total(cs[..i], d) + Limit(cs[i], d) <= Total(cs, d)
    decreases |cs| - i
  {
    hide Limit;
    assert cs[..i + 1][..i] == cs[..i];
    if i + 1 == |cs| {
      assert cs[..i + 1] == cs;
    } else {
      TotalPrefix(cs, i + 1, d);
    }
  }

  // ---------------------------------------------------------------- theorems

  lemma {:induction false} TotalAppend(a: seq<Container>, b: seq<Container>, d: Dimension)
    ensures Total(a + b, d) == Total(a, d) + Total(b, d)
    decreases |b|
  {
    hide Limit;
    if b == [] {
      assert a + b == a;
    } else {
      var c := b[..|b| - 1];
      assert (a + b)[..|a + b| - 1] == a + c;
      TotalAppend(a, c, d);
    }
  }

  lemma RemoveAt<T>(b: seq<T>, i: nat)
    requires i < |b|
    ensures multiset(b[..i] + b[i + 1..]) == multiset(b) - multiset{b[i]}
  {
    var left, right := b[..i], b[i + 1..];
    assert b == left + ([b[i]] + right);
    assert multiset(left + right) == multiset(left) + multiset(right);
    assert multiset(b) == multiset(left) + (multiset{b[i]} + multiset(right));
  }

  lemma RemoveLast<T>(a: seq<T>)
    requires a != []
    ensures multiset(a[..|a| - 1]) == multiset(a) - multiset{a[|a| - 1]}
  {
    assert a == a[..|a| - 1] + [a[|a| - 1]];
  }

  /** Taking the same element out of two reorderings leaves two reorderings. */
  lemma ExtractLast<T>(a: seq<T>, b: seq<T>) returns (i: nat)
    requires multiset(a) == multiset(b) && a != []
    ensures i < |b| && b[i] == a[|a| - 1]
    ensures multiset(a[..|a| - 1]) == multiset(b[..i] + b[i + 1..])
  {
    var x := a[|a| - 1];
    assert x in multiset(a);
    i :| 0 <= i < |b| && b[i] == x;
    RemoveLast(a);
    RemoveAt(b, i);
  }

  lemma SameLength<T>(a: seq<T>, b: seq<T>)
    requires multiset(a) == multiset(b)
    ensures |a| == |b|
  {
    assert |multiset(a)| == |a| && |multiset(b)| == |b|;
  }

  lemma {:induction false} TotalReordered(a: seq<Container>, b: seq<Container>, d: Dimension)
    requires multiset(a) == multiset(b)
    ensures Total(a, d) == Total(b, d)
    decreases |a|
  {
    hide QuantityNanos, Limit;
    SameLength(a, b);
    if a != [] {
      var i := ExtractLast(a, b);
      var left, right := b[..i], b[i + 1..];
      TotalReordered(a[..|a| - 1], left + right, d);
      TotalAppend(left, right, d);
      TotalAppend(b[..i + 1], right, d);
      assert b == b[..i + 1] + right && b[..i + 1][..i] == left;
    }
  }

  /** Success and totals do not depend on the order of the containers. */
  lemma AggregateIgnoresOrder(a: seq<Container>, b: seq<Container>)
    requires multiset(a) == multiset(b)
    ensures Aggregate(a) == Aggregate(b)
  {
    hide QuantityNanos;
    TotalReordered(a, b, Cpu);
    TotalReordered(a, b, Memory);
    assert forall c :: c in a <==> c in multiset(a);
    assert forall c :: c in b <==> c in multiset(b);
    assert AllSound(a) <==> forall c :: c in a ==> Sound(c);
    assert AllSound(b) <==> forall c :: c in b ==> Sound(c);
  }

  lemma {:induction false} CpuWhole(cs: seq<Container>)
    requires AllSound(cs)
    ensures Total(cs, Cpu) % MILLICORE == 0
  {
    hide QuantityNanos;
    if cs != [] {
      var c := cs[|cs| - 1];
      CpuWhole(cs[..|cs| - 1]);
      assert Sound(c) && Amount(c.limits, Cpu) == c.limits.cpu;
      assert ValidAmount(Amount(c.limits, Cpu), Cpu);
    }
  }

  /** The totals are the exact sums, the bytes their least whole number at or above, and the millicores
      lose nothing in rounding. */
  lemma TotalsAreSums(cs: seq<Container>)
    requires Aggregate(cs).Some?
    ensures var t := Aggregate(cs).value;
            && t.cpuNanocores == Total(cs, Cpu) && t.cpuMillicores * 1_000_000 == Total(cs, Cpu)
            && t.memoryNanobytes == Total(cs, Memory) && IsCeil(t.memoryBytes, Total(cs, Memory), 1_000_000_000)
  {
    hide QuantityNanos;
    CpuWhole(cs);
  }

  lemma {:induction false} TotalBounded(cs: seq<Container>, d: Dimension)
    ensures Total(cs, d) <= |cs| * MAX_NANOS
  {
    hide QuantityNanos;
    if cs != [] { TotalBounded(cs[..|cs| - 1], d); }
  }

  /** No template of up to 2^35 containers can overflow: it fails only on an unsound container. */
  lemma OverflowUnreachable(cs: seq<Container>)
    requires |cs| <= 0x8_0000_0000
    ensures Aggregate(cs).Some? <==> AllSound(cs)
  {
    hide QuantityNanos;
    TotalBounded(cs, Cpu);
    TotalBounded(cs, Memory);
  }

  // ---------------------------------------------------------------- policy ceilings

  function ParseResourceCeiling(c: Ceiling): Result<Totals, ResourceError> {
    var cpu := PositiveNanos(c.maxCpu, Cpu, "resourceCeiling.maxCpu");
    var memory := PositiveNanos(c.maxMemory, Memory, "resourceCeiling.maxMemory");
    if cpu.Err? then Err(cpu.error) else if memory.Err? then Err(memory.error)
    else Ok(Totals(RoundUp(cpu.value, MILLICORE), RoundUp(memory.value, NANO), cpu.value, memory.value))
  }

  /** A ceiling parses exactly when both amounts are valid, and an error names the first that is not. */
  lemma CeilingMeaning(c: Ceiling)
    ensures ParseResourceCeiling(c).Ok? <==> ValidAmount(c.maxCpu, Cpu) && ValidAmount(c.maxMemory, Memory)
    ensures ParseResourceCeiling(c).Ok? ==>
              var t := ParseResourceCeiling(c).value;
              && t.cpuNanocores == QuantityNanos(c.maxCpu).value && t.cpuMillicores * 1_000_000 == t.cpuNanocores
              && t.memoryNanobytes == QuantityNanos(c.maxMemory).value
              && IsCeil(t.memoryBytes, t.memoryNanobytes, 1_000_000_000)
    ensures ParseResourceCeiling(c).Err? ==>
              ParseResourceCeiling(c).error ==
              if !ValidAmount(c.maxCpu, Cpu) then InvalidQuantity("resourceCeiling.maxCpu", c.maxCpu)
              else InvalidQuantity("resourceCeiling.maxMemory", c.maxMemory)
  {
    hide QuantityNanos;
    PositiveIffValid(c.maxCpu, Cpu, "resourceCeiling.maxCpu");
    PositiveIffValid(c.maxMemory, Memory, "resourceCeiling.maxMemory");
  }

  function ResourceCeilingAllows(c: Ceiling, requested: Totals): Result<bool, ResourceError> {
    var ceiling := ParseResourceCeiling(c);
    if ceiling.Err? then Err(ceiling.error)
    else Ok(requested.cpuNanocores <= ceiling.value.cpuNanocores
            && requested.memoryNanobytes <= ceiling.value.memoryNanobytes)
  }

  /** A ceiling admits a template exactly when the exact sums of its limits are at most the exact
      ceiling; an invalid ceiling admits nothing. */
  lemma CeilingComparesExactSums(c: Ceiling, cs: seq<Container>)
    requires Aggregate(cs).Some?
    ensures ResourceCeilingAllows(c, Aggregate(cs).value).Ok? <==>
            ValidAmount(c.maxCpu, Cpu) && ValidAmount(c.maxMemory, Memory)
    ensures ResourceCeilingAllows(c, Aggregate(cs).value) == Ok(true) <==>
            && ValidAmount(c.maxCpu, Cpu) && ValidAmount(c.maxMemory, Memory)
            && Total(cs, Cpu) <= QuantityNanos(c.maxCpu).value
            && Total(cs, Memory) <= QuantityNanos(c.maxMemory).value
  {
    hide QuantityNanos;
  }

  /** Raising a ceiling never withdraws an admission. */
  lemma CeilingMonotone(c: Ceiling, c': Ceiling, cs: seq<Container>)
    requires Aggregate(cs).Some? && ResourceCeilingAllows(c, Aggregate(cs).value) == Ok(true)
    requires ValidAmount(c'.maxCpu, Cpu) && QuantityNanos(c.maxCpu).value <= QuantityNanos(c'.maxCpu).value
    requires ValidAmount(c'.maxMemory, Memory) && QuantityNanos(c.maxMemory).value <= QuantityNanos(c'.maxMemory).value
    ensures ResourceCeilingAllows(c', Aggregate(cs).value) == Ok(true)
  {
    hide QuantityNanos;
    CeilingComparesExactSums(c, cs);
    CeilingComparesExactSums(c', cs);
  }
}
