/** Choosing a Fargate CPU and memory pair (provider/defangaws/aws/ecs.go). */
module Fargate {
  import opened Options

  // ----- the published table

  const TIERS := [256, 512, 1024, 2048, 4096, 8192, 16384]

  predicate IsTier(cpu: int) {
    cpu in TIERS
  }

  datatype Range = Range(min: int, max: int, step: int)

  /** The memory sizes a tier offers: its least one, and the multiples of the step up to its largest. */
  function MemoryOf(cpu: int): Range
    requires IsTier(cpu)
  {
    if cpu == 256 then Range(512, 2048, 1024)
    else if cpu == 512 then Range(1024, 4096, 1024)
    else if cpu == 1024 then Range(2048, 8192, 1024)
    else if cpu == 2048 then Range(4096, 16384, 1024)
    else if cpu == 4096 then Range(8192, 30720, 1024)
    else if cpu == 8192 then Range(16384, 61440, 4096)
    else Range(32768, 122880, 4096)
  }

  predicate IsLegal(cpu: int, mem: int)
    requires IsTier(cpu)
  {
    var r := MemoryOf(cpu);
    mem == r.min || (r.min < mem <= r.max && mem % r.step == 0)
  }

  // ----- the code

  function MakeMinMaxCeil(value: int, minimum: int, maximum: int, step: int): int
    requires step > 0
  {
    if value <= minimum then minimum
    else if value >= maximum then maximum
    else (value + step - 1) / step * step
  }

  /** 2^ceil(log2(vCpu) + 10), the exponent clamped to 8..14, on exact numbers. */
  method FixupFargateCPU(vCpu: real) returns (cpu: int)
    ensures IsTier(cpu)
    ensures vCpu * 1024.0 <= cpu as real || cpu == 16384
    ensures forall t :: IsTier(t) && t < cpu ==> t as real < vCpu * 1024.0
  {
    if vCpu <= 0.0 {
      return 256;
    }
    var exp := 8;
    cpu := 256;
    while exp < 14 && cpu as real < vCpu * 1024.0
      invariant 8 <= exp <= 14 && cpu == TIERS[exp - 8]
      invariant forall i :: 0 <= i < exp - 8 ==> TIERS[i] as real < vCpu * 1024.0
    {
      exp, cpu := exp + 1, cpu * 2;
    }
  }

  /** None stands for the panic on a CPU value that is not a tier. */
  function FixupFargateMemory(cpu: int, memoryMiB: int): Option<int> {
    if cpu == 256 then Some(MakeMinMaxCeil(memoryMiB, 512, 2048, 1024))
    else if cpu == 512 then Some(MakeMinMaxCeil(memoryMiB, 1024, 4096, 1024))
    else if cpu == 1024 then Some(MakeMinMaxCeil(memoryMiB, 2048, 8192, 1024))
    else if cpu == 2048 then Some(MakeMinMaxCeil(memoryMiB, 4096, 16384, 1024))
    else if cpu == 4096 then Some(MakeMinMaxCeil(memoryMiB, 8192, 30720, 1024))
    else if cpu == 8192 then Some(MakeMinMaxCeil(memoryMiB, 16384, 61440, 4096))
    else if cpu == 16384 then Some(MakeMinMaxCeil(memoryMiB, 32768, 122880, 4096))
    else None
  }

  lemma FixupFollowsTable(cpu: int, memoryMiB: int)
    ensures FixupFargateMemory(cpu, memoryMiB).Some? <==> IsTier(cpu)
    ensures IsTier(cpu) ==>
      var r := MemoryOf(cpu); FixupFargateMemory(cpu, memoryMiB) == Some(MakeMinMaxCeil(memoryMiB, r.min, r.max, r.step))
  {
  }

  /** The memory chosen is legal; it is the least one at or above the request, or the tier's largest. */
  lemma MemoryIsLeast(cpu: int, memoryMiB: int)
    requires IsTier(cpu)
    ensures FixupFargateMemory(cpu, memoryMiB).Some?
    ensures var m := FixupFargateMemory(cpu, memoryMiB).value;
      && IsLegal(cpu, m)
      && (m < memoryMiB <==> MemoryOf(cpu).max < memoryMiB)
      && (m < memoryMiB ==> m == MemoryOf(cpu).max)
      && forall l :: IsLegal(cpu, l) && l >= memoryMiB ==> m <= l
  {
    FixupFollowsTable(cpu, memoryMiB);
    var r := MemoryOf(cpu);
    var m := FixupFargateMemory(cpu, memoryMiB).value;
    assert r.min < r.max && r.max % r.step == 0;
    if r.min < memoryMiB < r.max {
      RoundUp(memoryMiB, r.step);
      forall l | l % r.step == 0 && l >= memoryMiB ensures m <= l {
        NextMultiple(memoryMiB, l, r.step);
      }
      NextMultiple(memoryMiB, r.max, r.step);
    }
  }

  lemma RoundUp(value: int, step: int)
    requires step > 0
    ensures var m := (value + step - 1) / step * step; m % step == 0 && value <= m < value + step
  {
    var x := value + step - 1;
    assert x == x / step * step + x % step;
    MultipleOf(x / step, step);
  }

  lemma MultipleOf(q: int, step: int)
    requires step > 0
    ensures (q * step) % step == 0
  {
    var k := (q * step) / step;
    assert q * step - k * step == (q - k) * step;
    MulMonotone(q - k, -1, step);
    MulMonotone(1, q - k, step);
  }

  lemma MulMonotone(a: int, b: int, step: int)
    requires step > 0
    ensures a <= b ==> a * step <= b * step
  {
  }

  lemma NextMultiple(value: int, l: int, step: int)
    requires step > 0 && l % step == 0 && l >= value
    ensures (value + step - 1) / step * step <= l
  {
    RoundUp(value, step);
    var m := (value + step - 1) / step;
    var q := l / step;
    assert l == q * step && (m - 1) * step == m * step - step;
    MulMonotone(q, m - 1, step);
    MulMonotone(m, q, step);
  }

  /** The pair chosen, or None where the source panics. */
  method FargateResources(cpus: real, memoryMiB: int) returns (r: Option<(int, int)>, ghost asked: int)
    ensures IsTier(asked) && (cpus * 1024.0 <= asked as real || asked == 16384)
    ensures forall t :: IsTier(t) && t < asked ==> t as real < cpus * 1024.0
    ensures r.Some? <==> memoryMiB <= 122880
    ensures r.Some? ==> IsLeastPair(asked, memoryMiB, r.value.0, r.value.1)
  {
    var cpu := FixupFargateCPU(cpus);
    asked := cpu;
    FixupFollowsTable(cpu, memoryMiB);
    var mem := FixupFargateMemory(cpu, memoryMiB).value;
    MemoryIsLeast(cpu, memoryMiB);
    while mem < memoryMiB
      invariant IsTier(cpu) && asked <= cpu
      invariant mem == FixupFargateMemory(cpu, memoryMiB).value
      invariant mem < memoryMiB <==> MemoryOf(cpu).max < memoryMiB
      invariant forall t :: IsTier(t) && asked <= t < cpu ==> MemoryOf(t).max < memoryMiB
      decreases 16384 - cpu
    {
      cpu := cpu * 2;
      FixupFollowsTable(cpu, memoryMiB);
      var next := FixupFargateMemory(cpu, memoryMiB);
      if next.None? {
        return None, asked;
      }
      mem := next.value;
      MemoryIsLeast(cpu, memoryMiB);
    }
    MemoryIsLeast(cpu, memoryMiB);
    r := Some((cpu, mem));
  }

  /** The smallest tier from `asked` on that can hold the memory, and the least of its sizes that does. */
  ghost predicate IsLeastPair(asked: int, memoryMiB: int, cpu: int, mem: int) {
    && IsTier(asked) && IsTier(cpu) && asked <= cpu
    && (forall t :: IsTier(t) && asked <= t < cpu ==> MemoryOf(t).max < memoryMiB)
    && IsLegal(cpu, mem) && memoryMiB <= mem
    && forall l :: IsLegal(cpu, l) && memoryMiB <= l ==> mem <= l
  }
}
