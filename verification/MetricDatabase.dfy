/** The metric database (server/MetricDatabase.cpp): a map from metric names to decimal texts,
    refreshed from numbers the compiler and the operating system report. */
module MetricDatabase {
  import opened CStrings
  import opened Decimals
  import opened MetricBody

  // ---- what a refresh writes ----

  datatype Cpu = Cpu(load: int, average: int, jvm: int)
  datatype Usage = Usage(maxrss: int, minflt: int, majflt: int, inblock: int, oublock: int, nvcsw: int, nivcsw: int)
  datatype Machine = Machine(totalram: int, freeram: int)

  /** The numbers one refresh reads; `None` where the system call or the CPU sampling gave nothing. */
  datatype Sample = Sample(
    queueSize: int, sessions: int, threads: int, active: int, freeMb: int, clearedCaches: int,
    cpu: Option<Cpu>, usage: Option<Usage>, machine: Option<Machine>)

  datatype Metric = Metric(name: string, value: int)

  function WrittenQueues(s: Sample): seq<Metric> {
    [Metric("compilationQueueSize", s.queueSize), Metric("numberOfClients", s.sessions),
     Metric("totalNumberOfCompilationThreads", s.threads), Metric("totalNumberOfActiveThreads", s.active),
     Metric("physicalMemoryFreeInMB", s.freeMb)]
  }

  function WrittenCaches(cleared: int): seq<Metric> {
    if cleared > 0 then [Metric("numberOfClearedCaches", cleared)] else []
  }

  function WrittenCpu(cpu: Option<Cpu>): seq<Metric> {
    match cpu
    case None => []
    case Some(c) => [Metric("percentCpuLoad", c.load), Metric("percentAverageCpuLoad", c.average),
                     Metric("percentJVMCpuLoad", c.jvm)]
  }

  function WrittenUsage(usage: Option<Usage>): seq<Metric> {
    match usage
    case None => []
    case Some(r) => [Metric("metricServerMaxPeakMemInKB", r.maxrss), Metric("metricServerNumPageFaultNotIO", r.minflt),
                     Metric("metricServerNumPageFaultByIO", r.majflt), Metric("metricServerNumInput", r.inblock),
                     Metric("metricServerNumOutput", r.oublock), Metric("metricServerNumVolCS", r.nvcsw),
                     Metric("metricServerNumInVolCS", r.nivcsw)]
  }

  function WrittenMachine(machine: Option<Machine>): seq<Metric> {
    match machine
    case None => []
    case Some(i) => [Metric("machineTotalUsageMemInB", i.totalram), Metric("machineTotalFreeMemInB", i.freeram)]
  }

  /** The metrics one refresh writes, in order. */
  function Written(s: Sample): seq<Metric> {
    WrittenQueues(s) + WrittenCaches(s.clearedCaches) + WrittenCpu(s.cpu) + WrittenUsage(s.usage)
    + WrittenMachine(s.machine)
  }

  /** A database after some writes. */
  function Store(m: map<string, string>, writes: seq<Metric>): map<string, string> {
    if writes == [] then m
    else
      var w := writes[|writes| - 1];
      Store(m, writes[..|writes| - 1])[w.name := Decimal(w.value)]
  }

  lemma {:induction false} StoreOne(m: map<string, string>, writes: seq<Metric>, w: Metric)
    ensures Store(m, writes + [w]) == Store(m, writes)[w.name := Decimal(w.value)]
  {
    assert (writes + [w])[..|writes|] == writes;
  }

  lemma {:induction false} StoreConcat(m: map<string, string>, a: seq<Metric>, b: seq<Metric>)
    ensures Store(m, a + b) == Store(Store(m, a), b)
  {
    if b == [] {
      assert a + b == a;
    } else {
      var front, last := b[..|b| - 1], b[|b| - 1];
      assert b == front + [last] && a + b == (a + front) + [last];
      StoreConcat(m, a, front);
      StoreOne(m, a + front, last);
      StoreOne(Store(m, a), front, last);
    }
  }

  // ---- which number stands under which name ----

  /** The numbers a database or a page holds. */
  function Numbers(m: map<string, string>): map<string, int> { map k | k in m :: ReadDecimal(m[k]) }

  predicate Stands(numbers: map<string, int>, name: string, n: int) { name in numbers && numbers[name] == n }

  predicate QueuesTold(numbers: map<string, int>, s: Sample) {
    && Stands(numbers, "compilationQueueSize", s.queueSize)
    && Stands(numbers, "numberOfClients", s.sessions)
    && Stands(numbers, "totalNumberOfCompilationThreads", s.threads)
    && Stands(numbers, "totalNumberOfActiveThreads", s.active)
    && Stands(numbers, "physicalMemoryFreeInMB", s.freeMb)
  }

  predicate CpuTold(numbers: map<string, int>, c: Cpu) {
    && Stands(numbers, "percentCpuLoad", c.load)
    && Stands(numbers, "percentAverageCpuLoad", c.average)
    && Stands(numbers, "percentJVMCpuLoad", c.jvm)
  }

  predicate UsageTold(numbers: map<string, int>, r: Usage) {
    && Stands(numbers, "metricServerMaxPeakMemInKB", r.maxrss)
    && Stands(numbers, "metricServerNumPageFaultNotIO", r.minflt)
    && Stands(numbers, "metricServerNumPageFaultByIO", r.majflt)
    && Stands(numbers, "metricServerNumInput", r.inblock)
    && Stands(numbers, "metricServerNumOutput", r.oublock)
    && Stands(numbers, "metricServerNumVolCS", r.nvcsw)
    && Stands(numbers, "metricServerNumInVolCS", r.nivcsw)
  }

  predicate MachineTold(numbers: map<string, int>, i: Machine) {
    && Stands(numbers, "machineTotalUsageMemInB", i.totalram)
    && Stands(numbers, "machineTotalFreeMemInB", i.freeram)
  }

  /** What a refresh has to leave: each number under its name, as far as it could be read. */
  ghost predicate Told(numbers: map<string, int>, s: Sample) {
    && QueuesTold(numbers, s)
    && (s.clearedCaches > 0 ==> Stands(numbers, "numberOfClearedCaches", s.clearedCaches))
    && (s.cpu.Some? ==> CpuTold(numbers, s.cpu.value))
    && (s.usage.Some? ==> UsageTold(numbers, s.usage.value))
    && (s.machine.Some? ==> MachineTold(numbers, s.machine.value))
  }

  predicate Same(before: map<string, string>, after: map<string, string>, name: string) {
    (name in before <==> name in after) && (name in before ==> after[name] == before[name])
  }

  const QUEUE_NAMES := {
    "compilationQueueSize", "numberOfClients", "totalNumberOfCompilationThreads", "totalNumberOfActiveThreads",
    "physicalMemoryFreeInMB"}
  const CACHES_NAMES := {"numberOfClearedCaches"}
  const CPU_NAMES := {"percentCpuLoad", "percentAverageCpuLoad", "percentJVMCpuLoad"}
  const USAGE_NAMES := {
    "metricServerMaxPeakMemInKB", "metricServerNumPageFaultNotIO", "metricServerNumPageFaultByIO",
    "metricServerNumInput", "metricServerNumOutput", "metricServerNumVolCS", "metricServerNumInVolCS"}
  const MACHINE_NAMES := {"machineTotalUsageMemInB", "machineTotalFreeMemInB"}

  /** The names a refresh writes. */
  function NamesOf(s: Sample): set<string> {
    QUEUE_NAMES + (if s.clearedCaches > 0 then CACHES_NAMES else {}) + (if s.cpu.Some? then CPU_NAMES else {})
    + (if s.usage.Some? then USAGE_NAMES else {}) + (if s.machine.Some? then MACHINE_NAMES else {})
  }

  /** And all others it has to leave alone. */
  ghost predicate LeftAlone(before: map<string, string>, after: map<string, string>, s: Sample) {
    forall name | name !in NamesOf(s) :: Same(before, after, name)
  }

  lemma PutIsRead(db: map<string, string>, name: string, n: int, other: string, k: int)
    ensures Stands(Numbers(db[name := Decimal(n)]), name, n)
    ensures name != other && Stands(Numbers(db), other, k) ==> Stands(Numbers(db[name := Decimal(n)]), other, k)
  {
    hide Decimal, ReadDecimal;
    DecimalRoundTrip(n);
  }

  lemma {:induction false} LastWins(m: map<string, string>, writes: seq<Metric>, i: nat)
    requires i < |writes| && forall j | i < j < |writes| :: writes[j].name != writes[i].name
    ensures Stands(Numbers(Store(m, writes)), writes[i].name, writes[i].value)
    decreases |writes|
  {
    hide Numbers, Stands, Decimal;
    var n := |writes| - 1;
    PutIsRead(Store(m, writes[..n]), writes[n].name, writes[n].value, writes[i].name, writes[i].value);
    if i < n { LastWins(m, writes[..n], i); }
  }

  lemma {:induction false} Elsewhere(m: map<string, string>, writes: seq<Metric>, name: string)
    requires forall w | w in writes :: w.name != name
    ensures Same(m, Store(m, writes), name)
    decreases |writes|
  {
    if writes != [] {
      var n := |writes| - 1;
      assert writes[n] in writes;
      Elsewhere(m, writes[..n], name);
    }
  }

  lemma {:induction false} QueuesAreTold(m: map<string, string>, s: Sample)
    ensures QueuesTold(Numbers(Store(m, WrittenQueues(s))), s)
    ensures forall w | w in WrittenQueues(s) :: w.name in QUEUE_NAMES
  {
    var writes := WrittenQueues(s);
    hide Store, Numbers, Stands;
    LastWins(m, writes, 0);
    LastWins(m, writes, 1);
    LastWins(m, writes, 2);
    LastWins(m, writes, 3);
    LastWins(m, writes, 4);
  }

  lemma {:induction false} CachesAreTold(m: map<string, string>, cleared: int)
    ensures cleared > 0 ==> Stands(Numbers(Store(m, WrittenCaches(cleared))), "numberOfClearedCaches", cleared)
    ensures forall w | w in WrittenCaches(cleared) :: w.name in CACHES_NAMES
  {
    hide Store, Numbers, Stands;
    if cleared > 0 { LastWins(m, WrittenCaches(cleared), 0); }
  }

  lemma {:induction false} CpuIsTold(m: map<string, string>, cpu: Option<Cpu>)
    ensures cpu.Some? ==> CpuTold(Numbers(Store(m, WrittenCpu(cpu))), cpu.value)
    ensures forall w | w in WrittenCpu(cpu) :: w.name in CPU_NAMES
  {
    hide Store, Numbers, Stands;
    if cpu.Some? {
      LastWins(m, WrittenCpu(cpu), 0);
      LastWins(m, WrittenCpu(cpu), 1);
      LastWins(m, WrittenCpu(cpu), 2);
    }
  }

  lemma {:induction false} UsageIsTold(m: map<string, string>, usage: Option<Usage>)
    ensures usage.Some? ==> UsageTold(Numbers(Store(m, WrittenUsage(usage))), usage.value)
    ensures forall w | w in WrittenUsage(usage) :: w.name in USAGE_NAMES
  {
    hide Store, Numbers, Stands;
    if usage.Some? {
      var writes := WrittenUsage(usage);
      LastWins(m, writes, 0);
      LastWins(m, writes, 1);
      LastWins(m, writes, 2);
      LastWins(m, writes, 3);
      LastWins(m, writes, 4);
      LastWins(m, writes, 5);
      LastWins(m, writes, 6);
    }
  }

  lemma {:induction false} MachineIsTold(m: map<string, string>, machine: Option<Machine>)
    ensures machine.Some? ==> MachineTold(Numbers(Store(m, WrittenMachine(machine))), machine.value)
    ensures forall w | w in WrittenMachine(machine) :: w.name in MACHINE_NAMES
  {
    hide Store, Numbers, Stands;
    if machine.Some? {
      LastWins(m, WrittenMachine(machine), 0);
      LastWins(m, WrittenMachine(machine), 1);
    }
  }

  lemma NamesAreApart()
    ensures QUEUE_NAMES !! CACHES_NAMES !! CPU_NAMES !! USAGE_NAMES !! MACHINE_NAMES
  {
  }

  lemma {:induction false} Carried(m: map<string, string>, writes: seq<Metric>, names: set<string>)
    requires forall w | w in writes :: w.name !in names
    ensures forall name | name in names :: Same(m, Store(m, writes), name)
  {
    forall name | name in names ensures Same(m, Store(m, writes), name) {
      Elsewhere(m, writes, name);
    }
  }

  lemma QueuesStay(b: map<string, string>, c: map<string, string>, s: Sample)
    requires QueuesTold(Numbers(b), s) && forall name | name in QUEUE_NAMES :: Same(b, c, name)
    ensures QueuesTold(Numbers(c), s)
  {
  }

  lemma CachesStay(b: map<string, string>, c: map<string, string>, n: int)
    requires Stands(Numbers(b), "numberOfClearedCaches", n) && forall name | name in CACHES_NAMES :: Same(b, c, name)
    ensures Stands(Numbers(c), "numberOfClearedCaches", n)
  {
  }

  lemma CpuStays(b: map<string, string>, c: map<string, string>, cpu: Cpu)
    requires CpuTold(Numbers(b), cpu) && forall name | name in CPU_NAMES :: Same(b, c, name)
    ensures CpuTold(Numbers(c), cpu)
  {
  }

  lemma UsageStays(b: map<string, string>, c: map<string, string>, usage: Usage)
    requires UsageTold(Numbers(b), usage) && forall name | name in USAGE_NAMES :: Same(b, c, name)
    ensures UsageTold(Numbers(c), usage)
  {
  }

  lemma {:induction false} NamesWritten(m: map<string, string>, s: Sample)
    ensures forall w | w in WrittenQueues(s) :: w.name in QUEUE_NAMES
    ensures forall w | w in WrittenCaches(s.clearedCaches) :: w.name in CACHES_NAMES
    ensures forall w | w in WrittenCpu(s.cpu) :: w.name in CPU_NAMES
    ensures forall w | w in WrittenUsage(s.usage) :: w.name in USAGE_NAMES
    ensures forall w | w in WrittenMachine(s.machine) :: w.name in MACHINE_NAMES
  {
    QueuesAreTold(m, s);
    CachesAreTold(m, s.clearedCaches);
    CpuIsTold(m, s.cpu);
    UsageIsTold(m, s.usage);
    MachineIsTold(m, s.machine);
  }

  /** The groups of writes, one after the other. */
  lemma {:induction false} StoreInGroups(m: map<string, string>, s: Sample)
    ensures var q := Store(m, WrittenQueues(s));
            var c := Store(q, WrittenCaches(s.clearedCaches));
            var p := Store(c, WrittenCpu(s.cpu));
            var u := Store(p, WrittenUsage(s.usage));
            Store(m, Written(s)) == Store(u, WrittenMachine(s.machine))
  {
    hide Store, WrittenQueues, WrittenCaches, WrittenCpu, WrittenUsage, WrittenMachine;
    var a := WrittenQueues(s) + WrittenCaches(s.clearedCaches);
    StoreConcat(m, WrittenQueues(s), WrittenCaches(s.clearedCaches));
    StoreConcat(m, a, WrittenCpu(s.cpu));
    StoreConcat(m, a + WrittenCpu(s.cpu), WrittenUsage(s.usage));
    StoreConcat(m, a + WrittenCpu(s.cpu) + WrittenUsage(s.usage), WrittenMachine(s.machine));
  }

  /** A refresh puts each number it could read under its own name, whatever was there before. */
  lemma {:induction false} RefreshIsTold(m: map<string, string>, s: Sample)
    ensures Told(Numbers(Store(m, Written(s))), s)
  {
    hide Store, Numbers, Stands, Same, QueuesTold, CpuTold, UsageTold, MachineTold, Written,
         WrittenQueues, WrittenCaches, WrittenCpu, WrittenUsage, WrittenMachine;
    StoreInGroups(m, s);
    NamesWritten(m, s);
    NamesAreApart();
    var q := Store(m, WrittenQueues(s));
    var c := Store(q, WrittenCaches(s.clearedCaches));
    var p := Store(c, WrittenCpu(s.cpu));
    var u := Store(p, WrittenUsage(s.usage));
    var all := Store(u, WrittenMachine(s.machine));
    QueuesAreTold(m, s);
    Carried(q, WrittenCaches(s.clearedCaches), QUEUE_NAMES);
    QueuesStay(q, c, s);
    Carried(c, WrittenCpu(s.cpu), QUEUE_NAMES + CACHES_NAMES);
    QueuesStay(c, p, s);
    Carried(p, WrittenUsage(s.usage), QUEUE_NAMES + CACHES_NAMES + CPU_NAMES);
    QueuesStay(p, u, s);
    Carried(u, WrittenMachine(s.machine), QUEUE_NAMES + CACHES_NAMES + CPU_NAMES + USAGE_NAMES);
    QueuesStay(u, all, s);
    CachesAreTold(q, s.clearedCaches);
    if s.clearedCaches > 0 {
      CachesStay(c, p, s.clearedCaches);
      CachesStay(p, u, s.clearedCaches);
      CachesStay(u, all, s.clearedCaches);
    }
    CpuIsTold(c, s.cpu);
    if s.cpu.Some? {
      CpuStays(p, u, s.cpu.value);
      CpuStays(u, all, s.cpu.value);
    }
    UsageIsTold(p, s.usage);
    if s.usage.Some? { UsageStays(u, all, s.usage.value); }
    MachineIsTold(u, s.machine);
  }

  /** And it leaves everything alone that it does not write: other names, and those of a group it could
      not read. */
  lemma {:induction false} RefreshLeavesAlone(m: map<string, string>, s: Sample)
    ensures LeftAlone(m, Store(m, Written(s)), s)
  {
    hide Store, Same;
    NamesWritten(m, s);
    forall name | name !in NamesOf(s) ensures Same(m, Store(m, Written(s)), name) {
      Elsewhere(m, Written(s), name);
    }
  }

  /** Where a map's iterator points: the least of the keys not visited yet. */
  method First(left: set<string>) returns (k: string)
    requires left != {}
    ensures k == Least(left)
  {
    LeastExists(left);
    assert IsLeast(Least(left), left);
    k :| k in left && forall l | l in left :: AtMost(k, l);
    AtMostTotal(k, Least(left));
  }

  method AppendLine(msg: string, key: string, value: string, ghost rest: string) returns (r: string)
    ensures r + rest == msg + (Line(key, value) + rest)
  {
    r := msg + key;
    r := r + " ";
    r := r + value;
    r := r + "\n";
    assert r == msg + Line(key, value);
  }

  lemma {:induction false} BodyStep(left: set<string>, k: string, m: map<string, string>)
    requires left <= m.Keys && left != {} && k == Least(left)
    ensures Body(SortedKeys(left), m) == Line(k, m[k]) + Body(SortedKeys(left - {k}), m)
  {
    assert SortedKeys(left)[1..] == SortedKeys(left - {k});
  }

  class MetricDatabase {
    var mdb: map<string, string>

    constructor ()
      ensures mdb == map[]
    {
      mdb := map[];
    }

    /** `insert` of `std::map`, which leaves an entry that is there as it is. */
    method Insert(name: string, value: string)
      modifies this
      ensures mdb == if name in old(mdb) then old(mdb) else old(mdb)[name := value]
    {
      mdb := map[name := value] + mdb;
    }

    /** `setMetric`: a metric that is found is assigned; `insert` alone would not replace it. */
    method SetMetric(name: string, value: string)
      modifies this
      ensures name in mdb && mdb[name] == value
      ensures mdb.Keys == old(mdb).Keys + {name} && forall k | k in old(mdb) && k != name :: mdb[k] == old(mdb)[k]
    {
      if name in mdb {
        mdb := mdb[name := value];
      } else {
        Insert(name, value);
      }
    }

    /** Printing a number and storing it, as every line of `update` does. */
    method Write(name: string, value: int, ghost before: map<string, string>, ghost done: seq<Metric>)
      returns (ghost next: seq<Metric>)
      requires mdb == Store(before, done)
      modifies this
      ensures next == done + [Metric(name, value)] && mdb == Store(before, next)
    {
      ghost var m := mdb;
      SetMetric(name, Decimal(value));
      assert mdb == m[name := Decimal(value)];
      next := done + [Metric(name, value)];
      StoreOne(before, done, Metric(name, value));
    }

    method UpdateQueues(s: Sample)
      modifies this
      ensures mdb == Store(old(mdb), WrittenQueues(s))
    {
      ghost var m, done: seq<Metric> := mdb, [];
      done := Write("compilationQueueSize", s.queueSize, m, done);
      done := Write("numberOfClients", s.sessions, m, done);
      done := Write("totalNumberOfCompilationThreads", s.threads, m, done);
      done := Write("totalNumberOfActiveThreads", s.active, m, done);
      done := Write("physicalMemoryFreeInMB", s.freeMb, m, done);
      assert done == WrittenQueues(s);
    }

    method UpdateCpu(cpu: Option<Cpu>)
      modifies this
      ensures mdb == Store(old(mdb), WrittenCpu(cpu))
    {
      ghost var m, done: seq<Metric> := mdb, [];
      if cpu.Some? {
        done := Write("percentCpuLoad", cpu.value.load, m, done);
        done := Write("percentAverageCpuLoad", cpu.value.average, m, done);
        done := Write("percentJVMCpuLoad", cpu.value.jvm, m, done);
      }
      assert done == WrittenCpu(cpu);
    }

    method UpdateUsage(usage: Option<Usage>)
      modifies this
      ensures mdb == Store(old(mdb), WrittenUsage(usage))
    {
      ghost var m, done: seq<Metric> := mdb, [];
      if usage.Some? {
        done := Write("metricServerMaxPeakMemInKB", usage.value.maxrss, m, done);
        done := Write("metricServerNumPageFaultNotIO", usage.value.minflt, m, done);
        done := Write("metricServerNumPageFaultByIO", usage.value.majflt, m, done);
        done := Write("metricServerNumInput", usage.value.inblock, m, done);
        done := Write("metricServerNumOutput", usage.value.oublock, m, done);
        done := Write("metricServerNumVolCS", usage.value.nvcsw, m, done);
        done := Write("metricServerNumInVolCS", usage.value.nivcsw, m, done);
      }
      assert done == WrittenUsage(usage);
    }

    method UpdateMachine(machine: Option<Machine>)
      modifies this
      ensures mdb == Store(old(mdb), WrittenMachine(machine))
    {
      ghost var m, done: seq<Metric> := mdb, [];
      if machine.Some? {
        done := Write("machineTotalUsageMemInB", machine.value.totalram, m, done);
        done := Write("machineTotalFreeMemInB", machine.value.freeram, m, done);
      }
      assert done == WrittenMachine(machine);
    }

    method Update(s: Sample)
      modifies this
      ensures mdb == Store(old(mdb), Written(s))
      ensures Told(Numbers(mdb), s) && LeftAlone(old(mdb), mdb, s)
    {
      hide Told, LeftAlone, Numbers;
      ghost var m := mdb;
      RefreshIsTold(m, s);
      RefreshLeavesAlone(m, s);
      ghost var done := WrittenQueues(s);
      UpdateQueues(s);
      if s.clearedCaches > 0 {
        done := Write("numberOfClearedCaches", s.clearedCaches, m, done);
      }
      assert done == WrittenQueues(s) + WrittenCaches(s.clearedCaches);
      UpdateCpu(s.cpu);
      StoreConcat(m, done, WrittenCpu(s.cpu));
      done := done + WrittenCpu(s.cpu);
      UpdateUsage(s.usage);
      StoreConcat(m, done, WrittenUsage(s.usage));
      done := done + WrittenUsage(s.usage);
      UpdateMachine(s.machine);
      StoreConcat(m, done, WrittenMachine(s.machine));
    }

    /** `prepareAllMetricsBody`: the keys in map order, one line each. */
    method PrepareAllMetricsBody() returns (msg: string)
      ensures msg == BodyOf(mdb)
    {
      msg := "";
      var left := mdb.Keys;
      while left != {}
        invariant left <= mdb.Keys
        invariant BodyOf(mdb) == msg + Body(SortedKeys(left), mdb)
        decreases left
      {
        var k := First(left);
        BodyStep(left, k, mdb);
        msg := AppendLine(msg, k, mdb[k], Body(SortedKeys(left - {k}), mdb));
        left := left - {k};
      }
    }
  }

  // ---- every state the server reaches ----

  function Concat(samples: seq<Sample>): seq<Metric> {
    if samples == [] then [] else Concat(samples[..|samples| - 1]) + Written(samples[|samples| - 1])
  }

  /** The database after some refreshes of an empty one. */
  function Refreshed(samples: seq<Sample>): map<string, string> {
    if samples == [] then map[] else Store(Refreshed(samples[..|samples| - 1]), Written(samples[|samples| - 1]))
  }

  /** For each metric written so far, the last number written. */
  function Latest(writes: seq<Metric>): map<string, int> {
    if writes == [] then map[]
    else Latest(writes[..|writes| - 1])[writes[|writes| - 1].name := writes[|writes| - 1].value]
  }

  /** Numbers as the database stores them. */
  function Texts(numbers: map<string, int>): map<string, string> { map k | k in numbers :: Decimal(numbers[k]) }

  ghost predicate CleanName(name: string) { Without(name, ' ') && Without(name, LF) }

  lemma {:induction false} StoreIsTexts(writes: seq<Metric>)
    ensures Store(map[], writes) == Texts(Latest(writes))
  {
    if writes != [] { StoreIsTexts(writes[..|writes| - 1]); }
  }

  lemma {:induction false} LatestNames(writes: seq<Metric>)
    requires forall w | w in writes :: CleanName(w.name)
    ensures forall k | k in Latest(writes) :: CleanName(k)
  {
    if writes != [] { LatestNames(writes[..|writes| - 1]); }
  }

  lemma ThreadNamesAreClean()
    ensures CleanName("totalNumberOfCompilationThreads") && CleanName("totalNumberOfActiveThreads")
  {
    assert ' ' !in "totalNumberOfCompilationThreads" && LF !in "totalNumberOfCompilationThreads";
    assert ' ' !in "totalNumberOfActiveThreads" && LF !in "totalNumberOfActiveThreads";
  }

  lemma QueueNamesAreClean(s: Sample)
    ensures forall w | w in WrittenQueues(s) :: CleanName(w.name)
  {
    ThreadNamesAreClean();
    assert CleanName("compilationQueueSize") && CleanName("numberOfClients") && CleanName("physicalMemoryFreeInMB");
  }

  lemma CachesNameIsClean(cleared: int)
    ensures forall w | w in WrittenCaches(cleared) :: CleanName(w.name)
  {
    assert CleanName("numberOfClearedCaches");
  }

  lemma CpuNamesAreClean(cpu: Option<Cpu>)
    ensures forall w | w in WrittenCpu(cpu) :: CleanName(w.name)
  {
    assert CleanName("percentCpuLoad") && CleanName("percentAverageCpuLoad") && CleanName("percentJVMCpuLoad");
  }

  lemma FaultNamesAreClean()
    ensures CleanName("metricServerNumPageFaultNotIO") && CleanName("metricServerNumPageFaultByIO")
  {
  }

  lemma UsageNamesAreClean(usage: Option<Usage>)
    ensures forall w | w in WrittenUsage(usage) :: CleanName(w.name)
  {
    FaultNamesAreClean();
    assert CleanName("metricServerMaxPeakMemInKB") && CleanName("metricServerNumInput");
    assert CleanName("metricServerNumOutput") && CleanName("metricServerNumVolCS");
    assert CleanName("metricServerNumInVolCS");
  }

  lemma MachineNamesAreClean(machine: Option<Machine>)
    ensures forall w | w in WrittenMachine(machine) :: CleanName(w.name)
  {
    assert CleanName("machineTotalUsageMemInB") && CleanName("machineTotalFreeMemInB");
  }

  lemma NamesAreClean(s: Sample)
    ensures forall w | w in Written(s) :: CleanName(w.name)
  {
    QueueNamesAreClean(s);
    CachesNameIsClean(s.clearedCaches);
    CpuNamesAreClean(s.cpu);
    UsageNamesAreClean(s.usage);
    MachineNamesAreClean(s.machine);
  }

  lemma {:induction false} ConcatIsClean(samples: seq<Sample>)
    ensures forall w | w in Concat(samples) :: CleanName(w.name)
  {
    if samples != [] {
      ConcatIsClean(samples[..|samples| - 1]);
      NamesAreClean(samples[|samples| - 1]);
    }
  }

  lemma {:induction false} RefreshedIsStore(samples: seq<Sample>)
    ensures Refreshed(samples) == Store(map[], Concat(samples))
  {
    if samples != [] {
      RefreshedIsStore(samples[..|samples| - 1]);
      StoreConcat(map[], Concat(samples[..|samples| - 1]), Written(samples[|samples| - 1]));
    }
  }

  /** Every state the database reaches is free of the characters that separate lines and columns. */
  lemma {:induction false} RefreshedIsClean(samples: seq<Sample>)
    ensures Refreshed(samples) == Texts(Latest(Concat(samples))) && Clean(Refreshed(samples))
  {
    RefreshedIsStore(samples);
    StoreIsTexts(Concat(samples));
    ConcatIsClean(samples);
    LatestNames(Concat(samples));
    var numbers := Latest(Concat(samples));
    forall k | k in numbers ensures Without(Decimal(numbers[k]), LF) && CleanName(k) {
      DecimalIsClean(numbers[k]);
    }
  }

  lemma TextsAreRead(numbers: map<string, int>)
    ensures Numbers(Texts(numbers)) == numbers
  {
    hide Decimal, ReadDecimal;
    forall k | k in numbers ensures ReadDecimal(Decimal(numbers[k])) == numbers[k] {
      DecimalRoundTrip(numbers[k]);
    }
  }

  /** Whatever was refreshed before, a scrape gives back every metric with the last number written. */
  lemma {:induction false} ScrapeRecoversNumbers(samples: seq<Sample>)
    ensures Numbers(MapOf(Entries(BodyOf(Refreshed(samples))))) == Latest(Concat(samples))
  {
    RefreshedIsClean(samples);
    BodyRoundTrip(Refreshed(samples));
    TextsAreRead(Latest(Concat(samples)));
  }
}
