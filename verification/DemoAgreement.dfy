/** The two demo scripts together: what the launcher holds after a message the autoscaler sent. */
module DemoAgreement {
  import opened CStrings
  import opened Wire
  import opened Launcher
  import opened Autoscaler

  /** Values followed by zeros, up to a length. */
  function Padded(values: seq<int>, n: nat): (r: seq<int>)
    requires |values| <= n
    ensures |r| == n
  {
    values + seq(n - |values|, _ => 0)
  }

  lemma FourZeros()
    ensures Unpack([0, 0, 0, 0]) == 0
  {
  }

  lemma PaddedStep(loads: seq<int>, i: nat, v: int, rest: seq<int>)
    requires i < |loads| && |rest| < |loads| - i
    ensures loads[i := v][..i + 1] + Padded(rest, |loads| - i - 1) == loads[..i] + Padded([v] + rest, |loads| - i)
  {
  }

  /** From the end of the stream on zeros are read. */
  lemma {:induction false} FillZeros(b: Book, i: nat)
    requires i <= |b.ports| == |b.loads|
    ensures FillLoads(b, i, [], false) == b.(loads := b.loads[..i] + Padded([], |b.ports| - i))
    decreases |b.ports| - i
  {
    if i < |b.ports| {
      FourZeros();
      assert [] + seq(4, _ => 0) == [0, 0, 0, 0];
      FillZeros(b.(loads := b.loads[i := 0]), i + 1);
      PaddedStep(b.loads, i, 0, []);
      assert [0] + [] == [0] && Padded([0], |b.ports| - i) == Padded([], |b.ports| - i);
    } else {
      assert b.loads[..i] + Padded([], 0) == b.loads;
    }
  }

  lemma {:induction false} TakePacked(v: int, rest: seq<int>, stalls: bool)
    requires Fits(v) && AllFit(rest)
    ensures AllFit([v] + rest) && TakeFour(PackAll([v] + rest), stalls) == Some(Four(v, PackAll(rest)))
  {
    PackAllCons(v, rest);
    PackRoundTrip(v);
    assert (Pack(v) + PackAll(rest))[..4] == Pack(v) && (Pack(v) + PackAll(rest))[4..] == PackAll(rest);
  }

  /** A peer that stalls: the loads read so far stay, those behind keep what they had, and the launcher
      stops listening. */
  lemma {:induction false} FillStalls(b: Book, i: nat, values: seq<int>)
    requires i <= |b.ports| == |b.loads| && AllFit(values) && |values| < |b.ports| - i
    ensures FillLoads(b, i, PackAll(values), true) ==
              b.(loads := b.loads[..i] + values + b.loads[i + |values|..], finished := true)
    decreases |values|
  {
    if values == [] {
      assert b.loads[..i] + [] + b.loads[i..] == b.loads;
    } else {
      var v, rest := values[0], values[1..];
      assert values == [v] + rest;
      TakePacked(v, rest, true);
      var loads := b.loads[i := v];
      FillStalls(b.(loads := loads), i + 1, rest);
      assert loads[..i + 1] + rest + loads[i + 1 + |rest|..] == b.loads[..i] + values + b.loads[i + |values|..];
    }
  }

  /** Reading loads from packed values: value by value, and then zeros. */
  lemma {:induction false} FillPacked(b: Book, i: nat, values: seq<int>)
    requires i <= |b.ports| == |b.loads| && AllFit(values) && |values| <= |b.ports| - i
    ensures FillLoads(b, i, PackAll(values), false) ==
              b.(loads := b.loads[..i] + Padded(values, |b.ports| - i))
    decreases |values|
  {
    if values == [] {
      FillZeros(b, i);
    } else {
      var v, rest := values[0], values[1..];
      assert values == [v] + rest;
      TakePacked(v, rest, false);
      FillPacked(b.(loads := b.loads[i := v]), i + 1, rest);
      PaddedStep(b.loads, i, v, rest);
    }
  }

  /** A delivered message: its port joins the launcher's, and the loads become the reported values in
      order, wherever they belong, with zeros for what is missing at the end. */
  lemma {:induction false} MessageHeard(b: Book, jitPort: int, metricPorts: seq<int>, load: map<int, int>)
    requires !b.finished && |b.ports| == |b.loads| && |metricPorts| == |b.ports| + 1
    requires Fits(jitPort) && forall p | p in load :: Fits(load[p])
    ensures |Reported(metricPorts, load)| <= |metricPorts|
    ensures Heard(b, Message(Encode(jitPort, metricPorts, load), false)) ==
              Book(b.ports + [jitPort], Padded(Reported(metricPorts, load), |metricPorts|), false)
  {
    ReportedFits(metricPorts, load);
    var values := Reported(metricPorts, load);
    var bytes := Encode(jitPort, metricPorts, load);
    PackRoundTrip(jitPort);
    assert bytes[..4] == Pack(jitPort) && bytes[4..] == PackAll(values);
    var c := b.(ports := b.ports + [jitPort], loads := b.loads + [0]);
    FillPacked(c, 0, values);
    assert c.loads[..0] + Padded(values, |metricPorts|) == Padded(values, |metricPorts|);
  }

  /** The loads server by server, as the launcher should see them: zero for one not reported. */
  function Expected(metricPorts: seq<int>, load: map<int, int>): seq<int> {
    if metricPorts == [] then []
    else [if metricPorts[0] in load then load[metricPorts[0]] else 0] + Expected(metricPorts[1..], load)
  }

  /** No server behind an unreported one has a load other than zero. */
  predicate GapsAreHarmless(metricPorts: seq<int>, load: map<int, int>) {
    forall i, j | 0 <= i < j < |metricPorts| && metricPorts[i] !in load && metricPorts[j] in load ::
      load[metricPorts[j]] == 0
  }

  predicate NoLoad(ports: seq<int>, load: map<int, int>) {
    ports == [] || ((ports[0] in load ==> load[ports[0]] == 0) && NoLoad(ports[1..], load))
  }

  lemma {:induction false} NoLoadIs(ports: seq<int>, load: map<int, int>)
    ensures NoLoad(ports, load) <==> forall j | 0 <= j < |ports| && ports[j] in load :: load[ports[j]] == 0
  {
    if ports != [] {
      var tail := ports[1..];
      NoLoadIs(tail, load);
      assert forall j | 0 < j < |ports| :: ports[j] == tail[j - 1];
      assert forall j | 0 <= j < |tail| :: tail[j] == ports[j + 1];
    }
  }

  lemma ConsEqual<T>(x: T, s: seq<T>, y: T, t: seq<T>)
    ensures [x] + s == [y] + t <==> x == y && s == t
  {
    assert ([x] + s)[0] == x && ([y] + t)[0] == y && ([x] + s)[1..] == s && ([y] + t)[1..] == t;
  }

  /** The reported values come out shifted by `gap` places against the servers they belong to. */
  ghost predicate Shifted(ports: seq<int>, load: map<int, int>, gap: nat) {
    && |Reported(ports, load)| <= |ports| == |Expected(ports, load)|
    && (Padded(Reported(ports, load), |ports| + gap) == seq(gap, _ => 0) + Expected(ports, load)
        <==> NoLoad(ports, load))
  }

  lemma ShiftFront(v: int, values: seq<int>, others: seq<int>, gap: nat)
    requires gap > 0 && |values| <= |others|
    ensures Padded([v] + values, |others| + 1 + gap) == seq(gap, _ => 0) + ([v] + others)
       <==> v == 0 && Padded(values, |others| + gap) == seq(gap, _ => 0) + others
  {
    var found, front := Padded(values, |others| + gap), seq(gap - 1, _ => 0);
    assert Padded([v] + values, |others| + 1 + gap) == [v] + found;
    assert seq(gap, _ => 0) + ([v] + others) == [0] + (front + [v] + others);
    ConsEqual(v, found, 0, front + [v] + others);
    if v == 0 { assert front + [v] + others == seq(gap, _ => 0) + others; }
  }

  lemma ShiftedBehindReported(ports: seq<int>, load: map<int, int>, gap: nat)
    requires gap > 0 && ports != [] && ports[0] in load && Shifted(ports[1..], load, gap)
    ensures Shifted(ports, load, gap)
  {
    ShiftFront(load[ports[0]], Reported(ports[1..], load), Expected(ports[1..], load), gap);
  }

  lemma ShiftedBehindGap(ports: seq<int>, load: map<int, int>, gap: nat)
    requires gap > 0 && ports != [] && ports[0] !in load && Shifted(ports[1..], load, gap + 1)
    ensures Shifted(ports, load, gap)
  {
    var tail := ports[1..];
    assert Reported(ports, load) == Reported(tail, load);
    assert seq(gap, _ => 0) + Expected(ports, load) == seq(gap + 1, _ => 0) + Expected(tail, load);
  }

  /** Reported values shifted against the servers they belong to agree with them only if all are zero. */
  lemma {:induction false} ShiftedAgrees(ports: seq<int>, load: map<int, int>, gap: nat)
    requires gap > 0
    ensures Shifted(ports, load, gap)
  {
    if ports != [] {
      if ports[0] in load {
        ShiftedAgrees(ports[1..], load, gap);
        ShiftedBehindReported(ports, load, gap);
      } else {
        ShiftedAgrees(ports[1..], load, gap + 1);
        ShiftedBehindGap(ports, load, gap);
      }
    }
  }

  lemma {:induction false} GapsOfTail(ports: seq<int>, load: map<int, int>)
    requires ports != []
    ensures GapsAreHarmless(ports, load) <==>
              (ports[0] in load || NoLoad(ports[1..], load)) && GapsAreHarmless(ports[1..], load)
  {
    var tail := ports[1..];
    NoLoadIs(tail, load);
    assert forall j | 0 < j < |ports| :: ports[j] == tail[j - 1];
    assert forall j | 0 <= j < |tail| :: tail[j] == ports[j + 1];
  }

  lemma {:induction false} NoLoadLeavesNoGap(ports: seq<int>, load: map<int, int>)
    ensures NoLoad(ports, load) ==> GapsAreHarmless(ports, load)
  {
    NoLoadIs(ports, load);
  }

  lemma AgreeFront(v: int, values: seq<int>, others: seq<int>)
    requires |values| <= |others|
    ensures Padded([v] + values, |others| + 1) == [v] + others <==> Padded(values, |others|) == others
  {
    assert Padded([v] + values, |others| + 1) == [v] + Padded(values, |others|);
    ConsEqual(v, Padded(values, |others|), v, others);
  }

  lemma {:induction false} AgreeBehindGap(ports: seq<int>, load: map<int, int>)
    requires ports != [] && ports[0] !in load
    ensures |Reported(ports, load)| <= |ports| == |Expected(ports, load)|
    ensures Padded(Reported(ports, load), |ports|) == Expected(ports, load) <==> NoLoad(ports[1..], load)
  {
    hide NoLoad, Padded;
    var tail := ports[1..];
    ShiftedAgrees(tail, load, 1);
    assert seq(1, _ => 0) == [0];
    assert Reported(ports, load) == Reported(tail, load) && Expected(ports, load) == [0] + Expected(tail, load);
  }

  /** The message carries no keys, so the launcher's loads are those of its servers exactly when every
      gap in the report has nothing but zero loads behind it. */
  lemma {:induction false} LoadsAgreeExactly(ports: seq<int>, load: map<int, int>)
    ensures |Reported(ports, load)| <= |ports| == |Expected(ports, load)|
    ensures Padded(Reported(ports, load), |ports|) == Expected(ports, load) <==> GapsAreHarmless(ports, load)
  {
    if ports != [] {
      var tail := ports[1..];
      GapsOfTail(ports, load);
      LoadsAgreeExactly(tail, load);
      if ports[0] in load {
        AgreeFront(load[ports[0]], Reported(tail, load), Expected(tail, load));
      } else {
        AgreeBehindGap(ports, load);
        NoLoadLeavesNoGap(tail, load);
      }
    }
  }

  // ---- the two processes over a whole run ----

  /** What happens between two messages: a report, and whatever the launcher's rounds do to its loads. */
  datatype Beat = Beat(load: map<int, int>, rounds: seq<int>)

  datatype Both = Both(fleet: Fleet, book: Book)

  ghost predicate Agree(x: Both) {
    && FleetInv(x.fleet) && !x.book.finished && |x.book.ports| == |x.book.loads|
    && x.book.ports == JitPorts(|x.fleet.metricPorts|)
  }

  ghost predicate CanReport(load: map<int, int>) { forall p | p in load :: Fits(load[p]) }

  /** One turn of the autoscaler, its message, if any, delivered to the launcher. */
  ghost function After(x: Both, beat: Beat): Both
    requires FleetInv(x.fleet) && CanReport(beat.load) && |x.book.ports| == |x.book.loads|
  {
    var book := if |beat.rounds| == |x.book.loads| then x.book.(loads := beat.rounds) else x.book;
    var f := Scaled(x.fleet, beat.load, true);
    if |f.sent| == |x.fleet.sent| then Both(f, book)
    else Both(f, Heard(book, Message(f.sent[|f.sent| - 1], false)))
  }

  lemma {:induction false} ExpectedSnoc(ports: seq<int>, port: int, load: map<int, int>)
    ensures Expected(ports + [port], load) == Expected(ports, load) + [if port in load then load[port] else 0]
  {
    if ports == [] {
      assert [] + [port] == [port];
    } else {
      assert (ports + [port])[1..] == ports[1..] + [port];
      ExpectedSnoc(ports[1..], port, load);
    }
  }

  /** The ports agree after every turn, and a message leaves the launcher with the reported load of
      every earlier server and zero for the new one, if the report covered just the earlier ones. */
  lemma BeatKeepsAgreement(x: Both, beat: Beat)
    requires Agree(x) && CanReport(beat.load)
    ensures Agree(After(x, beat))
    ensures var n, y := |x.fleet.metricPorts|, After(x, beat);
            |y.fleet.metricPorts| == n + 1
            && (forall k | 0 <= k < n :: x.fleet.metricPorts[k] in beat.load) && y.fleet.metricPorts[n] !in beat.load
            ==> y.book.loads == Expected(x.fleet.metricPorts, beat.load) + [0]
  {
    ScaledKeeps(x.fleet, beat.load, true);
    var n, f := |x.fleet.metricPorts|, Scaled(x.fleet, beat.load, true);
    if |f.sent| != |x.fleet.sent| {
      var y := After(x, beat);
      var book := if |beat.rounds| == |x.book.loads| then x.book.(loads := beat.rounds) else x.book;
      MessageHeard(book, f.jitPort, f.metricPorts, beat.load);
      assert JitPorts(n + 1) == JitPorts(n) + [f.jitPort];
      if (forall k | 0 <= k < n :: x.fleet.metricPorts[k] in beat.load) && f.metricPorts[n] !in beat.load {
        LoadsAgreeExactly(f.metricPorts, beat.load);
        ExpectedSnoc(x.fleet.metricPorts, f.metricPorts[n], beat.load);
      }
    }
  }

  /** How both processes begin: the first message has been delivered. */
  ghost predicate Begins(x: Both) {
    && FleetInv(x.fleet) && |x.fleet.metricPorts| == 1
    && x.book == Heard(Book([], [], false),
                       Message(Encode(FIRST_JIT_PORT, [FIRST_METRIC_PORT], map[FIRST_METRIC_PORT := 0]), false))
  }

  lemma BeginsInAgreement(x: Both)
    requires Begins(x)
    ensures Agree(x) && x.book.loads == [0]
  {
    var load := map[FIRST_METRIC_PORT := 0];
    MessageHeard(Book([], [], false), FIRST_JIT_PORT, [FIRST_METRIC_PORT], load);
    assert [FIRST_METRIC_PORT][1..] == [];
    assert Reported([FIRST_METRIC_PORT], load) == [0];
    assert JitPorts(1) == [FIRST_JIT_PORT];
  }

  ghost function AfterAll(x: Both, beats: seq<Beat>): (y: Both)
    requires Agree(x) && forall b | b in beats :: CanReport(b.load)
    ensures Agree(y)
    decreases |beats|
  {
    if beats == [] then x
    else
      BeatKeepsAgreement(x, beats[0]);
      AfterAll(After(x, beats[0]), beats[1..])
  }

  /** From the first message on, over every sequence of reports and rounds, the launcher knows exactly
      the ports the servers were started on, in the order they were started. */
  lemma {:induction false} LauncherKnowsTheServers(x: Both, beats: seq<Beat>)
    requires Begins(x) && forall b | b in beats :: CanReport(b.load)
    ensures Agree(x)
    ensures var y := AfterAll(x, beats);
            && |y.book.ports| == |y.fleet.metricPorts| == |y.fleet.processes| - 1
            && y.fleet.processes[0] == Nth(0) && y.fleet.processes[0].port == y.book.ports[0]
            && forall k | 1 <= k < |y.book.ports| ::
                 y.fleet.processes[k + 1] == Nth(k) && y.fleet.processes[k + 1].port == y.book.ports[k]
  {
    BeginsInAgreement(x);
  }
}
