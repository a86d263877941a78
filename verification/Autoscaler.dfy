/** The autoscaler (demo/jitserver_autoscaler.py): it starts one more server when a known one reports
    enough clients, and tells the launcher its port and the loads it has seen. */
module Autoscaler {
  import opened Wire

  const FIRST_JIT_PORT := 3840
  const FIRST_METRIC_PORT := 7390
  const MAX_SERVERS: nat := 5
  const OVERLOAD := 5

  datatype Process = JitServer(port: int, metricPort: int, httpsPort: int) | Prometheus

  datatype Fleet = Fleet(
    jitPort: int, metricPort: int, httpsPort: int, metricPorts: seq<int>,
    processes: seq<Process>, sent: seq<seq<Byte>>)

  /** The reported loads of the known metric ports, in their order, as far as they were reported. */
  function Reported(metricPorts: seq<int>, load: map<int, int>): seq<int> {
    if metricPorts == [] then []
    else (if metricPorts[0] in load then [load[metricPorts[0]]] else []) + Reported(metricPorts[1..], load)
  }

  predicate AllFit(values: seq<int>) { forall v | v in values :: Fits(v) }

  function PackAll(values: seq<int>): seq<Byte>
    requires AllFit(values)
  {
    if values == [] then [] else Pack(values[0]) + PackAll(values[1..])
  }

  lemma {:induction false} ReportedFits(metricPorts: seq<int>, load: map<int, int>)
    requires forall p | p in load :: Fits(load[p])
    ensures AllFit(Reported(metricPorts, load)) && |Reported(metricPorts, load)| <= |metricPorts|
  {
    if metricPorts != [] { ReportedFits(metricPorts[1..], load); }
  }

  /** The bytes of one message. */
  function Encode(jitPort: int, metricPorts: seq<int>, load: map<int, int>): seq<Byte>
    requires Fits(jitPort) && forall p | p in load :: Fits(load[p])
  {
    ReportedFits(metricPorts, load);
    Pack(jitPort) + PackAll(Reported(metricPorts, load))
  }

  predicate Overloaded(metricPorts: seq<int>, load: map<int, int>) {
    exists i :: 0 <= i < |metricPorts| && metricPorts[i] in load && load[metricPorts[i]] >= OVERLOAD
  }

  /** The fleet with one more server; a launcher that cannot be reached misses the message. */
  function Grown(f: Fleet, load: map<int, int>, connected: bool): Fleet
    requires Fits(f.jitPort + 1) && forall p | p in load :: Fits(load[p])
  {
    var (jit, metric, https) := (f.jitPort + 1, f.metricPort + 2, f.httpsPort + 2);
    Fleet(jit, metric, https, f.metricPorts + [metric], f.processes + [JitServer(jit, metric, https)],
          f.sent + if connected then [Encode(jit, f.metricPorts + [metric], load)] else [])
  }

  /** One turn of the scaling loop. */
  function Scaled(f: Fleet, load: map<int, int>, connected: bool): Fleet
    requires Fits(f.jitPort + 1) && forall p | p in load :: Fits(load[p])
  {
    if Overloaded(f.metricPorts, load) && |f.metricPorts| < MAX_SERVERS then Grown(f, load, connected) else f
  }

  /** The server started as the k-th. */
  function Nth(k: nat): Process {
    JitServer(FIRST_JIT_PORT + k, FIRST_METRIC_PORT + 2 * k, FIRST_METRIC_PORT + 2 * k + 1)
  }

  function MetricPorts(n: nat): seq<int> { seq(n, k => FIRST_METRIC_PORT + 2 * k) }

  function JitPorts(n: nat): seq<int> { seq(n, k => FIRST_JIT_PORT + k) }

  /** The counters and lists of a fleet of n servers; Prometheus is the second process. */
  ghost predicate FleetInv(f: Fleet) {
    var n := |f.metricPorts|;
    && 1 <= n <= MAX_SERVERS && |f.processes| == n + 1
    && f.jitPort == FIRST_JIT_PORT + n - 1
    && f.metricPort == FIRST_METRIC_PORT + 2 * (n - 1) && f.httpsPort == f.metricPort + 1
    && f.metricPorts == MetricPorts(n)
    && f.processes[0] == Nth(0) && f.processes[1] == Prometheus
    && forall k | 1 <= k < n :: f.processes[k + 1] == Nth(k)
  }

  /** Every turn keeps the fleet regular, within its limit, and adds at most one server, and one just
      when a known server is overloaded and there is room. */
  lemma ScaledKeeps(f: Fleet, load: map<int, int>, connected: bool)
    requires FleetInv(f) && forall p | p in load :: Fits(load[p])
    ensures FleetInv(Scaled(f, load, connected))
    ensures var n, g := |f.metricPorts|, Scaled(f, load, connected);
            var overloaded := exists i :: 0 <= i < n && f.metricPorts[i] in load && load[f.metricPorts[i]] >= 5;
            g.processes == f.processes
              + (if overloaded && n < 5 then [JitServer(3840 + n, 7390 + 2 * n, 7391 + 2 * n)] else [])
    ensures var g := Scaled(f, load, connected);
            && |g.metricPorts| == |g.processes| - 1
            && |g.sent| == |f.sent| + (if connected && |g.processes| > |f.processes| then 1 else 0) && f.sent <= g.sent
  {
    var g := Scaled(f, load, connected);
    if g != f {
      var n := |f.metricPorts|;
      assert g.metricPorts == MetricPorts(n + 1);
      forall k | 1 <= k < n + 1 ensures g.processes[k + 1] == Nth(k) {
      }
    }
  }

  /** No two servers of a fleet ever listen on the same port, whatever the port is for. */
  lemma PortsNeverCollide(i: nat, j: nat)
    requires i < MAX_SERVERS && j < MAX_SERVERS
    ensures var a, b := Nth(i), Nth(j);
            && {a.port, a.metricPort, a.httpsPort} !! (if i == j then {} else {b.port, b.metricPort, b.httpsPort})
            && a.port != a.metricPort && a.port != a.httpsPort && a.metricPort != a.httpsPort
  {
  }

  lemma {:induction false} PackAllCons(v: int, values: seq<int>)
    requires Fits(v) && AllFit(values)
    ensures AllFit([v] + values) && PackAll([v] + values) == Pack(v) + PackAll(values)
  {
    assert ([v] + values)[1..] == values;
  }

  class Autoscaler {
    var jitPort: int
    var metricPort: int
    var httpsPort: int
    var metricPorts: seq<int>
    var processes: seq<Process>
    var sent: seq<seq<Byte>>

    ghost function View(): Fleet
      reads this
    {
      Fleet(jitPort, metricPort, httpsPort, metricPorts, processes, sent)
    }

    method SendNewPort(connected: bool, load: map<int, int>)
      requires Fits(jitPort) && forall p | p in load :: Fits(load[p])
      modifies this`sent
      ensures sent == old(sent) + if connected then [Encode(jitPort, metricPorts, load)] else []
    {
      if !connected {
        assert sent + [] == sent;
        return;
      }
      ReportedFits(metricPorts, load);
      var message := Pack(jitPort);
      ghost var whole := Encode(jitPort, metricPorts, load);
      assert metricPorts[0..] == metricPorts;
      var i := 0;
      while i < |metricPorts|
        invariant 0 <= i <= |metricPorts| && sent == old(sent)
        invariant AllFit(Reported(metricPorts[i..], load))
        invariant whole == message + PackAll(Reported(metricPorts[i..], load))
      {
        ghost var rest := Reported(metricPorts[i + 1..], load);
        assert metricPorts[i..][1..] == metricPorts[i + 1..];
        ReportedFits(metricPorts[i + 1..], load);
        var x := metricPorts[i];
        if x in load {
          PackAllCons(load[x], rest);
          assert message + (Pack(load[x]) + PackAll(rest)) == (message + Pack(load[x])) + PackAll(rest);
          message := message + Pack(load[x]);
        } else {
          assert Reported(metricPorts[i..], load) == rest;
        }
        i := i + 1;
      }
      assert metricPorts[i..] == [] && message == whole;
      sent := sent + [message];
    }

    /** The first server and its message, then Prometheus. */
    constructor (connected: bool)
      ensures FleetInv(View()) && |metricPorts| == 1
      ensures sent == if connected then [Encode(FIRST_JIT_PORT, [FIRST_METRIC_PORT], map[FIRST_METRIC_PORT := 0])]
                      else []
    {
      jitPort, metricPort, httpsPort := FIRST_JIT_PORT, FIRST_METRIC_PORT, FIRST_METRIC_PORT + 1;
      metricPorts := [FIRST_METRIC_PORT];
      processes, sent := [], [];
      new;
      processes := processes + [JitServer(jitPort, metricPort, httpsPort)];
      SendNewPort(connected, map[metricPort := 0]);
      processes := processes + [Prometheus];
    }

    /** One turn of the endless loop, for the loads just queried. */
    method Turn(load: map<int, int>, connected: bool)
      requires FleetInv(View()) && forall p | p in load :: Fits(load[p])
      modifies this
      ensures View() == Scaled(old(View()), load, connected) && FleetInv(View())
    {
      ScaledKeeps(View(), load, connected);
      ghost var before := View();
      var grown := false;
      var n := |metricPorts|;
      var i := 0;
      while i < n
        invariant 0 <= i <= n == |before.metricPorts|
        invariant grown ==> View() == Scaled(before, load, connected)
        invariant !grown ==> View() == before
        invariant !grown && n < MAX_SERVERS ==>
          forall k | 0 <= k < i :: metricPorts[k] !in load || load[metricPorts[k]] < OVERLOAD
        invariant before.metricPorts <= metricPorts
      {
        if |load| != 0 && metricPorts[i] in load && load[metricPorts[i]] >= OVERLOAD
           && |metricPorts| < MAX_SERVERS && !grown {
          jitPort := jitPort + 1;
          metricPort := metricPort + 2;
          httpsPort := httpsPort + 2;
          processes := processes + [JitServer(jitPort, metricPort, httpsPort)];
          grown := true;
          metricPorts := metricPorts + [metricPort];
          SendNewPort(connected, load);
        }
        i := i + 1;
      }
    }
  }
}
