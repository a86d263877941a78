/** The request launcher (demo/jitserver_request_launcher.py): it learns of servers and their loads from
    messages and fires its requests at them in rounds, none above the load it wants on a server. */
module Launcher {
  import opened CStrings
  import opened Wire

  const TARGET := 5
  const AFTER_ROUND := 4

  // ---- receiving ----

  datatype Book = Book(ports: seq<int>, loads: seq<int>, finished: bool)

  function FillLoads(b: Book, i: nat, left: seq<Byte>, stalls: bool): Book
    requires i <= |b.ports| == |b.loads|
    decreases |b.ports| - i
  {
    if i == |b.ports| then b
    else match TakeFour(left, stalls)
      case None => b.(finished := true)
      case Some(f) => FillLoads(b.(loads := b.loads[i := f.value]), i + 1, f.rest, stalls)
  }

  /** What `recvmsg` makes of the next thing that happens on the socket. */
  function Heard(b: Book, m: Incoming): Book
    requires |b.ports| == |b.loads|
  {
    if b.finished then b
    else match m
      case NoConnection => b.(finished := true)
      case Message(bytes, stalls) =>
        match TakeFour(bytes, stalls)
        case None => b.(finished := true)
        case Some(f) => FillLoads(b.(ports := b.ports + [f.value], loads := b.loads + [0]), 0, f.rest, stalls)
  }

  lemma {:induction false} FillKeepsPorts(b: Book, i: nat, left: seq<Byte>, stalls: bool)
    requires i <= |b.ports| == |b.loads|
    ensures FillLoads(b, i, left, stalls).ports == b.ports && |FillLoads(b, i, left, stalls).loads| == |b.loads|
    decreases |b.ports| - i
  {
    if i < |b.ports| {
      var four := TakeFour(left, stalls);
      if four.Some? {
        FillKeepsPorts(b.(loads := b.loads[i := four.value.value]), i + 1, four.value.rest, stalls);
      }
    }
  }

  /** A message names one more server or ends the listening. */
  lemma HeardPorts(b: Book, m: Incoming)
    requires |b.ports| == |b.loads|
    ensures b.finished ==> Heard(b, m) == b
    ensures !b.finished && m.NoConnection? ==> Heard(b, m) == b.(finished := true)
    ensures !b.finished ==>
            var h := Heard(b, m);
            && |h.ports| == |h.loads| && b.ports <= h.ports && |h.ports| <= |b.ports| + 1
            && (|h.ports| == |b.ports| + 1 <==> m.Message? && TakeFour(m.bytes, m.stalls).Some?)
            && (|h.ports| == |b.ports| ==> h.finished)
  {
    if m.Message? {
      var four := TakeFour(m.bytes, m.stalls);
      if four.Some? {
        FillKeepsPorts(b.(ports := b.ports + [four.value.value], loads := b.loads + [0]), 0, four.value.rest, m.stalls);
      }
    }
  }

  // ---- firing ----

  function Largest(loads: seq<int>): (m: int)
    requires loads != []
    ensures m in loads && forall l | l in loads :: l <= m
  {
    if |loads| == 1 then loads[0]
    else
      var m := Largest(loads[1..]);
      assert forall l | l in loads :: l == loads[0] || l in loads[1..];
      if loads[0] > m then loads[0] else m
  }

  function Cap(loads: seq<int>): int
    requires loads != []
  {
    if Largest(loads) > TARGET then Largest(loads) else TARGET
  }

  function Share(load: int, cap: int, left: int): int { if load >= TARGET then 0 else Min(cap - load, left) }

  /** How many requests each server gets in a round; the round stops where none are left. */
  function Shares(loads: seq<int>, cap: int, left: int): seq<int>
  {
    if loads == [] then []
    else
      var n := Share(loads[0], cap, left);
      [n] + if left - n == 0 then [] else Shares(loads[1..], cap, left - n)
  }

  function Sum(s: seq<int>): int { if s == [] then 0 else s[0] + Sum(s[1..]) }

  function Copies(port: int, n: int): seq<int> { if n <= 0 then [] else seq(n, _ => port) }

  /** The servers' ports the requests of a round go to, in order. */
  function Targets(ports: seq<int>, shares: seq<int>): seq<int>
    requires |shares| <= |ports|
  {
    if shares == [] then [] else Copies(ports[0], shares[0]) + Targets(ports[1..], shares[1..])
  }

  lemma SharesCons(loads: seq<int>, cap: int, left: int)
    requires loads != []
    ensures var n := Share(loads[0], cap, left);
            && Shares(loads, cap, left) == [n] + (if left == n then [] else Shares(loads[1..], cap, left - n))
            && Sum(Shares(loads, cap, left)) == n + (if left == n then 0 else Sum(Shares(loads[1..], cap, left - n)))
  {
    var n := Share(loads[0], cap, left);
    var rest := if left == n then [] else Shares(loads[1..], cap, left - n);
    assert Shares(loads, cap, left) == [n] + rest && ([n] + rest)[1..] == rest;
  }

  lemma {:induction false} SharesArePositive(loads: seq<int>, cap: int, left: int)
    requires left > 0 && cap >= TARGET
    ensures forall n | n in Shares(loads, cap, left) :: n >= 0
  {
    if loads != [] {
      var n := Share(loads[0], cap, left);
      SharesCons(loads, cap, left);
      if left != n { SharesArePositive(loads[1..], cap, left - n); }
    }
  }

  lemma {:induction false} SharesAreBounded(loads: seq<int>, cap: int, left: int)
    requires left > 0 && cap >= TARGET
    ensures |Shares(loads, cap, left)| <= |loads|
    ensures 0 <= Sum(Shares(loads, cap, left)) <= left
    ensures Sum(Shares(loads, cap, left)) < left ==> |Shares(loads, cap, left)| == |loads|
  {
    if loads != [] {
      var n := Share(loads[0], cap, left);
      SharesCons(loads, cap, left);
      if left != n { SharesAreBounded(loads[1..], cap, left - n); }
    }
  }

  lemma {:induction false} SharesProgress(loads: seq<int>, cap: int, left: int)
    requires left > 0 && cap >= TARGET && exists l :: l in loads && l < TARGET
    ensures Sum(Shares(loads, cap, left)) > 0
  {
    SharesCons(loads, cap, left);
    var n := Share(loads[0], cap, left);
    if loads[0] >= TARGET {
      assert forall l | l in loads :: l == loads[0] || l in loads[1..];
      SharesProgress(loads[1..], cap, left);
    } else if left != n {
      SharesAreBounded(loads[1..], cap, left - n);
    }
  }

  lemma {:induction false} SharesSum(loads: seq<int>, cap: int, left: int)
    requires left > 0 && cap >= TARGET
    ensures |Shares(loads, cap, left)| <= |loads|
    ensures forall n | n in Shares(loads, cap, left) :: n >= 0
    ensures 0 <= Sum(Shares(loads, cap, left)) <= left
    ensures Sum(Shares(loads, cap, left)) < left ==> |Shares(loads, cap, left)| == |loads|
    ensures (exists l :: l in loads && l < TARGET) ==> Sum(Shares(loads, cap, left)) > 0
  {
    SharesArePositive(loads, cap, left);
    SharesAreBounded(loads, cap, left);
    if exists l :: l in loads && l < TARGET { SharesProgress(loads, cap, left); }
  }

  /** A negative count fires nothing and is used up by the first server that takes requests. */
  lemma {:induction false} SharesOfDebt(loads: seq<int>, cap: int, left: int)
    requires left < 0 && cap >= TARGET
    ensures |Shares(loads, cap, left)| <= |loads|
    ensures forall n | n in Shares(loads, cap, left) :: n <= 0
    ensures Sum(Shares(loads, cap, left)) == 0 || Sum(Shares(loads, cap, left)) == left
    ensures (exists l :: l in loads && l < TARGET) ==> Sum(Shares(loads, cap, left)) == left
  {
    if loads != [] {
      var n := Share(loads[0], cap, left);
      if left - n == 0 {
        assert Shares(loads, cap, left) == [n] && [n][1..] == [];
      } else {
        SharesOfDebt(loads[1..], cap, left);
        assert Shares(loads, cap, left)[1..] == Shares(loads[1..], cap, left);
        assert forall l | l in loads :: l == loads[0] || l in loads[1..];
      }
    }
  }

  lemma {:induction false} TargetsCount(ports: seq<int>, shares: seq<int>)
    requires |shares| <= |ports|
    ensures (forall n | n in shares :: n >= 0) ==> |Targets(ports, shares)| == Sum(shares)
    ensures (forall n | n in shares :: n <= 0) ==> Targets(ports, shares) == []
  {
    if shares != [] {
      TargetsCount(ports[1..], shares[1..]);
      assert shares[0] in shares && forall n | n in shares[1..] :: n in shares;
    }
  }

  /** One round keeps account of every request: what was started and what is left make up what there
      was, and it makes progress wherever some server is below the target. */
  lemma {:induction false} RoundConserves(ports: seq<int>, loads: seq<int>, load: int)
    requires |ports| == |loads| > 0
    ensures var shares := Shares(loads, Cap(loads), load);
            && |shares| <= |ports|
            && (load >= 0 ==> 0 <= load - Sum(shares) <= load
                              && |Targets(ports, shares)| + (load - Sum(shares)) == load)
            && (load < 0 ==> load - Sum(shares) in {load, 0} && Targets(ports, shares) == [])
            && (load != 0 && (exists l :: l in loads && l < TARGET) ==> Sum(shares) != 0)
  {
    var shares := Shares(loads, Cap(loads), load);
    if load > 0 {
      SharesSum(loads, Cap(loads), load);
    } else if load < 0 {
      SharesOfDebt(loads, Cap(loads), load);
    } else {
      assert shares == [0] && [0][1..] == [];
    }
    TargetsCount(ports, shares);
  }

  lemma {:induction false} SumFront(n: int, rest: seq<int>, i: nat)
    requires 0 < i <= |rest| + 1
    ensures Sum(([n] + rest)[..i]) == n + Sum(rest[..i - 1])
  {
    assert ([n] + rest)[..i] == [n] + rest[..i - 1] && ([n] + rest[..i - 1])[1..] == rest[..i - 1];
  }

  lemma {:induction false} SharesAreNone(cap: int, left: int)
    ensures Shares([], cap, left) == []
  {
  }

  /** Every share of a round: a server with a load of 5 or more is passed over, any other is filled up to
      the cap as far as the requests go. */
  lemma {:induction false} ShareOfEach(loads: seq<int>, cap: int, left: int, i: nat)
    requires i < |Shares(loads, cap, left)|
    ensures i < |loads|
    ensures loads[i] >= 5 ==> Shares(loads, cap, left)[i] == 0
    ensures var shares := Shares(loads, cap, left);
            && (loads[i] < 5 ==> shares[i] == Min(cap - loads[i], left - Sum(shares[..i])))
            && (i + 1 < |shares| ==> shares[i] != left - Sum(shares[..i]))
    decreases i
  {
    SharesAreNone(cap, left);
    hide Shares;
    SharesCons(loads, cap, left);
    var n, shares := Share(loads[0], cap, left), Shares(loads, cap, left);
    if i > 0 {
      assert left != n;
      var rest := Shares(loads[1..], cap, left - n);
      ShareOfEach(loads[1..], cap, left - n, i - 1);
      SumFront(n, rest, i);
    } else {
      assert Sum(shares[..0]) == 0;
    }
  }

  /** The cap: a server's reported load and what it is given never exceed the larger of the target and
      the largest reported load, and a server that is passed over while requests remain is full. */
  lemma {:induction false} SharesWithinCap(loads: seq<int>, cap: int, left: int, i: nat)
    requires left > 0 && cap >= TARGET && (forall l | l in loads :: l <= cap)
    requires i < |Shares(loads, cap, left)| <= |loads|
    ensures loads[i] + Shares(loads, cap, left)[i] <= cap
    ensures loads[i] < TARGET && i + 1 < |Shares(loads, cap, left)| ==> loads[i] + Shares(loads, cap, left)[i] == cap
  {
    hide Shares, Sum;
    assert loads[i] in loads;
    ShareOfEach(loads, cap, left, i);
  }

  /** The cap of a round, in terms of what was reported. */
  lemma {:induction false} RoundWithinCap(loads: seq<int>, left: int, i: nat)
    requires left > 0 && loads != [] && i < |Shares(loads, Cap(loads), left)|
    ensures i < |loads|
    ensures loads[i] + Shares(loads, Cap(loads), left)[i] <= if Largest(loads) > 5 then Largest(loads) else 5
    ensures loads[i] < 5 && i + 1 < |Shares(loads, Cap(loads), left)| ==>
              loads[i] + Shares(loads, Cap(loads), left)[i] == if Largest(loads) > 5 then Largest(loads) else 5
  {
    SharesSum(loads, Cap(loads), left);
    SharesWithinCap(loads, Cap(loads), left, i);
  }

  function Positive(n: int): int { if n > 0 then n else 0 }

  /** The first thing that happens on the socket is a connection that brings a port. */
  predicate NamesAServer(finished: bool, events: seq<Incoming>) {
    && !finished && events != [] && events[0].Message?
    && TakeFour(events[0].bytes, events[0].stalls).Some?
  }

  lemma {:induction false} SumSnoc(s: seq<int>, n: int)
    ensures Sum(s + [n]) == Sum(s) + n
  {
    if s != [] {
      assert (s + [n])[1..] == s[1..] + [n];
      SumSnoc(s[1..], n);
    }
  }

  lemma {:induction false} TargetsSnoc(ports: seq<int>, shares: seq<int>, n: int)
    requires |shares| < |ports|
    ensures Targets(ports, shares + [n]) == Targets(ports, shares) + Copies(ports[|shares|], n)
    decreases |shares|
  {
    if shares == [] {
      assert shares + [n] == [n] && [n][1..] == [];
      assert Targets(ports[1..], []) == [];
    } else {
      assert (shares + [n])[1..] == shares[1..] + [n];
      TargetsSnoc(ports[1..], shares[1..], n);
    }
  }

  lemma {:induction false} SharesNext(loads: seq<int>, i: nat, cap: int, left: int, shares: seq<int>)
    requires i < |loads| && i <= |shares| && shares[i..] == Shares(loads[i..], cap, left)
    ensures var n := Share(loads[i], cap, left);
            && i < |shares| && shares[i] == n
            && shares[i + 1..] == if left == n then [] else Shares(loads[i + 1..], cap, left - n)
  {
    assert loads[i..][1..] == loads[i + 1..] && shares[i..][1..] == shares[i + 1..];
  }

  lemma SumNext(s: seq<int>, i: nat)
    requires i < |s|
    ensures Sum(s[..i + 1]) == Sum(s[..i]) + s[i]
  {
    hide Sum;
    assert s[..i + 1] == s[..i] + [s[i]];
    SumSnoc(s[..i], s[i]);
  }

  lemma {:induction false} TargetsNext(ports: seq<int>, s: seq<int>, i: nat)
    requires i < |s| && i < |ports|
    ensures Targets(ports, s[..i + 1]) == Targets(ports, s[..i]) + Copies(ports[i], s[i])
  {
    hide Targets;
    assert s[..i + 1] == s[..i] + [s[i]];
    TargetsSnoc(ports, s[..i], s[i]);
  }

  /** A round in progress: of the round's shares the first `i` have been given out, `left` is what remains. */
  ghost predicate Fired(ports: seq<int>, was: seq<int>, cap: int, load: int, shares: seq<int>, i: nat, left: int,
                        started: seq<int>, processes: seq<int>)
  {
    && i <= |ports| == |was| && i <= |shares|
    && shares[i..] == Shares(was[i..], cap, left)
    && left == load - Sum(shares[..i])
    && processes == started + Targets(ports, shares[..i])
  }

  lemma {:induction false} FiredStep(ports: seq<int>, was: seq<int>, cap: int, load: int, shares: seq<int>,
                                      i: nat, left: int, started: seq<int>, processes: seq<int>, num: int)
    requires i < |ports| && Fired(ports, was, cap, load, shares, i, left, started, processes)
    requires num == Share(was[i], cap, left)
    ensures i < |shares|
    ensures var after := processes + Copies(ports[i], num);
            if left == num then load == Sum(shares) && |shares| <= |ports| && after == started + Targets(ports, shares)
            else Fired(ports, was, cap, load, shares, i + 1, left - num, started, after)
  {
    hide Shares, Sum, Targets;
    SharesNext(was, i, cap, left, shares);
    SumNext(shares, i);
    TargetsNext(ports, shares, i);
    if left == num { assert shares[..i + 1] == shares; }
  }

  lemma {:induction false} FiredNone(ports: seq<int>, was: seq<int>, cap: int, load: int, started: seq<int>)
    requires |ports| == |was|
    ensures Fired(ports, was, cap, load, Shares(was, cap, load), 0, load, started, started)
  {
    assert was[0..] == was;
  }

  lemma {:induction false} FiredAll(ports: seq<int>, was: seq<int>, cap: int, load: int, shares: seq<int>, left: int,
                 started: seq<int>, processes: seq<int>)
    requires Fired(ports, was, cap, load, shares, |ports|, left, started, processes)
    ensures |shares| <= |ports| && left == load - Sum(shares) && processes == started + Targets(ports, shares)
  {
    assert was[|ports|..] == [] && shares[..|ports|] == shares;
  }

  /** Nothing goes to a server with a load of 5 or more. */
  ghost predicate FullPassedOver(loads: seq<int>, shares: seq<int>) {
    |shares| <= |loads| && forall i | 0 <= i < |shares| && loads[i] >= 5 :: shares[i] == 0
  }

  lemma {:induction false} FullOnesPassed(loads: seq<int>, cap: int, left: int)
    ensures FullPassedOver(loads, Shares(loads, cap, left))
  {
    hide Sum;
    var shares := Shares(loads, cap, left);
    if |shares| > 0 { ShareOfEach(loads, cap, left, |shares| - 1); }
    forall i | 0 <= i < |shares| && loads[i] >= 5 ensures shares[i] == 0 {
      ShareOfEach(loads, cap, left, i);
    }
  }

  /** The processes of a round stand in blocks, one block per server and as long as its share. */
  lemma {:induction false} BlockOfEach(ports: seq<int>, shares: seq<int>, i: nat)
    requires i < |shares| <= |ports| && forall n | n in shares :: n >= 0
    ensures 0 <= Sum(shares[..i]) && Sum(shares[..i]) + shares[i] <= |Targets(ports, shares)|
    ensures forall j | Sum(shares[..i]) <= j < Sum(shares[..i]) + shares[i] :: Targets(ports, shares)[j] == ports[i]
    decreases i
  {
    var block, rest := Copies(ports[0], shares[0]), Targets(ports[1..], shares[1..]);
    assert shares[0] in shares && forall n | n in shares[1..] :: n in shares;
    assert Targets(ports, shares) == block + rest && |block| == shares[0];
    if i == 0 {
      assert Sum(shares[..0]) == 0;
    } else {
      BlockOfEach(ports[1..], shares[1..], i - 1);
      assert shares == [shares[0]] + shares[1..];
      SumFront(shares[0], shares[1..], i);
    }
  }

  class Launcher {
    var ports: seq<int>
    var loads: seq<int>
    var processes: seq<int>  // the port each started process was pointed at
    var finished: bool

    ghost predicate Valid()
      reads this
    {
      |ports| == |loads|
    }

    ghost function View(): Book
      reads this
    {
      Book(ports, loads, finished)
    }

    constructor ()
      ensures Valid() && View() == Book([], [], false) && processes == []
    {
      ports, loads, processes, finished := [], [], [], false;
    }

    method RecvMsg(m: Incoming, sizes: seq<nat>)
      requires Valid()
      modifies this`ports, this`loads, this`finished
      ensures Valid() && View() == Heard(old(View()), m)
    {
      if finished { return; }
      if m.NoConnection? {
        finished := true;
        return;
      }
      var connection := new Connection(m.bytes, m.stalls, sizes);
      var newPort := connection.RecvFour();
      if newPort.None? {
        finished := true;
        return;
      }
      ports := ports + [newPort.value];
      loads := loads + [0];
      ghost var b, bytes := View(), connection.left;
      var i := 0;
      while i < |ports|
        invariant 0 <= i <= |ports| && Valid() && ports == b.ports && !finished
        invariant connection.stalls == m.stalls
        invariant FillLoads(b, 0, bytes, m.stalls) == FillLoads(View(), i, connection.left, m.stalls)
      {
        var load := connection.RecvFour();
        if load.None? {
          finished := true;
          return;
        }
        loads := loads[i := load.value];
        i := i + 1;
      }
    }

    /** Starting a server's share of the requests. */
    method Fire(port: int, num: int)
      modifies this`processes
      ensures processes == old(processes) + Copies(port, num)
    {
      var j := 0;
      while j < num
        invariant 0 <= j && (num >= 0 ==> j <= num) && (num < 0 ==> j == 0)
        invariant processes == old(processes) + Copies(port, j)
      {
        processes := processes + [port];
        j := j + 1;
      }
    }

    /** One server's turn in a round. */
    method FireAt(i: nat, maxload: int, left: int, ghost was: seq<int>, ghost load: int, ghost shares: seq<int>,
                  ghost started: seq<int>)
      returns (rest: int)
      requires i < |ports| == |loads| == |was| && loads[i] == was[i]
      requires Fired(ports, was, maxload, load, shares, i, left, started, processes)
      modifies this`processes
      ensures if rest == 0
              then load == Sum(shares) && |shares| <= |ports| && processes == started + Targets(ports, shares)
              else Fired(ports, was, maxload, load, shares, i + 1, rest, started, processes)
    {
      hide Shares, Sum, Targets, Fired;
      var num := if loads[i] >= TARGET then 0 else Min(maxload - loads[i], left);
      FiredStep(ports, was, maxload, load, shares, i, left, started, processes, num);
      Fire(ports[i], num);
      rest := left - num;
    }

    /** The pass over the servers, for given shares. */
    method FireAll(maxload: int, load: int, ghost shares: seq<int>) returns (left: int, done: bool)
      requires Valid() && |ports| > 0 && shares == Shares(loads, maxload, load)
      modifies this`loads, this`processes
      ensures Valid() && |shares| <= |ports| && processes == old(processes) + Targets(ports, shares)
      ensures left == load - Sum(shares) && (done <==> left == 0)
      ensures !done ==> forall k | 0 <= k < |loads| :: loads[k] == AFTER_ROUND
    {
      hide Shares, Sum, Targets, Fired;
      left, done := load, false;
      ghost var was, started := loads, processes;
      FiredNone(ports, was, maxload, load, started);
      var i := 0;
      while i < |ports|
        invariant 0 <= i <= |ports| == |loads| == |was|
        invariant forall k | 0 <= k < |loads| :: loads[k] == if k < i then AFTER_ROUND else was[k]
        invariant Fired(ports, was, maxload, load, shares, i, left, started, processes)
        invariant i > 0 ==> left != 0
      {
        left := FireAt(i, maxload, left, was, load, shares, started);
        if left == 0 { return 0, true; }
        loads := loads[i := AFTER_ROUND];
        i := i + 1;
      }
      FiredAll(ports, was, maxload, load, shares, left, started, processes);
    }

    /** One pass over the servers. `done` is the return out of the middle of it. */
    method FireRound(load: int) returns (left: int, done: bool)
      requires Valid() && |ports| > 0
      modifies this`loads, this`processes
      ensures Valid()
      ensures var shares := Shares(old(loads), Cap(old(loads)), load);
              && |shares| <= |ports|
              && processes == old(processes) + Targets(ports, shares)
              && left == load - Sum(shares) && (done <==> left == 0)
              && FullPassedOver(old(loads), shares)
              && (!done ==> loads == seq(|ports|, _ => 4))
    {
      hide Shares, Sum, Targets;
      var maxload := Cap(loads);
      FullOnesPassed(loads, maxload, load);
      left, done := FireAll(maxload, load, Shares(loads, maxload, load));
    }

    /** `sendreq`: rounds of firing and receiving until nothing is left. What happens on the socket is
        `events`, and after them only timeouts. `spins` is the loop of the script going round for ever
        with no server and nobody left to name one; it ends in every other case. */
    method SendReq(load: int, events: seq<Incoming>, sizes: seq<nat>) returns (left: int, spins: bool)
      requires Valid()
      modifies this
      ensures Valid()
      ensures spins <==> old(ports) == [] && !NamesAServer(old(finished), events)
      ensures if spins then left == load && processes == old(processes)
              else left == 0 && |processes| == |old(processes)| + if load > 0 then load else 0
    {
      left, spins := load, false;
      var rest := events;
      while true
        invariant Valid() && |processes| + Positive(left) == |old(processes)| + Positive(load)
        invariant left != load ==> ports != []
        invariant ports == [] ==> old(ports) == [] && processes == old(processes)
        invariant ports == [] ==> if finished then !NamesAServer(old(finished), events)
                                  else rest == events && finished == old(finished)
        invariant ports != [] ==> old(ports) != [] || NamesAServer(old(finished), events)
        decreases if left < 0 then -left else left, |rest| + if finished then 0 else 1,
                  if exists l :: l in loads && l < TARGET then 0 else 1
      {
        if |ports| > 0 {
          RoundConserves(ports, loads, left);
          var done;
          left, done := FireRound(left);
          if done { return; }
          assert loads[0] == AFTER_ROUND && loads[0] in loads;
        }
        if !finished {
          var m := if rest == [] then NoConnection else rest[0];
          HeardPorts(View(), m);
          RecvMsg(m, sizes);
          rest := if rest == [] then [] else rest[1..];
        } else if |ports| == 0 {
          return left, true;
        }
      }
    }
  }
}
