/** One connection of the metric server (server/MetricClient.cpp) and the part of the operating system
    it talks to. What the network does is input: a script of results, one per system call. */
module Sockets {
  import opened CStrings

  /** What `accept` finds: nothing, or a connection on some descriptor and the outcome of a TLS
      handshake on it. A descriptor that is not positive and free stands for a failed `accept`. */
  datatype Offer = Nothing | Connection(fd: int, handshake: bool)

  /** Result of one `recv`/`BIO_read`: some bytes (none is end of stream), or -1 with its errno. */
  datatype Recv = Bytes(data: string) | RecvAgain | RecvFailed

  /** Result of one `send`/`BIO_write`: up to `n` bytes taken, or -1 with its errno. */
  datatype Send = Taken(n: nat) | SendAgain | SendFailed

  function AcceptedFd(open: set<int>, offer: Offer): int {
    if offer.Connection? && offer.fd > 0 && offer.fd !in open then offer.fd else -1
  }

  /** The open descriptors of the process. Closing one twice is closing it once. */
  class Kernel {
    var open: set<int>

    method Accept(offer: Offer) returns (fd: int)
      modifies this
      ensures fd == AcceptedFd(old(open), offer)
      ensures open == if fd > 0 then old(open) + {fd} else old(open)
    {
      fd := AcceptedFd(open, offer);
      if fd > 0 { open := open + {fd}; }
    }

    /** A listening socket on a descriptor. */
    method Listen(fd: int)
      modifies this
      ensures open == old(open) + {fd}
    {
      open := open + {fd};
    }

    method Close(fd: int)
      modifies this
      ensures open == old(open) - {fd}
    {
      open := open - {fd};
    }
  }

  /** There is always a descriptor a new connection can get. */
  lemma {:induction false} FreeDescriptor(used: set<int>) returns (fd: int)
    ensures fd > 0 && forall x | x in used :: x < fd
    decreases |used|
  {
    if x :| x in used {
      var above := FreeDescriptor(used - {x});
      fd := if x >= above then x + 1 else above;
      assert forall y | y in used :: y == x || y in used - {x};
    } else {
      fd := 1;
    }
  }
}

module Client {
  import opened CStrings
  import opened Sockets

  const BUFFER_SIZE: nat := 4096
  const ROOM: nat := BUFFER_SIZE - 1

  const SUCCESS := 0
  const ACCEPT_FAILED := -1
  const RECEIVE_FAILED := -3
  const SEND_FAILED := -4

  // ---- what the calls do, on values ----

  /** The connection `clientAccept` ends up with. */
  function Accepted(open: set<int>, offer: Offer, tls: bool): Option<int> {
    if AcceptedFd(open, offer) > 0 && (tls ==> offer.handshake) then Some(offer.fd) else None
  }

  /** A connection comes of an offer exactly when its descriptor is positive and free and, for TLS, the
      handshake succeeds. */
  lemma AcceptsExactly(open: set<int>, fd: int, handshake: bool, tls: bool)
    ensures Accepted(open, Connection(fd, handshake), tls) == Some(fd) <==> fd > 0 && fd !in open && (tls ==> handshake)
    ensures Accepted(open, Connection(fd, handshake), tls) in {None, Some(fd)} && Accepted(open, Nothing, tls) == None
  {
  }

  datatype Ending = Closed | Again | Failed | Full
  datatype Gathered = Gathered(data: string, ending: Ending)
  datatype Outgoing = Outgoing(bytes: nat, failed: bool)

  /** The bytes a script of `recv` results puts into `room` bytes, and why receiving stopped. */
  function Gather(script: seq<Recv>, room: nat): (r: Gathered)
    ensures |r.data| <= room
    ensures r.ending == Full <==> |r.data| == room
    decreases |script|
  {
    if room == 0 then Gathered("", Full)
    else if script == [] then Gathered("", Again)
    else match script[0]
      case RecvAgain => Gathered("", Again)
      case RecvFailed => Gathered("", Failed)
      case Bytes(data) =>
        var taken := data[..Min(|data|, room)];
        if taken == "" then Gathered("", Closed)
        else
          var rest := Gather(script[1..], room - |taken|);
          Gathered(taken + rest.data, rest.ending)
  }

  /** Success of `clientReceive`. After a filled buffer the errno looked at is an old one, `staleAgain`. */
  function Received(script: seq<Recv>, staleAgain: bool): Option<string> {
    var Gathered(data, ending) := Gather(script, ROOM);
    if ending == Failed || (ending == Full && !staleAgain) || data == "" then None else Some(data)
  }

  /** How many bytes a peer takes before it blocks, fails or takes nothing. */
  function Takes(script: seq<Send>): nat {
    if script == [] || !script[0].Taken? || script[0].n == 0 then 0 else script[0].n + Takes(script[1..])
  }

  ghost predicate BreaksAt(script: seq<Send>, i: nat, n: nat) {
    && i < |script| && script[i].SendFailed?
    && (forall j | 0 <= j < i :: script[j].Taken? && script[j].n > 0)
    && (i > 0 ==> Takes(script[..i - 1]) < n)
  }

  /** A hard error is met while sending `n` bytes: every call before it took something, and the last of
      these was made with bytes still to go. */
  ghost predicate Breaks(script: seq<Send>, n: nat) { exists i: nat :: BreaksAt(script, i, n) }

  /** How many of `n` bytes a script of `send` results takes, and whether it ends in a hard error. */
  function Taking(script: seq<Send>, n: nat): (r: Outgoing)
    ensures r.bytes <= n
    decreases |script|
  {
    if script == [] then Outgoing(0, false)
    else match script[0]
      case SendAgain => Outgoing(0, false)
      case SendFailed => Outgoing(0, true)
      case Taken(k) =>
        if Min(k, n) == 0 then Outgoing(0, false)
        else
          var rest := Taking(script[1..], n - Min(k, n));
          Outgoing(Min(k, n) + rest.bytes, rest.failed)
  }

  /** The receiving loop's books: the buffer holds `end` received bytes and NULs behind them, and they
      are the whole, or what the rest of the script brings completes it. */
  ghost predicate Accounted(buffer: seq<char>, end: nat, more: bool, rest: seq<Recv>, whole: Gathered) {
    && end <= ROOM && |buffer| == BUFFER_SIZE
    && buffer[end..] == Zeros(BUFFER_SIZE - end)
    && if more then whole == Gathered(buffer[..end] + Gather(rest, ROOM - end).data, Gather(rest, ROOM - end).ending)
       else whole.data == buffer[..end]
  }

  /** After a last result of -1: errno's old value if the buffer was full, else the one just set. */
  predicate EndsWith(ending: Ending, errnoAgain: bool, staleAgain: bool) {
    if ending == Full then errnoAgain == staleAgain else ending == if errnoAgain then Again else Failed
  }

  lemma {:induction false} AccountedFirst(buffer: seq<char>, script: seq<Recv>)
    requires buffer == Zeros(BUFFER_SIZE)
    ensures Accounted(buffer, 0, true, script, Gather(script, ROOM))
  {
    assert buffer[0..] == buffer;
  }

  lemma AccountedFull(buffer: seq<char>, rest: seq<Recv>, whole: Gathered)
    requires Accounted(buffer, ROOM, true, rest, whole)
    ensures Accounted(buffer, ROOM, false, rest, whole) && whole.ending == Full
  {
    assert Gather(rest, 0) == Gathered("", Full);
  }

  lemma AccountedLast(buffer: seq<char>, end: nat, rest: seq<Recv>, whole: Gathered)
    requires Accounted(buffer, end, false, rest, whole)
    ensures end == |whole.data| && buffer == whole.data + Zeros(BUFFER_SIZE - end)
  {
    assert buffer == buffer[..end] + buffer[end..];
  }

  function Gain(n: int): nat { if n > 0 then n else 0 }

  /** Pieces add up: as long as every call takes something, what follows is taken besides. */
  lemma {:induction false} TakesConcat(a: seq<Send>, b: seq<Send>)
    requires forall o | o in a :: o.Taken? && o.n > 0
    ensures Takes(a + b) == Takes(a) + Takes(b)
    ensures |a| == 1 ==> Takes(a) == a[0].n
  {
    if a == [] {
      assert a + b == b;
    } else {
      assert a[0] in a && (a + b)[1..] == a[1..] + b;
      TakesConcat(a[1..], b);
      assert |a| == 1 ==> a[1..] == [];
    }
  }

  /** And a call that takes nothing, would block or fails is the last. */
  lemma {:induction false} TakesStops(script: seq<Send>)
    requires script != [] && (script[0].SendAgain? || script[0].SendFailed? || script[0].n == 0)
    ensures Takes(script) == 0
  {
  }

  lemma TakesFront(script: seq<Send>, j: nat)
    requires j < |script| && script[0].Taken? && script[0].n > 0
    ensures Takes(script[..j]) == if j == 0 then 0 else script[0].n + Takes(script[1..][..j - 1])
  {
    if j > 0 { assert script[..j][1..] == script[1..][..j - 1]; }
  }

  lemma BreaksLater(script: seq<Send>, i: nat, n: nat)
    requires 0 < i < |script| && script[0].Taken? && script[0].n > 0
    ensures BreaksAt(script, i, n) <==> n > 0 && BreaksAt(script[1..], i - 1, n - Min(script[0].n, n))
  {
    hide Takes;
    TakesFront(script, i - 1);
    assert script[1..][i - 1] == script[i];
    assert forall j | 0 < j < i :: script[j] == script[1..][j - 1];
    assert forall j | 0 <= j < i - 1 :: script[1..][j] == script[j + 1];
  }

  lemma BreaksInside(script: seq<Send>, i: nat, n: nat)
    requires BreaksAt(script, i, n)
    ensures i < |script| && (script[0].Taken? ==> i > 0)
  {
  }

  lemma BreaksFront(script: seq<Send>, n: nat)
    requires script != [] && script[0].Taken? && script[0].n > 0 && n > 0
    ensures Breaks(script, n) <==> Breaks(script[1..], n - Min(script[0].n, n))
  {
    hide BreaksAt;
    var m: nat := n - Min(script[0].n, n);
    if Breaks(script, n) {
      var i: nat :| BreaksAt(script, i, n);
      BreaksInside(script, i, n);
      BreaksLater(script, i, n);
    }
    if Breaks(script[1..], m) {
      var i: nat :| BreaksAt(script[1..], i, m);
      BreaksInside(script[1..], i, m);
      BreaksLater(script, i + 1, n);
    }
  }

  /** What sending comes to: as many bytes as the peer takes, and a failure just when a hard error is met. */
  lemma {:induction false} TakingIs(script: seq<Send>, n: nat)
    ensures Taking(script, n) == Outgoing(Min(Takes(script), n), Breaks(script, n))
    decreases |script|
  {
    if script == [] {
    } else if script[0].SendFailed? {
      assert BreaksAt(script, 0, n);
    } else if script[0].Taken? && Min(script[0].n, n) > 0 {
      TakingIs(script[1..], n - Min(script[0].n, n));
      BreaksFront(script, n);
    } else {
      forall i: nat ensures !BreaksAt(script, i, n) {
      }
    }
  }

  method SendFrom(script: seq<Send>, size: nat) returns (n: int, again: bool, rest: seq<Send>)
    ensures n <= size
    ensures n > 0 ==> Taking(script, size) == Outgoing(n + Taking(rest, size - n).bytes, Taking(rest, size - n).failed)
    ensures n <= 0 ==> Taking(script, size) == Outgoing(0, n < 0 && !again)
  {
    again, rest := true, [];
    if script == [] { return -1, true, []; }
    rest := script[1..];
    match script[0]
    case SendAgain => n := -1;
    case SendFailed => n, again := -1, false;
    case Taken(k) => n := Min(k, size);
  }

  class Client {
    var sockfd: int
    var bio: bool
    var useSSL: int
    const recvBuffer: array<char>

    ghost predicate Valid() { recvBuffer.Length == BUFFER_SIZE }

    constructor ()
      ensures Valid() && fresh(recvBuffer)
      ensures sockfd == -1 && !bio && useSSL == 0
    {
      sockfd, bio, useSSL := -1, false, 0;
      recvBuffer := new char[BUFFER_SIZE];
      new;
      recvBuffer[0] := NUL;
    }

    /** `clientAccept`. A failed handshake closes the descriptor but leaves it in `_sockfd`. */
    method Accept(kernel: Kernel, offer: Offer, tls: bool) returns (rc: int)
      requires sockfd == -1
      modifies this, kernel
      ensures rc == if Accepted(old(kernel.open), offer, tls).Some? then SUCCESS else ACCEPT_FAILED
      ensures rc == SUCCESS ==>
                && Some(sockfd) == Accepted(old(kernel.open), offer, tls)
                && useSSL == (if tls then 1 else old(useSSL))
                && kernel.open == old(kernel.open) + {sockfd}
      ensures rc != SUCCESS ==> kernel.open == old(kernel.open) && (sockfd == -1 || sockfd !in kernel.open)
    {
      sockfd := kernel.Accept(offer);
      if sockfd < 0 { return ACCEPT_FAILED; }
      if tls {
        if !offer.handshake {
          kernel.Close(sockfd);
          bio := false;
          return ACCEPT_FAILED;
        }
        bio := true;
        useSSL := 1;
      }
      rc := SUCCESS;
    }

    method ClearBuffer()
      requires Valid()
      modifies recvBuffer
      ensures recvBuffer[..] == Zeros(BUFFER_SIZE)
    {
      forall i | 0 <= i < recvBuffer.Length { recvBuffer[i] := NUL; }
    }

    /** One `recv` into the buffer from index `at` on, leaving room for the final NUL. */
    method RecvAt(script: seq<Recv>, at: nat, errnoAgain: bool)
      returns (n: int, again: bool, rest: seq<Recv>)
      requires Valid() && at < ROOM
      modifies recvBuffer
      ensures n <= ROOM - at && |rest| <= |script|
      ensures recvBuffer[..at] == old(recvBuffer[..at])
      ensures n > 0 ==> recvBuffer[at + n..] == old(recvBuffer[at + n..])
      ensures n <= 0 ==> recvBuffer[..] == old(recvBuffer[..])
      ensures n > 0 ==>
                && Gather(script, ROOM - at).data == recvBuffer[at..at + n] + Gather(rest, ROOM - at - n).data
                && Gather(script, ROOM - at).ending == Gather(rest, ROOM - at - n).ending
      ensures n == 0 ==> Gather(script, ROOM - at) == Gathered("", Closed)
      ensures n < 0 ==> Gather(script, ROOM - at) == Gathered("", if again then Again else Failed)
      ensures n >= 0 ==> again == errnoAgain
    {
      again := errnoAgain;
      if script == [] { return -1, true, []; }
      rest := script[1..];
      match script[0]
      case RecvAgain => n, again := -1, true;
      case RecvFailed => n, again := -1, false;
      case Bytes(data) =>
        n := Min(|data|, ROOM - at);
        forall i | 0 <= i < n { recvBuffer[at + i] := data[i]; }
        assert recvBuffer[at..at + n] == data[..n];
    }

    /** One more `recv` in the loop, with the loop's bookkeeping carried over it. */
    method NextRecv(script: seq<Recv>, total: nat, errnoAgain: bool, ghost whole: Gathered)
      returns (n: int, again: bool, rest: seq<Recv>)
      requires Valid() && total < ROOM
      requires Accounted(recvBuffer[..], total, true, script, whole)
      modifies recvBuffer
      ensures n >= 0 ==> again == errnoAgain
      ensures n == 0 ==> whole.ending == Closed
      ensures n < 0 ==> whole.ending == if again then Again else Failed
      ensures Accounted(recvBuffer[..], total + Gain(n), n > 0, rest, whole)
    {
      hide Gather;
      ghost var behind := recvBuffer[total..];
      n, again, rest := RecvAt(script, total, errnoAgain);
      if n > 0 {
        assert recvBuffer[total + n..] == behind[n..] == Zeros(BUFFER_SIZE - total - n);
        assert recvBuffer[..total + n] == recvBuffer[..total] + recvBuffer[total..total + n];
      }
    }

    /** The accumulating loop. `again` is errno after a last result of -1, nothing after a 0. */
    method ReceiveAll(script: seq<Recv>, staleAgain: bool, ghost whole: Gathered)
      returns (total: nat, again: Option<bool>)
      requires Valid() && Accounted(recvBuffer[..], 0, true, script, whole)
      modifies recvBuffer
      ensures total == |whole.data| && recvBuffer[..] == whole.data + Zeros(BUFFER_SIZE - total)
      ensures again.None? ==> whole.ending == Closed
      ensures again.Some? ==> EndsWith(whole.ending, again.value, staleAgain)
    {
      hide Gather, Zeros;
      total := 0;
      var n, errnoAgain, rest := NextRecv(script, 0, staleAgain, whole);
      while n > 0
        invariant total + Gain(n) <= ROOM
        invariant Accounted(recvBuffer[..], total + Gain(n), n > 0, rest, whole)
        invariant n >= 0 ==> errnoAgain == staleAgain
        invariant n == 0 ==> whole.ending == Closed
        invariant n < 0 ==> EndsWith(whole.ending, errnoAgain, staleAgain)
        decreases ROOM - total, n
      {
        total := total + n;
        if total >= ROOM {
          AccountedFull(recvBuffer[..], rest, whole);
          n := -1;
          continue;
        }
        n, errnoAgain, rest := NextRecv(rest, total, errnoAgain, whole);
      }
      again := if n == 0 then None else Some(errnoAgain);
      AccountedLast(recvBuffer[..], total, rest, whole);
    }

    /** `clientReceive`: on success the buffer holds the received bytes and NULs behind them. */
    method Receive(kernel: Kernel, script: seq<Recv>, staleAgain: bool) returns (rc: int)
      requires Valid()
      modifies this, recvBuffer, kernel
      ensures rc == if Received(script, staleAgain).Some? then SUCCESS else RECEIVE_FAILED
      ensures rc == SUCCESS ==>
                && kernel.open == old(kernel.open) && sockfd == old(sockfd)
                && var data := Received(script, staleAgain).value;
                   recvBuffer[..] == data + Zeros(BUFFER_SIZE - |data|)
      ensures rc != SUCCESS ==>
                kernel.open == old(kernel.open) - {old(sockfd)} && (sockfd == old(sockfd) || sockfd == -1)
      ensures useSSL == old(useSSL)
    {
      ClearBuffer();
      AccountedFirst(recvBuffer[..], script);
      var total, again := ReceiveAll(script, staleAgain, Gather(script, ROOM));
      if again.Some? && !again.value {
        kernel.Close(sockfd);
        return RECEIVE_FAILED;
      }
      if total == 0 {
        kernel.Close(sockfd);
        sockfd, bio := -1, false;
        return RECEIVE_FAILED;
      }
      recvBuffer[total] := NUL;
      rc := SUCCESS;
    }

    /** `clientSend`: `wire` is what left this end, a prefix of the buffer. */
    method Send(kernel: Kernel, sendBuffer: seq<char>, script: seq<Send>) returns (rc: int, wire: seq<char>)
      modifies this, kernel
      ensures rc == if Breaks(script, |sendBuffer|) then SEND_FAILED else SUCCESS
      ensures wire == sendBuffer[..Min(Takes(script), |sendBuffer|)]
      ensures rc == SUCCESS ==> kernel.open == old(kernel.open) && sockfd == old(sockfd)
      ensures rc != SUCCESS ==> kernel.open == old(kernel.open) - {old(sockfd)} && sockfd == -1
      ensures useSSL == old(useSSL)
    {
      hide Taking, Takes, Breaks;
      TakingIs(script, |sendBuffer|);
      ghost var whole := Taking(script, |sendBuffer|);
      var total := 0;
      var n, again, rest := SendFrom(script, |sendBuffer|);
      wire := sendBuffer[..if n > 0 then n else 0];
      while n > 0
        invariant 0 <= total <= total + (if n > 0 then n else 0) <= |sendBuffer|
        invariant wire == sendBuffer[..total + if n > 0 then n else 0]
        invariant n > 0 ==> whole == Outgoing(total + n + Taking(rest, |sendBuffer| - total - n).bytes,
                                               Taking(rest, |sendBuffer| - total - n).failed)
        invariant n <= 0 ==> whole == Outgoing(total, n < 0 && !again)
        modifies {}
        decreases |sendBuffer| - total, n
      {
        total := total + n;
        n, again, rest := SendFrom(rest, |sendBuffer| - total);
        if n > 0 {
          assert sendBuffer[..total + n] == sendBuffer[..total] + sendBuffer[total..total + n];
          wire := wire + sendBuffer[total..total + n];
        }
      }
      if n < 0 && !again {
        kernel.Close(sockfd);
        sockfd, bio := -1, false;
        return SEND_FAILED, wire;
      }
      rc := SUCCESS;
    }

    /** `clientClear`: close the connection if there is one, and forget all about it. */
    method Clear(kernel: Kernel)
      requires Valid()
      modifies this, recvBuffer, kernel
      ensures kernel.open == if old(sockfd) > 0 then old(kernel.open) - {old(sockfd)} else old(kernel.open)
      ensures sockfd == if old(sockfd) > 0 then -1 else old(sockfd)
      ensures bio == (old(sockfd) <= 0 && old(bio)) && useSSL == 0
      ensures recvBuffer[..] == Zeros(BUFFER_SIZE)
    {
      if sockfd > 0 {
        kernel.Close(sockfd);
        bio := false;
        sockfd := -1;
      }
      useSSL := 0;
      ClearBuffer();
    }
  }

  // ---- receiving does not depend on how the bytes were cut ----

  function Payload(script: seq<Recv>): string {
    if script == [] || !script[0].Bytes? || script[0].data == "" then ""
    else script[0].data + Payload(script[1..])
  }

  function Stop(script: seq<Recv>): (e: Ending)
    ensures e != Full
  {
    if script == [] then Again
    else match script[0]
      case RecvAgain => Again
      case RecvFailed => Failed
      case Bytes(data) => if data == "" then Closed else Stop(script[1..])
  }

  /** The buffer holds the first bytes of the stream, as many as fit. */
  lemma {:induction false} GatherIsPrefix(script: seq<Recv>, room: nat)
    ensures Gather(script, room) ==
              if |Payload(script)| < room then Gathered(Payload(script), Stop(script))
              else Gathered(Payload(script)[..room], Full)
    decreases |script|
  {
    if room > 0 && script != [] && script[0].Bytes? && script[0].data != "" {
      var data := script[0].data;
      var taken := data[..Min(|data|, room)];
      GatherIsPrefix(script[1..], room - |taken|);
      if |data| >= room {
        assert Payload(script)[..room] == taken + "";
      } else if |Payload(script)| < room {
        assert taken == data;
      } else {
        assert taken == data;
        assert Payload(script)[..room] == data + Payload(script[1..])[..room - |data|];
      }
    }
  }

  /** Chunking independence: however the peer's bytes arrive in pieces, and whether the stream then
      ends or blocks, fewer than 4095 of them are received exactly. */
  lemma {:induction false} ChunkingIndependence(script: seq<Recv>, staleAgain: bool)
    requires |Payload(script)| < 4095
    ensures Received(script, staleAgain) ==
              if Stop(script) == Failed || Payload(script) == "" then None else Some(Payload(script))
  {
    GatherIsPrefix(script, ROOM);
  }

  /** Beyond that, the first 4095 bytes are kept, and errno's old value decides about success. */
  lemma {:induction false} OverlongMessage(script: seq<Recv>, staleAgain: bool)
    requires |Payload(script)| >= 4095
    ensures Received(script, staleAgain) == if staleAgain then Some(Payload(script)[..4095]) else None
  {
    GatherIsPrefix(script, ROOM);
  }

  /** The text of a message in the buffer ends at the message's own first NUL. */
  lemma BufferText(data: string)
    requires |data| <= ROOM
    ensures var buffer := data + Zeros(BUFFER_SIZE - |data|);
            && Next(buffer, 0, NUL) < BUFFER_SIZE
            && Text(buffer) == Text(data)
            && (Without(data, NUL) ==> Text(data) == data)
  {
    var buffer, e := data + Zeros(BUFFER_SIZE - |data|), Next(data, 0, NUL);
    NextIs(buffer, 0, NUL, e);
    assert buffer[0..e] == data[0..e];
    if Without(data, NUL) { assert e == |data| && data[0..e] == data; }
  }
}
